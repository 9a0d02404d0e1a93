# Text-to-card page: session model

The page turns a piece of text into three "concept cards", one per visual
style. The user types or uploads text, generates the cards, flips between
them with the carousel buttons and downloads the selected card as a PNG.
All of this is driven by the handlers in `js/main.js` and three
module-level variables: the current content, the generated cards and the
current card index.

This project models that session logic in Dafny:

- `results.dfy`: the `Option` and `Result` types.
- `js_strings.dfy`: JavaScript strings as sequences of UTF-16 code units.
  `String.prototype.trim` is defined, given a reference definition and
  proved unique, idempotent and a fixpoint exactly on trimmed strings.
  Decimal printing of the card ordinal is proved to invert a parser.
- `sentences.dfy`: `content.split(/[.!?。！？]/)` is defined, and splitting
  and re-joining with the delimiters are proved to be inverses. The filter
  that drops blank pieces is proved to distribute over concatenation.
  Content yields no sentence exactly when it consists only of whitespace
  and delimiters.
- `cards.dfy`: the text a card shows (`generateCardHTML`, reduced to title,
  key points and style) and the batch of three cards.
- `session.dfy`: the immutable `Session` record and one pure transition per
  handler. These are `handleTextInput`, `handleFileUpload`,
  `updateGenerateButtonState`, `generateCards`, `showCard` and
  `regenerateCards`. A well-formedness invariant `Wf` is preserved by every
  transition.
- `export.dfy`: `downloadCurrentCard`, covering its index guard, the file
  name, the button restoration and the temporary element's first child.
- `scenarios.dfy`: concrete runs from a fresh page.

## Modelling decisions

- **Effective code.** The file declares `updateGenerateButtonState`,
  `generateCards`, `showCard`, `regenerateCards` and `downloadCurrentCard`
  twice. In a classic script the later function declaration wins, so the
  model follows the definitions at js/main.js:270-432.
- **Suspension points.** `generateCards` and `downloadCurrentCard` read the
  session again after their `await`. Each is split into a start step and a
  resume step (`GenerateStart`/`GenerateResume`, `BeginExport`/`FinishExport`),
  so other handlers can run in between. `Generate` and `Download` are the
  run-to-completion compositions. `handleFileUpload` reads nothing from the
  session before its `await`, so it is one step.
- **Code units, not characters.** Strings are `seq<CodeUnit>`, where a code
  unit is a UTF-16 value. JavaScript's `length`, `split` and `trim` all work
  on code units, and the full-width delimiters `。！？` are single code units.
- **Whitespace.** The whitespace that `trim` removes is the ECMAScript
  WhiteSpace and LineTerminator set, enumerated on code units. The general
  lemmas about trimming, splitting and extraction hold for any set. The
  concrete runs in `scenarios.dfy` depend on it: the space is whitespace,
  and letters and `.` are not.
- **Behaviours of the code worth knowing:**
  - There is no generation phase or in-flight guard. A second generation
    can start while one waits (`RegenerateDuringGeneration`).
  - Uploaded plain text and parsed documents are stored untrimmed.
    Only typed text is trimmed.
  - Exporting with an empty gallery is a silent no-op. No error is
    reported.
  - The temporary export element is removed only on the success path.
  - A generation can fail only through the exception thrown by
    `sentences[0].trim()` when the content has no sentence. The simulated
    service call always resolves.

## Model

| member | source | states |
|---|---|---|
| JsStrings.IsWhiteSpace | js/main.js:60 | No contract: the code units `trim` removes, the ECMAScript WhiteSpace and LineTerminator set. Used by `Trim`, `IsBlank` and `OnlySpaceAndDelimiters` |
| JsStrings.Trim | js/main.js:60 | The trimmed string is empty exactly when the input is all whitespace; otherwise it neither starts nor ends with whitespace, and it is never longer than the input |
| JsStrings.TrimMeetsDefinition | js/main.js:60 | `Trim(s)` is a contiguous slice of `s` with only whitespace cut off on either side and no whitespace at its ends (the reference definition `IsTrimOf`) |
| JsStrings.TrimDefinitionUnique | js/main.js:60 | At most one string meets the reference definition of trimming a given string, so `Trim` is the only function that does |
| JsStrings.TrimmedIsFixpoint | js/main.js:60 | A string is left unchanged by trimming exactly when it has no leading or trailing whitespace |
| JsStrings.TrimIdempotent | js/main.js:60 | Trimming twice is the same as trimming once, for every string |
| JsStrings.Decimal | js/main.js:421 | The decimal form of a natural number is a non-empty run of ASCII digits, with a leading zero exactly for zero |
| JsStrings.DecimalRoundTrip | js/main.js:421 | Reading back the digits printed for `n` gives `n` |
| JsStrings.DecimalOfValue | js/main.js:421 | A digit string without a superfluous leading zero is the printed form of its own value |
| JsStrings.IntToString | js/main.js:421 | The text of `currentCardIndex + 1` in the template literal: digits with no superfluous leading zero for a non-negative number, and a minus sign before such digits for a negative one |
| JsStrings.IntToStringRoundTrip | js/main.js:421 | Parsing the printed form of any integer gives that integer back |
| JsStrings.ParseIntegerCanonical | js/main.js:421 | Whatever the parser accepts is exactly the printed form of the integer it yields |
| Sentences.IsDelimiter | js/main.js:329 | No contract: the character class of the split pattern, `. ! ?` and the full-width `。 ！ ？`. Used by `FirstDelimiter`, `Split`, `NoDelimiter` and `OnlySpaceAndDelimiters` |
| Sentences.FirstDelimiter | js/main.js:329 | The first cut position of the split pattern: no delimiter before it, and a delimiter at it unless it is the end |
| Sentences.Split | js/main.js:329 | Splitting yields at least one piece, and no piece contains a delimiter |
| Sentences.JoinSplit | js/main.js:329 | The pieces, glued back with the delimiters that separated them, give the original content; there is one more piece than delimiters |
| Sentences.SplitJoin | js/main.js:329 | Splitting delimiter-free pieces glued with delimiters recovers exactly those pieces and delimiters |
| Sentences.NonBlank | js/main.js:329 | The filter keeps only non-blank pieces, all taken from its input, and yields nothing exactly when every piece is blank |
| Sentences.NonBlankAppend | js/main.js:329 | Filtering distributes over concatenation, so the kept pieces stay in source order |
| Sentences.SentencesOf | js/main.js:329 | The split followed by the blank filter: every sentence is non-blank and delimiter-free, and there is none exactly when every piece of the split is blank |
| Sentences.NoSentencesIff | js/main.js:329-330 | Content yields no sentence exactly when every code unit of it is whitespace or a delimiter |
| Sentences.BlankPiecesIff | js/main.js:329 | Every piece of the split is blank exactly when the content has only whitespace and delimiters |
| Cards.TrimAll | js/main.js:333 | `.map(s => s.trim())`: element `i` is the trim of input `i`; each is trimmed, never longer than its input, and empty exactly where the input was blank |
| Cards.KeyPointCount | js/main.js:333 | How many sentences after the title `slice(1, 5)` takes: all that are available, clamped to four |
| Cards.KeyPointsOf | js/main.js:333 | At most four key points, fewer than the sentences, each non-empty and trimmed, and delimiter-free when the sentences are |
| Cards.DropEmpty | js/main.js:333 | The emptiness filter keeps only non-empty strings from its input and removes nothing when all are non-empty |
| Cards.KeyPointsWellFormed | js/main.js:333 | Key points taken from delimiter-free pieces are non-empty, trimmed and delimiter-free |
| Cards.SentencesNoDelimiter | js/main.js:329 | No sentence contains a delimiter |
| Cards.ExtractText | js/main.js:327-333 | Extraction throws exactly when the content has only whitespace and delimiters; otherwise the title is non-empty, trimmed and delimiter-free and there are at most four key points with the same properties |
| Cards.CardFor | js/main.js:327-333 | A card of the requested style with well-formed text, failing exactly when the content holds no sentence |
| Cards.SentencesAfterBlankPrefix | js/main.js:329 | Blank pieces before the first non-blank one contribute no sentence; the sentences are that piece followed by the non-blank pieces after it |
| Cards.KeyPointsAfterTitle | js/main.js:333 | The key points are the trims of the sentences after the title, at most four, and the emptiness filter removes none of them |
| Cards.ExtractionFromSegments | js/main.js:329-333 | The title is the trimmed first non-blank piece, and the key points are the trims of the next non-blank pieces, at most four, in source order |
| Cards.BuildBatch | js/main.js:290-294 | The batch fails exactly when the content holds no sentence; otherwise it holds three well-formed cards in the order minimal, dark, colour, each the card `generateCardHTML` gives for its style, all with the same title and key points |
| CardSession.UpdateGenerateButtonState | js/main.js:270-272 | Afterwards the generate button is enabled exactly when the content has at least ten code units; nothing else changes |
| CardSession.Init | js/main.js:19-53 | A fresh page has no content, no cards and index 0, with the generate button disabled; it is well formed |
| CardSession.HandleTextInput | js/main.js:59-62 | The content becomes the trimmed text and the button follows the trimmed length; cards, index and nav are untouched and `Wf` is kept |
| CardSession.KindOf | js/main.js:76-102 | Plain text exactly for `text/plain`; a document exactly for the PDF and DOCX media types; anything else is unsupported |
| CardSession.HandleFileUpload | js/main.js:67-112 | The text is loaded, untrimmed, exactly when the type is supported and the read or parse succeeds. An unsupported type or a failed read leaves the session unchanged. A failed parse keeps the content but recomputes the button. `Wf` and the button/content agreement are kept |
| CardSession.ShowCard | js/main.js:363-380 | An index outside the gallery changes nothing; otherwise it becomes the index, each nav button is active exactly at that position, and nothing else changes |
| CardSession.ShowCardIdempotent | js/main.js:363-380 | Selecting the same card twice is the same as selecting it once |
| CardSession.OnlyOneActive | js/main.js:373-379 | Marking nav buttons by "position equals index" activates exactly one button when the index names one, and none otherwise |
| CardSession.ShowCardMarksOne | js/main.js:367-379 | After a successful selection exactly one nav button is active, provided there is a button for that card |
| CardSession.GenerateStart | js/main.js:277-287 | Content shorter than ten code units returns with the session unchanged; otherwise only the generate button is disabled and the wait begins |
| CardSession.GenerateResume | js/main.js:288-311 | The button is always re-enabled. It fails exactly when the content holds no sentence, and then changes nothing else. On success the gallery is the batch built from the content at resumption, card 0 is selected and marked, and `Wf` is kept |
| CardSession.Generate | js/main.js:277-311 | Short content is a no-op. Otherwise the button ends enabled, and on success there are three well-formed cards in style order with index 0. `Wf` and the button/content agreement are kept |
| CardSession.GenerateFailsIff | js/main.js:290-310 | A full generation fails exactly when the content passes the length gate but consists only of whitespace and delimiters |
| CardSession.GenerateReplacesWholesale | js/main.js:290-300 | What a successful generation leaves in the gallery, selection and nav depends only on the content, never on the previous batch |
| CardSession.Regenerate | js/main.js:385-387 | Regenerating is starting a generation: the same gate and the same disabled button |
| CardSession.RegenerateDuringGeneration | js/main.js:385-387 | While a generation waits, regenerating starts a second one: there is no in-flight guard |
| CardSession.ButtonOutOfStepAfterInterleaving | js/main.js:304-310 | Clearing the text during the wait leaves the generate button enabled with empty content; clicking it then does nothing |
| CardExport.FileName | js/main.js:421 | The download name starts with `概念卡片_` and ends with `.png`. It carries the 1-based ordinal `index + 1`, and for any card of the gallery the part between is plain digits |
| CardExport.FileNameOrdinal | js/main.js:421 | The download name of card `index` carries the 1-based ordinal `index + 1` |
| CardExport.OrdinalNamesFile | js/main.js:421 | Every name that carries an ordinal is the download name of exactly that card |
| CardExport.FileNameInjective | js/main.js:421 | Different cards are saved under different names |
| CardExport.FirstChild | js/main.js:403 | `firstChild` is missing exactly for an empty container, and it can be sized exactly when the container's first node is an element |
| CardExport.FirstElementChild | js/main.js:402-403 | An element child is found exactly when the container holds an element |
| CardExport.BeginExport | js/main.js:392-408 | An index outside the gallery returns at once with nothing changed. An unsizable target fails with the button restored. Otherwise the button is disabled and the selected card is rasterised |
| CardExport.FinishExport | js/main.js:416-431 | The button is restored on both paths; on success the file is named from the index at resumption and holds the card captured at the start |
| CardExport.RunExport | js/main.js:392-432 | Out of range nothing happens. In range the button is restored on every path, and a file is saved exactly when the target can be sized and the rasteriser succeeds, under the current index's name and with the selected card |
| CardExport.DownloadAsWritten | js/main.js:401-405 | As written, no download ever saves a file: sizing the container's first child, a text node, throws, and every in-range attempt ends in failure with the button restored |
| CardExport.Download | js/main.js:392-432 | Out of range it does nothing. In range the button is restored, and a successful rasterisation saves the selected card under the name carrying its ordinal; a failed one reports failure |
| CardExport.NothingToExportOnFreshPage | js/main.js:393 | On a fresh page downloading does nothing, both as written and as intended |
| CardExport.DownloadKeepsSession | js/main.js:392-432 | Downloading changes nothing but the download button, so it keeps `Wf` |
| CardExport.SelectionDuringExport | js/main.js:402-421 | Selecting another card while rasterising names the file after the new selection but saves the image of the card selected at the start |
| CardScenarios.ShortInput | js/main.js:59-62 | Typing "hi" leaves the generate button disabled, and generating does nothing |
| CardScenarios.TenFullStops | js/main.js:277-310 | Ten full stops pass the gate, but generation fails with an empty gallery and the button enabled again |
| CardScenarios.GenerateFromPieces | js/main.js:290-333 | Content whose first piece is non-blank gives three cards titled by that piece, with key points from the pieces after it |
| CardScenarios.TwoSentences | js/main.js:290-333 | "Proofs scale. Cards help!" gives three cards titled "Proofs scale" with the single key point "Cards help", and the first card is shown |

## Left out

- DOM work is not modelled. This covers element lookups, `innerHTML`, class
  toggles other than the nav `active` marker, the spinner, `scrollIntoView`,
  the file-name label and writing uploaded text back into the text box.
  None of it affects the session variables.
- The card template's markup beyond title, key points and style is left out
  (js/main.js:336-357). It is fixed text. The only place it matters is the
  export: the leading line break makes the first child a text node, and the
  card's `div` is the first element. `CardMarkupNodes` keeps those two facts.
- Markup inside the content is left out. The title and key points are
  inserted unescaped (js/main.js:338, 343), so markup in them can add
  top-level nodes after the card's `div`. It cannot change the two facts
  the export depends on, because the leading line break comes first.
- I/O and timers are abstract inputs. The `FileReader` read, the
  `/api/parse-file` request and the JSON reply are one `Result` per upload.
  `simulateApiCall` always resolves, so it is just the suspension point.
  `html2canvas` and `toDataURL` are a success flag. The image bytes and the
  link click are not modelled.
- The earlier duplicate definitions (js/main.js:129-265) are left out,
  including the unused `generateCardsWithClaude` path (js/main.js:170-223).
  Later declarations replace them, so they never run.
- Alerts and console messages are represented only by the outcome values
  (`ReadFailed`, `ParseFailed`, `UnsupportedFormat`, `Failed`, `ExportFailed`).
- A `NaN` index from `parseInt` on a nav button's `data-index` is left out.
  The index is an `int`.
- A parse reply whose `content` is not a string is left out. The reply's
  text is a `JsString` or a failure.
- Removing the temporary export element is left out (js/main.js:404, 417).
  It is DOM-only and happens only on the success path.
- The number of nav buttons and their initial `active` classes come from the
  page markup. They are a parameter of `Init`.
- `Init` assumes the download button starts enabled. Its initial state is
  page markup.
- `Utf16` (turning Dafny literals into code units) only takes literals in the
  Basic Multilingual Plane. Every literal the model needs is one.
- CardExport.FileName: the digits are promised only for a non-negative
  index, the only kind the guard at js/main.js:393 lets through. JavaScript's
  exponent notation from 1e21 upward is left out, because an index is below 3.
- CardSession.KindOf: the media type is compared as a plain string. The
  browser's normalisation of the reported type is not modelled.

## Findings

| source | as written | input that shows it | evidently intended | confidence | as-written member | corrected member |
|---|---|---|---|---|---|---|
| js/main.js:401-405 | `tempCard.firstChild.style.width = '1080px'`, but the card markup (js/main.js:336-337) starts with a line break and indentation, so `firstChild` is a text node whose `style` is undefined and the assignment throws | generate cards from any text with a sentence, then press download: the failure alert appears and no file is saved | size and rasterise the card element, `tempCard.firstElementChild`, and save it as `概念卡片_<n>.png` | high; not executed | CardExport.DownloadAsWritten | CardExport.Download |
