/** The card page's session: the three module-level variables
    `currentContent`, `currentCardIndex` and `generatedCards`
    (js/main.js:19-21) together with the few observable control states
    (whether the generate and download buttons are enabled, which carousel
    button carries the `active` class), and one pure transition per user
    action. The effective definitions are the later ones in the file
    (js/main.js:270-432): a classic script's later function declaration
    replaces the earlier one of the same name. */
module CardSession {
  import opened Results
  import opened JsStrings
  import opened Sentences
  import opened Cards

  /** `currentContent.length < 10` disables generation (js/main.js:271, 278). */
  const MinContentLength: nat := 10

  datatype Session = Session(
    content: JsString,         // currentContent
    cards: seq<Card>,          // generatedCards
    index: int,                // currentCardIndex
    generateEnabled: bool,     // !generateBtn.disabled
    downloadEnabled: bool,     // !downloadBtn.disabled
    navActive: seq<bool>)      // the `active` class of each carousel nav button

  /** What every session reachable through the handlers satisfies: the
      gallery is empty with index 0, or it holds one batch of cards, the
      index selects one of them, and the nav buttons mark exactly that
      index. */
  predicate Wf(s: Session) {
    && (s.cards == [] ==> s.index == 0)
    && (s.cards != [] ==>
          && |s.cards| == |BatchStyles|
          && 0 <= s.index < |s.cards|
          && forall k :: 0 <= k < |s.navActive| ==> (s.navActive[k] <==> k == s.index))
  }

  /** The generate button is enabled exactly when the content passes the
      length gate. */
  predicate ButtonMatchesContent(s: Session) {
    s.generateEnabled <==> |s.content| >= MinContentLength
  }

  /** `updateGenerateButtonState` (js/main.js:270-272). */
  function UpdateGenerateButtonState(s: Session): (r: Session)
    ensures ButtonMatchesContent(r)
    ensures r == s.(generateEnabled := r.generateEnabled)
  {
    s.(generateEnabled := |s.content| >= MinContentLength)
  }

  /** The page once `DOMContentLoaded` has run (js/main.js:19-21, 53): no
      content, no cards, index 0, generate disabled. The nav buttons'
      initial classes come from the page markup and are a parameter. */
  function Init(nav: seq<bool>): (s: Session)
    ensures s.content == [] && s.cards == [] && s.index == 0 && s.navActive == nav
    ensures !s.generateEnabled
    ensures Wf(s) && ButtonMatchesContent(s)
  {
    UpdateGenerateButtonState(Session([], [], 0, true, true, nav))
  }

  // ---------------------------------------------------------------------
  // Input acquisition
  // ---------------------------------------------------------------------

  /** `handleTextInput` (js/main.js:59-62): the text box's value, trimmed,
      becomes the content, and the generate button follows it. */
  function HandleTextInput(s: Session, value: JsString): (r: Session)
    ensures r.content == Trim(value) && IsTrimmed(r.content)
    ensures r.generateEnabled <==> |Trim(value)| >= MinContentLength
    ensures r == s.(content := r.content, generateEnabled := r.generateEnabled)
    ensures Wf(s) ==> Wf(r)
  {
    UpdateGenerateButtonState(s.(content := Trim(value)))
  }

  /** How `handleFileUpload` treats a file, by its declared media type. */
  datatype MediaKind = PlainText | Document | Unsupported

  /** The declared media type is only ever compared for equality with
      these three ASCII literals, so it is kept as a Dafny string. */
  const TextPlainType: string := "text/plain"
  const PdfType: string := "application/pdf"
  const DocxType: string :=
    "application/vnd.openxmlformats-officedocument.wordprocessingml.document"

  /** The branch `handleFileUpload` takes (js/main.js:76, 81-82, 102). */
  function KindOf(mediaType: string): (k: MediaKind)
    ensures k == PlainText <==> mediaType == TextPlainType
    ensures k == Document <==> mediaType != TextPlainType && (mediaType == PdfType || mediaType == DocxType)
  {
    if mediaType == TextPlainType then PlainText
    else if mediaType == PdfType || mediaType == DocxType then Document
    else Unsupported
  }

  /** A selected file: its declared media type and the outcome of getting
      its text, which is the `FileReader` read for plain text and the
      parse service's reply for documents. */
  datatype Upload = Upload(mediaType: string, text: Result<JsString>)

  datatype UploadOutcome = NoFile | Loaded | ReadFailed | ParseFailed | UnsupportedFormat

  /** `handleFileUpload` (js/main.js:67-112). Nothing is read from the
      session before the awaited read or parse, so the handler is one
      step. Plain text and parsed text are stored untrimmed. A failed parse
      is caught inside (js/main.js:98-101) and the button state is still
      recomputed; a failed plain-text read escapes to the outer handler
      (js/main.js:108-111) and skips the recomputation, as does an
      unsupported type (js/main.js:102-104). */
  function HandleFileUpload(s: Session, file: Option<Upload>): (r: (Session, UploadOutcome))
    ensures file.None? ==> r == (s, NoFile)
    ensures r.1 == Loaded <==>
      file.Some? && KindOf(file.value.mediaType) != Unsupported && file.value.text.Success?
    ensures r.1 == Loaded ==>
      && r.0.content == file.value.text.value
      && r.0 == UpdateGenerateButtonState(s.(content := r.0.content))
    ensures r.1 == UnsupportedFormat <==> file.Some? && KindOf(file.value.mediaType) == Unsupported
    ensures r.1 == ReadFailed <==>
      file.Some? && KindOf(file.value.mediaType) == PlainText && file.value.text.Failure?
    ensures r.1 == ParseFailed <==>
      file.Some? && KindOf(file.value.mediaType) == Document && file.value.text.Failure?
    ensures r.1 == UnsupportedFormat || r.1 == ReadFailed ==> r.0 == s
    ensures r.1 == ParseFailed ==> r.0.content == s.content && r.0 == UpdateGenerateButtonState(s)
    ensures Wf(s) ==> Wf(r.0)
    ensures ButtonMatchesContent(s) ==> ButtonMatchesContent(r.0)
  {
    match file
    case None => (s, NoFile)
    case Some(f) =>
      match KindOf(f.mediaType)
      case PlainText =>
        if f.text.Success? then (UpdateGenerateButtonState(s.(content := f.text.value)), Loaded)
        else (s, ReadFailed)
      case Document =>
        if f.text.Success? then (UpdateGenerateButtonState(s.(content := f.text.value)), Loaded)
        else (UpdateGenerateButtonState(s), ParseFailed)
      case Unsupported => (s, UnsupportedFormat)
  }

  // ---------------------------------------------------------------------
  // Gallery selection
  // ---------------------------------------------------------------------

  /** `showCard(index)` (js/main.js:363-380): an index outside the gallery
      is ignored; otherwise it becomes the current index and every nav
      button is marked active exactly when its position is that index. */
  function ShowCard(s: Session, i: int): (r: Session)
    ensures i < 0 || i >= |s.cards| ==> r == s
    ensures 0 <= i < |s.cards| ==>
      && r.index == i
      && |r.navActive| == |s.navActive|
      && (forall k :: 0 <= k < |r.navActive| ==> (r.navActive[k] <==> k == i))
      && r == s.(index := i, navActive := r.navActive)
    ensures Wf(s) ==> Wf(r)
  {
    if i < 0 || i >= |s.cards| then s
    else s.(index := i, navActive := seq(|s.navActive|, k => k == i))
  }

  /** Selecting the same card twice is selecting it once. */
  lemma ShowCardIdempotent(s: Session, i: int)
    ensures ShowCard(ShowCard(s, i), i) == ShowCard(s, i)
  {
  }

  /** The number of nav buttons marked active. */
  function CountActive(nav: seq<bool>): nat {
    if nav == [] then 0 else (if nav[0] then 1 else 0) + CountActive(nav[1..])
  }

  /** Marking by "position equals index" marks exactly one button when the
      index names a button and none otherwise. */
  lemma {:induction false} OnlyOneActive(nav: seq<bool>, i: int)
    requires forall k :: 0 <= k < |nav| ==> (nav[k] <==> k == i)
    ensures CountActive(nav) == (if 0 <= i < |nav| then 1 else 0)
  {
    if nav != [] {
      OnlyOneActive(nav[1..], i - 1);
    }
  }

  /** After a successful selection, exactly one nav button is active when
      there is a button for the selected card (and none when the page has
      fewer buttons than cards). */
  lemma ShowCardMarksOne(s: Session, i: int)
    requires 0 <= i < |s.cards|
    ensures CountActive(ShowCard(s, i).navActive) == (if i < |s.navActive| then 1 else 0)
  {
    OnlyOneActive(ShowCard(s, i).navActive, i);
  }

  // ---------------------------------------------------------------------
  // Generation
  // ---------------------------------------------------------------------

  datatype GenerateOutcome = Skipped | Generated | Failed

  /** `generateCards` up to its `await` (js/main.js:277-287): content shorter
      than the gate makes it return at once; otherwise the generate button
      is disabled and the simulated service call begins. Nothing else is
      checked: there is no guard against a generation already in flight. */
  function GenerateStart(s: Session): (r: (Session, bool))
    ensures r.1 <==> |s.content| >= MinContentLength
    ensures !r.1 ==> r.0 == s
    ensures r.1 ==> !r.0.generateEnabled && r.0 == s.(generateEnabled := false)
  {
    if |s.content| < MinContentLength then (s, false)
    else (s.(generateEnabled := false), true)
  }

  /** `generateCards` after the simulated call resolves (it never rejects;
      js/main.js:288-311). The batch is built from the content as it is
      NOW, not as it was at the start. On success the batch replaces the
      gallery and card 0 is shown; if building throws, the gallery and
      index stay as they were. Either way the `finally` block re-enables
      the generate button, whatever the content's length. */
  function GenerateResume(s: Session): (r: (Session, GenerateOutcome))
    ensures r.1 != Skipped
    ensures r.0.generateEnabled && r.0.content == s.content && r.0.downloadEnabled == s.downloadEnabled
    ensures r.1 == Failed <==> OnlySpaceAndDelimiters(s.content)
    ensures r.1 == Failed ==> r.0 == s.(generateEnabled := true)
    ensures r.1 == Generated ==>
      && r.0.cards == BuildBatch(s.content).value
      && |r.0.cards| == |BatchStyles|
      && r.0.index == 0
      && |r.0.navActive| == |s.navActive|
      && (forall k :: 0 <= k < |r.0.navActive| ==> (r.0.navActive[k] <==> k == 0))
    ensures |r.0.navActive| == |s.navActive|
    ensures Wf(s) ==> Wf(r.0)
  {
    match BuildBatch(s.content)
    case Failure => (s.(generateEnabled := true), Failed)
    case Success(batch) => (ShowCard(s.(cards := batch), 0).(generateEnabled := true), Generated)
  }

  /** `generateCards` run to completion, with no other handler running
      during its wait. */
  function Generate(s: Session): (r: (Session, GenerateOutcome))
    ensures |s.content| < MinContentLength ==> r == (s, Skipped)
    ensures |s.content| >= MinContentLength ==> r.1 != Skipped && r.0.generateEnabled
    ensures r.0.content == s.content
    ensures r.1 == Failed ==> r.0 == s.(generateEnabled := true)
    ensures r.1 == Generated ==>
      && |r.0.cards| == |BatchStyles|
      && (forall i :: 0 <= i < |r.0.cards| ==>
            r.0.cards[i].style == BatchStyles[i] && WellFormedCard(r.0.cards[i]))
      && r.0.index == 0
    ensures Wf(s) ==> Wf(r.0)
    ensures ButtonMatchesContent(s) ==> ButtonMatchesContent(r.0)
  {
    var (started, go) := GenerateStart(s);
    if go then GenerateResume(started) else (s, Skipped)
  }

  /** Content of at least ten code units yields cards unless it consists of
      whitespace and delimiters only, e.g. ten full stops: then
      `sentences[0].trim()` throws and nothing changes but the button. */
  lemma GenerateFailsIff(s: Session)
    ensures Generate(s).1 == Failed <==>
      && |s.content| >= MinContentLength
      && OnlySpaceAndDelimiters(s.content)
  {
  }

  /** A new batch replaces the gallery wholesale: what a generation leaves
      in the gallery depends on the content alone, never on the cards or
      the selection it replaces. */
  lemma GenerateReplacesWholesale(s: Session, t: Session)
    requires s.content == t.content && |s.navActive| == |t.navActive|
    requires Generate(s).1 == Generated
    ensures Generate(t).1 == Generated
    ensures Generate(t).0.cards == Generate(s).0.cards
    ensures Generate(t).0.index == Generate(s).0.index
    ensures Generate(t).0.navActive == Generate(s).0.navActive
  {
  }

  /** `regenerateCards` (js/main.js:385-387) starts `generateCards` without
      waiting for it. */
  function Regenerate(s: Session): (r: (Session, bool))
    ensures r.1 <==> |s.content| >= MinContentLength
    ensures r.1 ==> r.0 == s.(generateEnabled := false)
    ensures !r.1 ==> r.0 == s
  {
    GenerateStart(s)
  }

  /** The regenerate button is never disabled and `generateCards` has no
      in-flight guard, so regenerating while a generation waits starts a
      second one. */
  lemma RegenerateDuringGeneration(s: Session)
    requires |s.content| >= MinContentLength
    ensures var (busy, _) := GenerateStart(s);
      !busy.generateEnabled && Regenerate(busy).1
  {
  }

  /** The generate button can end up enabled with short content: clear the
      text box while a generation waits, and the `finally` block enables the
      button anyway. Clicking it then does nothing, because of the gate. */
  lemma ButtonOutOfStepAfterInterleaving(s: Session)
    requires |s.content| >= MinContentLength
    ensures var (busy, _) := GenerateStart(s);
      var cleared := HandleTextInput(busy, []);
      var (after, outcome) := GenerateResume(cleared);
      && outcome == Failed
      && after.content == []
      && after.generateEnabled
      && !ButtonMatchesContent(after)
      && Generate(after) == (after, Skipped)
  {
    var (busy, _) := GenerateStart(s);
    var cleared := HandleTextInput(busy, []);
    assert Trim([]) == [];
  }
}
