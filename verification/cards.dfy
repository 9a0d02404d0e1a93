/** The content of one generated card: what `generateCardHTML` takes from
    the session's content before it is written into the card template
    (js/main.js:327-333). */
module Cards {
  import opened Results
  import opened JsStrings
  import opened Sentences

  /** The three card styles, in the order one batch generates them
      (js/main.js:291-293): minimal on white, dark, and colour gradient. */
  datatype Style = Minimal | Dark | Colourful

  const BatchStyles: seq<Style> := [Minimal, Dark, Colourful]

  /** `sentences.slice(1, 5)`: at most four key points follow the title. */
  const MaxKeyPoints: nat := 4

  /** A card, reduced to what the template shows of the content: its style,
      its title and its key points. */
  datatype Card = Card(style: Style, title: JsString, keyPoints: seq<JsString>)

  /** The text a card shows, which does not depend on its style. */
  datatype CardText = CardText(title: JsString, keyPoints: seq<JsString>)

  /** What every generated card's text satisfies: a non-empty trimmed title
      and at most four non-empty trimmed key points, none of them containing
      a sentence delimiter. */
  predicate WellFormedText(t: CardText) {
    && t.title != [] && IsTrimmed(t.title) && NoDelimiter(t.title)
    && |t.keyPoints| <= MaxKeyPoints
    && forall k :: 0 <= k < |t.keyPoints| ==>
         t.keyPoints[k] != [] && IsTrimmed(t.keyPoints[k]) && NoDelimiter(t.keyPoints[k])
  }

  predicate WellFormedCard(c: Card) {
    WellFormedText(CardText(c.title, c.keyPoints))
  }

  /** `.map(s => s.trim())`: the trim of each input, in order; each is
      trimmed, and empty exactly where the input was blank. */
  function TrimAll(segs: seq<JsString>): (r: seq<JsString>)
    ensures |r| == |segs|
    ensures forall i :: 0 <= i < |r| ==> r[i] == Trim(segs[i])
    ensures forall i :: 0 <= i < |r| ==>
      IsTrimmed(r[i]) && |r[i]| <= |segs[i]| && (r[i] == [] <==> IsBlank(segs[i]))
  {
    var r := seq(|segs|, i requires 0 <= i < |segs| => Trim(segs[i]));
    assert forall i :: 0 <= i < |r| ==> r[i] == Trim(segs[i]);
    forall i | 0 <= i < |r|
      ensures IsTrimmed(r[i])
    {
      TrimIdempotent(segs[i]);
      TrimmedIsFixpoint(r[i]);
    }
    r
  }

  /** `.filter(s => s.length > 0)`: the non-empty strings, in order. */
  function DropEmpty(segs: seq<JsString>): (r: seq<JsString>)
    ensures |r| <= |segs|
    ensures forall i :: 0 <= i < |r| ==> r[i] != [] && r[i] in segs
    ensures (forall i :: 0 <= i < |segs| ==> segs[i] != []) ==> r == segs
  {
    if segs == [] then []
    else
      var rest := DropEmpty(segs[1..]);
      assert forall i :: 1 <= i < |segs| ==> segs[i] == segs[1..][i - 1];
      assert segs == [segs[0]] + segs[1..];
      if segs[0] == [] then rest else [segs[0]] + rest
  }

  /** A trimmed piece of the content keeps the piece's delimiter-freedom. */
  lemma TrimNoDelimiter(s: JsString)
    requires NoDelimiter(s)
    ensures NoDelimiter(Trim(s))
  {
    TrimKeepsUnits(s);
  }

  /** The trimmed, non-empty pieces kept as key points are well formed
      when the pieces contain no delimiter. */
  lemma KeyPointsWellFormed(pieces: seq<JsString>)
    requires forall i :: 0 <= i < |pieces| ==> NoDelimiter(pieces[i])
    ensures forall p :: p in DropEmpty(TrimAll(pieces)) ==>
      p != [] && IsTrimmed(p) && NoDelimiter(p)
  {
    var t := TrimAll(pieces);
    forall i | 0 <= i < |t|
      ensures IsTrimmed(t[i]) && NoDelimiter(t[i])
    {
      TrimNoDelimiter(pieces[i]);
    }
  }

  /** The sentences the content splits into contain no delimiter. */
  lemma SentencesNoDelimiter(content: JsString)
    ensures forall i :: 0 <= i < |SentencesOf(content)| ==> NoDelimiter(SentencesOf(content)[i])
  {
    var sentences := SentencesOf(content);
    forall i | 0 <= i < |sentences|
      ensures NoDelimiter(sentences[i])
    {
      assert sentences[i] in Split(content);
    }
  }

  /** How many of the `available` sentences after the title `slice(1, 5)`
      takes: `slice` clamps its end to the length, so all of them, but
      never more than four. */
  function KeyPointCount(available: nat): (r: nat)
    ensures r <= available && r <= MaxKeyPoints
    ensures r == available || r == MaxKeyPoints
  {
    if available < MaxKeyPoints then available else MaxKeyPoints
  }

  /** `sentences.slice(1, 5).map(s => s.trim()).filter(s => s.length > 0)`:
      at most four non-empty trimmed strings. */
  function KeyPointsOf(sentences: seq<JsString>): (r: seq<JsString>)
    requires sentences != []
    ensures |r| <= MaxKeyPoints && |r| < |sentences|
    ensures forall k :: 0 <= k < |r| ==> r[k] != [] && IsTrimmed(r[k])
    ensures (forall i :: 0 <= i < |sentences| ==> NoDelimiter(sentences[i])) ==>
      forall k :: 0 <= k < |r| ==> NoDelimiter(r[k])
  {
    var pieces := sentences[1..1 + KeyPointCount(|sentences| - 1)];
    var trimmed := TrimAll(pieces);
    var r := DropEmpty(trimmed);
    assert forall k :: 0 <= k < |r| ==> r[k] in trimmed;
    if forall i :: 0 <= i < |sentences| ==> NoDelimiter(sentences[i]) then
      assert forall i :: 0 <= i < |pieces| ==> pieces[i] == sentences[i + 1];
      KeyPointsWellFormed(pieces);
      r
    else
      r
  }

  /** The text `generateCardHTML` puts on a card (js/main.js:329-333).
      When the content has no non-blank sentence, `sentences[0]` is
      undefined and `sentences[0].trim()` throws; that is the failure here,
      and it happens exactly when the content is nothing but whitespace and
      delimiters. */
  function ExtractText(content: JsString): (r: Result<CardText>)
    ensures r.Failure? <==> OnlySpaceAndDelimiters(content)
    ensures r.Success? ==> WellFormedText(r.value)
  {
    NoSentencesIff(content);
    var sentences := SentencesOf(content);
    if sentences == [] then Failure
    else
      TrimNoDelimiter(sentences[0]);
      Success(CardText(Trim(sentences[0]), KeyPointsOf(sentences)))
  }

  /** `generateCardHTML(style, bgClass)` reduced to the card it describes:
      the extracted text in the given style, or the exception. */
  function CardFor(content: JsString, style: Style): (r: Result<Card>)
    ensures r.Failure? <==> OnlySpaceAndDelimiters(content)
    ensures r.Success? ==> r.value.style == style && WellFormedCard(r.value)
  {
    match ExtractText(content)
    case Failure => Failure
    case Success(text) => Success(Card(style, text.title, text.keyPoints))
  }

  /** Blank pieces before the first non-blank one contribute no sentence. */
  lemma SentencesAfterBlankPrefix(content: JsString, pre: seq<JsString>, seg: JsString, post: seq<JsString>)
    requires Split(content) == pre + [seg] + post
    requires forall i :: 0 <= i < |pre| ==> IsBlank(pre[i])
    requires !IsBlank(seg)
    ensures SentencesOf(content) == [seg] + NonBlank(post)
  {
    assert pre + [seg] + post == pre + ([seg] + post);
    NonBlankAppend(pre, [seg] + post);
    assert NonBlank(pre) == [];
    NonBlankAppend([seg], post);
    assert NonBlank([seg]) == [seg] by {
      assert [seg][1..] == [];
    }
  }

  /** After the title, the key points are the trims of the next (at most
      four) sentences; the emptiness filter keeps them all. */
  lemma KeyPointsAfterTitle(seg: JsString, rest: seq<JsString>)
    requires forall i :: 0 <= i < |rest| ==> !IsBlank(rest[i])
    ensures KeyPointsOf([seg] + rest) == TrimAll(rest)[..KeyPointCount(|rest|)]
  {
    var m := KeyPointCount(|rest|);
    var pieces := ([seg] + rest)[1..1 + m];
    assert pieces == rest[..m];
    assert TrimAll(pieces) == TrimAll(rest)[..m];
  }

  /** The title is the trimmed first non-blank piece of the content; the
      key points are the trimmed next non-blank pieces, at most four of
      them, in the order they occur. The `filter` on the key points
      (js/main.js:333) never removes one: every piece it sees was already
      non-blank. */
  lemma ExtractionFromSegments(
    content: JsString, pre: seq<JsString>, seg: JsString, post: seq<JsString>, style: Style)
    requires Split(content) == pre + [seg] + post
    requires forall i :: 0 <= i < |pre| ==> IsBlank(pre[i])
    requires !IsBlank(seg)
    ensures CardFor(content, style).Success?
    ensures CardFor(content, style).value.title == Trim(seg)
    ensures var rest := NonBlank(post);
      CardFor(content, style).value.keyPoints == TrimAll(rest)[..KeyPointCount(|rest|)]
  {
    SentencesAfterBlankPrefix(content, pre, seg, post);
    KeyPointsAfterTitle(seg, NonBlank(post));
  }

  /** `generatedCards = [generateCardHTML(...) x 3]` (js/main.js:290-294):
      one card per style, in the fixed style order, all from the same
      content. The first call that throws aborts the whole batch, so either
      all three cards exist or none does. The three calls read the same
      content, so the text is extracted once. */
  function BuildBatch(content: JsString): (r: Result<seq<Card>>)
    ensures r.Failure? <==> OnlySpaceAndDelimiters(content)
    ensures r.Success? ==> |r.value| == |BatchStyles|
    ensures r.Success? ==> forall i :: 0 <= i < |r.value| ==>
      && r.value[i] == CardFor(content, BatchStyles[i]).value
      && r.value[i].style == BatchStyles[i]
      && r.value[i].title == r.value[0].title
      && r.value[i].keyPoints == r.value[0].keyPoints
      && WellFormedCard(r.value[i])
  {
    match ExtractText(content)
    case Failure => Failure
    case Success(text) =>
      var batch := seq(|BatchStyles|, i requires 0 <= i < |BatchStyles| =>
        Card(BatchStyles[i], text.title, text.keyPoints));
      assert forall i :: 0 <= i < |batch| ==>
        batch[i] == CardFor(content, BatchStyles[i]).value;
      Success(batch)
  }
}
