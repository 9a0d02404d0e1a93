/** Exporting the selected card as a PNG: `downloadCurrentCard`
    (js/main.js:392-432). Rasterisation by `html2canvas` and the data URL
    it yields are an abstract success or failure. */
module CardExport {
  import opened Results
  import opened JsStrings
  import opened Cards
  import opened CardSession

  // ---------------------------------------------------------------------
  // File name
  // ---------------------------------------------------------------------

  const FilePrefix: JsString := Utf16("概念卡片_")
  const FileSuffix: JsString := Utf16(".png")

  /** The download's file name for the card at `index`
      (js/main.js:421): the template literal prints the 1-based ordinal,
      which for a card of the gallery is a plain run of digits. */
  function FileName(index: int): (r: JsString)
    ensures |r| > |FilePrefix| + |FileSuffix|
    ensures r[..|FilePrefix|] == FilePrefix
    ensures r[|r| - |FileSuffix|..] == FileSuffix
    ensures index >= 0 ==> AllDigits(r[|FilePrefix|..|r| - |FileSuffix|])
    ensures OrdinalOf(r) == Some(index + 1)
  {
    var digits := IntToString(index + 1);
    var r := FilePrefix + digits + FileSuffix;
    assert r[..|FilePrefix|] == FilePrefix;
    assert r[|r| - |FileSuffix|..] == FileSuffix;
    assert r[|FilePrefix|..|r| - |FileSuffix|] == digits;
    IntToStringRoundTrip(index + 1);
    r
  }

  /** The ordinal a download's file name carries, or `None` for a name
      `FileName` does not produce. */
  function OrdinalOf(name: JsString): Option<int> {
    if |name| >= |FilePrefix| + |FileSuffix|
       && name[..|FilePrefix|] == FilePrefix
       && name[|name| - |FileSuffix|..] == FileSuffix
    then ParseInteger(name[|FilePrefix|..|name| - |FileSuffix|])
    else None
  }

  /** The file name of card `index` carries its 1-based ordinal; the
      contract of `FileName` already says so. */
  lemma FileNameOrdinal(index: int)
    ensures OrdinalOf(FileName(index)) == Some(index + 1)
  {
  }

  /** Every name that carries an ordinal is the file name of exactly that
      card. */
  lemma OrdinalNamesFile(name: JsString, ordinal: int)
    requires OrdinalOf(name) == Some(ordinal)
    ensures FileName(ordinal - 1) == name
  {
    var digits := name[|FilePrefix|..|name| - |FileSuffix|];
    ParseIntegerCanonical(digits, ordinal);
    assert name == name[..|FilePrefix|] + digits + name[|name| - |FileSuffix|..];
  }

  /** Different cards are saved under different names. */
  lemma FileNameInjective(i: int, j: int)
    requires FileName(i) == FileName(j)
    ensures i == j
  {
    FileNameOrdinal(i);
    FileNameOrdinal(j);
  }

  // ---------------------------------------------------------------------
  // The temporary element
  // ---------------------------------------------------------------------

  /** A top-level node of the temporary container once its `innerHTML` is
      a card's markup. */
  datatype Node = TextNode | ElementNode

  /** The card template (js/main.js:336-357) is a template literal that
      opens with a line break and indentation before the card's `div`.
      That text comes before any interpolated title or key point, so
      whatever the card says, the container's first child is a text node
      and its first element is the card's `div`. Those two facts are all
      the handler depends on; this list is the markup of a card whose text
      holds no markup of its own (the title and key points are inserted
      unescaped, so markup in them can add later nodes). */
  const CardMarkupNodes: seq<Node> := [TextNode, ElementNode, TextNode]

  /** `tempCard.firstChild`: the first node of whatever kind, which can be
      sized only if it happens to be an element. */
  function FirstChild(nodes: seq<Node>): (r: Option<Node>)
    ensures r.None? <==> nodes == []
    ensures CanSize(r) <==> nodes != [] && nodes[0] == ElementNode
    ensures r.Some? ==> r.value in nodes
  {
    if nodes == [] then None else Some(nodes[0])
  }

  /** `tempCard.firstElementChild`. */
  function FirstElementChild(nodes: seq<Node>): (r: Option<Node>)
    ensures r.Some? <==> ElementNode in nodes
    ensures r.Some? ==> r.value == ElementNode
  {
    if nodes == [] then None
    else if nodes[0] == ElementNode then Some(ElementNode)
    else FirstElementChild(nodes[1..])
  }

  /** Only an element has a `style`; setting `style.width` on a text node
      (whose `style` is undefined) or on a missing node throws. */
  predicate CanSize(target: Option<Node>) {
    target == Some(ElementNode)
  }

  // ---------------------------------------------------------------------
  // The handler
  // ---------------------------------------------------------------------

  datatype DownloadOutcome = NotStarted | Saved(fileName: JsString, card: Card) | ExportFailed

  /** Where the handler stands when it first yields: finished, or waiting
      for the rasteriser with the card it is rendering. */
  datatype ExportStep = Finished(outcome: DownloadOutcome) | Rasterising(card: Card)

  /** `downloadCurrentCard` up to its `await` (js/main.js:392-408), sizing
      the node `target` of the temporary container. An index outside the
      gallery (the empty gallery included) makes it return at once. If the
      target cannot be sized, the assignment throws before any `await`, the
      `catch` reports the failure and the `finally` restores the button
      within the same step. */
  function BeginExport(s: Session, target: Option<Node>): (r: (Session, ExportStep))
    ensures !(0 <= s.index < |s.cards|) ==> r == (s, Finished(NotStarted))
    ensures 0 <= s.index < |s.cards| && !CanSize(target) ==>
      r == (s.(downloadEnabled := true), Finished(ExportFailed))
    ensures 0 <= s.index < |s.cards| && CanSize(target) ==>
      r == (s.(downloadEnabled := false), Rasterising(s.cards[s.index]))
  {
    if s.index < 0 || s.index >= |s.cards| then (s, Finished(NotStarted))
    else if !CanSize(target) then (s.(downloadEnabled := true), Finished(ExportFailed))
    else (s.(downloadEnabled := false), Rasterising(s.cards[s.index]))
  }

  /** `downloadCurrentCard` after the rasteriser settles
      (js/main.js:416-431). The file is named from the index as it is NOW;
      the image is of the card captured at the start. The `finally` block
      restores the button on both paths. */
  function FinishExport(s: Session, card: Card, rasterised: bool): (r: (Session, DownloadOutcome))
    ensures r.0 == s.(downloadEnabled := true)
    ensures rasterised ==> r.1 == Saved(FileName(s.index), card)
    ensures !rasterised ==> r.1 == ExportFailed
  {
    (s.(downloadEnabled := true), if rasterised then Saved(FileName(s.index), card) else ExportFailed)
  }

  /** Run to completion: start, and if the handler is waiting, finish with
      the rasteriser's verdict. Out of range nothing happens; in range the
      button is restored on every path, and a file is saved exactly when
      the target can be sized and the rasteriser succeeds. */
  function RunExport(s: Session, target: Option<Node>, rasterised: bool): (r: (Session, DownloadOutcome))
    ensures !(0 <= s.index < |s.cards|) ==> r == (s, NotStarted)
    ensures 0 <= s.index < |s.cards| ==> r.0 == s.(downloadEnabled := true)
    ensures 0 <= s.index < |s.cards| ==>
      (r.1.Saved? <==> CanSize(target) && rasterised)
    ensures r.1.Saved? ==> r.1 == Saved(FileName(s.index), s.cards[s.index])
    ensures 0 <= s.index < |s.cards| && !r.1.Saved? ==> r.1 == ExportFailed
  {
    match BeginExport(s, target)
    case (s1, Finished(outcome)) => (s1, outcome)
    case (s1, Rasterising(card)) => FinishExport(s1, card, rasterised)
  }

  /** The handler as written sizes `tempCard.firstChild` (js/main.js:403).
      That is the text node before the card's `div`, so the assignment
      throws on every card and no file is ever saved: each attempt ends in
      the failure alert with the button restored. */
  function DownloadAsWritten(s: Session, rasterised: bool): (r: (Session, DownloadOutcome))
    ensures !r.1.Saved?
    ensures 0 <= s.index < |s.cards| ==> r == (s.(downloadEnabled := true), ExportFailed)
  {
    RunExport(s, FirstChild(CardMarkupNodes), rasterised)
  }

  /** The handler as evidently intended: size and rasterise the card element
      itself (`tempCard.firstElementChild`). With the card index in range it
      saves the selected card under its ordinal's name when rasterisation
      succeeds, reports failure otherwise, and restores the button either
      way; out of range it does nothing at all. */
  function Download(s: Session, rasterised: bool): (r: (Session, DownloadOutcome))
    ensures !(0 <= s.index < |s.cards|) ==> r == (s, NotStarted)
    ensures 0 <= s.index < |s.cards| ==> r.0 == s.(downloadEnabled := true)
    ensures 0 <= s.index < |s.cards| && rasterised ==>
      r.1 == Saved(FileName(s.index), s.cards[s.index]) && OrdinalOf(r.1.fileName) == Some(s.index + 1)
    ensures 0 <= s.index < |s.cards| && !rasterised ==> r.1 == ExportFailed
  {
    assert CanSize(FirstElementChild(CardMarkupNodes)) by {
      assert CardMarkupNodes[1] == ElementNode;
    }
    FileNameOrdinal(s.index);
    RunExport(s, FirstElementChild(CardMarkupNodes), rasterised)
  }

  /** `downloadCurrentCard` is a no-op on a fresh page: the empty gallery
      fails the index guard. */
  lemma NothingToExportOnFreshPage(nav: seq<bool>, rasterised: bool)
    ensures Download(Init(nav), rasterised) == (Init(nav), NotStarted)
    ensures DownloadAsWritten(Init(nav), rasterised) == (Init(nav), NotStarted)
  {
  }

  /** Exporting leaves the gallery, the selection and the content alone, so
      it keeps every session invariant. */
  lemma DownloadKeepsSession(s: Session, rasterised: bool)
    ensures var r := Download(s, rasterised).0;
      r.content == s.content && r.cards == s.cards && r.index == s.index
      && r.generateEnabled == s.generateEnabled && r.navActive == s.navActive
    ensures Wf(s) ==> Wf(Download(s, rasterised).0)
  {
  }

  /** Selecting another card while the rasteriser runs names the file after
      the newly selected card but saves the image of the one selected when
      the export began (js/main.js:402 against 421). */
  lemma SelectionDuringExport(s: Session, j: int)
    requires Wf(s) && s.cards != []
    requires 0 <= j < |s.cards|
    ensures var (busy, step) := BeginExport(s, FirstElementChild(CardMarkupNodes));
      step == Rasterising(s.cards[s.index])
      && FinishExport(ShowCard(busy, j), step.card, true).1 == Saved(FileName(j), s.cards[s.index])
  {
    assert CardMarkupNodes[1] == ElementNode;
  }
}
