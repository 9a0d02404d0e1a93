/** Concrete runs of the card page, each from a fresh page. */
module CardScenarios {
  import opened JsStrings
  import opened Sentences
  import opened Cards
  import opened CardSession

  /** Typing "hi" leaves the generate button disabled, and clicking it
      anyway changes nothing. */
  lemma ShortInput(nav: seq<bool>)
    ensures var s := HandleTextInput(Init(nav), Utf16("hi"));
      !s.generateEnabled && Generate(s) == (s, Skipped)
  {
  }

  const TenStops: JsString := [0x2E, 0x2E, 0x2E, 0x2E, 0x2E, 0x2E, 0x2E, 0x2E, 0x2E, 0x2E]

  /** Ten full stops pass the length gate but hold no sentence: the
      generation fails, the gallery stays empty and the button is enabled
      again. */
  lemma TenFullStops(nav: seq<bool>)
    ensures var s := HandleTextInput(Init(nav), TenStops);
      && s.generateEnabled
      && Generate(s).1 == Failed
      && Generate(s).0.cards == []
      && Generate(s).0.generateEnabled
  {
    TenStopsFacts();
    GenerateFailsIff(HandleTextInput(Init(nav), TenStops));
  }

  lemma TenStopsFacts()
    ensures Trim(TenStops) == TenStops
    ensures OnlySpaceAndDelimiters(TenStops)
  {
    assert IsTrimmed(TenStops) by {
      assert TenStops[0] == 0x2E && TenStops[9] == 0x2E;
    }
    TrimmedIsFixpoint(TenStops);
    assert forall i :: 0 <= i < |TenStops| ==> TenStops[i] == 0x2E;
  }

  const First: JsString := Utf16("Proofs scale")
  const Second: JsString := Utf16(" Cards help")
  /** "Proofs scale. Cards help!" */
  const TwoSentenceText: JsString := First + [0x2E] + Second + [0x21]

  lemma SplitTwoSentences()
    ensures Split(TwoSentenceText) == [First, Second, []]
  {
    var segs: seq<JsString> := [First, Second, []];
    var seps: JsString := [0x2E, 0x21];
    assert segs[1..] == [Second, []] && seps[1..] == [0x21];
    assert segs[1..][1..] == [[]] && seps[1..][1..] == [];
    assert Join([[]], []) == [];
    assert Join([Second, []], [0x21]) == Second + [0x21];
    assert TwoSentenceText == Join(segs, seps);
    assert forall i :: 0 <= i < |First| ==> !IsDelimiter(First[i]);
    assert forall i :: 0 <= i < |Second| ==> !IsDelimiter(Second[i]);
    SplitJoin([First, Second, []], [0x2E, 0x21]);
  }

  /** A generation from content whose first non-blank piece is `seg`
      shows cards titled by it, with key points from the pieces after it. */
  lemma GenerateFromPieces(s: Session, seg: JsString, post: seq<JsString>)
    requires |s.content| >= MinContentLength
    requires Split(s.content) == [seg] + post && !IsBlank(seg)
    ensures var (g, outcome) := Generate(s);
      var rest := NonBlank(post);
      && outcome == Generated
      && |g.cards| == 3
      && g.index == 0
      && g.cards[0].title == Trim(seg)
      && g.cards[2].keyPoints == TrimAll(rest)[..KeyPointCount(|rest|)]
  {
    assert Split(s.content) == [] + [seg] + post;
    ExtractionFromSegments(s.content, [], seg, post, Minimal);
    ExtractionFromSegments(s.content, [], seg, post, Colourful);
  }

  /** Text with two sentences yields three cards whose title is the first
      sentence and whose single key point is the second, trimmed; the first
      card is shown. */
  lemma TwoSentences(nav: seq<bool>)
    ensures var s := HandleTextInput(Init(nav), TwoSentenceText);
      var (g, outcome) := Generate(s);
      && outcome == Generated
      && |g.cards| == 3
      && g.index == 0
      && g.cards[0].title == First
      && g.cards[2].keyPoints == [Second[1..]]
  {
    TwoSentenceTextTrimmed();
    var s := HandleTextInput(Init(nav), TwoSentenceText);
    SplitTwoSentences();
    OnlySecondKept();
    TrimFirst();
    TrimSecond();
    GenerateFromPieces(s, First, [Second, []]);
  }

  lemma TwoSentenceTextTrimmed()
    ensures Trim(TwoSentenceText) == TwoSentenceText
    ensures |TwoSentenceText| >= MinContentLength
  {
    assert IsTrimmed(TwoSentenceText) by {
      assert TwoSentenceText[0] == First[0];
    }
    TrimmedIsFixpoint(TwoSentenceText);
  }

  lemma OnlySecondKept()
    ensures !IsBlank(First)
    ensures NonBlank([Second, []]) == [Second]
  {
    assert !IsBlank(First) by { assert !IsWhiteSpace(First[0]); }
    assert !IsBlank(Second) by { assert !IsWhiteSpace(Second[1]); }
    assert IsBlank([]);
    assert [Second, []][1..] == [[]];
  }

  lemma TrimFirst()
    ensures Trim(First) == First
  {
    assert IsTrimmed(First) by { assert !IsWhiteSpace(First[0]) && !IsWhiteSpace(First[|First| - 1]); }
    TrimmedIsFixpoint(First);
  }

  lemma TrimSecond()
    ensures Trim(Second) == Second[1..]
  {
    assert IsTrimmed(Second[1..]) by {
      assert Second[1..][0] == Second[1];
      assert Second[1..][|Second| - 2] == Second[|Second| - 1];
    }
    assert TrimsAt(Second[1..], Second, 1, |Second|) by {
      assert Second[..1] == [0x20];
      assert Second[|Second|..] == [];
    }
    TrimMeetsDefinition(Second);
    TrimDefinitionUnique(Trim(Second), Second[1..], Second);
  }
}
