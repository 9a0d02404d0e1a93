/** Splitting card content into sentences: `content.split(/[.!?。！？]/)`
    followed by dropping the pieces that are blank after trimming
    (js/main.js:329). */
module Sentences {
  import opened JsStrings

  /** The sentence delimiters of the split pattern: `.`, `!`, `?` and their
      full-width forms `。`, `！`, `？`. */
  predicate IsDelimiter(u: CodeUnit) {
    || u == 0x2E || u == 0x21 || u == 0x3F
    || u == 0x3002 || u == 0xFF01 || u == 0xFF1F
  }

  predicate NoDelimiter(s: JsString) {
    forall i :: 0 <= i < |s| ==> !IsDelimiter(s[i])
  }

  predicate AllDelimiters(s: JsString) {
    forall i :: 0 <= i < |s| ==> IsDelimiter(s[i])
  }

  /** The position of the first delimiter of `s`, or `|s|` if there is none. */
  function FirstDelimiter(s: JsString): (k: nat)
    ensures k <= |s|
    ensures NoDelimiter(s[..k])
    ensures k < |s| ==> IsDelimiter(s[k])
  {
    if s == [] || IsDelimiter(s[0]) then 0
    else
      var m := FirstDelimiter(s[1..]);
      assert s[..m + 1] == [s[0]] + s[1..][..m];
      1 + m
  }

  /** `s.split(/[.!?。！？]/)`: the pieces between delimiters, in order, empty
      pieces included. The pattern cannot match the empty string, so the
      empty string splits into one empty piece. */
  function Split(s: JsString): (r: seq<JsString>)
    ensures |r| >= 1
    ensures forall i :: 0 <= i < |r| ==> NoDelimiter(r[i])
    decreases |s|
  {
    var k := FirstDelimiter(s);
    if k == |s| then
      assert s[..k] == s;
      [s]
    else [s[..k]] + Split(s[k + 1..])
  }

  /** The delimiters of `s`, in order: what `Split` cuts at. */
  function Delimiters(s: JsString): (r: JsString)
    ensures AllDelimiters(r)
    decreases |s|
  {
    var k := FirstDelimiter(s);
    if k == |s| then [] else [s[k]] + Delimiters(s[k + 1..])
  }

  /** The pieces glued back together, `seps[i]` between `segs[i]` and
      `segs[i + 1]`. */
  function Join(segs: seq<JsString>, seps: JsString): JsString
    requires |segs| == |seps| + 1
  {
    if seps == [] then segs[0]
    else segs[0] + [seps[0]] + Join(segs[1..], seps[1..])
  }

  /** Splitting loses nothing: the pieces and the delimiters between them
      give back the string, and there is one more piece than delimiters. */
  lemma {:induction false} JoinSplit(s: JsString)
    ensures |Split(s)| == |Delimiters(s)| + 1
    ensures Join(Split(s), Delimiters(s)) == s
    decreases |s|
  {
    var k := FirstDelimiter(s);
    if k < |s| {
      var tail := s[k + 1..];
      var segs := Split(s);
      var seps := Delimiters(s);
      assert segs == [s[..k]] + Split(tail);
      assert seps == [s[k]] + Delimiters(tail);
      JoinSplit(tail);
      assert segs[1..] == Split(tail) && seps[1..] == Delimiters(tail);
      assert Join(segs, seps) == s[..k] + [s[k]] + tail;
      assert s == s[..k] + [s[k]] + tail;
    } else {
      assert s[..k] == s;
    }
  }

  /** Splitting is the exact inverse of joining delimiter-free pieces with
      delimiters. */
  lemma {:induction false} SplitJoin(segs: seq<JsString>, seps: JsString)
    requires |segs| == |seps| + 1
    requires forall i :: 0 <= i < |segs| ==> NoDelimiter(segs[i])
    requires AllDelimiters(seps)
    ensures Split(Join(segs, seps)) == segs
    ensures Delimiters(Join(segs, seps)) == seps
    decreases |seps|
  {
    var s := Join(segs, seps);
    if seps == [] {
      NoDelimiterFirst(s);
    } else {
      var rest := Join(segs[1..], seps[1..]);
      assert s == segs[0] + [seps[0]] + rest;
      FirstDelimiterAfter(segs[0], seps[0], rest);
      assert s[..|segs[0]|] == segs[0];
      assert s[|segs[0]| + 1..] == rest;
      SplitJoin(segs[1..], seps[1..]);
      assert segs == [segs[0]] + segs[1..];
    }
  }

  lemma NoDelimiterFirst(s: JsString)
    requires NoDelimiter(s)
    ensures FirstDelimiter(s) == |s|
  {
  }

  lemma FirstDelimiterAfter(a: JsString, d: CodeUnit, rest: JsString)
    requires NoDelimiter(a) && IsDelimiter(d)
    ensures FirstDelimiter(a + [d] + rest) == |a|
  {
    var s := a + [d] + rest;
    var k := FirstDelimiter(s);
    assert forall j :: 0 <= j < |a| ==> s[j] == a[j];
    assert forall j :: |a| < j <= |s| ==> s[..j][|a|] == d;
  }

  // ---------------------------------------------------------------------
  // Dropping blank pieces
  // ---------------------------------------------------------------------

  /** `segs.filter(s => s.trim().length > 0)`: the pieces that are not blank,
      in their original order. */
  function NonBlank(segs: seq<JsString>): (r: seq<JsString>)
    ensures |r| <= |segs|
    ensures forall i :: 0 <= i < |r| ==> !IsBlank(r[i]) && r[i] in segs
    ensures r == [] <==> forall i :: 0 <= i < |segs| ==> IsBlank(segs[i])
  {
    if segs == [] then []
    else
      var rest := NonBlank(segs[1..]);
      assert forall i :: 1 <= i < |segs| ==> segs[i] == segs[1..][i - 1];
      if IsBlank(segs[0]) then rest else [segs[0]] + rest
  }

  /** Filtering distributes over concatenation: the order of the pieces is
      kept, and blank pieces are the only ones removed. */
  lemma {:induction false} NonBlankAppend(a: seq<JsString>, b: seq<JsString>)
    ensures NonBlank(a + b) == NonBlank(a) + NonBlank(b)
  {
    if a != [] {
      assert (a + b)[1..] == a[1..] + b;
      NonBlankAppend(a[1..], b);
    } else {
      assert a + b == b;
    }
  }

  /** The sentences `generateCardHTML` works from: the non-blank pieces of
      the content, none of which contains a delimiter. */
  function SentencesOf(content: JsString): (r: seq<JsString>)
    ensures forall i :: 0 <= i < |r| ==> !IsBlank(r[i]) && NoDelimiter(r[i])
    ensures r == [] <==> AllBlank(Split(content))
  {
    var pieces := Split(content);
    var r := NonBlank(pieces);
    assert forall i :: 0 <= i < |r| ==> r[i] in pieces;
    r
  }

  predicate AllBlank(segs: seq<JsString>) {
    forall i :: 0 <= i < |segs| ==> IsBlank(segs[i])
  }

  /** Every code unit of `s` is whitespace or a sentence delimiter. */
  predicate OnlySpaceAndDelimiters(s: JsString) {
    forall i :: 0 <= i < |s| ==> IsWhiteSpace(s[i]) || IsDelimiter(s[i])
  }

  /** Content has no sentence exactly when every code unit of it is
      whitespace or a delimiter; the characterisation does not mention
      splitting at all. */
  lemma NoSentencesIff(content: JsString)
    ensures SentencesOf(content) == [] <==> OnlySpaceAndDelimiters(content)
  {
    BlankPiecesIff(content);
  }

  lemma {:induction false} BlankPiecesIff(content: JsString)
    ensures AllBlank(Split(content)) <==> OnlySpaceAndDelimiters(content)
    decreases |content|
  {
    var k := FirstDelimiter(content);
    if k == |content| {
      assert content[..k] == content;
      assert Split(content) == [content] + [];
      AllBlankCons(content, []);
    } else {
      var tail := content[k + 1..];
      BlankPiecesIff(tail);
      AllBlankCons(content[..k], Split(tail));
      OnlySpaceAndDelimitersAt(content, k);
    }
  }

  lemma AllBlankCons(x: JsString, ys: seq<JsString>)
    ensures AllBlank([x] + ys) <==> IsBlank(x) && AllBlank(ys)
  {
    var xs := [x] + ys;
    assert xs[0] == x;
    assert forall i :: 0 <= i < |ys| ==> xs[i + 1] == ys[i];
    if AllBlank(xs) {
      assert IsBlank(xs[0]);
      forall i | 0 <= i < |ys|
        ensures IsBlank(ys[i])
      {
        assert IsBlank(xs[i + 1]);
      }
    }
    if IsBlank(x) && AllBlank(ys) {
      forall i | 0 <= i < |xs|
        ensures IsBlank(xs[i])
      {
        if i > 0 {
          assert xs[i] == ys[i - 1];
        }
      }
    }
  }

  lemma OnlySpaceAndDelimitersAt(s: JsString, k: nat)
    requires k < |s| && NoDelimiter(s[..k]) && IsDelimiter(s[k])
    ensures OnlySpaceAndDelimiters(s) <==> IsBlank(s[..k]) && OnlySpaceAndDelimiters(s[k + 1..])
  {
    var head := s[..k];
    var tail := s[k + 1..];
    assert forall i :: 0 <= i < k ==> s[i] == head[i];
    assert forall i :: 0 <= i < |tail| ==> s[k + 1 + i] == tail[i];
    if IsBlank(head) && OnlySpaceAndDelimiters(tail) {
      forall i | 0 <= i < |s|
        ensures IsWhiteSpace(s[i]) || IsDelimiter(s[i])
      {
        if i > k {
          assert s[i] == tail[i - k - 1];
        }
      }
    }
    if OnlySpaceAndDelimiters(s) {
      forall i | 0 <= i < k
        ensures IsWhiteSpace(head[i])
      {
        assert head[i] == s[i];
        assert !IsDelimiter(head[i]);
      }
    }
  }
}
