/** JavaScript strings as the card page sees them: sequences of UTF-16 code
    units, with `String.prototype.trim` and the conversion of an integer to
    its decimal text used in a template literal. */
module JsStrings {
  import opened Results

  /** One UTF-16 code unit. `length`, `split` and `trim` all count and
      compare code units, not Unicode scalar values. */
  newtype CodeUnit = x: int | 0 <= x < 0x1_0000

  type JsString = seq<CodeUnit>

  /** Every character of `s` lies in the Basic Multilingual Plane, so it
      is one UTF-16 code unit. */
  predicate IsBmp(s: string) {
    forall i :: 0 <= i < |s| ==> s[i] as int < 0x1_0000
  }

  /** The JavaScript string written as the Dafny literal `s`. Every literal
      of the card page is in the Basic Multilingual Plane, where a
      character and its code unit coincide. */
  function Utf16(s: string): (r: JsString)
    requires IsBmp(s)
    ensures |r| == |s|
    ensures forall i :: 0 <= i < |s| ==> r[i] as int == s[i] as int
  {
    seq(|s|, i requires 0 <= i < |s| => s[i] as int as CodeUnit)
  }

  // ---------------------------------------------------------------------
  // Whitespace and trim
  // ---------------------------------------------------------------------

  /** The code units `trim` removes: ECMAScript's WhiteSpace (tab, vertical
      tab, form feed, no-break space, byte-order mark and the Unicode Zs
      space separators) and LineTerminator (line feed, carriage return,
      line and paragraph separators). The general lemmas about `Trim` hold
      for any set; the concrete runs of the page rely on the space being
      in it and on letters and `.` being outside it. */
  predicate IsWhiteSpace(u: CodeUnit) {
    || u == 0x09 || u == 0x0A || u == 0x0B || u == 0x0C || u == 0x0D
    || u == 0x20 || u == 0xA0 || u == 0x1680
    || (0x2000 <= u <= 0x200A)
    || u == 0x2028 || u == 0x2029 || u == 0x202F || u == 0x205F
    || u == 0x3000 || u == 0xFEFF
  }

  /** Every code unit of `s` is whitespace (the empty string included). */
  predicate IsBlank(s: JsString) {
    forall i :: 0 <= i < |s| ==> IsWhiteSpace(s[i])
  }

  /** The number of whitespace code units `s` starts with. */
  function LeadingWhiteSpace(s: JsString): (n: nat)
    ensures n <= |s|
    ensures IsBlank(s[..n])
    ensures n < |s| ==> !IsWhiteSpace(s[n])
  {
    if s == [] || !IsWhiteSpace(s[0]) then 0
    else
      var m := LeadingWhiteSpace(s[1..]);
      assert s[..m + 1] == [s[0]] + s[1..][..m];
      1 + m
  }

  /** The number of whitespace code units `s` ends with. */
  function TrailingWhiteSpace(s: JsString): (n: nat)
    ensures n <= |s|
    ensures IsBlank(s[|s| - n..])
    ensures n < |s| ==> !IsWhiteSpace(s[|s| - 1 - n])
  {
    if s == [] || !IsWhiteSpace(s[|s| - 1]) then 0
    else
      var p := s[..|s| - 1];
      var m := TrailingWhiteSpace(p);
      assert s[|s| - (m + 1)..] == p[|p| - m..] + [s[|s| - 1]];
      1 + m
  }

  /** `String.prototype.trim`: `s` without its leading and trailing
      whitespace. */
  function Trim(s: JsString): (r: JsString)
    ensures |r| <= |s|
    ensures r == [] <==> IsBlank(s)
    ensures r != [] ==> !IsWhiteSpace(r[0]) && !IsWhiteSpace(r[|r| - 1])
  {
    var a := LeadingWhiteSpace(s);
    if a == |s| then
      assert s[..a] == s;
      []
    else
      var b := |s| - TrailingWhiteSpace(s);
      s[a..b]
  }

  /** `r` is the slice `s[i..j]`, only whitespace lies outside it, and it
      neither starts nor ends with whitespace. */
  ghost predicate TrimsAt(r: JsString, s: JsString, i: nat, j: nat) {
    && i <= j <= |s|
    && r == s[i..j]
    && IsBlank(s[..i])
    && IsBlank(s[j..])
    && (r == [] || (!IsWhiteSpace(r[0]) && !IsWhiteSpace(r[|r| - 1])))
  }

  /** The reference meaning of trimming, independent of how `Trim` scans:
      some cut of `s` leaves `r` in the middle with only whitespace around
      it and no whitespace at its ends. */
  ghost predicate IsTrimOf(r: JsString, s: JsString) {
    exists i: nat, j: nat :: TrimsAt(r, s, i, j)
  }

  /** `Trim` computes a trim in the reference sense. */
  lemma TrimMeetsDefinition(s: JsString)
    ensures IsTrimOf(Trim(s), s)
  {
    var a := LeadingWhiteSpace(s);
    if a == |s| {
      assert s[..a] == s;
      assert TrimsAt(Trim(s), s, a, a);
    } else {
      var b := |s| - TrailingWhiteSpace(s);
      assert TrimsAt(Trim(s), s, a, b);
    }
  }

  /** At most one string is a trim of `s` in the reference sense, so `Trim`
      is the only function meeting the definition. */
  lemma TrimDefinitionUnique(r1: JsString, r2: JsString, s: JsString)
    requires IsTrimOf(r1, s) && IsTrimOf(r2, s)
    ensures r1 == r2
  {
    var i1: nat, j1: nat :| TrimsAt(r1, s, i1, j1);
    var i2: nat, j2: nat :| TrimsAt(r2, s, i2, j2);
    if r1 == [] {
      EmptyTrimMeansBlank(r2, s, i1, j1, i2, j2);
    } else if r2 == [] {
      EmptyTrimMeansBlank(r1, s, i2, j2, i1, j1);
    } else {
      SameCutStart(r1, r2, s, i1, j1, i2, j2);
      SameCutStart(r2, r1, s, i2, j2, i1, j1);
      SameCutEnd(r1, r2, s, i1, j1, i2, j2);
      SameCutEnd(r2, r1, s, i2, j2, i1, j1);
    }
  }

  lemma EmptyTrimMeansBlank(r: JsString, s: JsString, i0: nat, j0: nat, i: nat, j: nat)
    requires TrimsAt([], s, i0, j0) && TrimsAt(r, s, i, j)
    ensures r == []
  {
    assert i0 == j0;
    BlankAround(s, i0);
  }

  lemma SameCutStart(r1: JsString, r2: JsString, s: JsString, i1: nat, j1: nat, i2: nat, j2: nat)
    requires TrimsAt(r1, s, i1, j1) && TrimsAt(r2, s, i2, j2) && r1 != []
    ensures i2 <= i1
  {
  }

  lemma SameCutEnd(r1: JsString, r2: JsString, s: JsString, i1: nat, j1: nat, i2: nat, j2: nat)
    requires TrimsAt(r1, s, i1, j1) && TrimsAt(r2, s, i2, j2) && r1 != []
    ensures j1 <= j2
  {
  }

  /** A string blank before and after a cut point is blank. */
  lemma BlankAround(s: JsString, i: nat)
    requires i <= |s| && IsBlank(s[..i]) && IsBlank(s[i..])
    ensures IsBlank(s)
  {
    forall k | 0 <= k < |s|
      ensures IsWhiteSpace(s[k])
    {
      if k < i {
        assert s[..i][k] == s[k];
      } else {
        assert s[i..][k - i] == s[k];
      }
    }
  }

  /** `s` neither starts nor ends with whitespace. */
  predicate IsTrimmed(s: JsString) {
    s == [] || (!IsWhiteSpace(s[0]) && !IsWhiteSpace(s[|s| - 1]))
  }

  /** The trimmed strings are exactly those `Trim` leaves alone. */
  lemma TrimmedIsFixpoint(s: JsString)
    ensures IsTrimmed(s) <==> Trim(s) == s
  {
    if IsTrimmed(s) && s != [] {
      assert TrimsAt(s, s, 0, |s|) by {
        assert s == s[0..|s|] && s[..0] == [] && s[|s|..] == [];
      }
      TrimMeetsDefinition(s);
      TrimDefinitionUnique(Trim(s), s, s);
    }
  }

  /** Trimming twice is trimming once. */
  lemma TrimIdempotent(s: JsString)
    ensures Trim(Trim(s)) == Trim(s)
  {
    TrimmedIsFixpoint(Trim(s));
  }

  /** Every code unit of the trim occurs in the original string. */
  lemma TrimKeepsUnits(s: JsString)
    ensures forall i :: 0 <= i < |Trim(s)| ==> Trim(s)[i] in s
  {
    var a := LeadingWhiteSpace(s);
    if a < |s| {
      var b := |s| - TrailingWhiteSpace(s);
      assert forall i :: 0 <= i < |Trim(s)| ==> Trim(s)[i] == s[a + i];
    }
  }

  // ---------------------------------------------------------------------
  // Integers in template literals
  // ---------------------------------------------------------------------

  const Zero: CodeUnit := 0x30
  const Minus: CodeUnit := 0x2D

  predicate IsDigit(u: CodeUnit) {
    Zero <= u <= 0x39
  }

  predicate AllDigits(s: JsString) {
    forall i :: 0 <= i < |s| ==> IsDigit(s[i])
  }

  /** The decimal digits of `n`, as `String(n)` writes a non-negative
      integer: at least one digit, and a leading zero only for zero itself. */
  function Decimal(n: nat): (r: JsString)
    ensures r != [] && AllDigits(r)
    ensures r[0] == Zero <==> n == 0
  {
    if n < 10 then [(Zero as int + n) as CodeUnit]
    else Decimal(n / 10) + [(Zero as int + n % 10) as CodeUnit]
  }

  /** The number a string of decimal digits denotes. */
  function DecimalValue(s: JsString): nat
    requires AllDigits(s)
  {
    if s == [] then 0
    else DecimalValue(s[..|s| - 1]) * 10 + (s[|s| - 1] as int - Zero as int)
  }

  /** Reading back the digits of `n` gives `n`. */
  lemma {:induction false} DecimalRoundTrip(n: nat)
    ensures DecimalValue(Decimal(n)) == n
  {
    if n >= 10 {
      var p := Decimal(n / 10);
      var r := Decimal(n);
      assert r[..|r| - 1] == p;
      DecimalRoundTrip(n / 10);
    }
  }

  /** Digits without a redundant leading zero are the digits of the number
      they denote. */
  lemma {:induction false} DecimalOfValue(s: JsString)
    requires s != [] && AllDigits(s)
    requires s[0] != Zero || |s| == 1
    ensures Decimal(DecimalValue(s)) == s
  {
    var p := s[..|s| - 1];
    if p != [] {
      assert p[0] == s[0];
      DecimalValueLowerBound(p);
      DecimalOfValue(p);
      assert s == p + [s[|s| - 1]];
    }
  }

  /** Digits with a non-zero first digit denote a positive number. */
  lemma {:induction false} DecimalValueLowerBound(s: JsString)
    requires s != [] && AllDigits(s) && s[0] != Zero
    ensures DecimalValue(s) >= 1
  {
    var p := s[..|s| - 1];
    if p != [] {
      assert p[0] == s[0];
      DecimalValueLowerBound(p);
    }
  }

  /** `String(i)` for an integer `i`: a minus sign for negatives, then the
      decimal digits of its magnitude. */
  function IntToString(i: int): (r: JsString)
    ensures r != []
    ensures i >= 0 ==> AllDigits(r) && (r[0] == Zero <==> i == 0)
    ensures i < 0 ==> |r| >= 2 && r[0] == Minus && AllDigits(r[1..]) && r[1] != Zero
  {
    if i < 0 then [Minus] + Decimal(-i) else Decimal(i)
  }

  /** The integer written canonically (as `IntToString` writes it) by `s`,
      or `None` if `s` is not such a text. */
  function ParseInteger(s: JsString): Option<int> {
    if |s| >= 2 && s[0] == Minus && AllDigits(s[1..]) && s[1] != Zero then
      Some(-(DecimalValue(s[1..]) as int))
    else if s != [] && AllDigits(s) && (s[0] != Zero || |s| == 1) then
      Some(DecimalValue(s))
    else
      None
  }

  /** Parsing inverts printing. */
  lemma IntToStringRoundTrip(i: int)
    ensures ParseInteger(IntToString(i)) == Some(i)
  {
    var s := IntToString(i);
    if i < 0 {
      assert s[1..] == Decimal(-i);
      DecimalRoundTrip(-i);
      assert ParseInteger(s) == Some(-(DecimalValue(s[1..]) as int));
    } else {
      assert s == Decimal(i);
      DecimalRoundTrip(i);
      assert s[0] != Minus;
      assert ParseInteger(s) == Some(DecimalValue(s));
    }
  }

  /** Printing inverts parsing: every text `ParseInteger` accepts is the
      printed form of its value. */
  lemma ParseIntegerCanonical(s: JsString, i: int)
    requires ParseInteger(s) == Some(i)
    ensures IntToString(i) == s
  {
    if |s| >= 2 && s[0] == Minus && AllDigits(s[1..]) && s[1] != Zero {
      DecimalValueLowerBound(s[1..]);
      DecimalOfValue(s[1..]);
      assert s == [Minus] + s[1..];
    } else {
      DecimalOfValue(s);
    }
  }
}
