/** The JavaScript string operations the core relies on, over strings as
    sequences of characters: `includes`, `trim`, `replace(/\s/g, …)`,
    the test `/[a-zA-Z]/.test(…)`, `substring(0, n)` and the decimal
    rendering of an integral number inside a template literal. */
module Strings {

  /** The characters in JavaScript's `\s` class, which are also the
      characters `String.prototype.trim` removes. */
  predicate IsWhitespace(c: char) {
    || c == ' ' || c == '\t' || c == '\n' || c == '\U{000B}' || c == '\U{000C}' || c == '\r'
    || c == '\U{00A0}' || c == '\U{1680}' || ('\U{2000}' <= c <= '\U{200A}')
    || c == '\U{2028}' || c == '\U{2029}' || c == '\U{202F}' || c == '\U{205F}'
    || c == '\U{3000}' || c == '\U{FEFF}'
  }

  ghost predicate AllWhitespace(s: string) {
    forall i :: 0 <= i < |s| ==> IsWhitespace(s[i])
  }

  ghost predicate NoWhitespace(s: string) {
    forall i :: 0 <= i < |s| ==> !IsWhitespace(s[i])
  }

  // ---------------------------------------------------------------------
  // Substring search

  /** `p` occurs in `s` starting at index `i`. */
  ghost predicate OccursAt(s: string, p: string, i: int) {
    0 <= i && i + |p| <= |s| && s[i..i + |p|] == p
  }

  /** Reference meaning of `s.includes(p)`. */
  ghost predicate Contains(s: string, p: string) {
    exists i :: OccursAt(s, p, i)
  }

  lemma ContainsDropFirst(s: string, p: string)
    requires |s| > 0 && !(p <= s)
    ensures Contains(s, p) <==> Contains(s[1..], p)
  {
    if |p| <= |s| {
      assert s[0..|p|] == s[..|p|];
    }
    assert !OccursAt(s, p, 0);
    forall i | OccursAt(s, p, i) ensures OccursAt(s[1..], p, i - 1) {
      assert s[1..][i - 1..i - 1 + |p|] == s[i..i + |p|];
    }
    forall i | OccursAt(s[1..], p, i) ensures OccursAt(s, p, i + 1) {
      assert s[1..][i..i + |p|] == s[i + 1..i + 1 + |p|];
    }
  }

  /** `s.includes(p)`: tries every start position from the left. */
  function Includes(s: string, p: string): (b: bool)
    ensures b <==> Contains(s, p)
    decreases |s|
  {
    if p <= s then
      assert OccursAt(s, p, 0);
      true
    else if |s| == 0 then
      false
    else
      ContainsDropFirst(s, p);
      Includes(s[1..], p)
  }

  /** A text that contains a non-empty pattern contains its first character. */
  lemma ContainsFirstChar(s: string, p: string)
    ensures Contains(s, p) && |p| > 0 ==> p[0] in s
  {
    if Contains(s, p) && |p| > 0 {
      var i :| OccursAt(s, p, i);
      assert s[i] == s[i..i + |p|][0];
    }
  }

  /** `p` occurs right after what precedes it. */
  lemma OccursAtEnd(pre: string, p: string)
    ensures OccursAt(pre + p, p, |pre|)
  {
    assert (pre + p)[|pre|..|pre| + |p|] == p;
  }

  /** Appending text keeps an occurrence where it was. */
  lemma OccursAppend(s: string, p: string, i: int, t: string)
    requires OccursAt(s, p, i)
    ensures OccursAt(s + t, p, i)
  {
    assert (s + t)[i..i + |p|] == s[i..i + |p|];
  }

  /** A text assembled from seven pieces holds each piece at the offset
      given by the lengths of the pieces before it. */
  lemma PiecesAt(a: string, x: string, b: string, y: string, c: string, z: string, d: string)
    ensures var s := a + x + b + y + c + z + d;
            && OccursAt(s, a, 0)
            && OccursAt(s, x, |a|)
            && OccursAt(s, b, |a| + |x|)
            && OccursAt(s, y, |a| + |x| + |b|)
            && OccursAt(s, c, |a| + |x| + |b| + |y|)
            && OccursAt(s, z, |a| + |x| + |b| + |y| + |c|)
            && OccursAt(s, d, |a| + |x| + |b| + |y| + |c| + |z|)
            && |s| == |a| + |x| + |b| + |y| + |c| + |z| + |d|
  {
    var s1, s2, s3, s4, s5, s6 := a, a + x, a + x + b, a + x + b + y, a + x + b + y + c, a + x + b + y + c + z;
    OccursAtEnd([], a);
    assert [] + a == s1;
    OccursAtEnd(s1, x);
    OccursAtEnd(s2, b);
    OccursAtEnd(s3, y);
    OccursAtEnd(s4, c);
    OccursAtEnd(s5, z);
    OccursAtEnd(s6, d);
    OccursAppend(s1, a, 0, x);
    OccursAppend(s2, a, 0, b);
    OccursAppend(s2, x, |s1|, b);
    OccursAppend(s3, a, 0, y);
    OccursAppend(s3, x, |s1|, y);
    OccursAppend(s3, b, |s2|, y);
    OccursAppend(s4, a, 0, c);
    OccursAppend(s4, x, |s1|, c);
    OccursAppend(s4, b, |s2|, c);
    OccursAppend(s4, y, |s3|, c);
    OccursAppend(s5, a, 0, z);
    OccursAppend(s5, x, |s1|, z);
    OccursAppend(s5, b, |s2|, z);
    OccursAppend(s5, y, |s3|, z);
    OccursAppend(s5, c, |s4|, z);
    OccursAppend(s6, a, 0, d);
    OccursAppend(s6, x, |s1|, d);
    OccursAppend(s6, b, |s2|, d);
    OccursAppend(s6, y, |s3|, d);
    OccursAppend(s6, c, |s4|, d);
    OccursAppend(s6, z, |s5|, d);
  }

  // ---------------------------------------------------------------------
  // trim

  function TrimStart(s: string): (r: string)
    ensures |r| <= |s| && r == s[|s| - |r|..]
    ensures AllWhitespace(s[..|s| - |r|])
    ensures r == [] || !IsWhitespace(r[0])
  {
    if |s| > 0 && IsWhitespace(s[0]) then
      var r := TrimStart(s[1..]);
      assert s[..|s| - |r|] == [s[0]] + s[1..][..|s| - 1 - |r|];
      r
    else
      s
  }

  function TrimEnd(s: string): (r: string)
    ensures |r| <= |s| && r == s[..|r|]
    ensures AllWhitespace(s[|r|..])
    ensures r == [] || !IsWhitespace(r[|r| - 1])
  {
    if |s| > 0 && IsWhitespace(s[|s| - 1]) then
      var r := TrimEnd(s[..|s| - 1]);
      assert s[|r|..] == s[..|s| - 1][|r|..] + [s[|s| - 1]];
      r
    else
      s
  }

  /** `r` is the slice of `s` starting at `i` once all white space before
      and after it is cut off, and `r` itself neither starts nor ends with
      white space. */
  ghost predicate TrimmedAt(r: string, s: string, i: int) {
    && 0 <= i && i + |r| <= |s| && s[i..i + |r|] == r
    && AllWhitespace(s[..i]) && AllWhitespace(s[i + |r|..])
    && (r == [] || (!IsWhitespace(r[0]) && !IsWhitespace(r[|r| - 1])))
  }

  ghost predicate IsTrimOf(r: string, s: string) {
    exists i :: TrimmedAt(r, s, i)
  }

  /** Cutting the white space off the start of `s`, giving `left`, then off
      the end of `left`, giving `r`, leaves the slice of `s` that starts
      where the leading white space ends. */
  lemma TrimmedFromBothEnds(s: string, left: string, r: string)
    requires |left| <= |s| && left == s[|s| - |left|..] && AllWhitespace(s[..|s| - |left|])
    requires left == [] || !IsWhitespace(left[0])
    requires |r| <= |left| && r == left[..|r|] && AllWhitespace(left[|r|..])
    requires r == [] || !IsWhitespace(r[|r| - 1])
    ensures IsTrimOf(r, s)
    ensures r == [] || (!IsWhitespace(r[0]) && !IsWhitespace(r[|r| - 1]))
  {
    var i := |s| - |left|;
    SlicesOfSuffix(s, i, |r|);
    if r != [] {
      assert r[0] == left[0];
    }
    assert TrimmedAt(r, s, i);
  }

  lemma SlicesOfSuffix(s: string, i: nat, k: nat)
    requires i + k <= |s|
    ensures s[i..][..k] == s[i..i + k] && s[i..][k..] == s[i + k..]
  {
  }

  /** `s.trim()`. */
  function Trim(s: string): (r: string)
    ensures IsTrimOf(r, s)
    ensures r == [] || (!IsWhitespace(r[0]) && !IsWhitespace(r[|r| - 1]))
  {
    var left := TrimStart(s);
    var r := TrimEnd(left);
    TrimmedFromBothEnds(s, left, r);
    r
  }

  lemma TrimmedAtIndices(r: string, s: string, i: int)
    requires TrimmedAt(r, s, i)
    ensures forall j :: 0 <= j < i ==> IsWhitespace(s[j])
    ensures forall j :: i + |r| <= j < |s| ==> IsWhitespace(s[j])
    ensures forall j :: 0 <= j < |r| ==> s[i + j] == r[j]
  {
    forall j | 0 <= j < i ensures IsWhitespace(s[j]) {
      assert s[..i][j] == s[j];
    }
    forall j | i + |r| <= j < |s| ensures IsWhitespace(s[j]) {
      assert s[i + |r|..][j - i - |r|] == s[j];
    }
    forall j | 0 <= j < |r| ensures s[i + j] == r[j] {
      assert s[i..i + |r|][j] == s[i + j];
    }
  }

  /** IsTrimOf determines its result: Trim's contract says all there is
      to say about it. */
  lemma TrimUnique(s: string, r1: string, r2: string)
    requires IsTrimOf(r1, s) && IsTrimOf(r2, s)
    ensures r1 == r2
  {
    var i1 :| TrimmedAt(r1, s, i1);
    var i2 :| TrimmedAt(r2, s, i2);
    TrimmedAtIndices(r1, s, i1);
    TrimmedAtIndices(r2, s, i2);
    if r1 != [] && r2 != [] {
      assert s[i1] == r1[0] && s[i2] == r2[0];
      assert s[i1 + |r1| - 1] == r1[|r1| - 1] && s[i2 + |r2| - 1] == r2[|r2| - 1];
      assert i1 == i2 && |r1| == |r2|;
    }
  }

  // ---------------------------------------------------------------------
  // replace(/\s/g, c), /[a-zA-Z]/.test, substring(0, n)

  /** `s.replace(/\s/g, c)`. */
  function ReplaceWhitespace(s: string, c: char): (r: string)
    ensures |r| == |s|
    ensures forall i :: 0 <= i < |s| ==> r[i] == (if IsWhitespace(s[i]) then c else s[i])
  {
    if s == [] then [] else [if IsWhitespace(s[0]) then c else s[0]] + ReplaceWhitespace(s[1..], c)
  }

  predicate IsAsciiLetter(c: char) {
    'a' <= c <= 'z' || 'A' <= c <= 'Z'
  }

  /** `/[a-zA-Z]/.test(s)`. */
  function HasAsciiLetter(s: string): (b: bool)
    ensures b <==> exists i :: 0 <= i < |s| && IsAsciiLetter(s[i])
  {
    if s == [] then false
    else
      assert forall i :: 0 <= i < |s| - 1 ==> s[1..][i] == s[i + 1];
      IsAsciiLetter(s[0]) || HasAsciiLetter(s[1..])
  }

  /** `s.substring(0, n)` for n >= 0: the first n characters, or all of them
      when there are fewer. */
  function Prefix(s: string, n: nat): (r: string)
    ensures |r| == if |s| < n then |s| else n
    ensures r <= s
  {
    if |s| < n then s else s[..n]
  }

  // ---------------------------------------------------------------------
  // Decimal rendering of integers

  predicate IsDigit(c: char) {
    '0' <= c <= '9'
  }

  ghost predicate AllDigits(s: string) {
    forall i :: 0 <= i < |s| ==> IsDigit(s[i])
  }

  function DigitChar(d: nat): (c: char)
    requires d < 10
    ensures IsDigit(c) && c as int - '0' as int == d
  {
    (d + '0' as int) as char
  }

  /** The decimal digits of n, most significant first, without leading zeros. */
  function NatToString(n: nat): (s: string)
    ensures |s| > 0 && AllDigits(s)
    ensures s[0] == '0' ==> s == "0"
  {
    if n < 10 then [DigitChar(n)] else NatToString(n / 10) + [DigitChar(n % 10)]
  }

  /** The value of a string of decimal digits. */
  function DecimalValue(s: string): nat
    requires AllDigits(s)
  {
    if s == [] then 0 else 10 * DecimalValue(s[..|s| - 1]) + (s[|s| - 1] as int - '0' as int)
  }

  lemma {:induction false} DecimalRoundTrip(n: nat)
    ensures DecimalValue(NatToString(n)) == n
  {
    if n >= 10 {
      var s := NatToString(n);
      assert s[..|s| - 1] == NatToString(n / 10);
      DecimalRoundTrip(n / 10);
    }
  }

  /** How JavaScript renders an integral number: a minus sign for negative
      numbers, then the decimal digits of its magnitude. */
  function IntToString(n: int): (s: string)
    ensures |s| > 0
    ensures n < 0 <==> s[0] == '-'
  {
    if n < 0 then "-" + NatToString(-n) else NatToString(n)
  }

  ghost predicate IsIntString(s: string) {
    |s| > 0 && if s[0] == '-' then AllDigits(s[1..]) else AllDigits(s)
  }

  /** Reading IntToString's output back. */
  function IntValue(s: string): int
    requires IsIntString(s)
  {
    if s[0] == '-' then -(DecimalValue(s[1..]) as int) else DecimalValue(s)
  }

  lemma IntRoundTrip(n: int)
    ensures IsIntString(IntToString(n)) && IntValue(IntToString(n)) == n
  {
    var s := IntToString(n);
    if n < 0 {
      assert s[1..] == NatToString(-n);
      DecimalRoundTrip(-n);
    } else {
      DecimalRoundTrip(n);
    }
  }

  /** Different numbers are rendered differently. */
  lemma IntToStringInjective(a: int, b: int)
    ensures IntToString(a) == IntToString(b) ==> a == b
  {
    IntRoundTrip(a);
    IntRoundTrip(b);
  }
}
