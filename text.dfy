/**
 * The few pieces of Python's `str` the core relies on: `strip()`,
 * `split(sep, 1)[0]`, `split(sep)`, `isalnum()` and decimal `int`/`str`
 * conversion.
 */
module Text {

  /** The characters Python's `str.isspace()` accepts, which `str.strip()` removes. */
  predicate IsSpace(c: char) {
    || c == ' '
    || '\U{9}' <= c <= '\U{D}'
    || '\U{1C}' <= c <= '\U{1F}'
    || c == '\U{85}' || c == '\U{A0}' || c == '\U{1680}'
    || '\U{2000}' <= c <= '\U{200A}'
    || c == '\U{2028}' || c == '\U{2029}' || c == '\U{202F}' || c == '\U{205F}' || c == '\U{3000}'
  }

  predicate AllSpace(s: string) {
    forall i :: 0 <= i < |s| ==> IsSpace(s[i])
  }

  /** Neither the first nor the last character is whitespace. */
  predicate NoOuterSpace(s: string) {
    s == [] || (!IsSpace(s[0]) && !IsSpace(s[|s| - 1]))
  }

  /** Python's `str.lstrip()`: the longest suffix that does not start with whitespace. */
  function StripLeft(s: string): (r: string)
    ensures |r| <= |s| && r == s[|s| - |r|..]
    ensures AllSpace(s[..|s| - |r|])
    ensures r == [] || !IsSpace(r[0])
  {
    if s != [] && IsSpace(s[0]) then StripLeft(s[1..]) else s
  }

  /** Python's `str.rstrip()`: the longest prefix that does not end with whitespace. */
  function StripRight(s: string): (r: string)
    ensures r <= s
    ensures AllSpace(s[|r|..])
    ensures r == [] || !IsSpace(r[|r| - 1])
  {
    if s != [] && IsSpace(s[|s| - 1]) then StripRight(s[..|s| - 1]) else s
  }

  /** `s` with whitespace runs `s[..i]` and `s[j..]` cut off leaves `r`. */
  ghost predicate TrimmedAt(s: string, r: string, i: nat, j: nat) {
    i <= j <= |s| && r == s[i..j] && AllSpace(s[..i]) && AllSpace(s[j..])
  }

  /** Cutting a whitespace prefix and then a whitespace suffix is one trim. */
  lemma TrimmedBy(s: string, l: string, r: string)
    requires |l| <= |s| && l == s[|s| - |l|..] && AllSpace(s[..|s| - |l|])
    requires l == [] || !IsSpace(l[0])
    requires r <= l && AllSpace(l[|r|..])
    requires r == [] || !IsSpace(r[|r| - 1])
    ensures NoOuterSpace(r)
    ensures TrimmedAt(s, r, |s| - |l|, |s| - |l| + |r|)
  {
    var i, j := |s| - |l|, |s| - |l| + |r|;
    assert r == s[i..j];
    assert s[j..] == l[|r|..];
    assert r != [] ==> r[0] == l[0];
  }

  /** Python's `str.strip()` with no argument. */
  function Strip(s: string): (r: string)
    ensures NoOuterSpace(r)
    ensures exists i: nat, j: nat :: TrimmedAt(s, r, i, j)
  {
    var l := StripLeft(s);
    var r := StripRight(l);
    TrimmedBy(s, l, r);
    r
  }

  lemma StripKeepsUnpadded(s: string)
    requires NoOuterSpace(s)
    ensures Strip(s) == s
  {
  }

  /** Python's `s.split(c, 1)[0]`: everything before the first `c`. */
  function TakeUntil(s: string, c: char): (r: string)
    ensures r <= s && c !in r
    ensures |r| < |s| ==> s[|r|] == c
  {
    if s == [] || s[0] == c then [] else [s[0]] + TakeUntil(s[1..], c)
  }

  lemma {:induction false} TakeUntilBeforeSeparator(a: string, c: char, b: string)
    requires c !in a
    ensures TakeUntil(a + [c] + b, c) == a
  {
    if a != [] {
      assert (a + [c] + b)[1..] == a[1..] + [c] + b;
      TakeUntilBeforeSeparator(a[1..], c, b);
    }
  }

  /** Inverse of `Split`: the parts separated by `c`. */
  function Join(parts: seq<string>, c: char): string
    requires |parts| >= 1
  {
    if |parts| == 1 then parts[0] else parts[0] + [c] + Join(parts[1..], c)
  }

  /** Python's `s.split(c)` for a single-character separator. */
  function Split(s: string, c: char): (parts: seq<string>)
    ensures |parts| >= 1
    ensures forall k :: 0 <= k < |parts| ==> c !in parts[k]
    ensures Join(parts, c) == s
    decreases |s|
  {
    var head := TakeUntil(s, c);
    if |head| == |s| then
      assert head == s;
      [s]
    else
      var rest := Split(s[|head| + 1..], c);
      assert s == head + [c] + s[|head| + 1..];
      JoinCons(head, rest, c);
      var parts := [head] + rest;
      assert forall k :: 1 <= k < |parts| ==> parts[k] == rest[k - 1];
      parts
  }

  lemma JoinCons(head: string, rest: seq<string>, c: char)
    requires |rest| >= 1
    ensures Join([head] + rest, c) == head + [c] + Join(rest, c)
  {
    assert ([head] + rest)[1..] == rest;
  }

  /** Splitting at the first separator leaves the part before it and splits the rest. */
  lemma SplitStep(head: string, c: char, tail: string)
    requires c !in head
    ensures Split(head + [c] + tail, c) == [head] + Split(tail, c)
  {
    var s := head + [c] + tail;
    TakeUntilBeforeSeparator(head, c, tail);
    assert s[|head| + 1..] == tail;
  }

  lemma {:induction false} SplitJoin(parts: seq<string>, c: char)
    requires |parts| >= 1
    requires forall k :: 0 <= k < |parts| ==> c !in parts[k]
    ensures Split(Join(parts, c), c) == parts
    decreases |parts|
  {
    if |parts| == 1 {
      assert TakeUntil(parts[0], c) == parts[0];
    } else {
      assert c !in parts[0];
      SplitStep(parts[0], c, Join(parts[1..], c));
      SplitJoin(parts[1..], c);
      assert parts == [parts[0]] + parts[1..];
    }
  }

  // ---------------------------------------------------------------- decimal

  predicate IsDigit(c: char) {
    '0' <= c <= '9'
  }

  predicate IsAsciiLetter(c: char) {
    'a' <= c <= 'z' || 'A' <= c <= 'Z'
  }

  predicate AllDigits(s: string) {
    forall i :: 0 <= i < |s| ==> IsDigit(s[i])
  }

  /** Python's `str.isalnum()`, restricted to ASCII: non-empty, letters and digits only. */
  predicate IsAlnum(s: string) {
    s != [] && forall i :: 0 <= i < |s| ==> IsAsciiLetter(s[i]) || IsDigit(s[i])
  }

  function DigitValue(c: char): (d: nat)
    requires IsDigit(c)
    ensures d < 10
  {
    c as int - '0' as int
  }

  function DigitChar(d: nat): (c: char)
    requires d < 10
    ensures IsDigit(c) && DigitValue(c) == d
  {
    ('0' as int + d) as char
  }

  /** The number a string of decimal digits denotes, as `int(s, 10)` reads it. */
  function Value(s: string): nat
    requires AllDigits(s)
  {
    if s == [] then 0 else 10 * Value(s[..|s| - 1]) + DigitValue(s[|s| - 1])
  }

  /** Leading zeros are absent: only "0" itself may start with '0'. */
  predicate Canonical(s: string) {
    |s| >= 1 && AllDigits(s) && (s[0] == '0' ==> s == "0")
  }

  /** Python's `str(n)` for `n >= 0`. */
  function NatToString(n: nat): (r: string)
    ensures Canonical(r) && Value(r) == n
    decreases n
  {
    if n < 10 then [DigitChar(n)]
    else
      var r := NatToString(n / 10) + [DigitChar(n % 10)];
      assert r[..|r| - 1] == NatToString(n / 10);
      r
  }

  /** Python's `str(i)` for any integer: canonical decimal digits, after a `-` when negative. */
  function IntToString(i: int): (r: string)
    ensures i >= 0 ==> Canonical(r) && Value(r) == i
    ensures i < 0 ==> |r| >= 2 && r[0] == '-' && Canonical(r[1..]) && Value(r[1..]) == -i
  {
    if i < 0 then "-" + NatToString(-i) else NatToString(i)
  }

  lemma {:induction false} ValueOfLeadingNonZero(s: string)
    requires |s| >= 1 && AllDigits(s) && s[0] != '0'
    ensures Value(s) >= 1
  {
    if |s| > 1 {
      ValueOfLeadingNonZero(s[..|s| - 1]);
    }
  }

  /** Decimal rendering is the inverse of reading a canonical digit string. */
  lemma {:induction false} CanonicalRoundTrip(s: string)
    requires Canonical(s)
    ensures NatToString(Value(s)) == s
    decreases |s|
  {
    if |s| > 1 {
      var init := s[..|s| - 1];
      ValueOfLeadingNonZero(init);
      CanonicalRoundTrip(init);
      assert s == init + [s[|s| - 1]];
    }
  }

  lemma NatToStringShort(n: nat)
    requires n < 1000
    ensures |NatToString(n)| <= 3
  {
    if n >= 10 {
      var m := n / 10;
      assert |NatToString(n)| == |NatToString(m)| + 1;
      if m >= 10 {
        assert |NatToString(m)| == |NatToString(m / 10)| + 1;
        assert m / 10 < 10;
      }
    }
  }

  lemma DigitsHaveNoSeparator(s: string, c: char)
    requires AllDigits(s) && !IsDigit(c)
    ensures c !in s
  {
  }
}
