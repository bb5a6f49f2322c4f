/** The Python string operations the dashboard relies on: `str.isspace` and
    `str.strip`, code-point ordering of `str`, `int(...)` on a string,
    `str(...)` of an integer, `str.replace(token, '')` and `sep.join(...)`. */
module Strings {
  import opened Wrappers
  import opened Sorting

  // ---------------------------------------------------------------------------
  // Whitespace and strip()

  /** Python's `str.isspace` for one character. */
  predicate IsSpace(c: char) {
    var n := c as int;
    || (0x09 <= n <= 0x0D) || (0x1C <= n <= 0x20)
    || n == 0x85 || n == 0xA0 || n == 0x1680
    || (0x2000 <= n <= 0x200A)
    || n == 0x2028 || n == 0x2029 || n == 0x202F || n == 0x205F || n == 0x3000
  }

  ghost predicate AllSpace(s: string) {
    forall i :: 0 <= i < |s| ==> IsSpace(s[i])
  }

  /** A string with no whitespace at either end. */
  ghost predicate IsTrimmed(s: string) {
    s == [] || (!IsSpace(s[0]) && !IsSpace(s[|s| - 1]))
  }

  /** `s.lstrip()`: the suffix left after dropping the leading whitespace. */
  function StripLeft(s: string): (r: string)
    ensures |r| <= |s| && r == s[|s| - |r|..]
    ensures r == [] || !IsSpace(r[0])
  {
    if s != [] && IsSpace(s[0]) then StripLeft(s[1..]) else s
  }

  /** What lstrip() drops is whitespace. */
  lemma {:induction false} StripLeftDropsSpace(s: string)
    ensures AllSpace(s[..|s| - |StripLeft(s)|])
  {
    if s != [] && IsSpace(s[0]) {
      StripLeftDropsSpace(s[1..]);
      var k := |s| - |StripLeft(s)|;
      assert s[..k] == [s[0]] + s[1..][..k - 1];
    }
  }

  /** `s.rstrip()`: the prefix left after dropping the trailing whitespace. */
  function StripRight(s: string): (r: string)
    ensures |r| <= |s| && r == s[..|r|]
    ensures r == [] || !IsSpace(r[|r| - 1])
  {
    if s != [] && IsSpace(s[|s| - 1]) then StripRight(s[..|s| - 1]) else s
  }

  /** What rstrip() drops is whitespace. */
  lemma {:induction false} StripRightDropsSpace(s: string)
    ensures AllSpace(s[|StripRight(s)|..])
  {
    if s != [] && IsSpace(s[|s| - 1]) {
      var t := s[..|s| - 1];
      StripRightDropsSpace(t);
      var k := |StripRight(s)|;
      assert s[k..] == t[k..] + [s[|s| - 1]];
    }
  }

  /** `s` is `r` with whitespace only around it. */
  ghost predicate Surrounds(s: string, r: string) {
    exists k :: 0 <= k <= |s| - |r| && r == s[k..k + |r|] && AllSpace(s[..k]) && AllSpace(s[k + |r|..])
  }

  /** `s.strip()`. */
  function Strip(s: string): (r: string)
    ensures IsTrimmed(r)
    ensures |r| <= |s|
  {
    StripRight(StripLeft(s))
  }

  /** strip() removes whitespace only, and only at the two ends: `s` is
      `s.strip()` surrounded by whitespace. */
  lemma StripSurrounds(s: string)
    ensures Surrounds(s, Strip(s))
  {
    var left := StripLeft(s);
    var r := StripRight(left);
    var k := |s| - |left|;
    StripLeftDropsSpace(s);
    StripRightDropsSpace(left);
    assert r == s[k..k + |r|];
    assert s[k + |r|..] == left[|r|..];
    assert AllSpace(s[..k]) && AllSpace(s[k + |r|..]);
  }

  /** Stripping a string that is already trimmed changes nothing. */
  lemma StripTrimmed(s: string)
    requires IsTrimmed(s)
    ensures Strip(s) == s
  {
  }

  /** Leading whitespace is skipped by lstrip(). */
  lemma StripLeftSpace(c: char, t: string)
    requires IsSpace(c)
    ensures StripLeft([c] + t) == StripLeft(t)
  {
    assert ([c] + t)[1..] == t;
  }

  /** A whole run of leading whitespace is skipped by lstrip(). */
  lemma {:induction false} StripLeftSpaces(pad: string, t: string)
    requires AllSpace(pad)
    ensures StripLeft(pad + t) == StripLeft(t)
    decreases |pad|
  {
    if pad != [] {
      assert pad + t == [pad[0]] + (pad[1..] + t);
      StripLeftSpace(pad[0], pad[1..] + t);
      StripLeftSpaces(pad[1..], t);
    } else {
      assert pad + t == t;
    }
  }

  /** Leading whitespace before a trimmed text is all that strip() removes. */
  lemma StripPadded(pad: string, t: string)
    requires AllSpace(pad) && IsTrimmed(t)
    ensures Strip(pad + t) == t
  {
    StripLeftSpaces(pad, t);
    StripTrimmed(t);
  }

  /** strip() is idempotent. */
  lemma StripIdempotent(s: string)
    ensures Strip(Strip(s)) == Strip(s)
  {
    StripTrimmed(Strip(s));
  }

  // ---------------------------------------------------------------------------
  // Code-point ordering of strings

  /** Python's `a < b` on `str`: lexicographic by code point, a proper prefix
      being smaller. */
  predicate StrLess(a: string, b: string) {
    if a == [] then b != []
    else if b == [] then false
    else if a[0] != b[0] then a[0] < b[0]
    else StrLess(a[1..], b[1..])
  }

  lemma {:induction false} StrLessIrreflexive(a: string)
    ensures !StrLess(a, a)
  {
    if a != [] {
      StrLessIrreflexive(a[1..]);
    }
  }

  lemma {:induction false} StrLessTransitive(a: string, b: string, c: string)
    requires StrLess(a, b) && StrLess(b, c)
    ensures StrLess(a, c)
  {
    if a != [] && a[0] == b[0] && b[0] == c[0] {
      StrLessTransitive(a[1..], b[1..], c[1..]);
    }
  }

  lemma {:induction false} StrLessTotal(a: string, b: string)
    requires a != b
    ensures StrLess(a, b) || StrLess(b, a)
  {
    if a != [] && b != [] && a[0] == b[0] {
      assert a == [a[0]] + a[1..] && b == [b[0]] + b[1..];
      StrLessTotal(a[1..], b[1..]);
    }
  }

  /** Code-point order is a strict total order, so `sorted` on strings is
      well defined. */
  lemma StrLessIsStrictTotalOrder()
    ensures IsStrictTotalOrder(StrLess)
  {
    forall a ensures !StrLess(a, a) {
      StrLessIrreflexive(a);
    }
    forall a, b, c | StrLess(a, b) && StrLess(b, c) ensures StrLess(a, c) {
      StrLessTransitive(a, b, c);
    }
    forall a, b | a != b ensures StrLess(a, b) || StrLess(b, a) {
      StrLessTotal(a, b);
    }
  }

  // ---------------------------------------------------------------------------
  // int(s) and str(n)

  predicate IsDigit(c: char) {
    '0' <= c <= '9'
  }

  predicate AllDigits(s: string) {
    forall i :: 0 <= i < |s| ==> IsDigit(s[i])
  }

  /** A digit string has no whitespace at either end. */
  lemma DigitsTrimmed(digits: string)
    requires AllDigits(digits)
    ensures IsTrimmed(digits)
  {
    if digits != [] {
      assert IsDigit(digits[0]) && IsDigit(digits[|digits| - 1]);
    }
  }

  function DigitValue(c: char): nat
    requires IsDigit(c)
  {
    (c as int) - ('0' as int)
  }

  function DigitChar(d: nat): char
    requires d < 10
  {
    (('0' as int) + d) as char
  }

  /** The value of a string of decimal digits (leading zeros allowed). */
  function DigitsValue(s: string): nat
    requires AllDigits(s)
  {
    if s == [] then 0 else DigitsValue(s[..|s| - 1]) * 10 + DigitValue(s[|s| - 1])
  }

  /** Python's `int(s)` on an already stripped string: an optional sign
      followed by one or more ASCII digits; anything else is the ValueError
      case, here `None`. */
  function ParseInt(s: string): Option<int> {
    if s == [] then None
    else if s[0] == '-' || s[0] == '+' then
      var digits := s[1..];
      if digits != [] && AllDigits(digits) then
        var v: int := DigitsValue(digits);
        Some(if s[0] == '-' then -v else v)
      else None
    else if AllDigits(s) then Some(DigitsValue(s))
    else None
  }

  /** Decimal digits of a natural number, without leading zeros. */
  function NatToString(n: nat): string {
    if n < 10 then [DigitChar(n)] else NatToString(n / 10) + [DigitChar(n % 10)]
  }

  /** Python's `str(n)` for an integer. */
  function IntToString(n: int): string {
    if n < 0 then "-" + NatToString(-n) else NatToString(n)
  }

  lemma {:induction false} NatToStringDigits(n: nat)
    ensures NatToString(n) != [] && AllDigits(NatToString(n))
    ensures DigitsValue(NatToString(n)) == n
  {
    if n >= 10 {
      NatToStringDigits(n / 10);
      var s := NatToString(n);
      assert s[..|s| - 1] == NatToString(n / 10);
    }
  }

  /** `int(str(n)) == n`: printing an integer and parsing it back is lossless. */
  lemma ParseIntToString(n: int)
    ensures ParseInt(IntToString(n)) == Some(n)
  {
    var digits := NatToString(if n < 0 then -n else n);
    NatToStringDigits(if n < 0 then -n else n);
    if n < 0 {
      assert IntToString(n)[1..] == digits;
    }
  }

  /** `str(n)` starts and ends with a digit or a minus sign: never whitespace. */
  lemma IntToStringShape(n: int)
    ensures IntToString(n) != []
    ensures forall i :: 0 <= i < |IntToString(n)| ==> IsDigit(IntToString(n)[i]) || IntToString(n)[i] == '-'
  {
    NatToStringDigits(if n < 0 then -n else n);
  }

  /** Leading zeros do not change the parsed value: "01" and "1" both read 1. */
  lemma ParseIntLeadingZero()
    ensures AllDigits("01") && AllDigits("1")
    ensures DigitsValue("01") == DigitsValue("1") == 1
    ensures ParseInt("01") == ParseInt("1") == Some(1)
  {
    assert "01"[..1] == "0";
    assert "1"[..0] == "0"[..0] == [];
  }

  // ---------------------------------------------------------------------------
  // s.replace(token, '')

  /** Python's `s.replace(tok, '')`: removes the non-overlapping occurrences of
      `tok` found scanning from left to right. */
  function RemoveAll(s: string, tok: string): (r: string)
    requires tok != []
    ensures |r| <= |s|
    ensures forall i :: 0 <= i < |r| ==> r[i] in s
    decreases |s|
  {
    if |s| < |tok| then s
    else if s[..|tok|] == tok then
      var rest := RemoveAll(s[|tok|..], tok);
      assert forall i :: 0 <= i < |rest| ==> rest[i] in s by {
        forall i | 0 <= i < |rest| ensures rest[i] in s {
          assert rest[i] in s[|tok|..];
        }
      }
      rest
    else
      var rest := RemoveAll(s[1..], tok);
      assert forall i :: 0 <= i < |rest| ==> rest[i] in s by {
        forall i | 0 <= i < |rest| ensures rest[i] in s {
          assert rest[i] in s[1..];
        }
      }
      [s[0]] + rest
  }

  /** A string that does not contain the first character of `tok` has no
      occurrence to remove. */
  lemma {:induction false} RemoveAllAbsent(s: string, tok: string)
    requires tok != []
    requires forall i :: 0 <= i < |s| ==> s[i] != tok[0]
    ensures RemoveAll(s, tok) == s
    decreases |s|
  {
    if |s| >= |tok| {
      assert s[..|tok|][0] != tok[0];
      RemoveAllAbsent(s[1..], tok);
      assert s == [s[0]] + s[1..];
    }
  }

  /** Removal of a token that starts the string. */
  lemma RemoveAllPrefix(tok: string, s: string)
    requires tok != []
    ensures RemoveAll(tok + s, tok) == RemoveAll(s, tok)
  {
    assert (tok + s)[..|tok|] == tok;
    assert (tok + s)[|tok|..] == s;
  }

  /** A first character that cannot start the token is kept. */
  lemma RemoveAllKeepFirst(c: char, t: string, tok: string)
    requires tok != [] && c != tok[0]
    ensures RemoveAll([c] + t, tok) == [c] + RemoveAll(t, tok)
  {
    var s := [c] + t;
    assert s[1..] == t;
    if |s| >= |tok| {
      assert s[..|tok|][0] == c;
    }
  }

  /** One step of the walk over a stretch: the kept first character goes
      in front of what the rest of the walk produced. */
  lemma RemoveAllSkipStep(a: string, b: string, tok: string)
    requires tok != [] && a != [] && a[0] != tok[0]
    requires RemoveAll(a[1..] + b, tok) == a[1..] + RemoveAll(b, tok)
    ensures RemoveAll(a + b, tok) == a + RemoveAll(b, tok)
  {
    var t, r := a[1..], RemoveAll(b, tok);
    calc {
      RemoveAll(a + b, tok);
    == { assert a + b == [a[0]] + (t + b); }
      RemoveAll([a[0]] + (t + b), tok);
    == { RemoveAllKeepFirst(a[0], t + b, tok); }
      [a[0]] + (t + r);
    == { assert a == [a[0]] + t; }
      a + r;
    }
  }

  /** A stretch without the token's first character is kept as it is, and
      the removal goes on after it. */
  lemma {:induction false} RemoveAllSkip(a: string, b: string, tok: string)
    requires tok != []
    requires forall k :: 0 <= k < |a| ==> a[k] != tok[0]
    ensures RemoveAll(a + b, tok) == a + RemoveAll(b, tok)
    decreases |a|
  {
    if a == [] {
      assert a + b == b;
    } else {
      RemoveAllSkip(a[1..], b, tok);
      RemoveAllSkipStep(a, b, tok);
    }
  }

  /** The first occurrence of the token, wherever it stands, is removed, and
      the removal goes on after it. */
  lemma RemoveAllOccurrence(a: string, b: string, tok: string)
    requires tok != []
    requires forall k :: 0 <= k < |a| ==> a[k] != tok[0]
    ensures RemoveAll(a + tok + b, tok) == a + RemoveAll(b, tok)
  {
    assert a + tok + b == a + (tok + b);
    RemoveAllSkip(a, tok + b, tok);
    RemoveAllPrefix(tok, b);
  }

  // ---------------------------------------------------------------------------
  // sep.join(parts) and character counts

  /** Python's `sep.join(parts)`. */
  function Join(sep: string, parts: seq<string>): string {
    if parts == [] then ""
    else if |parts| == 1 then parts[0]
    else parts[0] + sep + Join(sep, parts[1..])
  }

  /** `s.count(c)` for a single character. */
  function Count(c: char, s: string): nat {
    if s == [] then 0 else (if s[0] == c then 1 else 0) + Count(c, s[1..])
  }

  lemma {:induction false} CountAppend(c: char, a: string, b: string)
    ensures Count(c, a + b) == Count(c, a) + Count(c, b)
  {
    if a != [] {
      assert (a + b)[0] == a[0] && (a + b)[1..] == a[1..] + b;
      CountAppend(c, a[1..], b);
    } else {
      assert a + b == b;
    }
  }

  /** Counting a character in a join: the parts' counts plus one separator's
      count between each pair of neighbouring parts. */
  lemma {:induction false} CountJoin(c: char, sep: string, parts: seq<string>)
    requires parts != []
    requires Count(c, sep) == 0
    requires forall i :: 0 <= i < |parts| ==> Count(c, parts[i]) == 1
    ensures Count(c, Join(sep, parts)) == |parts|
  {
    if |parts| > 1 {
      CountJoin(c, sep, parts[1..]);
      CountAppend(c, parts[0], sep);
      CountAppend(c, parts[0] + sep, Join(sep, parts[1..]));
    }
  }
}
