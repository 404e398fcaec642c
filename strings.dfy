/** The string operations the backend relies on, written out: Python's default
    ordering of `str` values (code point by code point), prefix and substring
    tests as a database LIKE pattern uses them, and `str()` of an integer. */
module Strings {

  /** Python's `a < b` on `str`: the first differing code point decides, and a
      proper prefix sorts before the longer string. */
  predicate Less(a: string, b: string)
    decreases |a|
  {
    if a == [] then b != []
    else if b == [] then false
    else if a[0] == b[0] then Less(a[1..], b[1..])
    else a[0] < b[0]
  }

  lemma {:induction false} LessIrreflexive(a: string)
    ensures !Less(a, a)
    decreases |a|
  {
    if a != [] {
      LessIrreflexive(a[1..]);
    }
  }

  lemma {:induction false} LessAsymmetric(a: string, b: string)
    requires Less(a, b)
    ensures !Less(b, a)
    decreases |a|
  {
    if a != [] && b != [] && a[0] == b[0] {
      LessAsymmetric(a[1..], b[1..]);
    }
  }

  lemma {:induction false} LessTransitive(a: string, b: string, c: string)
    requires Less(a, b) && Less(b, c)
    ensures Less(a, c)
    decreases |a|
  {
    if a != [] && a[0] == b[0] && b[0] == c[0] {
      LessTransitive(a[1..], b[1..], c[1..]);
    }
  }

  /** Any two distinct strings are ordered one way or the other. */
  lemma {:induction false} LessTotal(a: string, b: string)
    ensures a == b || Less(a, b) || Less(b, a)
    decreases |a|
  {
    if a != [] && b != [] && a[0] == b[0] {
      LessTotal(a[1..], b[1..]);
      if a[1..] == b[1..] {
        assert a == [a[0]] + a[1..] && b == [b[0]] + b[1..];
      }
    }
  }

  predicate StartsWith(s: string, prefix: string) {
    |prefix| <= |s| && s[..|prefix|] == prefix
  }

  /** `keyword` occurs somewhere in `s` (LIKE '%keyword%'). */
  predicate Contains(s: string, keyword: string)
    decreases |s|
  {
    StartsWith(s, keyword) || (s != [] && Contains(s[1..], keyword))
  }

  /** Every string contains the empty keyword, and a prefix is an occurrence. */
  lemma ContainsEmptyAndPrefix(s: string, keyword: string)
    ensures Contains(s, "")
    ensures StartsWith(s, keyword) ==> Contains(s, keyword)
  {
  }

  /** An occurrence at position `i` makes `Contains` true. */
  lemma {:induction false} ContainsAt(s: string, keyword: string, i: nat)
    requires i + |keyword| <= |s| && s[i..i + |keyword|] == keyword
    ensures Contains(s, keyword)
    decreases i
  {
    if i > 0 {
      assert s[1..][i - 1..i - 1 + |keyword|] == s[i..i + |keyword|];
      ContainsAt(s[1..], keyword, i - 1);
    }
  }

  predicate IsDigit(c: char) {
    '0' <= c <= '9'
  }

  predicate AllDigits(s: string) {
    forall i :: 0 <= i < |s| ==> IsDigit(s[i])
  }

  function DigitChar(d: nat): (c: char)
    requires d < 10
    ensures IsDigit(c)
  {
    ('0' as int + d) as char
  }

  /** Decimal digits of a natural number, most significant first, without
      leading zeros. */
  function NatToString(n: nat): (s: string)
    ensures |s| >= 1 && AllDigits(s)
    ensures |s| > 1 ==> s[0] != '0'
    decreases n
  {
    if n < 10 then [DigitChar(n)] else NatToString(n / 10) + [DigitChar(n % 10)]
  }

  /** Python's `str(v)` for an `int`: a minus sign for negative values, then
      the decimal digits. */
  function IntToString(v: int): (s: string)
    ensures |s| >= 1
    ensures (s[0] == '-') <==> v < 0
  {
    if v < 0 then "-" + NatToString(-v) else NatToString(v)
  }

  /** The value of a digit string (the partner of NatToString). */
  function DecimalValue(s: string): nat
    requires AllDigits(s)
  {
    if s == [] then 0 else 10 * DecimalValue(s[..|s| - 1]) + (s[|s| - 1] as int - '0' as int)
  }

  /** The value of an optional minus sign followed by digits. */
  function ParseInt(s: string): int
    requires |s| >= 1
    requires s[0] == '-' ==> AllDigits(s[1..])
    requires s[0] != '-' ==> AllDigits(s)
  {
    if s[0] == '-' then 0 - DecimalValue(s[1..]) as int else DecimalValue(s)
  }

  lemma {:induction false} NatToStringRoundTrip(n: nat)
    ensures DecimalValue(NatToString(n)) == n
    decreases n
  {
    if n >= 10 {
      NatToStringRoundTrip(n / 10);
      var s := NatToString(n);
      assert s[..|s| - 1] == NatToString(n / 10);
    }
  }

  /** Reading back `str(v)` gives `v`, so distinct totals print differently. */
  lemma IntToStringRoundTrip(v: int)
    ensures var s := IntToString(v); (s[0] == '-' ==> AllDigits(s[1..])) && (s[0] != '-' ==> AllDigits(s)) && ParseInt(s) == v
  {
    if v < 0 {
      NatToStringRoundTrip(-v);
      assert IntToString(v)[1..] == NatToString(-v);
    } else {
      NatToStringRoundTrip(v);
    }
  }

  /** `"_" * n` in Python. */
  function Underscores(n: nat): (s: string)
    ensures |s| == n && forall i :: 0 <= i < n ==> s[i] == '_'
  {
    seq(n, i => '_')
  }
}
