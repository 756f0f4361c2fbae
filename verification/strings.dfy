/**
 * The handful of Python string operations the spray code relies on:
 * ASCII character classes, `str(n)` for a non-negative integer,
 * `sep.join(parts)`, `s.lower()` and the `in` substring test.
 */
module Strings {

  predicate IsDigit(c: char) { '0' <= c <= '9' }

  predicate IsLetter(c: char) { 'A' <= c <= 'Z' || 'a' <= c <= 'z' }

  predicate IsAlnum(c: char) { IsDigit(c) || IsLetter(c) }

  predicate AllDigits(s: string) { forall i :: 0 <= i < |s| ==> IsDigit(s[i]) }

  predicate AllAlnum(s: string) { forall i :: 0 <= i < |s| ==> IsAlnum(s[i]) }

  /** The identifiers matched by `^[A-Za-z][A-Za-z0-9]*$`. */
  predicate IsIdentifier(s: string) { |s| > 0 && IsLetter(s[0]) && AllAlnum(s) }

  predicate StartsWith(s: string, prefix: string) { |prefix| <= |s| && s[..|prefix|] == prefix }

  predicate EndsWith(s: string, suffix: string) { |suffix| <= |s| && s[|s| - |suffix|..] == suffix }

  /** Python's `t in s` for strings. */
  predicate Contains(s: string, t: string)
    decreases |s|
  {
    StartsWith(s, t) || (|s| > 0 && Contains(s[1..], t))
  }

  function DigitChar(d: nat): (c: char)
    requires d < 10
    ensures IsDigit(c) && c as int - '0' as int == d
  {
    ('0' as int + d) as char
  }

  /** Python's `str(n)` for a non-negative integer: decimal, no leading zeros. */
  function NatToString(n: nat): (s: string)
    ensures |s| > 0 && AllDigits(s)
    ensures n == 0 ==> s == "0"
    ensures n > 0 ==> s[0] != '0'
  {
    if n < 10 then [DigitChar(n)] else NatToString(n / 10) + [DigitChar(n % 10)]
  }

  /** The number a string of decimal digits denotes. */
  function DigitsValue(s: string): nat
    requires AllDigits(s)
  {
    if s == [] then 0
    else DigitsValue(s[..|s| - 1]) * 10 + (s[|s| - 1] as int - '0' as int)
  }

  /** Reading back what `str(n)` wrote gives n. */
  lemma {:induction false} NatToStringRoundTrip(n: nat)
    ensures DigitsValue(NatToString(n)) == n
  {
    if n >= 10 {
      NatToStringRoundTrip(n / 10);
      var s := NatToString(n);
      assert s[..|s| - 1] == NatToString(n / 10);
    }
  }

  /** Distinct numbers are rendered as distinct strings. */
  lemma NatToStringInjective(a: nat, b: nat)
    requires NatToString(a) == NatToString(b)
    ensures a == b
  {
    NatToStringRoundTrip(a);
    NatToStringRoundTrip(b);
  }

  /** Python's `sep.join(parts)`. */
  function Join(sep: string, parts: seq<string>): (joined: string)
    ensures parts == [] ==> joined == ""
    ensures |parts| == 1 ==> joined == parts[0]
  {
    if |parts| == 0 then ""
    else if |parts| == 1 then parts[0]
    else parts[0] + sep + Join(sep, parts[1..])
  }

  /** The join starts with the first part's first character and ends with the last part's last one. */
  lemma {:induction false} JoinEnds(sep: string, parts: seq<string>)
    requires |parts| > 0 && forall i :: 0 <= i < |parts| ==> parts[i] != ""
    ensures var joined := Join(sep, parts);
            joined != "" && joined[0] == parts[0][0]
            && joined[|joined| - 1] == parts[|parts| - 1][|parts[|parts| - 1]| - 1]
  {
    if |parts| > 1 {
      JoinEnds(sep, parts[1..]);
    }
  }

  /** Joining two non-empty lists puts one separator between the two joins, so order is kept. */
  lemma {:induction false} JoinAppend(sep: string, a: seq<string>, b: seq<string>)
    requires |a| > 0 && |b| > 0
    ensures Join(sep, a + b) == Join(sep, a) + sep + Join(sep, b)
  {
    if |a| == 1 {
      assert (a + b)[1..] == b;
    } else {
      JoinAppend(sep, a[1..], b);
      assert (a + b)[1..] == a[1..] + b;
    }
  }

  /** A join whose first part is followed by a non-empty tail is that part, the separator, then the tail's join. */
  lemma JoinFront(sep: string, parts: seq<string>, first: string, tail: seq<string>, rest: string, whole: string)
    requires parts == [first] + tail && tail != []
    requires Join(sep, tail) == rest && whole == first + sep + rest
    ensures Join(sep, parts) == whole
  {
    JoinAppend(sep, [first], tail);
  }

  /** The pieces of `a + b + c` sit at their offsets. */
  lemma ConcatPieces(a: string, b: string, c: string)
    ensures (a + b + c)[..|a|] == a
    ensures (a + b + c)[|a|..|a| + |b|] == b
    ensures (a + b + c)[|a| + |b|..] == c
  {
  }

  function LowerChar(c: char): char {
    if 'A' <= c <= 'Z' then (c as int - 'A' as int + 'a' as int) as char else c
  }

  /** `s.lower()` restricted to ASCII letters. */
  function Lower(s: string): string {
    seq(|s|, i requires 0 <= i < |s| => LowerChar(s[i]))
  }

  /** A string that starts with `t` somewhere contains it. */
  lemma {:induction false} ContainsAt(s: string, t: string, k: nat)
    requires k <= |s| && StartsWith(s[k..], t)
    ensures Contains(s, t)
    decreases k
  {
    if k == 0 {
      assert s[0..] == s;
    } else {
      assert s[1..][k - 1..] == s[k..];
      ContainsAt(s[1..], t, k - 1);
    }
  }

  /** A string lacking one of the characters of `t` does not contain `t`. */
  lemma {:induction false} NotContainsMissingChar(s: string, t: string, j: nat)
    requires j < |t|
    requires forall i :: 0 <= i < |s| ==> s[i] != t[j]
    ensures !Contains(s, t)
    decreases |s|
  {
    assert !StartsWith(s, t) by {
      if |t| <= |s| {
        assert s[..|t|][j] == s[j] != t[j];
      }
    }
    if |s| > 0 {
      assert forall i :: 0 <= i < |s[1..]| ==> s[1..][i] == s[i + 1] != t[j];
      NotContainsMissingChar(s[1..], t, j);
    }
  }
}
