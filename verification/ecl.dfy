/**
 * ECL string literals as the spray code writes them, a reader for such
 * literals, and the naming scheme of the temporary logical files.
 */
module Ecl {
  import opened Wrappers
  import opened Strings

  /**
   * `s.replace("'", "\\'")`: a backslash goes in front of every single quote, so
   * no quote of the result stands bare.
   */
  function EscapeQuotes(s: string): (escaped: string)
    ensures escaped == [] <==> s == []
    ensures s != [] ==> escaped[0] != '\''
    ensures forall i :: 0 <= i < |escaped| && escaped[i] == '\'' ==> 0 < i && escaped[i - 1] == '\\'
  {
    if s == [] then [] else (if s[0] == '\'' then "\\'" else [s[0]]) + EscapeQuotes(s[1..])
  }

  /** Every single quote strictly inside the literal has a backslash in front of it. */
  ghost predicate InnerQuotesEscaped(literal: string)
  {
    forall i, j :: 0 <= i < j < |literal| - 1 && j == i + 1 && literal[j] == '\'' ==> literal[i] == '\\'
  }

  /**
   * `"'" + s.replace("'", "\\'") + "'"`: a cell value as an ECL string literal.
   * It starts and ends with a quote, no quote inside it stands bare, and
   * unescaping what lies between gives the value back.
   */
  function QuoteLiteral(s: string): (literal: string)
    ensures |literal| >= 2 && literal[0] == '\'' && literal[|literal| - 1] == '\''
    ensures InnerQuotesEscaped(literal)
    ensures UnescapeQuotes(literal[1..|literal| - 1]) == s
  {
    var escaped := EscapeQuotes(s);
    var literal := "'" + escaped + "'";
    assert literal[1..|literal| - 1] == escaped;
    assert forall i :: 1 <= i < |literal| - 1 ==> literal[i] == escaped[i - 1];
    UnescapeEscapeQuotes(s);
    literal
  }

  /** Turns every `\'` back into `'` and keeps everything else. */
  function UnescapeQuotes(t: string): string
    decreases |t|
  {
    if t == [] then []
    else if |t| >= 2 && t[0] == '\\' && t[1] == '\'' then "'" + UnescapeQuotes(t[2..])
    else [t[0]] + UnescapeQuotes(t[1..])
  }

  /** Escaping loses nothing: unescaping the single quotes gives the value back. */
  lemma {:induction false} UnescapeEscapeQuotes(s: string)
    ensures UnescapeQuotes(EscapeQuotes(s)) == s
  {
    if s != [] {
      var rest := EscapeQuotes(s[1..]);
      UnescapeEscapeQuotes(s[1..]);
      if s[0] == '\'' {
        assert EscapeQuotes(s) == "\\'" + rest;
        assert (("\\'" + rest)[2..]) == rest;
      } else {
        assert EscapeQuotes(s) == [s[0]] + rest;
        assert ([s[0]] + rest)[1..] == rest;
      }
    }
  }

  /**
   * Reads the body of an ECL string literal up to its closing quote, a backslash
   * taking the next character as it is.  Gives the value and the text after the
   * closing quote, or None when the closing quote is missing.
   */
  function ReadLiteralBody(t: string): Option<(string, string)>
    decreases |t|
  {
    if t == [] then None
    else if t[0] == '\'' then Some(("", t[1..]))
    else if t[0] == '\\' then
      if |t| < 2 then None
      else
        match ReadLiteralBody(t[2..])
        case None => None
        case Some(p) => Some(([t[1]] + p.0, p.1))
    else
      match ReadLiteralBody(t[1..])
      case None => None
      case Some(p) => Some(([t[0]] + p.0, p.1))
  }

  /** Reads one quoted literal at the start of `t`. */
  function ReadLiteral(t: string): Option<(string, string)>
  {
    if |t| > 0 && t[0] == '\'' then ReadLiteralBody(t[1..]) else None
  }

  /**
   * As written, a value ending in a backslash cannot be read back: in `'x\'` the
   * backslash escapes the closing quote, so the reader runs on into whatever
   * follows and the value it returns is not `x\`.
   */
  lemma TrailingBackslashBreaksLiteral(rest: string)
    ensures ReadLiteral(QuoteLiteral("x\\") + rest) != Some(("x\\", rest))
  {
    var u := "\\'" + rest;
    assert u[0] == '\\' && u[1] == '\'' && u[2..] == rest;
    var w := "x" + u;
    assert w[0] == 'x' && w[1..] == u;
    assert QuoteLiteral("x\\") + rest == "'" + w;
    assert ("'" + w)[1..] == w;
    match ReadLiteralBody(rest)
    case None =>
      assert ReadLiteralBody(u) == None;
    case Some(p) =>
      assert ReadLiteralBody(u) == Some(("'" + p.0, p.1));
      assert "x'" + p.0 == ['x'] + ("'" + p.0);
  }

  /** Backslash and single quote both escaped: what the literal needs. */
  function EscapeLiteral(s: string): string
  {
    if s == [] then []
    else (if s[0] == '\'' then "\\'" else if s[0] == '\\' then "\\\\" else [s[0]]) + EscapeLiteral(s[1..])
  }

  function QuoteLiteralEscaped(s: string): string
  {
    "'" + EscapeLiteral(s) + "'"
  }

  lemma {:induction false} ReadEscapedBody(s: string, rest: string)
    ensures ReadLiteralBody(EscapeLiteral(s) + "'" + rest) == Some((s, rest))
  {
    var t := EscapeLiteral(s) + "'" + rest;
    if s == [] {
      assert t == "'" + rest;
    } else {
      ReadEscapedBody(s[1..], rest);
      var tail := EscapeLiteral(s[1..]) + "'" + rest;
      if s[0] == '\'' || s[0] == '\\' {
        assert t == [ '\\', s[0] ] + tail;
        assert t[2..] == tail;
        assert [s[0]] + s[1..] == s;
      } else {
        assert t == [s[0]] + tail;
        assert t[1..] == tail;
        assert [s[0]] + s[1..] == s;
      }
    }
  }

  /** With both characters escaped, every value reads back exactly, whatever follows it. */
  lemma ReadQuoteLiteralEscaped(s: string, rest: string)
    ensures ReadLiteral(QuoteLiteralEscaped(s) + rest) == Some((s, rest))
  {
    ReadEscapedBody(s, rest);
    assert (QuoteLiteralEscaped(s) + rest)[1..] == EscapeLiteral(s) + "'" + rest;
  }

  /** Without backslashes in the value the two escapings agree. */
  lemma {:induction false} EscapeQuotesIsEscapeLiteral(s: string)
    requires forall i :: 0 <= i < |s| ==> s[i] != '\\'
    ensures EscapeQuotes(s) == EscapeLiteral(s)
  {
    if s != [] {
      EscapeQuotesIsEscapeLiteral(s[1..]);
    }
  }

  /**
   * A value without backslashes reads back exactly from the literal
   * `QuoteLiteral` writes, and the reader stops at its closing quote, leaving
   * whatever follows.
   */
  lemma ReadQuoteLiteral(s: string, rest: string)
    requires forall i :: 0 <= i < |s| ==> s[i] != '\\'
    ensures ReadLiteral(QuoteLiteral(s) + rest) == Some((s, rest))
  {
    EscapeQuotesIsEscapeLiteral(s);
    ReadQuoteLiteralEscaped(s, rest);
  }

  /** `"TEMPHPYCC::{}from{}to{}".format(target, lo, hi)`: a chunk's temporary logical file. */
  function TempName(target: string, lo: nat, hi: nat): (name: string)
    ensures StartsWith(name, "TEMPHPYCC::" + target + "from")
    ensures EndsWith(name, "to" + NatToString(hi))
    ensures name[|"TEMPHPYCC::" + target + "from"|..] == NatToString(lo) + "to" + NatToString(hi)
    ensures |name| > |target|
  {
    "TEMPHPYCC::" + target + "from" + NatToString(lo) + "to" + NatToString(hi)
  }

  lemma DigitRun(a: string, b: string)
    requires AllDigits(a)
    ensures |a| < |a + "to" + b| && !IsDigit((a + "to" + b)[|a|])
    ensures forall i :: 0 <= i < |a| ==> IsDigit((a + "to" + b)[i])
  {
  }

  lemma DigitsBeforeTo(a: string, b: string, c: string, d: string)
    requires AllDigits(a) && AllDigits(c)
    requires a + "to" + b == c + "to" + d
    ensures a == c && b == d
  {
    var x := a + "to" + b;
    DigitRun(a, b);
    DigitRun(c, d);
    assert |a| == |c|;
    assert a == x[..|a|] == c;
    assert b == x[|a| + 2..] == d;
  }

  /** Different row ranges of one target never share a temporary name. */
  lemma TempNameInjective(target: string, lo1: nat, hi1: nat, lo2: nat, hi2: nat)
    requires TempName(target, lo1, hi1) == TempName(target, lo2, hi2)
    ensures lo1 == lo2 && hi1 == hi2
  {
    var p := "TEMPHPYCC::" + target + "from";
    var n1, n2 := TempName(target, lo1, hi1), TempName(target, lo2, hi2);
    DigitsBeforeTo(NatToString(lo1), NatToString(hi1), NatToString(lo2), NatToString(hi2));
    NatToStringInjective(lo1, lo2);
    NatToStringInjective(hi1, hi2);
  }
}
