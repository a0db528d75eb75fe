/**
 * The two string operations of the report: the control-flow category of a
 * terminator (`x.split('(')[0]`) and the `sub_` label of a function
 * (`'sub_' + str(x)`), with Python's decimal rendering of an integer.
 */
module Text {

  /** `t.split('(')[0]`: the text of `t` before its first `(`, or all of it. */
  function TerminatorType(t: string): (c: string)
    ensures c <= t
    ensures '(' !in c
    ensures |c| < |t| ==> t[|c|] == '('
  {
    if t == [] || t[0] == '(' then []
    else [t[0]] + TerminatorType(t[1..])
  }

  /** The three properties of `TerminatorType` determine it. */
  lemma TerminatorTypeUnique(t: string, c: string)
    requires c <= t && '(' !in c && (|c| < |t| ==> t[|c|] == '(')
    ensures c == TerminatorType(t)
  {
  }

  predicate IsDigit(ch: char)
  {
    '0' <= ch <= '9'
  }

  predicate IsDigits(s: string)
  {
    forall i :: 0 <= i < |s| ==> IsDigit(s[i])
  }

  function DigitChar(d: nat): (ch: char)
    requires d < 10
    ensures IsDigit(ch)
  {
    (('0' as int) + d) as char
  }

  function DigitValue(ch: char): (d: nat)
    requires IsDigit(ch)
    ensures d < 10
  {
    (ch as int) - ('0' as int)
  }

  /** `str(n)` for a non-negative integer: its decimal digits, no leading zero. */
  function NatToString(n: nat): (s: string)
    ensures |s| > 0 && IsDigits(s)
    decreases n
  {
    if n < 10 then [DigitChar(n)]
    else NatToString(n / 10) + [DigitChar(n % 10)]
  }

  /** Reads a non-empty run of decimal digits. */
  function ParseNat(s: string): nat
    requires |s| > 0 && IsDigits(s)
    decreases |s|
  {
    if |s| == 1 then DigitValue(s[0])
    else ParseNat(s[..|s| - 1]) * 10 + DigitValue(s[|s| - 1])
  }

  lemma {:induction false} ParseNatToString(n: nat)
    ensures ParseNat(NatToString(n)) == n
    decreases n
  {
    if n >= 10 {
      var s := NatToString(n);
      assert s[..|s| - 1] == NatToString(n / 10);
      ParseNatToString(n / 10);
    }
  }

  /** Python's `str` of an integer: a `-` sign, then the digits of its magnitude. */
  function IntToString(x: int): (s: string)
    ensures |s| > 0
  {
    if x < 0 then "-" + NatToString(-x) else NatToString(x)
  }

  /** Reads `str(x)` back. */
  function ParseInt(s: string): int
    requires |s| > 0
    requires IsDigits(s) || (s[0] == '-' && |s| > 1 && IsDigits(s[1..]))
  {
    if s[0] == '-' then -(ParseNat(s[1..]) as int) else ParseNat(s)
  }

  lemma IntToStringRoundTrip(x: int)
    ensures var s := IntToString(x);
            (IsDigits(s) || (s[0] == '-' && |s| > 1 && IsDigits(s[1..]))) && ParseInt(s) == x
  {
    if x < 0 {
      assert ("-" + NatToString(-x))[1..] == NatToString(-x);
      ParseNatToString(-x);
    } else {
      ParseNatToString(x);
    }
  }

  /** Distinct integers have distinct decimal renderings. */
  lemma IntToStringInjective(a: int, b: int)
    requires IntToString(a) == IntToString(b)
    ensures a == b
  {
    IntToStringRoundTrip(a);
    IntToStringRoundTrip(b);
  }

  /** The axis label of a function in the "largest functions" panel. */
  function FunctionLabel(f: int): (s: string)
    ensures |s| > 4 && s[..4] == "sub_" && s[4..] == IntToString(f)
  {
    "sub_" + IntToString(f)
  }

  /** Distinct functions get distinct labels, so no two bars merge. */
  lemma FunctionLabelInjective(f: int, g: int)
    requires FunctionLabel(f) == FunctionLabel(g)
    ensures f == g
  {
    assert FunctionLabel(f)[4..] == IntToString(f);
    assert FunctionLabel(g)[4..] == IntToString(g);
    IntToStringInjective(f, g);
  }
}
