/**
 * String utilities of the board: whitespace trimming of form input
 * (`String.prototype.trim`), decimal rendering of integers (`String(n)`)
 * and the two-digit zero padding `padNum` used by count badges and card numbers.
 */
module Text {

  /** The whitespace `trim` removes; a declared subset of the characters JavaScript treats as white space. */
  predicate IsSpace(c: char)
  {
    c == ' ' || c == '\t' || c == '\n' || c == '\U{000B}' || c == '\U{000C}' || c == '\r' || c == '\U{00A0}'
  }

  predicate AllSpace(s: string)
  {
    forall i :: 0 <= i < |s| ==> IsSpace(s[i])
  }

  /** `s` without its leading whitespace. */
  function TrimStart(s: string): (r: string)
    ensures |r| <= |s| && r == s[|s| - |r|..]
    ensures forall i :: 0 <= i < |s| - |r| ==> IsSpace(s[i])
    ensures r == [] || !IsSpace(r[0])
    decreases |s|
  {
    if |s| > 0 && IsSpace(s[0]) then TrimStart(s[1..]) else s
  }

  /** `s` without its trailing whitespace. */
  function TrimEnd(s: string): (r: string)
    ensures |r| <= |s| && r == s[..|r|]
    ensures forall i :: |r| <= i < |s| ==> IsSpace(s[i])
    ensures r == [] || !IsSpace(r[|r| - 1])
    decreases |s|
  {
    if |s| > 0 && IsSpace(s[|s| - 1]) then TrimEnd(s[..|s| - 1]) else s
  }

  /** `s.trim()`: the result is the input with its leading and trailing whitespace cut off and nothing else changed. */
  function Trim(s: string): (r: string)
    ensures r == [] <==> AllSpace(s)
    ensures r != [] ==> !IsSpace(r[0]) && !IsSpace(r[|r| - 1])
    ensures |r| <= |s|
    ensures exists i :: 0 <= i <= |s| - |r| && r == s[i..i + |r|] && AllSpace(s[..i]) && AllSpace(s[i + |r|..])
  {
    var u := TrimStart(s);
    Surrounded(s, u, TrimEnd(u));
    TrimEnd(u)
  }

  /** What `trim` keeps sits between a run of leading and a run of trailing whitespace. */
  lemma Surrounded(s: string, u: string, r: string)
    requires |u| <= |s| && u == s[|s| - |u|..]
    requires forall j :: 0 <= j < |s| - |u| ==> IsSpace(s[j])
    requires |r| <= |u| && r == u[..|r|]
    requires forall j :: |r| <= j < |u| ==> IsSpace(u[j])
    ensures exists i :: 0 <= i <= |s| - |r| && r == s[i..i + |r|] && AllSpace(s[..i]) && AllSpace(s[i + |r|..])
  {
    var i := |s| - |u|;
    assert r == s[i..i + |r|];
    assert AllSpace(s[..i]);
    assert s[i + |r|..] == u[|r|..];
    assert AllSpace(s[i + |r|..]);
  }

  /** A string with no surrounding whitespace is left alone, so trimming twice is trimming once. */
  lemma TrimIdempotent(s: string)
    ensures (s == [] || (!IsSpace(s[0]) && !IsSpace(s[|s| - 1]))) ==> Trim(s) == s
    ensures Trim(Trim(s)) == Trim(s)
  {
  }

  // ---------------------------------------------------------------------------
  // Decimal numbers

  predicate IsDigit(c: char)
  {
    '0' <= c <= '9'
  }

  predicate AllDigits(s: string)
  {
    forall i :: 0 <= i < |s| ==> IsDigit(s[i])
  }

  function DigitChar(d: nat): (c: char)
    requires d < 10
    ensures IsDigit(c)
  {
    (48 + d) as char
  }

  function DigitValue(c: char): (d: nat)
    requires IsDigit(c)
    ensures d < 10 && DigitChar(d) == c
  {
    (c as int) - 48
  }

  /** The value of a string of decimal digits, most significant first. */
  function ParseDecimal(s: string): nat
    requires AllDigits(s)
    decreases |s|
  {
    if |s| == 0 then 0 else 10 * ParseDecimal(s[..|s| - 1]) + DigitValue(s[|s| - 1])
  }

  /** `String(n)` for a non-negative integer: digits without leading zeros that read back as `n`. */
  function NatToString(n: nat): (r: string)
    ensures 1 <= |r| && AllDigits(r)
    ensures |r| == 1 <==> n < 10
    ensures r[0] == '0' ==> n == 0
    ensures ParseDecimal(r) == n
    decreases n
  {
    if n < 10 then [DigitChar(n)]
    else
      var q := NatToString(n / 10);
      var r := q + [DigitChar(n % 10)];
      assert r[..|r| - 1] == q;
      r
  }

  /**
   * `String(n)` for any integer: a minus sign exactly for a negative number, then the
   * decimal digits of its magnitude, with no leading zero, reading back as that magnitude.
   */
  function IntToString(n: int): (r: string)
    ensures |r| >= 1 && (n < 0 <==> r[0] == '-')
    ensures var ds := if n < 0 then r[1..] else r;
      && |ds| >= 1 && AllDigits(ds)
      && ParseDecimal(ds) == (if n < 0 then -n else n)
      && (ds[0] == '0' ==> n == 0 && |ds| == 1)
  {
    if n < 0 then "-" + NatToString(-n) else NatToString(n)
  }

  /** Leading zeros do not change the value of a decimal string. */
  lemma {:induction false} ParseLeadingZero(s: string)
    requires AllDigits(s)
    ensures AllDigits(['0'] + s) && ParseDecimal(['0'] + s) == ParseDecimal(s)
    decreases |s|
  {
    var z := ['0'] + s;
    if |s| > 0 {
      assert z[..|z| - 1] == ['0'] + s[..|s| - 1];
      ParseLeadingZero(s[..|s| - 1]);
    } else {
      assert z[..|z| - 1] == [];
    }
  }

  /** `str.padStart(width, fill)`: `fill` characters in front of `s` up to `width` characters. */
  function PadStart(s: string, width: nat, fill: char): (r: string)
    ensures |r| == if |s| >= width then |s| else width
    ensures r[|r| - |s|..] == s
    ensures forall i :: 0 <= i < |r| - |s| ==> r[i] == fill
  {
    if |s| >= width then s else seq(width - |s|, _ => fill) + s
  }

  /**
   * `padNum(n)`: at least two characters; a one-digit number gains a leading zero,
   * anything else is its plain decimal form, and the padded digits still read as `n`.
   */
  function PadNum(n: int): (r: string)
    ensures |r| >= 2
    ensures n >= 10 || n <= -1 ==> r == IntToString(n)
    ensures 0 <= n < 10 ==> r == ['0', DigitChar(n)]
    ensures n >= 0 ==> AllDigits(r) && ParseDecimal(r) == n
  {
    var d := IntToString(n);
    var r := PadStart(d, 2, '0');
    if 0 <= n < 10 then
      assert r == ['0'] + d;
      ParseLeadingZero(d);
      r
    else
      r
  }
}
