/**
 * The two JavaScript string operations the search view relies on:
 * `String.prototype.trim`, used to decide whether a query is blank, and
 * the conversion of an integer page number to a string inside the
 * template literal that builds a cache key.
 */
module Text {

  /** WhiteSpace and LineTerminator code points of ECMAScript, the set that `trim` removes. */
  predicate IsJsWhitespace(c: char)
  {
    var u := c as int;
    || u == 0x09 || u == 0x0A || u == 0x0B || u == 0x0C || u == 0x0D
    || u == 0x20 || u == 0xA0 || u == 0x1680
    || (0x2000 <= u <= 0x200A)
    || u == 0x2028 || u == 0x2029 || u == 0x202F || u == 0x205F
    || u == 0x3000 || u == 0xFEFF
  }

  predicate AllWhitespace(s: string)
  {
    forall i | 0 <= i < |s| :: IsJsWhitespace(s[i])
  }

  /** Drops the leading whitespace of `s`: what remains is a suffix that is empty or starts with a non-space. */
  function TrimStart(s: string): (r: string)
    ensures |r| <= |s| && r == s[|s| - |r|..]
    ensures forall i | 0 <= i < |s| - |r| :: IsJsWhitespace(s[i])
    ensures r == [] || !IsJsWhitespace(r[0])
  {
    if s == [] || !IsJsWhitespace(s[0]) then s
    else
      var r := TrimStart(s[1..]);
      assert forall i | 1 <= i < |s| - |r| :: s[i] == s[1..][i - 1];
      r
  }

  /** Drops the trailing whitespace of `s`: what remains is a prefix that is empty or ends with a non-space. */
  function TrimEnd(s: string): (r: string)
    ensures |r| <= |s| && r == s[..|r|]
    ensures forall i | |r| <= i < |s| :: IsJsWhitespace(s[i])
    ensures r == [] || !IsJsWhitespace(r[|r| - 1])
  {
    if s == [] || !IsJsWhitespace(s[|s| - 1]) then s
    else
      var r := TrimEnd(s[..|s| - 1]);
      assert forall i | |r| <= i < |s| - 1 :: s[i] == s[..|s| - 1][i];
      r
  }

  /**
   * JavaScript's `s.trim()`: the whitespace at both ends removed. The
   * result neither starts nor ends with whitespace; `TrimIsMiddle` and
   * `TrimCutsOnlyWhitespace` show it is the middle of `s`.
   */
  function Trim(s: string): (r: string)
    ensures |r| <= |s|
    ensures r == [] || (!IsJsWhitespace(r[0]) && !IsJsWhitespace(r[|r| - 1]))
  {
    var t := TrimStart(s);
    var r := TrimEnd(t);
    assert r != [] ==> r[0] == t[0];
    r
  }

  /** Character `k` of `TrimStart(s)` is character `|s| - |TrimStart(s)| + k` of `s`. */
  lemma TrimStartIndex(s: string)
    ensures forall k | 0 <= k < |TrimStart(s)| :: TrimStart(s)[k] == s[|s| - |TrimStart(s)| + k]
  {
  }

  /** Character `k` of `TrimEnd(t)` is character `k` of `t`. */
  lemma TrimEndIndex(t: string)
    ensures forall k | 0 <= k < |TrimEnd(t)| :: TrimEnd(t)[k] == t[k]
  {
  }

  /**
   * `Trim(s)` is the middle of `s`: character by character, it is the
   * slice of `s` that starts where the leading whitespace ends.
   */
  lemma TrimIsMiddle(s: string)
    ensures |s| - |TrimStart(s)| + |Trim(s)| <= |s|
    ensures forall k | 0 <= k < |Trim(s)| :: Trim(s)[k] == s[|s| - |TrimStart(s)| + k]
  {
    var t := TrimStart(s);
    TrimStartIndex(s);
    TrimEndIndex(t);
    assert Trim(s) == TrimEnd(t);
  }

  /** Whitespace after `r` in `t`, where `t` ends `s`, is whitespace at the end of `s`. */
  lemma TrailingWhitespace(s: string, t: string, r: string)
    requires |t| <= |s| && forall k | 0 <= k < |t| :: t[k] == s[|s| - |t| + k]
    requires |r| <= |t| && forall j | |r| <= j < |t| :: IsJsWhitespace(t[j])
    ensures forall k | |s| - |t| + |r| <= k < |s| :: IsJsWhitespace(s[k])
  {
    forall k | |s| - |t| + |r| <= k < |s|
      ensures IsJsWhitespace(s[k])
    {
      assert s[k] == t[k - (|s| - |t|)];
    }
  }

  /** What `Trim(s)` cuts off on either side of it is whitespace. */
  lemma TrimCutsOnlyWhitespace(s: string)
    ensures forall k | 0 <= k < |s| - |TrimStart(s)| :: IsJsWhitespace(s[k])
    ensures forall k | |s| - |TrimStart(s)| + |Trim(s)| <= k < |s| :: IsJsWhitespace(s[k])
  {
    var t := TrimStart(s);
    TrimStartIndex(s);
    assert Trim(s) == TrimEnd(t);
    TrailingWhitespace(s, t, TrimEnd(t));
  }

  /** A query is blank for the view exactly when every character of it is whitespace. */
  lemma TrimEmptyIffAllWhitespace(s: string)
    ensures Trim(s) == [] <==> AllWhitespace(s)
  {
  }

  predicate IsDigit(c: char)
  {
    '0' <= c <= '9'
  }

  predicate AllDigits(s: string)
  {
    forall i | 0 <= i < |s| :: IsDigit(s[i])
  }

  function DigitChar(d: nat): (c: char)
    requires d < 10
    ensures IsDigit(c)
  {
    ('0' as int + d) as char
  }

  function DigitValue(c: char): (d: nat)
    requires IsDigit(c)
    ensures d < 10 && DigitChar(d) == c
  {
    c as int - '0' as int
  }

  /** The decimal digits of `n`, most significant first and without leading zeros. */
  function DecimalString(n: nat): (s: string)
    ensures |s| >= 1 && AllDigits(s)
    ensures |s| > 1 ==> s[0] != '0'
    decreases n
  {
    if n < 10 then [DigitChar(n)]
    else DecimalString(n / 10) + [DigitChar(n % 10)]
  }

  /** The value of a string of decimal digits. */
  function ParseDecimal(s: string): nat
    requires AllDigits(s)
  {
    if s == [] then 0
    else ParseDecimal(s[..|s| - 1]) * 10 + DigitValue(s[|s| - 1])
  }

  /** Reading back the decimal string of `n` gives `n`. */
  lemma {:induction false} ParseDecimalString(n: nat)
    ensures ParseDecimal(DecimalString(n)) == n
    decreases n
  {
    var s := DecimalString(n);
    if n < 10 {
      assert s[..0] == [];
    } else {
      ParseDecimalString(n / 10);
      assert s[..|s| - 1] == DecimalString(n / 10);
    }
  }

  /** The string JavaScript produces for an integer-valued number: an optional minus sign and its decimal digits. */
  function NumberString(p: int): (s: string)
    ensures p >= 0 ==> AllDigits(s) && |s| >= 1
    ensures p < 0 ==> |s| >= 2 && s[0] == '-' && AllDigits(s[1..])
  {
    if p >= 0 then DecimalString(p) else "-" + DecimalString(-p)
  }

  /** A non-negative page number is recovered from its string: the conversion is one-to-one there. */
  lemma NumberStringRoundTrip(p: nat)
    ensures AllDigits(NumberString(p)) && ParseDecimal(NumberString(p)) == p
  {
    ParseDecimalString(p);
  }
}
