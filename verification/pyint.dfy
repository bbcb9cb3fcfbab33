/**
 * Python's `int(...)` on a `str` and `str(...)` on an `int`, for ASCII decimal text.
 * `int` strips surrounding whitespace, takes an optional sign and then one or more digits.
 */
module PyInt {
  import opened Wrappers

  predicate IsDigit(c: char) {
    '0' <= c <= '9'
  }

  predicate AllDigits(s: string) {
    forall i :: 0 <= i < |s| ==> IsDigit(s[i])
  }

  /**
   * The characters Python counts as whitespace (`str.isspace`), which both `str.strip()` and `int`
   * remove: tab to carriage return, the four separators, space, next-line, no-break space, and the
   * Unicode space separators, line and paragraph separators.
   */
  predicate IsSpace(c: char) {
    var n := c as int;
    || 9 <= n <= 13 || 28 <= n <= 32 || n == 0x85 || n == 0xA0 || n == 0x1680
    || 0x2000 <= n <= 0x200A || n == 0x2028 || n == 0x2029 || n == 0x202F || n == 0x205F
    || n == 0x3000
  }

  predicate AllSpace(s: string) {
    forall i :: 0 <= i < |s| ==> IsSpace(s[i])
  }

  /** The value of a digit string, most significant digit first. */
  function DigitsValue(s: string): nat
    requires AllDigits(s)
  {
    if s == [] then 0 else DigitsValue(s[..|s| - 1]) * 10 + (s[|s| - 1] as int - '0' as int)
  }

  /** `str(n)` for a natural number: its decimal digits without leading zeros. */
  function NatToString(n: nat): (s: string)
    ensures s != [] && AllDigits(s)
    ensures DigitsValue(s) == n
    ensures s[0] == '0' ==> n == 0
  {
    var digit := (('0' as int) + n % 10) as char;
    if n < 10 then [digit]
    else
      var prefix := NatToString(n / 10);
      var s := prefix + [digit];
      assert s[..|s| - 1] == prefix;
      s
  }

  /** `str(i)`: a minus sign for negative numbers, then the digits of the magnitude. */
  function IntToString(i: int): (s: string)
    ensures s != []
  {
    if i < 0 then "-" + NatToString(-i) else NatToString(i)
  }

  function StripLeft(s: string): (r: string)
    ensures r == [] || !IsSpace(r[0])
  {
    if s != [] && IsSpace(s[0]) then StripLeft(s[1..]) else s
  }

  function StripRight(s: string): (r: string)
    ensures r == [] || !IsSpace(r[|r| - 1])
    ensures |r| <= |s| && r == s[..|r|]
  {
    if s != [] && IsSpace(s[|s| - 1]) then StripRight(s[..|s| - 1]) else s
  }

  /** `str.strip()` without arguments. */
  function Strip(s: string): string {
    StripRight(StripLeft(s))
  }

  /** Neither end of `s` is whitespace. */
  predicate Stripped(s: string) {
    s == [] || (!IsSpace(s[0]) && !IsSpace(s[|s| - 1]))
  }

  /** Splits an optional leading sign off a stripped literal: (is negative, the rest). */
  function SplitSign(t: string): (string, bool) {
    if t != [] && t[0] == '-' then (t[1..], true)
    else if t != [] && t[0] == '+' then (t[1..], false)
    else (t, false)
  }

  /** `int(s)` on a `str`; `None` stands for the ValueError raised on anything but a signed decimal literal. */
  function ParseInt(s: string): Option<int> {
    var (digits, negative) := SplitSign(Strip(s));
    if digits == [] || !AllDigits(digits) then None
    else
      var magnitude: int := DigitsValue(digits);
      Some(if negative then -magnitude else magnitude)
  }

  lemma {:induction false} StripLeftPadding(pad: string, t: string)
    requires AllSpace(pad)
    requires t == [] || !IsSpace(t[0])
    ensures StripLeft(pad + t) == t
    decreases |pad|
  {
    if pad == [] {
      assert pad + t == t;
    } else {
      assert (pad + t)[1..] == pad[1..] + t;
      StripLeftPadding(pad[1..], t);
    }
  }

  lemma {:induction false} StripRightPadding(t: string, pad: string)
    requires AllSpace(pad)
    requires t == [] || !IsSpace(t[|t| - 1])
    ensures StripRight(t + pad) == t
    decreases |pad|
  {
    if pad == [] {
      assert t + pad == t;
    } else {
      assert (t + pad)[..|t + pad| - 1] == t + pad[..|pad| - 1];
      StripRightPadding(t, pad[..|pad| - 1]);
    }
  }

  /** `int` reads back what `str` wrote, whatever whitespace surrounds it. */
  lemma ParseIntOfString(i: int, before: string, after: string)
    requires AllSpace(before) && AllSpace(after)
    ensures ParseInt(before + IntToString(i) + after) == Some(i)
  {
    var t := IntToString(i);
    StripAround(before, t, after);
    var magnitude := if i < 0 then -i else i;
    assert SplitSign(t) == (NatToString(magnitude), i < 0);
  }

  /** Stripping removes exactly the padding around a text that starts and ends with non-space. */
  lemma StripAround(before: string, t: string, after: string)
    requires AllSpace(before) && AllSpace(after)
    requires t != [] && !IsSpace(t[0]) && !IsSpace(t[|t| - 1])
    ensures Strip(before + t + after) == t
  {
    assert before + t + after == before + (t + after);
    StripLeftPadding(before, t + after);
    StripRightPadding(t, after);
  }

  /** Stripping leaves a text whose ends are not whitespace, so stripping twice changes nothing more. */
  lemma StripIdempotent(s: string)
    ensures Stripped(Strip(s))
    ensures Strip(Strip(s)) == Strip(s)
  {
    var l := StripLeft(s);
    var r := StripRight(l);
    if r != [] {
      assert r[0] == l[0];
    }
    StripOfStripped(r);
  }

  /** A text with no whitespace at either end is its own strip. */
  lemma StripOfStripped(s: string)
    requires Stripped(s)
    ensures Strip(s) == s
  {
    if s != [] {
      StripAround([], s, []);
      assert [] + s + [] == s;
    }
  }

  /** `str` writes different numbers differently. */
  lemma IntToStringInjective(a: int, b: int)
    requires IntToString(a) == IntToString(b)
    ensures a == b
  {
    if a < 0 && b < 0 {
      assert NatToString(-a) == IntToString(a)[1..] == IntToString(b)[1..] == NatToString(-b);
    }
  }

  /** Blank input, or a bare sign, is a ValueError. */
  lemma ParseIntNeedsDigits(s: string)
    requires AllSpace(s) || Strip(s) == "-" || Strip(s) == "+"
    ensures ParseInt(s) == None
  {
    if AllSpace(s) {
      StripLeftPadding(s, []);
      assert s + [] == s;
    }
  }
}
