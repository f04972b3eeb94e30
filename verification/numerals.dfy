/** Positional notation as JavaScript produces and reads it:
    `Number.prototype.toString(16)` and `toString()` for integers, and the
    value of a run of hexadecimal digits as `parseInt(…, 16)` reads it. */
module Numerals {
  import opened Base
  import Text

  predicate IsHexDigit(c: char)
  {
    '0' <= c <= '9' || 'a' <= c <= 'f' || 'A' <= c <= 'F'
  }

  predicate IsLowerHexDigit(c: char)
  {
    '0' <= c <= '9' || 'a' <= c <= 'f'
  }

  predicate AllHex(s: string)
  {
    forall i :: 0 <= i < |s| ==> IsHexDigit(s[i])
  }

  /** The value of one hexadecimal digit, in either case. */
  function HexValue(c: char): (v: nat)
    requires IsHexDigit(c)
    ensures v < 16
  {
    if '0' <= c <= '9' then (c as int) - ('0' as int)
    else if 'a' <= c <= 'f' then (c as int) - ('a' as int) + 10
    else (c as int) - ('A' as int) + 10
  }

  /** The lower-case digit of a value below 16, as `toString(16)` writes it. */
  function LowerDigit(d: nat): (c: char)
    requires d < 16
    ensures IsLowerHexDigit(c) && HexValue(c) == d
    ensures '0' <= c <= '9' <==> d < 10
  {
    if d < 10 then ('0' as int + d) as char else ('a' as int + d - 10) as char
  }

  /** The upper-case digit of a value below 16. */
  function UpperDigit(d: nat): (c: char)
    requires d < 16
    ensures IsHexDigit(c) && HexValue(c) == d
    ensures '0' <= c <= '9' || 'A' <= c <= 'F'
  {
    if d < 10 then ('0' as int + d) as char else ('A' as int + d - 10) as char
  }

  /** `16` to the power `k`. */
  function Pow16(k: nat): (p: nat)
    ensures p >= 1
  {
    if k == 0 then 1 else 16 * Pow16(k - 1)
  }

  /** `n.toString(16)` for `n >= 0`: lower-case digits, no leading zero. */
  function ToHex(n: nat): (r: string)
    ensures 1 <= |r|
    ensures forall i :: 0 <= i < |r| ==> IsLowerHexDigit(r[i])
    ensures |r| > 1 ==> r[0] != '0'
    decreases n
  {
    if n < 16 then [LowerDigit(n)]
    else ToHex(n / 16) + [LowerDigit(n % 16)]
  }

  /** `x.toString(16)` for any integer: a minus sign before the digits of `-x`. */
  function IntToHex(x: int): (r: string)
    ensures x >= 0 ==> r == ToHex(x)
    ensures x < 0 ==> r == "-" + ToHex(-x)
  {
    if x >= 0 then ToHex(x) else "-" + ToHex(-x)
  }

  /** The value of a string of hexadecimal digits, most significant first. */
  function ParseHex(s: string): (v: nat)
    requires AllHex(s)
    ensures v < Pow16(|s|)
  {
    if |s| == 0 then 0
    else ParseHex(s[..|s| - 1]) * 16 + HexValue(s[|s| - 1])
  }

  /** Reading back what `ToHex` wrote gives the number. */
  lemma {:induction false} ParseHexOfToHex(n: nat)
    ensures AllHex(ToHex(n))
    ensures ParseHex(ToHex(n)) == n
    decreases n
  {
    var c := LowerDigit(n % 16);
    if n >= 16 {
      var q := ToHex(n / 16);
      ParseHexOfToHex(n / 16);
      assert ToHex(n) == q + [c];
      ParseHexSnoc(q, c);
    } else {
      assert ToHex(n) == "" + [c];
      ParseHexSnoc("", c);
    }
  }

  /** Appending a digit multiplies the value by 16 and adds the digit's. */
  lemma ParseHexSnoc(q: string, c: char)
    requires AllHex(q) && IsHexDigit(c)
    ensures AllHex(q + [c])
    ensures ParseHex(q + [c]) == ParseHex(q) * 16 + HexValue(c)
  {
    var r := q + [c];
    assert r[..|r| - 1] == q;
    assert forall i :: 0 <= i < |r| ==> r[i] == if i < |q| then q[i] else c;
  }

  /** Leading zeros do not change the value of a hexadecimal numeral. */
  lemma {:induction false} ParseHexLeadingZeros(k: nat, s: string)
    requires AllHex(s)
    ensures AllHex(Text.Repeat('0', k) + s)
    ensures ParseHex(Text.Repeat('0', k) + s) == ParseHex(s)
    decreases |s|
  {
    var z := Text.Repeat('0', k);
    ZerosThenHex(k, s);
    if |s| == 0 {
      assert z + s == z;
      ZerosParseToZero(k);
    } else {
      var s' := s[..|s| - 1];
      var c := s[|s| - 1];
      assert s == s' + [c];
      assert z + s == (z + s') + [c];
      ParseHexLeadingZeros(k, s');
      ParseHexSnoc(z + s', c);
      ParseHexSnoc(s', c);
    }
  }

  /** Zeros followed by digits are digits. */
  lemma ZerosThenHex(k: nat, s: string)
    requires AllHex(s)
    ensures AllHex(Text.Repeat('0', k) + s)
  {
    var z := Text.Repeat('0', k);
    var t := z + s;
    forall i | 0 <= i < |t|
      ensures IsHexDigit(t[i])
    {
      if i < k { assert t[i] == z[i]; } else { assert t[i] == s[i - k]; }
    }
  }

  /** A run of zeros is worth zero. */
  lemma {:induction false} ZerosParseToZero(k: nat)
    ensures AllHex(Text.Repeat('0', k))
    ensures ParseHex(Text.Repeat('0', k)) == 0
    decreases k
  {
    var z := Text.Repeat('0', k);
    if k > 0 {
      assert z[..k - 1] == Text.Repeat('0', k - 1);
      ZerosParseToZero(k - 1);
    }
  }

  /** A number below `16^k` (with `k >= 1`) has at most `k` hexadecimal digits. */
  lemma {:induction false} ToHexLength(n: nat, k: nat)
    requires 1 <= k && n < Pow16(k)
    ensures |ToHex(n)| <= k
    decreases k
  {
    if n >= 16 {
      assert k >= 2;
      assert n / 16 < Pow16(k - 1);
      ToHexLength(n / 16, k - 1);
    }
  }

  /** `n.toString()` for `n >= 0`. */
  function ToDecimal(n: nat): (r: string)
    ensures 1 <= |r|
    ensures forall i :: 0 <= i < |r| ==> '0' <= r[i] <= '9'
    ensures |r| > 1 ==> r[0] != '0'
    decreases n
  {
    if n < 10 then [LowerDigit(n)]
    else ToDecimal(n / 10) + [LowerDigit(n % 10)]
  }

  /** `x.toString()` for any integer. */
  function IntToDecimal(x: int): (r: string)
    ensures x >= 0 ==> r == ToDecimal(x)
    ensures x < 0 ==> r == "-" + ToDecimal(-x)
  {
    if x >= 0 then ToDecimal(x) else "-" + ToDecimal(-x)
  }
}
