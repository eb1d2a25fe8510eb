/** Hexadecimal formatting as JS does it with `n.toString(16)` and
    `padStart(6, "0")`, and the decoding it is undone by. */
module Hex {

  predicate IsHexDigit(c: char)
  {
    ('0' <= c <= '9') || ('a' <= c <= 'f')
  }

  predicate AllHex(s: string)
  {
    forall i :: 0 <= i < |s| ==> IsHexDigit(s[i])
  }

  /** The lower-case digit of a value below 16. */
  function DigitChar(d: nat): (c: char)
    requires d < 16
    ensures IsHexDigit(c)
  {
    if d < 10 then ('0' as int + d) as char else ('a' as int + d - 10) as char
  }

  /** The value of a hexadecimal digit; `DigitChar` undoes it and it undoes
      `DigitChar`. */
  function DigitValue(c: char): (d: nat)
    requires IsHexDigit(c)
    ensures d < 16 && DigitChar(d) == c
  {
    if c <= '9' then (c as int - '0' as int) as nat else (c as int - 'a' as int) as nat + 10
  }

  lemma DigitValueOfChar(d: nat)
    requires d < 16
    ensures DigitValue(DigitChar(d)) == d
  {
  }

  /** `k.toString(16)`: lower-case digits, most significant first, no leading
      zero except for zero itself. */
  function ToHex(k: nat): (s: string)
    ensures |s| >= 1 && AllHex(s)
    ensures |s| > 1 ==> s[0] != '0'
    decreases k
  {
    if k < 16 then [DigitChar(k)] else ToHex(k / 16) + [DigitChar(k % 16)]
  }

  /** The number a string of hexadecimal digits denotes. */
  function HexValue(s: string): nat
    requires AllHex(s)
  {
    if s == [] then 0 else HexValue(s[..|s| - 1]) * 16 + DigitValue(s[|s| - 1])
  }

  function Power16(n: nat): (p: nat)
    ensures p >= 1
  {
    if n == 0 then 1 else 16 * Power16(n - 1)
  }

  /** `s.padStart(n, c)` for a one-character pad string. */
  function PadStart(s: string, n: nat, c: char): (r: string)
    ensures |s| >= n ==> r == s
    ensures |s| < n ==> |r| == n && r[n - |s|..] == s
    ensures forall i :: 0 <= i < |r| - |s| ==> r[i] == c
  {
    if |s| >= n then s else seq(n - |s|, _ => c) + s
  }

  /** Decoding undoes `toString(16)`. */
  lemma {:induction false} HexValueOfToHex(k: nat)
    ensures HexValue(ToHex(k)) == k
    decreases k
  {
    if k < 16 {
      DigitValueOfChar(k);
    } else {
      var s := ToHex(k);
      HexValueOfToHex(k / 16);
      DigitValueOfChar(k % 16);
      assert s[..|s| - 1] == ToHex(k / 16);
      assert (k / 16) * 16 + k % 16 == k;
    }
  }

  /** `toString(16)` of a number below 16^n has at most n digits. */
  lemma {:induction false} ToHexLength(k: nat, n: nat)
    requires n >= 1 && k < Power16(n)
    ensures |ToHex(k)| <= n
    decreases k
  {
    if k >= 16 {
      assert Power16(1) == 16;
      ToHexLength(k / 16, n - 1);
    }
  }

  /** Leading zeros do not change the value. */
  lemma {:induction false} HexValueLeadingZeros(z: nat, s: string)
    requires AllHex(s)
    ensures AllHex(seq(z, _ => '0') + s)
    ensures HexValue(seq(z, _ => '0') + s) == HexValue(s)
    decreases |s|
  {
    var t := seq(z, _ => '0') + s;
    assert AllHex(t) by {
      forall i | 0 <= i < |t| ensures IsHexDigit(t[i]) {
        if i < z { assert t[i] == '0'; } else { assert t[i] == s[i - z]; }
      }
    }
    if s == [] {
      HexValueOfZeros(z);
      assert t == seq(z, _ => '0');
    } else {
      var init := s[..|s| - 1];
      assert AllHex(init) by {
        forall i | 0 <= i < |init| ensures IsHexDigit(init[i]) { assert init[i] == s[i]; }
      }
      HexValueLeadingZeros(z, init);
      assert t[..|t| - 1] == seq(z, _ => '0') + init;
      assert t[|t| - 1] == s[|s| - 1];
    }
  }

  lemma {:induction false} HexValueOfZeros(z: nat)
    ensures AllHex(seq(z, _ => '0'))
    ensures HexValue(seq(z, _ => '0')) == 0
    decreases z
  {
    var t := seq(z, _ => '0');
    assert AllHex(t) by {
      forall i | 0 <= i < |t| ensures IsHexDigit(t[i]) { assert t[i] == '0'; }
    }
    if z > 0 {
      HexValueOfZeros(z - 1);
      assert t[..|t| - 1] == seq(z - 1, _ => '0');
    }
  }
}
