/**
 * Guids and their canonical text form.
 *
 * A Guid is modelled as the 128-bit number that its text spells out; the
 * in-memory byte layout of System.Guid is not part of this model. Interpolating
 * a Guid into a string uses its default ("D") format: 32 lower-case hexadecimal
 * digits grouped 8-4-4-4-12 and separated by hyphens.
 */
module Guids {

  newtype Guid = x: int | 0 <= x < 0x1_0000_0000_0000_0000_0000_0000_0000_0000

  function Pow16(n: nat): (r: nat)
    ensures r > 0
  {
    if n == 0 then 1 else 16 * Pow16(n - 1)
  }

  const HexDigits: string := "0123456789abcdef"

  /** The lower-case hexadecimal digit for d. */
  function HexDigit(d: nat): char
    requires d < 16
  {
    HexDigits[d]
  }

  /** The n lowest hexadecimal digits of x, most significant first. */
  function Hex(x: nat, n: nat): (s: string)
    ensures |s| == n
  {
    if n == 0 then [] else Hex(x / 16, n - 1) + [HexDigit(x % 16)]
  }

  /** The default text form of a Guid: 36 characters, hyphens at 8, 13, 18 and 23. */
  function Format(g: Guid): (s: string)
    ensures |s| == 36
    ensures s[8] == s[13] == s[18] == s[23] == '-'
  {
    var h := Hex(g as nat, 32);
    h[..8] + "-" + h[8..12] + "-" + h[12..16] + "-" + h[16..20] + "-" + h[20..]
  }

  /** The 32 digits of a formatted Guid, with the hyphens taken out. */
  function Digits(s: string): (h: string)
    requires |s| == 36
    ensures |h| == 32
  {
    s[..8] + s[9..13] + s[14..18] + s[19..23] + s[24..]
  }

  lemma HexDigitInjective(a: nat, b: nat)
    requires a < 16 && b < 16
    requires HexDigit(a) == HexDigit(b)
    ensures a == b
  {
  }

  lemma DivBound(x: nat, n: nat)
    requires n > 0 && x < Pow16(n)
    ensures x / 16 < Pow16(n - 1)
  {
  }

  /** Distinct numbers below 16^n have distinct n-digit spellings. */
  lemma {:induction false} HexInjective(x: nat, y: nat, n: nat)
    requires x < Pow16(n) && y < Pow16(n)
    requires Hex(x, n) == Hex(y, n)
    ensures x == y
  {
    if n > 0 {
      var hx, hy := Hex(x, n), Hex(y, n);
      assert hx[n - 1] == HexDigit(x % 16) && hy[n - 1] == HexDigit(y % 16);
      HexDigitInjective(x % 16, y % 16);
      assert hx[..n - 1] == Hex(x / 16, n - 1) && hy[..n - 1] == Hex(y / 16, n - 1);
      DivBound(x, n);
      DivBound(y, n);
      HexInjective(x / 16, y / 16, n - 1);
    }
  }

  lemma {:induction false} Pow16Add(a: nat, b: nat)
    ensures Pow16(a + b) == Pow16(a) * Pow16(b)
  {
    if a > 0 {
      Pow16Add(a - 1, b);
    }
  }

  /** Every Guid fits in 32 hexadecimal digits. */
  lemma GuidBelowPow16(g: Guid)
    ensures (g as nat) < Pow16(32)
  {
    Pow16Add(1, 1);
    Pow16Add(2, 2);
    Pow16Add(4, 4);
    Pow16Add(8, 8);
    Pow16Add(16, 16);
  }

  /** Taking the hyphens out of a formatted Guid gives back its 32 digits. */
  lemma DigitsOfFormat(g: Guid)
    ensures Digits(Format(g)) == Hex(g as nat, 32)
  {
    var h := Hex(g as nat, 32);
    var s := Format(g);
    assert s[..8] == h[..8];
    assert s[9..13] == h[8..12];
    assert s[14..18] == h[12..16];
    assert s[19..23] == h[16..20];
    assert s[24..] == h[20..];
    assert h == h[..8] + h[8..12] + h[12..16] + h[16..20] + h[20..];
  }

  /** Two Guids with the same text are the same Guid. */
  lemma FormatInjective(a: Guid, b: Guid)
    requires Format(a) == Format(b)
    ensures a == b
  {
    DigitsOfFormat(a);
    DigitsOfFormat(b);
    GuidBelowPow16(a);
    GuidBelowPow16(b);
    HexInjective(a as nat, b as nat, 32);
  }
}
