/** The S-box of FIPS 197, figure 7, as a table, and that it is the S-box of section 5.1.1. */
module AesSBox {
  import opened AesField
  import opened AesSpec

  /** The entry of a row in the column that the lower half of `x` tells. */
  function Entry(x: bv8, v0: bv8, v1: bv8, v2: bv8, v3: bv8, v4: bv8, v5: bv8, v6: bv8, v7: bv8,
                 v8: bv8, v9: bv8, vA: bv8, vB: bv8, vC: bv8, vD: bv8, vE: bv8, vF: bv8): bv8
  {
    if x & 8 == 0 then
      if x & 4 == 0 then if x & 2 == 0 then (if x & 1 == 0 then v0 else v1) else (if x & 1 == 0 then v2 else v3)
      else if x & 2 == 0 then (if x & 1 == 0 then v4 else v5) else (if x & 1 == 0 then v6 else v7)
    else
      if x & 4 == 0 then if x & 2 == 0 then (if x & 1 == 0 then v8 else v9) else (if x & 1 == 0 then vA else vB)
      else if x & 2 == 0 then (if x & 1 == 0 then vC else vD) else (if x & 1 == 0 then vE else vF)
  }

  /** Figure 7: the substitution value of each byte. */
  function Figure7(x: bv8): bv8 {
    if x < 0x10 then Entry(x, 0x63, 0x7C, 0x77, 0x7B, 0xF2, 0x6B, 0x6F, 0xC5, 0x30, 0x01, 0x67, 0x2B, 0xFE, 0xD7, 0xAB, 0x76)
    else if x < 0x20 then Entry(x, 0xCA, 0x82, 0xC9, 0x7D, 0xFA, 0x59, 0x47, 0xF0, 0xAD, 0xD4, 0xA2, 0xAF, 0x9C, 0xA4, 0x72, 0xC0)
    else if x < 0x30 then Entry(x, 0xB7, 0xFD, 0x93, 0x26, 0x36, 0x3F, 0xF7, 0xCC, 0x34, 0xA5, 0xE5, 0xF1, 0x71, 0xD8, 0x31, 0x15)
    else if x < 0x40 then Entry(x, 0x04, 0xC7, 0x23, 0xC3, 0x18, 0x96, 0x05, 0x9A, 0x07, 0x12, 0x80, 0xE2, 0xEB, 0x27, 0xB2, 0x75)
    else if x < 0x50 then Entry(x, 0x09, 0x83, 0x2C, 0x1A, 0x1B, 0x6E, 0x5A, 0xA0, 0x52, 0x3B, 0xD6, 0xB3, 0x29, 0xE3, 0x2F, 0x84)
    else if x < 0x60 then Entry(x, 0x53, 0xD1, 0x00, 0xED, 0x20, 0xFC, 0xB1, 0x5B, 0x6A, 0xCB, 0xBE, 0x39, 0x4A, 0x4C, 0x58, 0xCF)
    else if x < 0x70 then Entry(x, 0xD0, 0xEF, 0xAA, 0xFB, 0x43, 0x4D, 0x33, 0x85, 0x45, 0xF9, 0x02, 0x7F, 0x50, 0x3C, 0x9F, 0xA8)
    else if x < 0x80 then Entry(x, 0x51, 0xA3, 0x40, 0x8F, 0x92, 0x9D, 0x38, 0xF5, 0xBC, 0xB6, 0xDA, 0x21, 0x10, 0xFF, 0xF3, 0xD2)
    else if x < 0x90 then Entry(x, 0xCD, 0x0C, 0x13, 0xEC, 0x5F, 0x97, 0x44, 0x17, 0xC4, 0xA7, 0x7E, 0x3D, 0x64, 0x5D, 0x19, 0x73)
    else if x < 0xA0 then Entry(x, 0x60, 0x81, 0x4F, 0xDC, 0x22, 0x2A, 0x90, 0x88, 0x46, 0xEE, 0xB8, 0x14, 0xDE, 0x5E, 0x0B, 0xDB)
    else if x < 0xB0 then Entry(x, 0xE0, 0x32, 0x3A, 0x0A, 0x49, 0x06, 0x24, 0x5C, 0xC2, 0xD3, 0xAC, 0x62, 0x91, 0x95, 0xE4, 0x79)
    else if x < 0xC0 then Entry(x, 0xE7, 0xC8, 0x37, 0x6D, 0x8D, 0xD5, 0x4E, 0xA9, 0x6C, 0x56, 0xF4, 0xEA, 0x65, 0x7A, 0xAE, 0x08)
    else if x < 0xD0 then Entry(x, 0xBA, 0x78, 0x25, 0x2E, 0x1C, 0xA6, 0xB4, 0xC6, 0xE8, 0xDD, 0x74, 0x1F, 0x4B, 0xBD, 0x8B, 0x8A)
    else if x < 0xE0 then Entry(x, 0x70, 0x3E, 0xB5, 0x66, 0x48, 0x03, 0xF6, 0x0E, 0x61, 0x35, 0x57, 0xB9, 0x86, 0xC1, 0x1D, 0x9E)
    else if x < 0xF0 then Entry(x, 0xE1, 0xF8, 0x98, 0x11, 0x69, 0xD9, 0x8E, 0x94, 0x9B, 0x1E, 0x87, 0xE9, 0xCE, 0x55, 0x28, 0xDF)
    else Entry(x, 0x8C, 0xA1, 0x89, 0x0D, 0xBF, 0xE6, 0x42, 0x68, 0x41, 0x99, 0x2D, 0x0F, 0xB0, 0x54, 0xBB, 0x16)
  }

  // ---------------------------------------------------------------- from one power of 3 to the next

  function Sums(y: bv8): bv8 {
    var a := y ^ (y << 1);
    var b := a ^ (a << 2);
    b ^ (b << 4)
  }

  /** Division by 3. */
  function Third(y: bv8): bv8 { Sums(y) ^ (if Sums(y) & 0x80 != 0 then 0x09 else 0) }

  lemma ThirdOfTriple(x: bv8)
    ensures Third(Triple(x)) == x
  {
  }

  /** The entry for a third of what `s` is the entry for. */
  function ThirdBelow(s: bv8): bv8 { Affine(Third(InvAffine(s))) }

  lemma Follows0(x: bv8)
    requires x & 0xE0 == 0x00 && x != 0
    ensures Figure7(Triple(x)) == ThirdBelow(Figure7(x))
  {
  }

  lemma Follows1(x: bv8)
    requires x & 0xE0 == 0x20
    ensures Figure7(Triple(x)) == ThirdBelow(Figure7(x))
  {
  }

  lemma Follows2(x: bv8)
    requires x & 0xE0 == 0x40
    ensures Figure7(Triple(x)) == ThirdBelow(Figure7(x))
  {
  }

  lemma Follows3(x: bv8)
    requires x & 0xE0 == 0x60
    ensures Figure7(Triple(x)) == ThirdBelow(Figure7(x))
  {
  }

  lemma Follows4(x: bv8)
    requires x & 0xE0 == 0x80
    ensures Figure7(Triple(x)) == ThirdBelow(Figure7(x))
  {
  }

  lemma Follows5(x: bv8)
    requires x & 0xE0 == 0xA0
    ensures Figure7(Triple(x)) == ThirdBelow(Figure7(x))
  {
  }

  lemma Follows6(x: bv8)
    requires x & 0xE0 == 0xC0
    ensures Figure7(Triple(x)) == ThirdBelow(Figure7(x))
  {
  }

  lemma Follows7(x: bv8)
    requires x & 0xE0 == 0xE0
    ensures Figure7(Triple(x)) == ThirdBelow(Figure7(x))
  {
  }

  /** The inverse of three times `x` is a third of the inverse of `x`, and the table knows. */
  lemma Follows(x: bv8)
    requires x != 0
    ensures Figure7(Triple(x)) == ThirdBelow(Figure7(x))
  {
    hide ThirdBelow, Triple, Figure7;
    match x & 0xE0 {
      case 0x00 => Follows0(x); case 0x20 => Follows1(x); case 0x40 => Follows2(x); case 0x60 => Follows3(x);
      case 0x80 => Follows4(x); case 0xA0 => Follows5(x); case 0xC0 => Follows6(x); case _ => Follows7(x);
    }
  }

  lemma NextPower(n: nat)
    ensures Power(n + 1) == Triple(Power(n))
  {
    hide Triple;
  }

  lemma FirstEntries()
    ensures Figure7(0) == Affine(0) && IsInverse(0, 0)
    ensures Figure7(1) == Affine(1) && Power(0) == 1
  {
  }

  lemma {:induction false} FigureOfPower(n: nat)
    requires n <= 255
    ensures Figure7(Power(n)) == Affine(Power(255 - n))
  {
    hide Figure7, Affine, InvAffine, Third, Triple, Power;
    if n == 0 {
      OrderOfThree(1);
      FirstEntries();
    } else {
      FigureOfPower(n - 1);
      PowerNotZero(n - 1);
      NextPower(n - 1);
      NextPower(255 - n);
      Follows(Power(n - 1));
      AffineInverts(Power(256 - n));
      ThirdOfTriple(Power(255 - n));
    }
  }

  /** Figure 7 of the standard is the S-box: the inverse of the byte, and then the affine step. */
  lemma Figure7Is(x: bv8)
    ensures Sub(x) == Figure7(x)
  {
    hide Affine, IsInverse, Power, Figure7;
    if x == 0 {
      FirstEntries();
      InverseInvolution(0);
    } else {
      var n := Logarithm(x);
      FigureOfPower(n);
      InverseOfPower(n, Power(255 - n));
      InverseInvolution(x);
    }
  }
}
