/** The AES block cipher as FIPS 197 states it, on a state of four columns of four bytes. */
module AesSpec {
  import opened AesField

  datatype Column = Column(b0: bv8, b1: bv8, b2: bv8, b3: bv8)
  datatype State = State(c0: Column, c1: Column, c2: Column, c3: Column)

  // ---------------------------------------------------------------- the S-box (5.1.1, 5.3.2)

  function Rotl(x: bv8): bv8 { (x << 1) | (x >> 7) }

  function Affine(x: bv8): bv8 {
    x ^ Rotl(x) ^ Rotl(Rotl(x)) ^ Rotl(Rotl(Rotl(x))) ^ Rotl(Rotl(Rotl(Rotl(x)))) ^ 0x63
  }

  function InvAffine(y: bv8): bv8 {
    Rotl(y) ^ Rotl(Rotl(Rotl(y))) ^ Rotl(Rotl(Rotl(Rotl(Rotl(Rotl(y)))))) ^ 0x05
  }

  function Bit(x: bv8, i: nat): bv8
    requires i < 8
  {
    (x >> i) & 1
  }

  /** The right-hand side of equation 5.1: a sum of five input bits and a constant one. */
  function BitSum(x: bv8, i: nat): bv8
    requires i < 8
  {
    Bit(x, i) ^ Bit(x, (i + 4) % 8) ^ Bit(x, (i + 5) % 8) ^ Bit(x, (i + 6) % 8) ^ Bit(x, (i + 7) % 8) ^ Bit(0x63, i)
  }

  lemma AffineBits(x: bv8, i: nat)
    requires i < 8
    ensures Bit(Affine(x), i) == BitSum(x, i)
  {
    hide Bit, Affine, BitSum;
    match i
    case 0 => AffineBit0(x); case 1 => AffineBit1(x); case 2 => AffineBit2(x); case 3 => AffineBit3(x);
    case 4 => AffineBit4(x); case 5 => AffineBit5(x); case 6 => AffineBit6(x); case 7 => AffineBit7(x);
  }

  lemma AffineBit0(x: bv8)
    ensures Bit(Affine(x), 0) == BitSum(x, 0)
  {
  }

  lemma AffineBit1(x: bv8)
    ensures Bit(Affine(x), 1) == BitSum(x, 1)
  {
  }

  lemma AffineBit2(x: bv8)
    ensures Bit(Affine(x), 2) == BitSum(x, 2)
  {
  }

  lemma AffineBit3(x: bv8)
    ensures Bit(Affine(x), 3) == BitSum(x, 3)
  {
  }

  lemma AffineBit4(x: bv8)
    ensures Bit(Affine(x), 4) == BitSum(x, 4)
  {
  }

  lemma AffineBit5(x: bv8)
    ensures Bit(Affine(x), 5) == BitSum(x, 5)
  {
  }

  lemma AffineBit6(x: bv8)
    ensures Bit(Affine(x), 6) == BitSum(x, 6)
  {
  }

  lemma AffineBit7(x: bv8)
    ensures Bit(Affine(x), 7) == BitSum(x, 7)
  {
  }

  lemma AffineInverts(x: bv8)
    ensures InvAffine(Affine(x)) == x && Affine(InvAffine(x)) == x
  {
  }

  ghost function Sub(x: bv8): bv8 { Affine(Inverse(x)) }
  ghost function InvSub(y: bv8): bv8 { Inverse(InvAffine(y)) }

  lemma SubInverts(x: bv8)
    ensures InvSub(Sub(x)) == x && Sub(InvSub(x)) == x
  {
    hide Affine, InvAffine, IsInverse;
    AffineInverts(Inverse(x));
    AffineInverts(x);
    InverseInvolution(x);
    InverseInvolution(InvAffine(x));
  }

  // ---------------------------------------------------------------- MixColumns (5.1.3, 5.3.3)

  function Rot(c: Column): Column { Column(c.b1, c.b2, c.b3, c.b0) }

  function Add4(a: bv8, b: bv8, c: bv8, d: bv8): bv8 { Add(Add(a, b), Add(c, d)) }

  function Dot(c: Column, k: Column): bv8 {
    Add4(Mul(c.b0, k.b0), Mul(c.b1, k.b1), Mul(c.b2, k.b2), Mul(c.b3, k.b3))
  }

  /** The circulant matrix with first row `k`, applied to a column. */
  function Circulant(c: Column, k: Column): Column {
    Column(Dot(c, k), Dot(Rot(c), k), Dot(Rot(Rot(c)), k), Dot(Rot(Rot(Rot(c))), k))
  }

  const MIX := Column(2, 3, 1, 1)
  const INV_MIX := Column(14, 11, 13, 9)

  function Mix(c: Column): Column { Circulant(c, MIX) }
  function InvMix(c: Column): Column { Circulant(c, INV_MIX) }

  function Plus(a: Column, b: Column): Column {
    Column(Add(a.b0, b.b0), Add(a.b1, b.b1), Add(a.b2, b.b2), Add(a.b3, b.b3))
  }

  lemma Add4Rotates(a: bv8, b: bv8, c: bv8, d: bv8)
    ensures Add4(b, c, d, a) == Add4(a, b, c, d)
  {
    hide Add;
    AddComm(d, a);
    AddSwap(b, c, a, d);
    AddComm(b, a);
    AddComm(Add(b, a), Add(c, d));
    AddSwap(a, b, d, c);
    AddComm(c, d);
  }

  lemma Add4Swap(a0: bv8, a1: bv8, a2: bv8, a3: bv8, b0: bv8, b1: bv8, b2: bv8, b3: bv8)
    ensures Add(Add4(a0, a1, a2, a3), Add4(b0, b1, b2, b3)) == Add4(Add(a0, b0), Add(a1, b1), Add(a2, b2), Add(a3, b3))
  {
    hide Add;
    AddSwap(Add(a0, a1), Add(a2, a3), Add(b0, b1), Add(b2, b3));
    AddSwap(a0, a1, b0, b1);
    AddSwap(a2, a3, b2, b3);
  }

  /** Summing by rows or by columns is the same. */
  lemma Add4Transpose(a: Column, b: Column, c: Column, d: Column)
    ensures Add4(Add4(a.b0, a.b1, a.b2, a.b3), Add4(b.b0, b.b1, b.b2, b.b3), Add4(c.b0, c.b1, c.b2, c.b3), Add4(d.b0, d.b1, d.b2, d.b3))
         == Add4(Add4(a.b0, b.b0, c.b0, d.b0), Add4(a.b1, b.b1, c.b1, d.b1), Add4(a.b2, b.b2, c.b2, d.b2), Add4(a.b3, b.b3, c.b3, d.b3))
  {
    hide Add;
    Add4Swap(a.b0, a.b1, a.b2, a.b3, b.b0, b.b1, b.b2, b.b3);
    Add4Swap(c.b0, c.b1, c.b2, c.b3, d.b0, d.b1, d.b2, d.b3);
    Add4Swap(Add(a.b0, b.b0), Add(a.b1, b.b1), Add(a.b2, b.b2), Add(a.b3, b.b3),
             Add(c.b0, d.b0), Add(c.b1, d.b1), Add(c.b2, d.b2), Add(c.b3, d.b3));
  }

  lemma MulAdd4(a: bv8, b: bv8, c: bv8, d: bv8, k: bv8)
    ensures Mul(Add4(a, b, c, d), k) == Add4(Mul(a, k), Mul(b, k), Mul(c, k), Mul(d, k))
  {
    hide Add, Mul;
    MulLinear(a, b, k);
    MulLinear(c, d, k);
    MulLinear(Add(a, b), Add(c, d), k);
  }

  lemma DotLinear(c: Column, d: Column, k: Column)
    ensures Dot(Plus(c, d), k) == Add(Dot(c, k), Dot(d, k))
  {
    hide Add, Mul, Add4;
    MulLinear(c.b0, d.b0, k.b0);
    MulLinear(c.b1, d.b1, k.b1);
    MulLinear(c.b2, d.b2, k.b2);
    MulLinear(c.b3, d.b3, k.b3);
    Add4Swap(Mul(c.b0, k.b0), Mul(c.b1, k.b1), Mul(c.b2, k.b2), Mul(c.b3, k.b3),
             Mul(d.b0, k.b0), Mul(d.b1, k.b1), Mul(d.b2, k.b2), Mul(d.b3, k.b3));
  }

  lemma InvMixLinear(c: Column, d: Column)
    ensures InvMix(Plus(c, d)) == Plus(InvMix(c), InvMix(d))
  {
    hide Add, Dot;
    DotLinear(c, d, INV_MIX);
    DotLinear(Rot(c), Rot(d), INV_MIX);
    DotLinear(Rot(Rot(c)), Rot(Rot(d)), INV_MIX);
    DotLinear(Rot(Rot(Rot(c))), Rot(Rot(Rot(d))), INV_MIX);
  }

  /** What one byte contributes to the first byte of `Circulant(Circulant(_, m), k)`. */
  function Share(x: bv8, m0: bv8, m1: bv8, m2: bv8, m3: bv8, k: Column): bv8 {
    Add4(Mul(Mul(x, m0), k.b0), Mul(Mul(x, m1), k.b1), Mul(Mul(x, m2), k.b2), Mul(Mul(x, m3), k.b3))
  }

  lemma MulDot(c: Column, m: Column, k: bv8)
    ensures Mul(Dot(c, m), k) == Add4(Mul(Mul(c.b0, m.b0), k), Mul(Mul(c.b1, m.b1), k), Mul(Mul(c.b2, m.b2), k), Mul(Mul(c.b3, m.b3), k))
  {
    hide Add4, Mul;
    MulAdd4(Mul(c.b0, m.b0), Mul(c.b1, m.b1), Mul(c.b2, m.b2), Mul(c.b3, m.b3), k);
  }

  lemma FirstOfProduct(c: Column, m: Column, k: Column)
    ensures Dot(Circulant(c, m), k) ==
      Add4(Share(c.b0, m.b0, m.b3, m.b2, m.b1, k), Share(c.b1, m.b1, m.b0, m.b3, m.b2, k),
           Share(c.b2, m.b2, m.b1, m.b0, m.b3, k), Share(c.b3, m.b3, m.b2, m.b1, m.b0, k))
  {
    hide Add4, Mul;
    var r1, r2, r3 := Rot(c), Rot(Rot(c)), Rot(Rot(Rot(c)));
    MulDot(c, m, k.b0);
    MulDot(r1, m, k.b1);
    MulDot(r2, m, k.b2);
    MulDot(r3, m, k.b3);
    var p := Column(Mul(Mul(c.b0, m.b0), k.b0), Mul(Mul(c.b1, m.b1), k.b0), Mul(Mul(c.b2, m.b2), k.b0), Mul(Mul(c.b3, m.b3), k.b0));
    var q := Column(Mul(Mul(c.b0, m.b3), k.b1), Mul(Mul(c.b1, m.b0), k.b1), Mul(Mul(c.b2, m.b1), k.b1), Mul(Mul(c.b3, m.b2), k.b1));
    var u := Column(Mul(Mul(c.b0, m.b2), k.b2), Mul(Mul(c.b1, m.b3), k.b2), Mul(Mul(c.b2, m.b0), k.b2), Mul(Mul(c.b3, m.b1), k.b2));
    var v := Column(Mul(Mul(c.b0, m.b1), k.b3), Mul(Mul(c.b1, m.b2), k.b3), Mul(Mul(c.b2, m.b3), k.b3), Mul(Mul(c.b3, m.b0), k.b3));
    Add4Rotates(q.b0, q.b1, q.b2, q.b3);
    Add4Rotates(u.b0, u.b1, u.b2, u.b3);
    Add4Rotates(u.b1, u.b2, u.b3, u.b0);
    Add4Rotates(v.b3, v.b0, v.b1, v.b2);
    Add4Transpose(p, q, u, v);
  }

  lemma TimesSmall(x: bv8)
    ensures Mul(x, 1) == x && Mul(x, 2) == Xtime(x) && Mul(x, 3) == Add(x, Xtime(x)) && Mul(x, 4) == Xtime(Xtime(x))
  {
    hide Add, Xtime, Odd, Half;
    Bits();
    MulOne(x);
    MulOne(Xtime(x));
    MulOne(Xtime(Xtime(x)));
    assert Mul(Xtime(x), 2) == Mul(Xtime(Xtime(x)), 1);
  }

  lemma Times9And13(x: bv8)
    ensures var x1, x2, x3 := Xtime(x), Xtime(Xtime(x)), Xtime(Xtime(Xtime(x)));
      Mul(x, 9) == Add(x, x3) && Mul(x, 13) == Add(x, Add(x2, x3))
  {
    hide Add, Xtime, Odd, Half;
    Bits();
    TimesSmall(Xtime(x));
    TimesSmall(Xtime(Xtime(x)));
    assert Mul(Xtime(x), 6) == Mul(Xtime(Xtime(x)), 3);
  }

  lemma Times11And14(x: bv8)
    ensures var x1, x2, x3 := Xtime(x), Xtime(Xtime(x)), Xtime(Xtime(Xtime(x)));
      Mul(x, 11) == Add(x, Add(x1, x3)) && Mul(x, 14) == Add(x1, Add(x2, x3))
  {
    hide Add, Xtime, Odd, Half;
    Bits();
    TimesSmall(Xtime(Xtime(x)));
    assert Mul(Xtime(x), 5) == Add(Xtime(x), Mul(Xtime(Xtime(x)), 2));
    assert Mul(Xtime(x), 7) == Add(Xtime(x), Mul(Xtime(Xtime(x)), 3));
  }

  lemma Times(x: bv8)
    ensures var x1, x2, x3 := Xtime(x), Xtime(Xtime(x)), Xtime(Xtime(Xtime(x)));
      && Mul(x, 1) == x && Mul(x, 2) == x1 && Mul(x, 3) == Add(x, x1) && Mul(x, 9) == Add(x, x3)
      && Mul(x, 11) == Add(x, Add(x1, x3)) && Mul(x, 13) == Add(x, Add(x2, x3)) && Mul(x, 14) == Add(x1, Add(x2, x3))
  {
    hide Add, Xtime, Mul;
    TimesSmall(x);
    Times9And13(x);
    Times11And14(x);
  }

  lemma Bits()
    ensures Odd(1) && !Odd(2) && Odd(3) && !Odd(4) && Odd(5) && !Odd(6) && Odd(7) && Odd(9) && Odd(11) && Odd(13) && !Odd(14)
    ensures Half(1) == 0 && Half(2) == 1 && Half(3) == 1 && Half(4) == 2 && Half(5) == 2 && Half(6) == 3 && Half(7) == 3
    ensures Half(9) == 4 && Half(11) == 5 && Half(13) == 6 && Half(14) == 7
  {
  }

  /** Five powers of x cancel as the product of the two matrices requires. */
  lemma Cancel(x: bv8, x1: bv8, x2: bv8, x3: bv8, x4: bv8)
    ensures Add4(Add(x2, Add(x3, x4)), Add(x, Add(x1, x3)), Add(x, Add(x2, x3)), Add(Add(x, x1), Add(x3, x4))) == x
  {
  }

  lemma CancelSecond(x: bv8, x1: bv8, x2: bv8, x3: bv8, x4: bv8)
    ensures Add4(Add(Add(x1, x2), Add(Add(x2, x3), Add(x3, x4))), Add(x1, Add(x2, x4)), Add(x, Add(x2, x3)), Add(x, x3)) == 0
  {
  }

  lemma CancelThird(x: bv8, x1: bv8, x2: bv8, x3: bv8, x4: bv8)
    ensures Add4(Add(x1, Add(x2, x3)), Add(Add(x, x1), Add(Add(x1, x2), Add(x3, x4))), Add(x1, Add(x3, x4)), Add(x, x3)) == 0
  {
    hide Add;
    ThirdLeft(x, x1, x2, x3, x4);
    ThirdRight(x, x1, x3, x4);
    Zero(Add(x, Add(x1, x4)));
  }

  lemma ThirdLeft(x: bv8, x1: bv8, x2: bv8, x3: bv8, x4: bv8)
    ensures Add(Add(x1, Add(x2, x3)), Add(Add(x, x1), Add(Add(x1, x2), Add(x3, x4)))) == Add(x, Add(x1, x4))
  {
    hide Add;
    DropPair(x, x1, x2, Add(x3, x4));
    DropTwoPairs(x, x1, x2, x3, x4);
  }

  lemma DropPair(x: bv8, y: bv8, z: bv8, w: bv8)
    ensures Add(Add(x, y), Add(Add(y, z), w)) == Add(Add(x, z), w)
  {
  }

  lemma DropTwoPairs(x: bv8, x1: bv8, x2: bv8, x3: bv8, x4: bv8)
    ensures Add(Add(x1, Add(x2, x3)), Add(Add(x, x2), Add(x3, x4))) == Add(x, Add(x1, x4))
  {
  }

  lemma ThirdRight(x: bv8, x1: bv8, x3: bv8, x4: bv8)
    ensures Add(Add(x1, Add(x3, x4)), Add(x, x3)) == Add(x, Add(x1, x4))
  {
  }

  lemma CancelFourth(x: bv8, x1: bv8, x2: bv8, x3: bv8, x4: bv8)
    ensures Add4(Add(x1, Add(x2, x3)), Add(x, Add(x1, x3)), Add(Add(x, x1), Add(Add(x2, x3), Add(x3, x4))), Add(x1, x4)) == 0
  {
    hide Add;
    FourthLeft(x, x1, x2, x3);
    FourthRight(x, x1, x2, x3, x4);
    Zero(Add(x, x2));
  }

  lemma FourthLeft(x: bv8, x1: bv8, x2: bv8, x3: bv8)
    ensures Add(Add(x1, Add(x2, x3)), Add(x, Add(x1, x3))) == Add(x, x2)
  {
  }

  lemma FourthRight(x: bv8, x1: bv8, x2: bv8, x3: bv8, x4: bv8)
    ensures Add(Add(Add(x, x1), Add(Add(x2, x3), Add(x3, x4))), Add(x1, x4)) == Add(x, x2)
  {
  }

  lemma SharesOfInverse(x: bv8)
    ensures Share(x, 2, 1, 1, 3, INV_MIX) == x
    ensures Share(x, 3, 2, 1, 1, INV_MIX) == Share(x, 1, 3, 2, 1, INV_MIX) == Share(x, 1, 1, 3, 2, INV_MIX) == 0
  {
    hide Add, Add4, Xtime, Mul;
    var x1, x2, x3, x4 := Xtime(x), Xtime(Xtime(x)), Xtime(Xtime(Xtime(x))), Xtime(Xtime(Xtime(Xtime(x))));
    Times(x);
    Times(x1);
    Times(Add(x, x1));
    XtimeLinear(x, x1);
    XtimeLinear(x1, x2);
    XtimeLinear(x2, x3);
    Cancel(x, x1, x2, x3, x4);
    CancelSecond(x, x1, x2, x3, x4);
    CancelThird(x, x1, x2, x3, x4);
    CancelFourth(x, x1, x2, x3, x4);
  }

  lemma SumToFirst(x: bv8)
    ensures Add4(x, 0, 0, 0) == x
  {
    hide Add;
    Zero(x);
  }

  lemma FirstRestored(c: Column)
    ensures Dot(Mix(c), INV_MIX) == c.b0
  {
    hide Dot, Share, Add4;
    FirstOfProduct(c, MIX, INV_MIX);
    SharesOfInverse(c.b0);
    SharesOfInverse(c.b1);
    SharesOfInverse(c.b2);
    SharesOfInverse(c.b3);
    SumToFirst(c.b0);
  }

  /** InvMixColumns undoes MixColumns on every column. */
  lemma MixInverts(c: Column)
    ensures InvMix(Mix(c)) == c
  {
    hide Dot;
    FirstRestored(c);
    FirstRestored(Rot(c));
    FirstRestored(Rot(Rot(c)));
    FirstRestored(Rot(Rot(Rot(c))));
  }

  // ---------------------------------------------------------------- the cipher (5.1, 5.3, 5.3.5)

  ghost function SubColumn(c: Column): Column { Column(Sub(c.b0), Sub(c.b1), Sub(c.b2), Sub(c.b3)) }
  ghost function InvSubColumn(c: Column): Column { Column(InvSub(c.b0), InvSub(c.b1), InvSub(c.b2), InvSub(c.b3)) }

  ghost function SubBytes(s: State): State { State(SubColumn(s.c0), SubColumn(s.c1), SubColumn(s.c2), SubColumn(s.c3)) }
  ghost function InvSubBytes(s: State): State {
    State(InvSubColumn(s.c0), InvSubColumn(s.c1), InvSubColumn(s.c2), InvSubColumn(s.c3))
  }

  /** Row r is rotated by r columns to the left. */
  function ShiftRows(s: State): State {
    State(Column(s.c0.b0, s.c1.b1, s.c2.b2, s.c3.b3), Column(s.c1.b0, s.c2.b1, s.c3.b2, s.c0.b3),
          Column(s.c2.b0, s.c3.b1, s.c0.b2, s.c1.b3), Column(s.c3.b0, s.c0.b1, s.c1.b2, s.c2.b3))
  }

  /** The byte in row `r` of column `c`. */
  function Cell(s: State, r: nat, c: nat): bv8
    requires r < 4 && c < 4
  {
    var k := if c == 0 then s.c0 else if c == 1 then s.c1 else if c == 2 then s.c2 else s.c3;
    if r == 0 then k.b0 else if r == 1 then k.b1 else if r == 2 then k.b2 else k.b3
  }

  /** Equation 5.5. */
  lemma ShiftRowsIs(s: State, r: nat, c: nat)
    requires r < 4 && c < 4
    ensures Cell(ShiftRows(s), r, c) == Cell(s, r, (c + r) % 4)
  {
  }

  function InvShiftRows(s: State): State {
    State(Column(s.c0.b0, s.c3.b1, s.c2.b2, s.c1.b3), Column(s.c1.b0, s.c0.b1, s.c3.b2, s.c2.b3),
          Column(s.c2.b0, s.c1.b1, s.c0.b2, s.c3.b3), Column(s.c3.b0, s.c2.b1, s.c1.b2, s.c0.b3))
  }

  function MixColumns(s: State): State { State(Mix(s.c0), Mix(s.c1), Mix(s.c2), Mix(s.c3)) }
  function InvMixColumns(s: State): State { State(InvMix(s.c0), InvMix(s.c1), InvMix(s.c2), InvMix(s.c3)) }

  function AddKey(s: State, k: State): State { State(Plus(s.c0, k.c0), Plus(s.c1, k.c1), Plus(s.c2, k.c2), Plus(s.c3, k.c3)) }

  /** The state after `n` of the rounds that end with MixColumns. */
  ghost function Rounds(keys: seq<State>, s: State, n: nat): State
    requires n < |keys|
  {
    if n == 0 then AddKey(s, keys[0])
    else AddKey(MixColumns(ShiftRows(SubBytes(Rounds(keys, s, n - 1)))), keys[n])
  }

  ghost function Cipher(keys: seq<State>, s: State): State
    requires |keys| >= 2
  {
    AddKey(ShiftRows(SubBytes(Rounds(keys, s, |keys| - 2))), keys[|keys| - 1])
  }

  /** The straightforward inverse, down to where round key `n` has been added and mixed out. */
  ghost function InvRounds(keys: seq<State>, s: State, n: nat): State
    requires n < |keys|
    decreases |keys| - n
  {
    if n == |keys| - 1 then AddKey(s, keys[n])
    else InvMixColumns(AddKey(InvSubBytes(InvShiftRows(InvRounds(keys, s, n + 1))), keys[n]))
  }

  ghost function InvCipher(keys: seq<State>, s: State): State
    requires |keys| >= 2
  {
    AddKey(InvSubBytes(InvShiftRows(InvRounds(keys, s, 1))), keys[0])
  }

  /** The keys of the equivalent inverse cipher, in the order it uses them. */
  function InverseKeys(keys: seq<State>): (r: seq<State>)
    ensures |r| == |keys|
  {
    seq(|keys|, n requires 0 <= n < |keys| =>
      if n == 0 || n == |keys| - 1 then keys[|keys| - 1 - n] else InvMixColumns(keys[|keys| - 1 - n]))
  }

  /** The equivalent inverse cipher after `n` rounds: the order of steps is that of the cipher. */
  ghost function EqInvRounds(keys: seq<State>, s: State, n: nat): State
    requires n < |keys|
  {
    if n == 0 then AddKey(s, keys[0])
    else AddKey(InvMixColumns(InvShiftRows(InvSubBytes(EqInvRounds(keys, s, n - 1)))), keys[n])
  }

  ghost function EqInvCipher(keys: seq<State>, s: State): State
    requires |keys| >= 2
  {
    AddKey(InvShiftRows(InvSubBytes(EqInvRounds(keys, s, |keys| - 2))), keys[|keys| - 1])
  }

  lemma PlusTwice(c: Column, k: Column)
    ensures Plus(Plus(c, k), k) == c
  {
    hide Add;
    AddTwice(c.b0, k.b0);
    AddTwice(c.b1, k.b1);
    AddTwice(c.b2, k.b2);
    AddTwice(c.b3, k.b3);
  }

  lemma AddTwice(a: bv8, b: bv8)
    ensures Add(Add(a, b), b) == a
  {
  }

  lemma AddKeyTwice(s: State, k: State)
    ensures AddKey(AddKey(s, k), k) == s
  {
    hide Plus;
    PlusTwice(s.c0, k.c0);
    PlusTwice(s.c1, k.c1);
    PlusTwice(s.c2, k.c2);
    PlusTwice(s.c3, k.c3);
  }

  lemma SubColumnInverts(c: Column)
    ensures InvSubColumn(SubColumn(c)) == c
  {
    hide Sub, InvSub;
    SubInverts(c.b0);
    SubInverts(c.b1);
    SubInverts(c.b2);
    SubInverts(c.b3);
  }

  lemma SubBytesInverts(s: State)
    ensures InvSubBytes(SubBytes(s)) == s
    ensures InvSubBytes(InvShiftRows(ShiftRows(SubBytes(s)))) == s
  {
    hide SubColumn, InvSubColumn;
    SubColumnInverts(s.c0);
    SubColumnInverts(s.c1);
    SubColumnInverts(s.c2);
    SubColumnInverts(s.c3);
    assert InvShiftRows(ShiftRows(SubBytes(s))) == SubBytes(s);
  }

  lemma MixColumnsInverts(s: State)
    ensures InvMixColumns(MixColumns(s)) == s
  {
    hide Mix, InvMix;
    MixInverts(s.c0);
    MixInverts(s.c1);
    MixInverts(s.c2);
    MixInverts(s.c3);
  }

  lemma InvMixAddKey(s: State, k: State)
    ensures InvMixColumns(AddKey(s, k)) == AddKey(InvMixColumns(s), InvMixColumns(k))
  {
    hide InvMix, Plus;
    InvMixLinear(s.c0, k.c0);
    InvMixLinear(s.c1, k.c1);
    InvMixLinear(s.c2, k.c2);
    InvMixLinear(s.c3, k.c3);
  }

  /** Decrypting back to round `n` gives the state the cipher had there, before its bytes were replaced. */
  lemma {:induction false} InvRoundsUndo(keys: seq<State>, s: State, n: nat)
    requires 1 <= n < |keys|
    ensures InvRounds(keys, Cipher(keys, s), n) == ShiftRows(SubBytes(Rounds(keys, s, n - 1)))
    decreases |keys| - n
  {
    hide AddKey, SubBytes, InvSubBytes, ShiftRows, InvShiftRows, MixColumns, InvMixColumns;
    var m := |keys| - 1;
    if n == m {
      AddKeyTwice(ShiftRows(SubBytes(Rounds(keys, s, m - 1))), keys[m]);
    } else {
      InvRoundsUndo(keys, s, n + 1);
      SubBytesInverts(Rounds(keys, s, n));
      AddKeyTwice(MixColumns(ShiftRows(SubBytes(Rounds(keys, s, n - 1)))), keys[n]);
      MixColumnsInverts(ShiftRows(SubBytes(Rounds(keys, s, n - 1))));
    }
  }

  /** InvCipher undoes Cipher, whatever the round keys. */
  lemma InvCipherInverts(keys: seq<State>, s: State)
    requires |keys| >= 2
    ensures InvCipher(keys, Cipher(keys, s)) == s
  {
    hide AddKey, SubBytes, InvSubBytes, ShiftRows, InvShiftRows, MixColumns, InvMixColumns, Cipher;
    InvRoundsUndo(keys, s, 1);
    SubBytesInverts(Rounds(keys, s, 0));
    AddKeyTwice(s, keys[0]);
  }

  lemma SubThenShift(s: State)
    ensures InvShiftRows(InvSubBytes(s)) == InvSubBytes(InvShiftRows(s))
  {
    hide InvSub;
  }

  lemma {:induction false} EqInvRoundsAgree(keys: seq<State>, s: State, n: nat)
    requires n < |keys| - 1
    ensures EqInvRounds(InverseKeys(keys), s, n) == InvRounds(keys, s, |keys| - 1 - n)
  {
    hide AddKey, InvSubBytes, InvShiftRows, InvMixColumns;
    if n > 0 {
      EqInvRoundsAgree(keys, s, n - 1);
      var before := InvRounds(keys, s, |keys| - n);
      SubThenShift(before);
      InvMixAddKey(InvShiftRows(InvSubBytes(before)), keys[|keys| - 1 - n]);
    }
  }

  /** With its own keys the equivalent inverse cipher is the inverse cipher. */
  lemma EqInvCipherAgrees(keys: seq<State>, s: State)
    requires |keys| >= 2
    ensures EqInvCipher(InverseKeys(keys), s) == InvCipher(keys, s)
  {
    hide AddKey, InvSubBytes, InvShiftRows, InvMixColumns;
    EqInvRoundsAgree(keys, s, |keys| - 2);
    SubThenShift(InvRounds(keys, s, 1));
  }
}
