/** Why a look-up in four round tables is one column of SubBytes, ShiftRows, MixColumns and AddRoundKey. */
module AesRounds {
  import opened AesField
  import opened AesSpec
  import opened AesTables

  function Xor5(k: bv32, a: bv32, b: bv32, c: bv32, d: bv32): bv32 { Xor4(Xor2(k, a), b, c, d) }

  lemma XorAssoc(a: bv32, b: bv32, c: bv32)
    ensures Xor2(Xor2(a, b), c) == Xor2(a, Xor2(b, c))
  {
  }

  lemma XorComm(a: bv32, b: bv32)
    ensures Xor2(a, b) == Xor2(b, a)
  {
  }

  lemma PackSum(k: Column, a: Column, b: Column, c: Column, d: Column)
    ensures Xor5(Pack(k), Pack(a), Pack(b), Pack(c), Pack(d)) == Pack(Plus(Plus(Plus(a, b), Plus(c, d)), k))
  {
    hide Pack, Plus, Xor5, Xor2;
    PackPlus2(a, b);
    PackPlus2(c, d);
    PackPlus2(Plus(a, b), Plus(c, d));
    PackPlus2(Plus(Plus(a, b), Plus(c, d)), k);
    Regroup(Pack(k), Pack(a), Pack(b), Pack(c), Pack(d));
  }

  lemma PackPlus2(c: Column, d: Column)
    ensures Xor2(Pack(c), Pack(d)) == Pack(Plus(c, d))
  {
    hide Pack, Plus;
    PackPlus(c, d);
  }

  lemma Regroup(k: bv32, a: bv32, b: bv32, c: bv32, d: bv32)
    ensures Xor5(k, a, b, c, d) == Xor2(Xor2(Xor2(a, b), Xor2(c, d)), k)
  {
    hide Xor2;
    XorAssoc(k, a, b);
    XorAssoc(Xor2(k, Xor2(a, b)), c, d);
    XorAssoc(k, Xor2(a, b), Xor2(c, d));
    XorComm(k, Xor2(Xor2(a, b), Xor2(c, d)));
  }

  /** Four contributions, one from each row, make a circulant product. */
  lemma CirculantSum(c: Column, m: Column)
    ensures Circulant(c, m) == Plus(
      Plus(Column(Mul(c.b0, m.b0), Mul(c.b0, m.b3), Mul(c.b0, m.b2), Mul(c.b0, m.b1)),
           Column(Mul(c.b1, m.b1), Mul(c.b1, m.b0), Mul(c.b1, m.b3), Mul(c.b1, m.b2))),
      Plus(Column(Mul(c.b2, m.b2), Mul(c.b2, m.b1), Mul(c.b2, m.b0), Mul(c.b2, m.b3)),
           Column(Mul(c.b3, m.b3), Mul(c.b3, m.b2), Mul(c.b3, m.b1), Mul(c.b3, m.b0))))
  {
    hide Mul, Add;
    Add4Rotates(Mul(c.b0, m.b3), Mul(c.b1, m.b0), Mul(c.b2, m.b1), Mul(c.b3, m.b2));
    Add4Rotates(Mul(c.b0, m.b2), Mul(c.b1, m.b3), Mul(c.b2, m.b0), Mul(c.b3, m.b1));
    Add4Rotates(Mul(c.b1, m.b3), Mul(c.b2, m.b0), Mul(c.b3, m.b1), Mul(c.b0, m.b2));
    Add4Rotates(Mul(c.b3, m.b0), Mul(c.b0, m.b1), Mul(c.b1, m.b2), Mul(c.b2, m.b3));
  }

  /** Four look-ups in FT0 … FT3 and a round key word: one column of a round. */
  lemma ForwardColumn(c: Column, k: Column)
    ensures Xor5(Pack(k), RoundEntry(true, 0, c.b0), RoundEntry(true, 1, c.b1), RoundEntry(true, 2, c.b2), RoundEntry(true, 3, c.b3))
         == Pack(Plus(Mix(SubColumn(c)), k))
  {
    hide Pack, Plus, Mul, Sub, Xor5, Circulant;
    var s := SubColumn(c);
    Turns(c.b1);
    Turns(c.b2);
    Turns(c.b3);
    MulOne(s.b0);
    MulOne(s.b1);
    MulOne(s.b2);
    MulOne(s.b3);
    CirculantSum(s, MIX);
    PackSum(k, Forward(0, c.b0), Forward(1, c.b1), Forward(2, c.b2), Forward(3, c.b3));
  }

  lemma Turns(b: bv8)
    ensures Forward(1, b) == Turn(Ft(b)) && Forward(2, b) == Turn(Turn(Ft(b))) && Forward(3, b) == Turn(Turn(Turn(Ft(b))))
    ensures Backward(1, b) == Turn(Rt(b)) && Backward(2, b) == Turn(Turn(Rt(b))) && Backward(3, b) == Turn(Turn(Turn(Rt(b))))
  {
    hide Ft, Rt, Turn;
    assert Forward(2, b) == Turn(Forward(1, b)) && Backward(2, b) == Turn(Backward(1, b));
  }

  /** The same with RT0 … RT3. */
  lemma BackwardColumn(c: Column, k: Column)
    ensures Xor5(Pack(k), RoundEntry(false, 0, c.b0), RoundEntry(false, 1, c.b1), RoundEntry(false, 2, c.b2), RoundEntry(false, 3, c.b3))
         == Pack(Plus(InvMix(InvSubColumn(c)), k))
  {
    hide Pack, Plus, Mul, InvSub, Xor5, Circulant;
    var s := InvSubColumn(c);
    Turns(c.b1);
    Turns(c.b2);
    Turns(c.b3);
    CirculantSum(s, INV_MIX);
    PackSum(k, Backward(0, c.b0), Backward(1, c.b1), Backward(2, c.b2), Backward(3, c.b3));
  }

  /** Look-ups of S-box entries in RT0 … RT3 mix a key word back. */
  lemma BackwardOfSubs(c: Column)
    ensures Xor4(RoundEntry(false, 0, Sub(c.b0)), RoundEntry(false, 1, Sub(c.b1)), RoundEntry(false, 2, Sub(c.b2)), RoundEntry(false, 3, Sub(c.b3)))
         == Pack(InvMix(c))
  {
    hide Pack, RoundEntry, InvMix, Plus, Sub, SubColumn, InvSubColumn, Xor4, Xor5;
    var zero := Column(0, 0, 0, 0);
    assert SubColumn(c) == Column(Sub(c.b0), Sub(c.b1), Sub(c.b2), Sub(c.b3)) by { SubColumnIs(c); }
    BackwardColumn(SubColumn(c), zero);
    SubColumnInverts(c);
    PlusZero(InvMix(c));
    assert Pack(zero) == 0 by { PackZero(); }
    XorZero(RoundEntry(false, 0, Sub(c.b0)), RoundEntry(false, 1, Sub(c.b1)), RoundEntry(false, 2, Sub(c.b2)), RoundEntry(false, 3, Sub(c.b3)));
  }

  lemma SubColumnIs(c: Column)
    ensures SubColumn(c) == Column(Sub(c.b0), Sub(c.b1), Sub(c.b2), Sub(c.b3))
  {
  }

  lemma PlusZero(c: Column)
    ensures Plus(c, Column(0, 0, 0, 0)) == c
  {
    hide Add;
    Zero(c.b0);
    Zero(c.b1);
    Zero(c.b2);
    Zero(c.b3);
  }

  lemma PackZero()
    ensures Pack(Column(0, 0, 0, 0)) == 0
  {
  }

  lemma XorZero(a: bv32, b: bv32, c: bv32, d: bv32)
    ensures Xor5(0, a, b, c, d) == Xor4(a, b, c, d)
  {
    assert Xor2(0, a) == a;
    hide Xor2;
  }
}
