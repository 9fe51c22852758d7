/**
 Arithmetic in GF(2^8) as AES uses it (section 4 of FIPS 197), with 3 as generator: every
 non-zero byte is a power of 3, which is what logarithm tables rest on.
 */
module AesField {

  function Add(a: bv8, b: bv8): bv8 { a ^ b }

  /** Multiplication by x, that is by 2, modulo x^8 + x^4 + x^3 + x + 1. */
  function Xtime(x: bv8): bv8 {
    (x << 1) ^ (if x & 0x80 != 0 then 0x1B else 0)
  }

  /** The product, by repeated doubling. */
  function Mul(a: bv8, b: bv8): bv8
    decreases b
  {
    if b == 0 then 0 else if Odd(b) then Add(a, Mul(Xtime(a), Half(b))) else Mul(Xtime(a), Half(b))
  }

  predicate Odd(b: bv8) { b & 1 == 1 }

  function Half(b: bv8): (h: bv8)
    ensures b != 0 ==> h < b
  {
    b >> 1
  }

  lemma XtimeLinear(a: bv8, b: bv8)
    ensures Xtime(Add(a, b)) == Add(Xtime(a), Xtime(b))
  {
    if a & 0x80 != 0 {
      if b & 0x80 != 0 {} else {}
    } else {
      if b & 0x80 != 0 {} else {}
    }
  }

  lemma AddSwap(a: bv8, b: bv8, c: bv8, d: bv8)
    ensures Add(Add(a, b), Add(c, d)) == Add(Add(a, c), Add(b, d))
  {
    hide Add;
    AddAssoc(a, b, Add(c, d));
    AddAssoc(b, c, d);
    AddComm(b, c);
    AddAssoc(c, b, d);
    AddAssoc(a, c, Add(b, d));
  }

  lemma AddAssoc(a: bv8, b: bv8, c: bv8)
    ensures Add(Add(a, b), c) == Add(a, Add(b, c))
  {
  }

  lemma AddComm(a: bv8, b: bv8)
    ensures Add(a, b) == Add(b, a)
  {
  }

  lemma Zero(a: bv8)
    ensures Xtime(0) == 0 && Add(0, 0) == 0 && Add(a, 0) == a && Add(0, a) == a && Add(a, a) == 0
  {
  }

  lemma {:induction false} MulLinear(a: bv8, c: bv8, b: bv8)
    ensures Mul(Add(a, c), b) == Add(Mul(a, b), Mul(c, b))
    decreases b
  {
    hide Xtime, Add, Odd, Half;
    Zero(a);
    if b != 0 {
      XtimeLinear(a, c);
      MulLinear(Xtime(a), Xtime(c), Half(b));
      AddSwap(a, c, Mul(Xtime(a), Half(b)), Mul(Xtime(c), Half(b)));
    }
  }

  lemma {:induction false} MulXtime(a: bv8, b: bv8)
    ensures Mul(Xtime(a), b) == Xtime(Mul(a, b))
    decreases b
  {
    hide Xtime, Add, Odd, Half;
    Zero(a);
    if b != 0 {
      MulXtime(Xtime(a), Half(b));
      XtimeLinear(a, Mul(Xtime(a), Half(b)));
    }
  }

  function Up(b: bv8, k: nat): bv8
    requires k < 8
  {
    b << k
  }

  predicate CanShift(b: bv8, k: nat)
    requires k < 8
  {
    b >> (8 - k) == 0
  }

  /** Doubling `k` times what has at most 8 - k bits is a plain shift. */
  lemma {:induction false} MulShift(k: nat, b: bv8)
    requires k < 8 && CanShift(b, k)
    ensures Mul(Up(1, k), b) == Up(b, k)
    decreases 8 - k
  {
    hide Add, Odd, Half, Xtime, Up, CanShift;
    ShiftEnds(k, b);
    if b != 0 && k < 7 {
      ShiftStep(k, b);
      MulShift(k + 1, Half(b));
    }
  }

  lemma ShiftEnds(k: nat, b: bv8)
    requires k < 8 && CanShift(b, k)
    ensures Up(0, k) == 0
    ensures k == 7 && b != 0 ==> b == 1 && Odd(b) && Half(b) == 0 && Add(Up(1, k), 0) == Up(b, k)
  {
  }

  lemma ShiftStep(k: nat, b: bv8)
    requires k < 7 && CanShift(b, k)
    ensures CanShift(Half(b), k + 1) && Xtime(Up(1, k)) == Up(1, k + 1)
    ensures Up(b, k) == if Odd(b) then Add(Up(1, k), Up(Half(b), k + 1)) else Up(Half(b), k + 1)
  {
    if k < 4 { ShiftLow(k, b); } else { ShiftHigh(k, b); }
    match k case 0 => case 1 => case 2 => case 3 => case 4 => case 5 => case 6 =>
  }

  lemma ShiftLow(k: nat, b: bv8)
    requires k < 4
    ensures Up(b, k) == if Odd(b) then Add(Up(1, k), Up(Half(b), k + 1)) else Up(Half(b), k + 1)
  {
    match k case 0 => case 1 => case 2 => case 3 =>
  }

  lemma ShiftHigh(k: nat, b: bv8)
    requires 4 <= k < 7
    ensures Up(b, k) == if Odd(b) then Add(Up(1, k), Up(Half(b), k + 1)) else Up(Half(b), k + 1)
  {
    match k case 4 => case 5 => case 6 =>
  }

  lemma MulOne(b: bv8)
    ensures Mul(1, b) == b && Mul(b, 1) == b
  {
    assert Up(1, 0) == 1 && Up(b, 0) == b;
    MulShift(0, b);
    hide Add;
    Zero(b);
    assert Odd(1) && Half(1) == 0;
  }

  // ---------------------------------------------------------------- powers of three

  /** Multiplication by 3. */
  function Triple(x: bv8): bv8 { Add(x, Xtime(x)) }

  lemma TripleInjective(x: bv8, y: bv8)
    requires Triple(x) == Triple(y)
    ensures x == y
  {
  }

  function Power(n: nat): bv8 {
    if n == 0 then 1 else Triple(Power(n - 1))
  }

  lemma {:induction false} PowersMultiply(m: nat, n: nat)
    ensures Mul(Power(m), Power(n)) == Power(m + n)
  {
    hide Add, Xtime, Mul;
    if m == 0 {
      MulOne(Power(n));
    } else {
      var p := Power(m - 1);
      PowersMultiply(m - 1, n);
      MulLinear(p, Xtime(p), Power(n));
      MulXtime(p, Power(n));
    }
  }

  /** `x` multiplied by 3^5 and by 3^17. */
  function Times5(x: bv8): bv8 { Triple(Triple(Triple(Triple(Triple(x))))) }
  function Times15(x: bv8): bv8 { Times5(Times5(Times5(x))) }
  function Times17(x: bv8): bv8 { Triple(Triple(Times15(x))) }

  lemma PowerPlus5(n: nat)
    ensures Power(n + 5) == Times5(Power(n))
  {
    hide Triple;
    assert Power(n + 2) == Triple(Triple(Power(n)));
    assert Power(n + 4) == Triple(Triple(Power(n + 2)));
  }

  lemma PowerPlus15(n: nat)
    ensures Power(n + 15) == Times15(Power(n)) && Power(n + 17) == Times17(Power(n))
  {
    hide Triple, Times5;
    PowerPlus5(n);
    PowerPlus5(n + 5);
    PowerPlus5(n + 10);
    assert Power(n + 16) == Triple(Power(n + 15));
  }

  lemma Times15Values0()
    ensures Times15(1) == 53 && Times15(53) == 102 && Times15(102) == 171
  {
    assert Times5(1) == 51 && Times5(51) == 114 && Times5(114) == 53;
    assert Times5(53) == 216 && Times5(216) == 2 && Times5(2) == 102;
    assert Times5(102) == 228 && Times5(228) == 106 && Times5(106) == 171;
    hide Times5;
  }

  lemma Times15Values1()
    ensures Times15(171) == 211 && Times15(211) == 8 && Times15(8) == 179
  {
    assert Times5(171) == 4 && Times5(4) == 204 && Times5(204) == 211;
    assert Times5(211) == 212 && Times5(212) == 77 && Times5(77) == 8;
    assert Times5(8) == 131 && Times5(131) == 189 && Times5(189) == 179;
    hide Times5;
  }

  lemma Times15Values2()
    ensures Times15(179) == 29 && Times15(29) == 47 && Times15(47) == 194
  {
    assert Times5(179) == 154 && Times5(154) == 16 && Times5(16) == 29;
    assert Times5(29) == 97 && Times5(97) == 125 && Times5(125) == 47;
    assert Times5(47) == 32 && Times5(32) == 58 && Times5(58) == 194;
    hide Times5;
  }

  lemma Times15Values3()
    ensures Times15(194) == 64 && Times15(64) == 239 && Times15(239) == 232
  {
    assert Times5(194) == 250 && Times5(250) == 94 && Times5(94) == 64;
    assert Times5(64) == 116 && Times5(116) == 159 && Times5(159) == 239;
    assert Times5(239) == 188 && Times5(188) == 128 && Times5(128) == 232;
    hide Times5;
  }

  lemma Times15Values4()
    ensures Times15(232) == 99 && Times15(99) == 74 && Times15(74) == 54
  {
    assert Times5(232) == 37 && Times5(37) == 197 && Times5(197) == 99;
    assert Times5(99) == 27 && Times5(27) == 203 && Times5(203) == 74;
    assert Times5(74) == 145 && Times5(145) == 198 && Times5(198) == 54;
    hide Times5;
  }

  lemma Times15Values5()
    ensures Times15(54) == 57 && Times15(57) == 1
  {
    assert Times5(54) == 141 && Times5(141) == 148 && Times5(148) == 57;
    assert Times5(57) == 151 && Times5(151) == 108 && Times5(108) == 1;
    hide Times5;
  }

  lemma Times17Values0()
    ensures Times17(1) == 225 && Times17(225) == 92
  {
    assert Times5(1) == 51 && Times5(51) == 114 && Times5(114) == 53 && Triple(Triple(53)) == 225;
    assert Times5(225) == 149 && Times5(149) == 10 && Times5(10) == 229 && Triple(Triple(229)) == 92;
    hide Times5, Triple;
  }

  lemma Times17Values1()
    ensures Times17(92) == 12 && Times17(12) == 224
  {
    assert Times5(92) == 38 && Times5(38) == 144 && Times5(144) == 245 && Triple(Triple(245)) == 12;
    assert Times5(12) == 79 && Times5(79) == 110 && Times5(110) == 103 && Triple(Triple(103)) == 224;
    hide Times5, Triple;
  }

  lemma Times17Values2()
    ensures Times17(224) == 189 && Times17(189) == 80
  {
    assert Times5(224) == 166 && Times5(166) == 120 && Times5(120) == 208 && Triple(Triple(208)) == 189;
    assert Times5(189) == 179 && Times5(179) == 154 && Times5(154) == 16 && Triple(Triple(16)) == 80;
    hide Times5, Triple;
  }

  lemma Times17Values3()
    ensures Times17(80) == 236 && Times17(236) == 93
  {
    assert Times5(80) == 105 && Times5(105) == 254 && Times5(254) == 146 && Triple(Triple(146)) == 236;
    assert Times5(236) == 233 && Times5(233) == 22 && Times5(22) == 183 && Triple(Triple(183)) == 93;
    hide Times5, Triple;
  }

  lemma Times17Values4()
    ensures Times17(93) == 237 && Times17(237) == 188
  {
    assert Times5(93) == 21 && Times5(21) == 226 && Times5(226) == 192 && Triple(Triple(192)) == 237;
    assert Times5(237) == 218 && Times5(218) == 100 && Times5(100) == 130 && Triple(Triple(130)) == 188;
    hide Times5, Triple;
  }

  lemma Times17Values5()
    ensures Times17(188) == 177 && Times17(177) == 176
  {
    assert Times5(188) == 128 && Times5(128) == 232 && Times5(232) == 37 && Triple(Triple(37)) == 177;
    assert Times5(177) == 252 && Times5(252) == 244 && Times5(244) == 119 && Triple(Triple(119)) == 176;
    hide Times5, Triple;
  }

  lemma Times17Values6()
    ensures Times17(176) == 81 && Times17(81) == 13
  {
    assert Times5(176) == 207 && Times5(207) == 134 && Times5(134) == 66 && Triple(Triple(66)) == 81;
    assert Times5(81) == 90 && Times5(90) == 140 && Times5(140) == 167 && Triple(Triple(167)) == 13;
    hide Times5, Triple;
  }

  lemma Times17Values7()
    ensures Times17(13) == 1
  {
    assert Times5(13) == 124 && Times5(124) == 28 && Times5(28) == 82 && Triple(Triple(82)) == 1;
    hide Times5, Triple;
  }

  lemma PowerZero()
    ensures Power(0) == 1
  {
  }

  lemma Multiples15()
    ensures Power(255) == 1
    ensures Power(15) == 53 && Power(30) == 102 && Power(45) == 171 && Power(60) == 211 && Power(75) == 8
    ensures Power(90) == 179 && Power(105) == 29 && Power(120) == 47 && Power(135) == 194 && Power(150) == 64
    ensures Power(165) == 239 && Power(180) == 232 && Power(195) == 99 && Power(210) == 74 && Power(225) == 54
    ensures Power(240) == 57
  {
    hide Power, Times5, Times15, Times17;
    assert Power(0) == 1 by { PowerZero(); }
    Times15Values0(); Times15Values1(); Times15Values2(); Times15Values3(); Times15Values4(); Times15Values5();
    PowerPlus15(0); PowerPlus15(15); PowerPlus15(30); PowerPlus15(45); PowerPlus15(60); PowerPlus15(75);
    PowerPlus15(90); PowerPlus15(105); PowerPlus15(120); PowerPlus15(135); PowerPlus15(150); PowerPlus15(165);
    PowerPlus15(180); PowerPlus15(195); PowerPlus15(210); PowerPlus15(225); PowerPlus15(240);
  }

  lemma Multiples17()
    ensures Power(255) == 1
    ensures Power(17) == 225 && Power(34) == 92 && Power(51) == 12 && Power(68) == 224 && Power(85) == 189
    ensures Power(102) == 80 && Power(119) == 236 && Power(136) == 93 && Power(153) == 237 && Power(170) == 188
    ensures Power(187) == 177 && Power(204) == 176 && Power(221) == 81 && Power(238) == 13
  {
    hide Power, Times5, Times15, Times17;
    assert Power(0) == 1 by { PowerZero(); }
    Times17Values0(); Times17Values1(); Times17Values2(); Times17Values3(); Times17Values4();
    Times17Values5(); Times17Values6(); Times17Values7();
    PowerPlus15(0); PowerPlus15(17); PowerPlus15(34); PowerPlus15(51); PowerPlus15(68); PowerPlus15(85);
    PowerPlus15(102); PowerPlus15(119); PowerPlus15(136); PowerPlus15(153); PowerPlus15(170); PowerPlus15(187);
    PowerPlus15(204); PowerPlus15(221); PowerPlus15(238);
  }

  lemma {:induction false} PowerOfOne(k: nat, m: nat)
    requires Power(k) == 1
    ensures Power(k * m) == 1
  {
    hide Power;
    if m > 0 {
      PowerOfOne(k, m - 1);
      assert k * m == k + k * (m - 1);
      PowersMultiply(k, k * (m - 1));
      MulOne(1);
    } else {
      PowerZero();
    }
  }

  lemma Remainder(n: nat, r: nat, q: nat)
    requires n == r + 255 * q
    ensures Power(n) == Power(r)
  {
    hide Power;
    Multiples15();
    PowerOfOne(255, q);
    PowersMultiply(r, 255 * q);
    MulOne(Power(r));
  }

  /** The order of 3 is exactly 255. */
  lemma OrderOfThree(k: nat)
    requires 0 < k < 255
    ensures Power(255) == 1 && Power(k) != 1
  {
    hide Power;
    Multiples15();
    Multiples17();
    if Power(k) == 1 {
      PowerOfOne(k, 15);
      Remainder(k * 15, 15 * (k % 17), k / 17);
    }
  }

  /** The powers 3^0 … 3^254 are all different. */
  lemma {:induction false} PowersDiffer(i: nat, j: nat)
    requires i < j < 255
    ensures Power(i) != Power(j)
  {
    if i == 0 {
      OrderOfThree(j);
    } else {
      PowersDiffer(i - 1, j - 1);
      if Power(i) == Power(j) { TripleInjective(Power(i - 1), Power(j - 1)); }
    }
  }

  lemma {:induction false} PowerNotZero(n: nat)
    ensures Power(n) != 0
  {
    if n > 0 {
      PowerNotZero(n - 1);
      if Power(n) == 0 { TripleInjective(Power(n - 1), 0); }
    }
  }

  // ---------------------------------------------------------------- logarithms

  lemma IntsDiffer(x: bv8, y: bv8)
    requires x != y
    ensures x as int != y as int
  {
  }

  lemma AsByte(x: bv8)
    ensures 0 <= x as int < 256 && (x as int) as bv8 == x
  {
  }

  ghost function Powers(n: nat): set<int> {
    set i | 0 <= i < n :: Power(i) as int
  }

  lemma {:induction false} PowersCount(n: nat)
    requires n <= 255
    ensures |Powers(n)| == n
    ensures forall v :: v in Powers(n) ==> 1 <= v < 256
  {
    hide Power;
    if n == 0 {
      assert Powers(0) == {};
    } else {
      PowersCount(n - 1);
      assert Powers(n) == Powers(n - 1) + {Power(n - 1) as int};
      NewPower(n - 1);
    }
  }

  lemma NewPower(n: nat)
    requires n < 255
    ensures 1 <= Power(n) as int < 256 && forall i :: 0 <= i < n ==> Power(i) as int != Power(n) as int
  {
    hide Power;
    forall i | 0 <= i < n ensures Power(i) as int != Power(n) as int {
      PowersDiffer(i, n);
      IntsDiffer(Power(i), Power(n));
    }
    PowerNotZero(n);
    IntsDiffer(Power(n), 0);
    AsByte(Power(n));
  }

  /** The numbers 1 … n. */
  ghost function Upto(n: nat): (r: set<int>)
    ensures |r| == n && forall v: int :: v in r <==> 1 <= v <= n
  {
    if n == 0 then {} else Upto(n - 1) + {n}
  }

  lemma SameSize<T>(a: set<T>, b: set<T>)
    requires a <= b && |a| == |b|
    ensures a == b
  {
    if a != b {
      var v :| v in b && v !in a;
      SubsetSmaller(a, b - {v});
    }
  }

  lemma {:induction false} SubsetSmaller<T>(a: set<T>, b: set<T>)
    requires a <= b
    ensures |a| <= |b|
  {
    if a != {} {
      var v :| v in a;
      SubsetSmaller(a - {v}, b - {v});
    }
  }

  /** Every non-zero byte is exactly one of 3^0 … 3^254. */
  lemma Logarithm(x: bv8) returns (n: nat)
    requires x != 0
    ensures n < 255 && Power(n) == x
    ensures forall m: nat :: m < 255 && Power(m) == x ==> m == n
  {
    hide Power;
    PowersCount(255);
    SameSize(Powers(255), Upto(255));
    AsByte(x);
    IntsDiffer(x, 0);
    assert x as int in Powers(255);
    n :| 0 <= n < 255 && Power(n) as int == x as int;
    if Power(n) != x { IntsDiffer(Power(n), x); }
    forall m: nat | m < 255 && Power(m) == x ensures m == n {
      if m < n { PowersDiffer(m, n); } else if n < m { PowersDiffer(n, m); }
    }
  }

  // ---------------------------------------------------------------- inverses

  ghost predicate IsInverse(x: bv8, y: bv8) {
    if x == 0 then y == 0 else Mul(x, y) == 1
  }

  /** With x = 3^n, the one inverse of x is 3^(255 - n). */
  lemma InverseOfPower(n: nat, y: bv8)
    requires n <= 255
    ensures IsInverse(Power(n), y) <==> y == Power(255 - n)
  {
    hide Power, Mul;
    PowerNotZero(n);
    Multiples15();
    PowersMultiply(n, 255 - n);
    if Mul(Power(n), y) == 1 {
      ZeroProduct(Power(n));
      var m := Logarithm(y);
      PowersMultiply(n, m);
      if n + m < 255 {
        if 0 < n + m { OrderOfThree(n + m); }
      } else if 255 < n + m < 510 {
        Remainder(n + m, n + m - 255, 1);
        OrderOfThree(n + m - 255);
      }
    }
  }

  lemma {:induction false} ZeroProduct(x: bv8)
    ensures Mul(x, 0) == 0
  {
  }

  /** Every byte has exactly one inverse, and is the inverse of its inverse. */
  lemma InverseExists(x: bv8) returns (y: bv8)
    ensures IsInverse(x, y) && IsInverse(y, x)
    ensures forall z :: IsInverse(x, z) ==> z == y
  {
    hide Power, Mul;
    if x == 0 {
      y := 0;
    } else {
      var n := Logarithm(x);
      y := Power(255 - n);
      forall z ensures IsInverse(x, z) <==> z == y { InverseOfPower(n, z); }
      InverseOfPower(255 - n, x);
    }
  }

  /** The multiplicative inverse, with 0 for 0. */
  ghost function Inverse(x: bv8): (y: bv8)
    ensures IsInverse(x, y)
  {
    InverseWitness(x);
    var y :| IsInverse(x, y);
    y
  }

  lemma InverseWitness(x: bv8)
    ensures exists y :: IsInverse(x, y)
  {
    var y := InverseExists(x);
  }

  lemma InverseInvolution(x: bv8)
    ensures Inverse(Inverse(x)) == x
    ensures forall y :: IsInverse(x, y) ==> y == Inverse(x)
  {
    var y := InverseExists(x);
    var z := InverseExists(Inverse(x));
  }
}
