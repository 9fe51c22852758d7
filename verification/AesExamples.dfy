/**
 The examples of appendix C of FIPS 197, one for each key size, round by round: they hold the cipher and
 the key expansion to the standard in the number of rounds, the order of the steps and every constant.
 */
module AesExamples {
  import opened AesField
  import opened AesSpec
  import opened AesTables
  import opened AesKeys
  import opened AesBlock
  import opened AesSBox

  // ---------------------------------------------------------------- words and states by value

  /** A state as the standard prints it. */
  function Of(a0: bv8, a1: bv8, a2: bv8, a3: bv8, b0: bv8, b1: bv8, b2: bv8, b3: bv8,
              c0: bv8, c1: bv8, c2: bv8, c3: bv8, d0: bv8, d1: bv8, d2: bv8, d3: bv8): State
  {
    State(Column(a0, a1, a2, a3), Column(b0, b1, b2, b3), Column(c0, c1, c2, c3), Column(d0, d1, d2, d3))
  }

  /** A column through the S-box. */
  lemma Word(a: bv8, b: bv8, c: bv8, d: bv8)
    ensures SubColumn(Column(a, b, c, d)) == Column(Figure7(a), Figure7(b), Figure7(c), Figure7(d))
  {
    hide Sub, Figure7;
    Figure7Is(a);
    Figure7Is(b);
    Figure7Is(c);
    Figure7Is(d);
  }

  /** A state through the S-box, entry by entry. */
  lemma Boxed(a0: bv8, a1: bv8, a2: bv8, a3: bv8, b0: bv8, b1: bv8, b2: bv8, b3: bv8,
              c0: bv8, c1: bv8, c2: bv8, c3: bv8, d0: bv8, d1: bv8, d2: bv8, d3: bv8)
    ensures SubBytes(Of(a0, a1, a2, a3, b0, b1, b2, b3, c0, c1, c2, c3, d0, d1, d2, d3))
         == Of(Figure7(a0), Figure7(a1), Figure7(a2), Figure7(a3), Figure7(b0), Figure7(b1), Figure7(b2), Figure7(b3),
               Figure7(c0), Figure7(c1), Figure7(c2), Figure7(c3), Figure7(d0), Figure7(d1), Figure7(d2), Figure7(d3))
  {
    hide SubColumn, Figure7;
    Word(a0, a1, a2, a3);
    Word(b0, b1, b2, b3);
    Word(c0, c1, c2, c3);
    Word(d0, d1, d2, d3);
  }

  /** MixColumns with doublings in place of products. */
  function Doubled(c: Column): Column {
    Column(Add4(Xtime(c.b0), Add(c.b1, Xtime(c.b1)), c.b2, c.b3), Add4(Xtime(c.b1), Add(c.b2, Xtime(c.b2)), c.b3, c.b0),
           Add4(Xtime(c.b2), Add(c.b3, Xtime(c.b3)), c.b0, c.b1), Add4(Xtime(c.b3), Add(c.b0, Xtime(c.b0)), c.b1, c.b2))
  }

  lemma DoubledIs(c: Column)
    ensures Mix(c) == Doubled(c)
  {
    hide Add, Add4, Xtime, Mul;
    TimesSmall(c.b0);
    TimesSmall(c.b1);
    TimesSmall(c.b2);
    TimesSmall(c.b3);
  }

  /** What follows SubBytes in a round. */
  function Mixed(s: State, k: State): State {
    var t := ShiftRows(s);
    AddKey(State(Doubled(t.c0), Doubled(t.c1), Doubled(t.c2), Doubled(t.c3)), k)
  }

  lemma MixedIs(s: State, k: State)
    ensures AddKey(MixColumns(ShiftRows(s)), k) == Mixed(s, k)
  {
    hide Mix, Doubled, AddKey, ShiftRows;
    var t := ShiftRows(s);
    DoubledIs(t.c0);
    DoubledIs(t.c1);
    DoubledIs(t.c2);
    DoubledIs(t.c3);
  }

  // ---------------------------------------------------------------- the key expansion, four words at a time

  /** The four words from word `i` on. */
  ghost function FourWords(key: seq<bv8>, i: nat): State
    requires KeyOk(key)
  {
    State(KeyWord(key, i), KeyWord(key, i + 1), KeyWord(key, i + 2), KeyWord(key, i + 3))
  }

  /** Each word of `k` is the one of `back` plus the one before it, but the first adds `t` and the third adds `u`. */
  predicate Linked(k: State, back: State, t: Column, u: Column) {
    k.c0 == Plus(back.c0, t) && k.c1 == Plus(back.c1, k.c0) && k.c2 == Plus(back.c2, u) && k.c3 == Plus(back.c3, k.c2)
  }

  lemma NextWord(key: seq<bv8>, i: nat)
    requires KeyOk(key) && i >= |key| / 4
    ensures var nk, before := |key| / 4, KeyWord(key, i - 1);
      KeyWord(key, i) == Plus(KeyWord(key, i - nk), if i % nk == 0 then Plus(SubColumn(Rot(before)), Rcon(i / nk))
                                                    else if nk > 6 && i % nk == 4 then SubColumn(before) else before)
  {
    hide SubColumn, Rcon, Rot, Plus;
  }

  lemma Four128(key: seq<bv8>, n: nat)
    requires |key| == 16 && n >= 1
    ensures var k, l := FourWords(key, 4 * n), FourWords(key, 4 * n - 4); Linked(k, l, Plus(SubColumn(Rot(l.c3)), Rcon(n)), k.c1)
  {
    hide KeyWord, SubColumn, Rcon, Rot, Plus;
    NextWord(key, 4 * n);
    NextWord(key, 4 * n + 1);
    NextWord(key, 4 * n + 2);
    NextWord(key, 4 * n + 3);
  }

  /** Word `c` of group `a` of six. */
  lemma WordOfSix(key: seq<bv8>, a: nat, c: nat)
    requires |key| == 24 && a >= 1 && c < 6
    ensures var i := 6 * a + c;
      KeyWord(key, i) == Plus(KeyWord(key, i - 6), if c == 0 then Plus(SubColumn(Rot(KeyWord(key, i - 1))), Rcon(a)) else KeyWord(key, i - 1))
  {
    hide KeyWord, SubColumn, Rcon, Rot, Plus;
    NextWord(key, 6 * a + c);
    assert (6 * a + c) % 6 == c && (6 * a + c) / 6 == a;
  }

  /** Three round keys are two groups of six words. */
  lemma First192Is(key: seq<bv8>, m: nat)
    requires |key| == 24 && m >= 1
    ensures var k, l := FourWords(key, 12 * m), FourWords(key, 12 * m - 4);
      Linked(k, FourWords(key, 12 * m - 6), Plus(SubColumn(Rot(l.c3)), Rcon(2 * m)), k.c1)
  {
    hide KeyWord, SubColumn, Rcon, Rot, Plus;
    WordOfSix(key, 2 * m, 0);
    WordOfSix(key, 2 * m, 1);
    WordOfSix(key, 2 * m, 2);
    WordOfSix(key, 2 * m, 3);
  }

  lemma Second192Is(key: seq<bv8>, m: nat)
    requires |key| == 24 && m >= 1
    ensures var k, l := FourWords(key, 12 * m + 4), FourWords(key, 12 * m);
      Linked(k, FourWords(key, 12 * m - 2), l.c3, Plus(SubColumn(Rot(k.c1)), Rcon(2 * m + 1)))
  {
    hide KeyWord, SubColumn, Rcon, Rot, Plus;
    WordOfSix(key, 2 * m, 4);
    WordOfSix(key, 2 * m, 5);
    WordOfSix(key, 2 * m + 1, 0);
    WordOfSix(key, 2 * m + 1, 1);
  }

  lemma Third192Is(key: seq<bv8>, m: nat)
    requires |key| == 24
    ensures var k, l := FourWords(key, 12 * m + 8), FourWords(key, 12 * m + 4); Linked(k, FourWords(key, 12 * m + 2), l.c3, k.c1)
  {
    hide KeyWord, SubColumn, Rcon, Rot, Plus;
    WordOfSix(key, 2 * m + 1, 2);
    WordOfSix(key, 2 * m + 1, 3);
    WordOfSix(key, 2 * m + 1, 4);
    WordOfSix(key, 2 * m + 1, 5);
  }

  lemma Four256(key: seq<bv8>, n: nat)
    requires |key| == 32 && n >= 2
    ensures var k, l := FourWords(key, 4 * n), FourWords(key, 4 * n - 4);
      Linked(k, FourWords(key, 4 * n - 8), if n % 2 == 0 then Plus(SubColumn(Rot(l.c3)), Rcon(n / 2)) else SubColumn(l.c3), k.c1)
  {
    hide KeyWord, SubColumn, Rcon, Rot, Plus;
    NextWord(key, 4 * n);
    NextWord(key, 4 * n + 1);
    NextWord(key, 4 * n + 2);
    NextWord(key, 4 * n + 3);
  }

  lemma RoundKeyIs(key: seq<bv8>, n: nat)
    requires KeyOk(key) && n < |RoundKeys(key)|
    ensures RoundKeys(key)[n] == FourWords(key, 4 * n)
  {
    hide KeyWord;
  }

  function RoundConstant(j: nat): Column {
    Column(match j case 1 => 0x01 case 2 => 0x02 case 3 => 0x04 case 4 => 0x08 case 5 => 0x10
                   case 6 => 0x20 case 7 => 0x40 case 8 => 0x80 case 9 => 0x1B case _ => 0x36, 0, 0, 0)
  }

  lemma RconIs(j: nat)
    requires 1 <= j <= 10
    ensures Rcon(j) == RoundConstant(j)
  {
  }

  const PLAIN: seq<bv8> := [0x00, 0x11, 0x22, 0x33, 0x44, 0x55, 0x66, 0x77, 0x88, 0x99, 0xAA, 0xBB, 0xCC, 0xDD, 0xEE, 0xFF]

  lemma PlainIs()
    ensures StateOf(PLAIN) == Of(0x00, 0x11, 0x22, 0x33, 0x44, 0x55, 0x66, 0x77, 0x88, 0x99, 0xAA, 0xBB, 0xCC, 0xDD, 0xEE, 0xFF)
  {
  }

  // ---------------------------------------------------------------- C.1: 128-bit key, 10 rounds

  const KEY128: seq<bv8> := [0x00, 0x01, 0x02, 0x03, 0x04, 0x05, 0x06, 0x07, 0x08, 0x09, 0x0A, 0x0B, 0x0C, 0x0D, 0x0E, 0x0F]

  /** Round key `n`: k_sch of the standard. */
  function Key128(n: nat): State {
    match n
    case 0 => Of(0x00, 0x01, 0x02, 0x03, 0x04, 0x05, 0x06, 0x07, 0x08, 0x09, 0x0A, 0x0B, 0x0C, 0x0D, 0x0E, 0x0F)
    case 1 => Of(0xD6, 0xAA, 0x74, 0xFD, 0xD2, 0xAF, 0x72, 0xFA, 0xDA, 0xA6, 0x78, 0xF1, 0xD6, 0xAB, 0x76, 0xFE)
    case 2 => Of(0xB6, 0x92, 0xCF, 0x0B, 0x64, 0x3D, 0xBD, 0xF1, 0xBE, 0x9B, 0xC5, 0x00, 0x68, 0x30, 0xB3, 0xFE)
    case 3 => Of(0xB6, 0xFF, 0x74, 0x4E, 0xD2, 0xC2, 0xC9, 0xBF, 0x6C, 0x59, 0x0C, 0xBF, 0x04, 0x69, 0xBF, 0x41)
    case 4 => Of(0x47, 0xF7, 0xF7, 0xBC, 0x95, 0x35, 0x3E, 0x03, 0xF9, 0x6C, 0x32, 0xBC, 0xFD, 0x05, 0x8D, 0xFD)
    case 5 => Of(0x3C, 0xAA, 0xA3, 0xE8, 0xA9, 0x9F, 0x9D, 0xEB, 0x50, 0xF3, 0xAF, 0x57, 0xAD, 0xF6, 0x22, 0xAA)
    case 6 => Of(0x5E, 0x39, 0x0F, 0x7D, 0xF7, 0xA6, 0x92, 0x96, 0xA7, 0x55, 0x3D, 0xC1, 0x0A, 0xA3, 0x1F, 0x6B)
    case 7 => Of(0x14, 0xF9, 0x70, 0x1A, 0xE3, 0x5F, 0xE2, 0x8C, 0x44, 0x0A, 0xDF, 0x4D, 0x4E, 0xA9, 0xC0, 0x26)
    case 8 => Of(0x47, 0x43, 0x87, 0x35, 0xA4, 0x1C, 0x65, 0xB9, 0xE0, 0x16, 0xBA, 0xF4, 0xAE, 0xBF, 0x7A, 0xD2)
    case 9 => Of(0x54, 0x99, 0x32, 0xD1, 0xF0, 0x85, 0x57, 0x68, 0x10, 0x93, 0xED, 0x9C, 0xBE, 0x2C, 0x97, 0x4E)
    case _ => Of(0x13, 0x11, 0x1D, 0x7F, 0xE3, 0x94, 0x4A, 0x17, 0xF3, 0x07, 0xA7, 0x8B, 0x4D, 0x2B, 0x30, 0xC5)
  }

  /** The state at the start of round `n + 1`. */
  function Start128(n: nat): State {
    match n
    case 0 => Of(0x00, 0x10, 0x20, 0x30, 0x40, 0x50, 0x60, 0x70, 0x80, 0x90, 0xA0, 0xB0, 0xC0, 0xD0, 0xE0, 0xF0)
    case 1 => Of(0x89, 0xD8, 0x10, 0xE8, 0x85, 0x5A, 0xCE, 0x68, 0x2D, 0x18, 0x43, 0xD8, 0xCB, 0x12, 0x8F, 0xE4)
    case 2 => Of(0x49, 0x15, 0x59, 0x8F, 0x55, 0xE5, 0xD7, 0xA0, 0xDA, 0xCA, 0x94, 0xFA, 0x1F, 0x0A, 0x63, 0xF7)
    case 3 => Of(0xFA, 0x63, 0x6A, 0x28, 0x25, 0xB3, 0x39, 0xC9, 0x40, 0x66, 0x8A, 0x31, 0x57, 0x24, 0x4D, 0x17)
    case 4 => Of(0x24, 0x72, 0x40, 0x23, 0x69, 0x66, 0xB3, 0xFA, 0x6E, 0xD2, 0x75, 0x32, 0x88, 0x42, 0x5B, 0x6C)
    case 5 => Of(0xC8, 0x16, 0x77, 0xBC, 0x9B, 0x7A, 0xC9, 0x3B, 0x25, 0x02, 0x79, 0x92, 0xB0, 0x26, 0x19, 0x96)
    case 6 => Of(0xC6, 0x2F, 0xE1, 0x09, 0xF7, 0x5E, 0xED, 0xC3, 0xCC, 0x79, 0x39, 0x5D, 0x84, 0xF9, 0xCF, 0x5D)
    case 7 => Of(0xD1, 0x87, 0x6C, 0x0F, 0x79, 0xC4, 0x30, 0x0A, 0xB4, 0x55, 0x94, 0xAD, 0xD6, 0x6F, 0xF4, 0x1F)
    case 8 => Of(0xFD, 0xE3, 0xBA, 0xD2, 0x05, 0xE5, 0xD0, 0xD7, 0x35, 0x47, 0x96, 0x4E, 0xF1, 0xFE, 0x37, 0xF1)
    case _ => Of(0xBD, 0x6E, 0x7C, 0x3D, 0xF2, 0xB5, 0x77, 0x9E, 0x0B, 0x61, 0x21, 0x6E, 0x8B, 0x10, 0xB6, 0x89)
  }

  /** The same after SubBytes: s_box of that round. */
  function Box128(n: nat): State {
    match n
    case 0 => Of(0x63, 0xCA, 0xB7, 0x04, 0x09, 0x53, 0xD0, 0x51, 0xCD, 0x60, 0xE0, 0xE7, 0xBA, 0x70, 0xE1, 0x8C)
    case 1 => Of(0xA7, 0x61, 0xCA, 0x9B, 0x97, 0xBE, 0x8B, 0x45, 0xD8, 0xAD, 0x1A, 0x61, 0x1F, 0xC9, 0x73, 0x69)
    case 2 => Of(0x3B, 0x59, 0xCB, 0x73, 0xFC, 0xD9, 0x0E, 0xE0, 0x57, 0x74, 0x22, 0x2D, 0xC0, 0x67, 0xFB, 0x68)
    case 3 => Of(0x2D, 0xFB, 0x02, 0x34, 0x3F, 0x6D, 0x12, 0xDD, 0x09, 0x33, 0x7E, 0xC7, 0x5B, 0x36, 0xE3, 0xF0)
    case 4 => Of(0x36, 0x40, 0x09, 0x26, 0xF9, 0x33, 0x6D, 0x2D, 0x9F, 0xB5, 0x9D, 0x23, 0xC4, 0x2C, 0x39, 0x50)
    case 5 => Of(0xE8, 0x47, 0xF5, 0x65, 0x14, 0xDA, 0xDD, 0xE2, 0x3F, 0x77, 0xB6, 0x4F, 0xE7, 0xF7, 0xD4, 0x90)
    case 6 => Of(0xB4, 0x15, 0xF8, 0x01, 0x68, 0x58, 0x55, 0x2E, 0x4B, 0xB6, 0x12, 0x4C, 0x5F, 0x99, 0x8A, 0x4C)
    case 7 => Of(0x3E, 0x17, 0x50, 0x76, 0xB6, 0x1C, 0x04, 0x67, 0x8D, 0xFC, 0x22, 0x95, 0xF6, 0xA8, 0xBF, 0xC0)
    case 8 => Of(0x54, 0x11, 0xF4, 0xB5, 0x6B, 0xD9, 0x70, 0x0E, 0x96, 0xA0, 0x90, 0x2F, 0xA1, 0xBB, 0x9A, 0xA1)
    case _ => Of(0x7A, 0x9F, 0x10, 0x27, 0x89, 0xD5, 0xF5, 0x0B, 0x2B, 0xEF, 0xFD, 0x9F, 0x3D, 0xCA, 0x4E, 0xA7)
  }

  lemma Boxed128a(n: nat)
    requires n in {0, 1, 2}
    ensures SubBytes(Start128(n)) == Box128(n)
  {
    hide Sub, SubColumn;
    Boxed(0x00, 0x10, 0x20, 0x30, 0x40, 0x50, 0x60, 0x70, 0x80, 0x90, 0xA0, 0xB0, 0xC0, 0xD0, 0xE0, 0xF0);
    Boxed(0x89, 0xD8, 0x10, 0xE8, 0x85, 0x5A, 0xCE, 0x68, 0x2D, 0x18, 0x43, 0xD8, 0xCB, 0x12, 0x8F, 0xE4);
    Boxed(0x49, 0x15, 0x59, 0x8F, 0x55, 0xE5, 0xD7, 0xA0, 0xDA, 0xCA, 0x94, 0xFA, 0x1F, 0x0A, 0x63, 0xF7);
  }

  lemma Boxed128b(n: nat)
    requires n in {3, 4, 5}
    ensures SubBytes(Start128(n)) == Box128(n)
  {
    hide Sub, SubColumn;
    Boxed(0xFA, 0x63, 0x6A, 0x28, 0x25, 0xB3, 0x39, 0xC9, 0x40, 0x66, 0x8A, 0x31, 0x57, 0x24, 0x4D, 0x17);
    Boxed(0x24, 0x72, 0x40, 0x23, 0x69, 0x66, 0xB3, 0xFA, 0x6E, 0xD2, 0x75, 0x32, 0x88, 0x42, 0x5B, 0x6C);
    Boxed(0xC8, 0x16, 0x77, 0xBC, 0x9B, 0x7A, 0xC9, 0x3B, 0x25, 0x02, 0x79, 0x92, 0xB0, 0x26, 0x19, 0x96);
  }

  lemma Boxed128c(n: nat)
    requires n in {6, 7, 8}
    ensures SubBytes(Start128(n)) == Box128(n)
  {
    hide Sub, SubColumn;
    Boxed(0xC6, 0x2F, 0xE1, 0x09, 0xF7, 0x5E, 0xED, 0xC3, 0xCC, 0x79, 0x39, 0x5D, 0x84, 0xF9, 0xCF, 0x5D);
    Boxed(0xD1, 0x87, 0x6C, 0x0F, 0x79, 0xC4, 0x30, 0x0A, 0xB4, 0x55, 0x94, 0xAD, 0xD6, 0x6F, 0xF4, 0x1F);
    Boxed(0xFD, 0xE3, 0xBA, 0xD2, 0x05, 0xE5, 0xD0, 0xD7, 0x35, 0x47, 0x96, 0x4E, 0xF1, 0xFE, 0x37, 0xF1);
  }

  lemma Boxed128d(n: nat)
    requires n in {9}
    ensures SubBytes(Start128(n)) == Box128(n)
  {
    hide Sub, SubColumn;
    Boxed(0xBD, 0x6E, 0x7C, 0x3D, 0xF2, 0xB5, 0x77, 0x9E, 0x0B, 0x61, 0x21, 0x6E, 0x8B, 0x10, 0xB6, 0x89);
  }

  lemma Boxed128(n: nat)
    requires 0 <= n <= 9
    ensures SubBytes(Start128(n)) == Box128(n)
  {
    hide SubBytes, Start128, Box128;
    if n <= 2 { Boxed128a(n); } else if n <= 5 { Boxed128b(n); } else if n <= 8 { Boxed128c(n); } else { Boxed128d(n); }
  }

  lemma Mixed128(n: nat)
    requires n in {1, 2, 3, 4, 5, 6, 7, 8, 9}
    ensures Mixed(Box128(n - 1), Key128(n)) == Start128(n)
  {
  }

  lemma Schedule128a(n: nat)
    requires n in {1, 2, 3, 4, 5}
    ensures Linked(Key128(n), Key128(n - 1), Plus(SubColumn(Rot(Key128(n - 1).c3)), RoundConstant(n)), Key128(n).c1)
  {
    hide Sub;
    Word(0x0D, 0x0E, 0x0F, 0x0C);
    Word(0xAB, 0x76, 0xFE, 0xD6);
    Word(0x30, 0xB3, 0xFE, 0x68);
    Word(0x69, 0xBF, 0x41, 0x04);
    Word(0x05, 0x8D, 0xFD, 0xFD);
  }

  lemma Schedule128b(n: nat)
    requires n in {6, 7, 8, 9, 10}
    ensures Linked(Key128(n), Key128(n - 1), Plus(SubColumn(Rot(Key128(n - 1).c3)), RoundConstant(n)), Key128(n).c1)
  {
    hide Sub;
    Word(0xF6, 0x22, 0xAA, 0xAD);
    Word(0xA3, 0x1F, 0x6B, 0x0A);
    Word(0xA9, 0xC0, 0x26, 0x4E);
    Word(0xBF, 0x7A, 0xD2, 0xAE);
    Word(0x2C, 0x97, 0x4E, 0xBE);
  }

  lemma Schedule128(n: nat)
    requires 1 <= n <= 10
    ensures Linked(Key128(n), Key128(n - 1), Plus(SubColumn(Rot(Key128(n - 1).c3)), RoundConstant(n)), Key128(n).c1)
  {
    hide Linked, SubColumn, Rot, Plus, RoundConstant, Key128;
    if n <= 5 { Schedule128a(n); } else { Schedule128b(n); }
  }

  lemma Given128()
    ensures FourWords(KEY128, 0) == Key128(0)
  {
    hide KeyWord, SubColumn, Rcon, Rot, Plus;
    KeyItself(KEY128, 0); KeyItself(KEY128, 1); KeyItself(KEY128, 2); KeyItself(KEY128, 3);
  }

  lemma {:induction false} Keys128(n: nat)
    requires n <= 10
    ensures FourWords(KEY128, 4 * n) == Key128(n)
  {
    hide KeyWord, SubColumn, Rcon, Rot, Plus, RoundConstant, Key128;
    if n == 0 {
      Given128();
    } else {
      Keys128(n - 1);
      Schedule128(n);
      RconIs(n);
      Four128(KEY128, n);
    }
  }

  lemma {:induction false} Rounds128(n: nat)
    requires n <= 9
    ensures Rounds(RoundKeys(KEY128), StateOf(PLAIN), n) == Start128(n)
  {
    hide RoundKeys, SubBytes, ShiftRows, MixColumns, AddKey, StateOf, FourWords, Mixed, Key128, Start128, Box128;
    RoundKeyIs(KEY128, n);
    Keys128(n);
    if n == 0 {
      FirstKey128();
    } else {
      Rounds128(n - 1);
      Boxed128(n - 1);
      Mixed128(n);
      MixedIs(Box128(n - 1), Key128(n));
    }
  }

  lemma FirstKey128()
    ensures AddKey(StateOf(PLAIN), Key128(0)) == Start128(0)
  {
    hide StateOf;
    PlainIs();
  }

  lemma LastKey128()
    ensures BytesOf(AddKey(ShiftRows(Box128(9)), Key128(10)))
         == [0x69, 0xC4, 0xE0, 0xD8, 0x6A, 0x7B, 0x04, 0x30, 0xD8, 0xCD, 0xB7, 0x80, 0x70, 0xB4, 0xC5, 0x5A]
  {
  }

  /** The example of appendix C.1, and back. */
  lemma Example128()
    ensures Crypt(RoundKeys(KEY128), false, PLAIN)
         == [0x69, 0xC4, 0xE0, 0xD8, 0x6A, 0x7B, 0x04, 0x30, 0xD8, 0xCD, 0xB7, 0x80, 0x70, 0xB4, 0xC5, 0x5A]
    ensures Crypt(InverseKeys(RoundKeys(KEY128)), true, Crypt(RoundKeys(KEY128), false, PLAIN)) == PLAIN
  {
    hide RoundKeys, InverseKeys, EqInvCipher, SubBytes, ShiftRows, AddKey, StateOf, BytesOf, FourWords, Rounds, Key128, Start128, Box128;
    RoundKeyIs(KEY128, 10);
    Keys128(10);
    Rounds128(9);
    Boxed128(9);
    LastKey128();
    DecryptInvertsEncrypt(KEY128, PLAIN);
  }

  // ---------------------------------------------------------------- C.2: 192-bit key, 12 rounds

  const KEY192: seq<bv8> := [0x00, 0x01, 0x02, 0x03, 0x04, 0x05, 0x06, 0x07, 0x08, 0x09, 0x0A, 0x0B,
                              0x0C, 0x0D, 0x0E, 0x0F, 0x10, 0x11, 0x12, 0x13, 0x14, 0x15, 0x16, 0x17]

  /** Round key `n`: k_sch of the standard. */
  function Key192(n: nat): State {
    match n
    case 0 => Of(0x00, 0x01, 0x02, 0x03, 0x04, 0x05, 0x06, 0x07, 0x08, 0x09, 0x0A, 0x0B, 0x0C, 0x0D, 0x0E, 0x0F)
    case 1 => Of(0x10, 0x11, 0x12, 0x13, 0x14, 0x15, 0x16, 0x17, 0x58, 0x46, 0xF2, 0xF9, 0x5C, 0x43, 0xF4, 0xFE)
    case 2 => Of(0x54, 0x4A, 0xFE, 0xF5, 0x58, 0x47, 0xF0, 0xFA, 0x48, 0x56, 0xE2, 0xE9, 0x5C, 0x43, 0xF4, 0xFE)
    case 3 => Of(0x40, 0xF9, 0x49, 0xB3, 0x1C, 0xBA, 0xBD, 0x4D, 0x48, 0xF0, 0x43, 0xB8, 0x10, 0xB7, 0xB3, 0x42)
    case 4 => Of(0x58, 0xE1, 0x51, 0xAB, 0x04, 0xA2, 0xA5, 0x55, 0x7E, 0xFF, 0xB5, 0x41, 0x62, 0x45, 0x08, 0x0C)
    case 5 => Of(0x2A, 0xB5, 0x4B, 0xB4, 0x3A, 0x02, 0xF8, 0xF6, 0x62, 0xE3, 0xA9, 0x5D, 0x66, 0x41, 0x0C, 0x08)
    case 6 => Of(0xF5, 0x01, 0x85, 0x72, 0x97, 0x44, 0x8D, 0x7E, 0xBD, 0xF1, 0xC6, 0xCA, 0x87, 0xF3, 0x3E, 0x3C)
    case 7 => Of(0xE5, 0x10, 0x97, 0x61, 0x83, 0x51, 0x9B, 0x69, 0x34, 0x15, 0x7C, 0x9E, 0xA3, 0x51, 0xF1, 0xE0)
    case 8 => Of(0x1E, 0xA0, 0x37, 0x2A, 0x99, 0x53, 0x09, 0x16, 0x7C, 0x43, 0x9E, 0x77, 0xFF, 0x12, 0x05, 0x1E)
    case 9 => Of(0xDD, 0x7E, 0x0E, 0x88, 0x7E, 0x2F, 0xFF, 0x68, 0x60, 0x8F, 0xC8, 0x42, 0xF9, 0xDC, 0xC1, 0x54)
    case 10 => Of(0x85, 0x9F, 0x5F, 0x23, 0x7A, 0x8D, 0x5A, 0x3D, 0xC0, 0xC0, 0x29, 0x52, 0xBE, 0xEF, 0xD6, 0x3A)
    case 11 => Of(0xDE, 0x60, 0x1E, 0x78, 0x27, 0xBC, 0xDF, 0x2C, 0xA2, 0x23, 0x80, 0x0F, 0xD8, 0xAE, 0xDA, 0x32)
    case _ => Of(0xA4, 0x97, 0x0A, 0x33, 0x1A, 0x78, 0xDC, 0x09, 0xC4, 0x18, 0xC2, 0x71, 0xE3, 0xA4, 0x1D, 0x5D)
  }

  /** The state at the start of round `n + 1`. */
  function Start192(n: nat): State {
    match n
    case 0 => Of(0x00, 0x10, 0x20, 0x30, 0x40, 0x50, 0x60, 0x70, 0x80, 0x90, 0xA0, 0xB0, 0xC0, 0xD0, 0xE0, 0xF0)
    case 1 => Of(0x4F, 0x63, 0x76, 0x06, 0x43, 0xE0, 0xAA, 0x85, 0xAF, 0xF8, 0xC9, 0xD0, 0x41, 0xFA, 0x0D, 0xE4)
    case 2 => Of(0xCB, 0x02, 0x81, 0x8C, 0x17, 0xD2, 0xAF, 0x9C, 0x62, 0xAA, 0x64, 0x42, 0x8B, 0xB2, 0x5F, 0xD7)
    case 3 => Of(0xF7, 0x5C, 0x77, 0x78, 0xA3, 0x27, 0xC8, 0xED, 0x8C, 0xFE, 0xBF, 0xC1, 0xA6, 0xC3, 0x7F, 0x53)
    case 4 => Of(0x22, 0xFF, 0xC9, 0x16, 0xA8, 0x14, 0x74, 0x41, 0x64, 0x96, 0xF1, 0x9C, 0x64, 0xAE, 0x25, 0x32)
    case 5 => Of(0x80, 0x12, 0x1E, 0x07, 0x76, 0xFD, 0x1D, 0x8A, 0x8D, 0x8C, 0x31, 0xBC, 0x96, 0x5D, 0x1F, 0xEE)
    case 6 => Of(0x67, 0x1E, 0xF1, 0xFD, 0x4E, 0x2A, 0x1E, 0x03, 0xDF, 0xDC, 0xB1, 0xEF, 0x3D, 0x78, 0x9B, 0x30)
    case 7 => Of(0x0C, 0x03, 0x70, 0xD0, 0x0C, 0x01, 0xE6, 0x22, 0x16, 0x6B, 0x8A, 0xCC, 0xD6, 0xDB, 0x3A, 0x2C)
    case 8 => Of(0x72, 0x55, 0xDA, 0xD3, 0x0F, 0xB8, 0x03, 0x10, 0xE0, 0x0D, 0x6C, 0x6B, 0x40, 0xD0, 0x52, 0x7C)
    case 9 => Of(0xA9, 0x06, 0xB2, 0x54, 0x96, 0x8A, 0xF4, 0xE9, 0xB4, 0xBD, 0xB2, 0xD2, 0xF0, 0xC4, 0x43, 0x36)
    case 10 => Of(0x88, 0xEC, 0x93, 0x0E, 0xF5, 0xE7, 0xE4, 0xB6, 0xCC, 0x32, 0xF4, 0xC9, 0x06, 0xD2, 0x94, 0x14)
    case _ => Of(0xAF, 0xB7, 0x3E, 0xEB, 0x1C, 0xD1, 0xB8, 0x51, 0x62, 0x28, 0x0F, 0x27, 0xFB, 0x20, 0xD5, 0x85)
  }

  /** The same after SubBytes: s_box of that round. */
  function Box192(n: nat): State {
    match n
    case 0 => Of(0x63, 0xCA, 0xB7, 0x04, 0x09, 0x53, 0xD0, 0x51, 0xCD, 0x60, 0xE0, 0xE7, 0xBA, 0x70, 0xE1, 0x8C)
    case 1 => Of(0x84, 0xFB, 0x38, 0x6F, 0x1A, 0xE1, 0xAC, 0x97, 0x79, 0x41, 0xDD, 0x70, 0x83, 0x2D, 0xD7, 0x69)
    case 2 => Of(0x1F, 0x77, 0x0C, 0x64, 0xF0, 0xB5, 0x79, 0xDE, 0xAA, 0xAC, 0x43, 0x2C, 0x3D, 0x37, 0xCF, 0x0E)
    case 3 => Of(0x68, 0x4A, 0xF5, 0xBC, 0x0A, 0xCC, 0xE8, 0x55, 0x64, 0xBB, 0x08, 0x78, 0x24, 0x2E, 0xD2, 0xED)
    case 4 => Of(0x93, 0x16, 0xDD, 0x47, 0xC2, 0xFA, 0x92, 0x83, 0x43, 0x90, 0xA1, 0xDE, 0x43, 0xE4, 0x3F, 0x23)
    case 5 => Of(0xCD, 0xC9, 0x72, 0xC5, 0x38, 0x54, 0xA4, 0x7E, 0x5D, 0x64, 0xC7, 0x65, 0x90, 0x4C, 0xC0, 0x28)
    case 6 => Of(0x85, 0x72, 0xA1, 0x54, 0x2F, 0xE5, 0x72, 0x7B, 0x9E, 0x86, 0xC8, 0xDF, 0x27, 0xBC, 0x14, 0x04)
    case 7 => Of(0xFE, 0x7B, 0x51, 0x70, 0xFE, 0x7C, 0x8E, 0x93, 0x47, 0x7F, 0x7E, 0x4B, 0xF6, 0xB9, 0x80, 0x71)
    case 8 => Of(0x40, 0xFC, 0x57, 0x66, 0x76, 0x6C, 0x7B, 0xCA, 0xE1, 0xD7, 0x50, 0x7F, 0x09, 0x70, 0x00, 0x10)
    case 9 => Of(0xD3, 0x6F, 0x37, 0x20, 0x90, 0x7E, 0xBF, 0x1E, 0x8D, 0x7A, 0x37, 0xB5, 0x8C, 0x1C, 0x1A, 0x05)
    case 10 => Of(0xC4, 0xCE, 0xDC, 0xAB, 0xE6, 0x94, 0x69, 0x4E, 0x4B, 0x23, 0xBF, 0xDD, 0x6F, 0xB5, 0x22, 0xFA)
    case _ => Of(0x79, 0xA9, 0xB2, 0xE9, 0x9C, 0x3E, 0x6C, 0xD1, 0xAA, 0x34, 0x76, 0xCC, 0x0F, 0xB7, 0x03, 0x97)
  }

  lemma Boxed192a(n: nat)
    requires n in {0, 1, 2}
    ensures SubBytes(Start192(n)) == Box192(n)
  {
    hide Sub, SubColumn;
    Boxed(0x00, 0x10, 0x20, 0x30, 0x40, 0x50, 0x60, 0x70, 0x80, 0x90, 0xA0, 0xB0, 0xC0, 0xD0, 0xE0, 0xF0);
    Boxed(0x4F, 0x63, 0x76, 0x06, 0x43, 0xE0, 0xAA, 0x85, 0xAF, 0xF8, 0xC9, 0xD0, 0x41, 0xFA, 0x0D, 0xE4);
    Boxed(0xCB, 0x02, 0x81, 0x8C, 0x17, 0xD2, 0xAF, 0x9C, 0x62, 0xAA, 0x64, 0x42, 0x8B, 0xB2, 0x5F, 0xD7);
  }

  lemma Boxed192b(n: nat)
    requires n in {3, 4, 5}
    ensures SubBytes(Start192(n)) == Box192(n)
  {
    hide Sub, SubColumn;
    Boxed(0xF7, 0x5C, 0x77, 0x78, 0xA3, 0x27, 0xC8, 0xED, 0x8C, 0xFE, 0xBF, 0xC1, 0xA6, 0xC3, 0x7F, 0x53);
    Boxed(0x22, 0xFF, 0xC9, 0x16, 0xA8, 0x14, 0x74, 0x41, 0x64, 0x96, 0xF1, 0x9C, 0x64, 0xAE, 0x25, 0x32);
    Boxed(0x80, 0x12, 0x1E, 0x07, 0x76, 0xFD, 0x1D, 0x8A, 0x8D, 0x8C, 0x31, 0xBC, 0x96, 0x5D, 0x1F, 0xEE);
  }

  lemma Boxed192c(n: nat)
    requires n in {6, 7, 8}
    ensures SubBytes(Start192(n)) == Box192(n)
  {
    hide Sub, SubColumn;
    Boxed(0x67, 0x1E, 0xF1, 0xFD, 0x4E, 0x2A, 0x1E, 0x03, 0xDF, 0xDC, 0xB1, 0xEF, 0x3D, 0x78, 0x9B, 0x30);
    Boxed(0x0C, 0x03, 0x70, 0xD0, 0x0C, 0x01, 0xE6, 0x22, 0x16, 0x6B, 0x8A, 0xCC, 0xD6, 0xDB, 0x3A, 0x2C);
    Boxed(0x72, 0x55, 0xDA, 0xD3, 0x0F, 0xB8, 0x03, 0x10, 0xE0, 0x0D, 0x6C, 0x6B, 0x40, 0xD0, 0x52, 0x7C);
  }

  lemma Boxed192d(n: nat)
    requires n in {9, 10, 11}
    ensures SubBytes(Start192(n)) == Box192(n)
  {
    hide Sub, SubColumn;
    Boxed(0xA9, 0x06, 0xB2, 0x54, 0x96, 0x8A, 0xF4, 0xE9, 0xB4, 0xBD, 0xB2, 0xD2, 0xF0, 0xC4, 0x43, 0x36);
    Boxed(0x88, 0xEC, 0x93, 0x0E, 0xF5, 0xE7, 0xE4, 0xB6, 0xCC, 0x32, 0xF4, 0xC9, 0x06, 0xD2, 0x94, 0x14);
    Boxed(0xAF, 0xB7, 0x3E, 0xEB, 0x1C, 0xD1, 0xB8, 0x51, 0x62, 0x28, 0x0F, 0x27, 0xFB, 0x20, 0xD5, 0x85);
  }

  lemma Boxed192(n: nat)
    requires 0 <= n <= 11
    ensures SubBytes(Start192(n)) == Box192(n)
  {
    hide SubBytes, Start192, Box192;
    if n <= 2 { Boxed192a(n); } else if n <= 5 { Boxed192b(n); } else if n <= 8 { Boxed192c(n); } else { Boxed192d(n); }
  }

  lemma Mixed192(n: nat)
    requires n in {1, 2, 3, 4, 5, 6, 7, 8, 9, 10, 11}
    ensures Mixed(Box192(n - 1), Key192(n)) == Start192(n)
  {
  }

  /** The four words six places back. */
  function Back192(n: nat): State
    requires n >= 2
  {
    State(Key192(n - 2).c2, Key192(n - 2).c3, Key192(n - 1).c0, Key192(n - 1).c1)
  }

  lemma First192(m: nat)
    requires m in {1, 2, 3, 4}
    ensures Linked(Key192(3 * m), Back192(3 * m), Plus(SubColumn(Rot(Key192(3 * m - 1).c3)), RoundConstant(2 * m)), Key192(3 * m).c1)
  {
    hide Sub;
    Word(0x43, 0xF4, 0xFE, 0x5C);
    Word(0x41, 0x0C, 0x08, 0x66);
    Word(0x12, 0x05, 0x1E, 0xFF);
    Word(0xAE, 0xDA, 0x32, 0xD8);
  }

  lemma Second192(m: nat)
    requires m in {1, 2, 3}
    ensures Linked(Key192(3 * m + 1), Back192(3 * m + 1), Key192(3 * m).c3, Plus(SubColumn(Rot(Key192(3 * m + 1).c1)), RoundConstant(2 * m + 1)))
  {
    hide Sub;
    Word(0xA2, 0xA5, 0x55, 0x04);
    Word(0x51, 0x9B, 0x69, 0x83);
    Word(0x8D, 0x5A, 0x3D, 0x7A);
  }

  lemma Third192(m: nat)
    requires m in {0, 1, 2, 3}
    ensures Linked(Key192(3 * m + 2), Back192(3 * m + 2), Key192(3 * m + 1).c3, Key192(3 * m + 2).c1)
  {
  }

  lemma Words6And7()
    ensures Key192(1).c2 == Plus(Key192(0).c0, Plus(SubColumn(Rot(Key192(1).c1)), RoundConstant(1))) && Key192(1).c3 == Plus(Key192(0).c1, Key192(1).c2)
  {
    hide Sub;
    Word(0x15, 0x16, 0x17, 0x14);
  }

  lemma Given192()
    ensures FourWords(KEY192, 0) == Key192(0) && FourWords(KEY192, 4) == Key192(1)
  {
    hide KeyWord, SubColumn, Rcon, Rot, Plus;
    KeyItself(KEY192, 0); KeyItself(KEY192, 1); KeyItself(KEY192, 2); KeyItself(KEY192, 3); KeyItself(KEY192, 4); KeyItself(KEY192, 5);
    NextWord(KEY192, 6);
    NextWord(KEY192, 7);
    RconIs(1);
    Words6And7();
  }

  lemma {:induction false} Keys192(n: nat)
    requires n <= 12
    ensures FourWords(KEY192, 4 * n) == Key192(n)
  {
    hide KeyWord, SubColumn, Rcon, Rot, Plus, RoundConstant, Key192;
    if n <= 1 {
      Given192();
    } else {
      Keys192(n - 1);
      Keys192(n - 2);
      var m := n / 3;
      if n % 3 == 0 {
        RconIs(2 * m);
        First192(m);
        First192Is(KEY192, m);
      } else if n % 3 == 1 {
        RconIs(2 * m + 1);
        Second192(m);
        Second192Is(KEY192, m);
      } else {
        Third192(m);
        Third192Is(KEY192, m);
      }
    }
  }

  lemma {:induction false} Rounds192(n: nat)
    requires n <= 11
    ensures Rounds(RoundKeys(KEY192), StateOf(PLAIN), n) == Start192(n)
  {
    hide RoundKeys, SubBytes, ShiftRows, MixColumns, AddKey, StateOf, FourWords, Mixed, Key192, Start192, Box192;
    RoundKeyIs(KEY192, n);
    Keys192(n);
    if n == 0 {
      FirstKey192();
    } else {
      Rounds192(n - 1);
      Boxed192(n - 1);
      Mixed192(n);
      MixedIs(Box192(n - 1), Key192(n));
    }
  }

  lemma FirstKey192()
    ensures AddKey(StateOf(PLAIN), Key192(0)) == Start192(0)
  {
    hide StateOf;
    PlainIs();
  }

  lemma LastKey192()
    ensures BytesOf(AddKey(ShiftRows(Box192(11)), Key192(12)))
         == [0xDD, 0xA9, 0x7C, 0xA4, 0x86, 0x4C, 0xDF, 0xE0, 0x6E, 0xAF, 0x70, 0xA0, 0xEC, 0x0D, 0x71, 0x91]
  {
  }

  /** The example of appendix C.2, and back. */
  lemma Example192()
    ensures Crypt(RoundKeys(KEY192), false, PLAIN)
         == [0xDD, 0xA9, 0x7C, 0xA4, 0x86, 0x4C, 0xDF, 0xE0, 0x6E, 0xAF, 0x70, 0xA0, 0xEC, 0x0D, 0x71, 0x91]
    ensures Crypt(InverseKeys(RoundKeys(KEY192)), true, Crypt(RoundKeys(KEY192), false, PLAIN)) == PLAIN
  {
    hide RoundKeys, InverseKeys, EqInvCipher, SubBytes, ShiftRows, AddKey, StateOf, BytesOf, FourWords, Rounds, Key192, Start192, Box192;
    RoundKeyIs(KEY192, 12);
    Keys192(12);
    Rounds192(11);
    Boxed192(11);
    LastKey192();
    DecryptInvertsEncrypt(KEY192, PLAIN);
  }

  // ---------------------------------------------------------------- C.3: 256-bit key, 14 rounds

  const KEY256: seq<bv8> := [0x00, 0x01, 0x02, 0x03, 0x04, 0x05, 0x06, 0x07, 0x08, 0x09, 0x0A, 0x0B, 0x0C, 0x0D, 0x0E, 0x0F,
                              0x10, 0x11, 0x12, 0x13, 0x14, 0x15, 0x16, 0x17, 0x18, 0x19, 0x1A, 0x1B, 0x1C, 0x1D, 0x1E, 0x1F]

  /** Round key `n`: k_sch of the standard. */
  function Key256(n: nat): State {
    match n
    case 0 => Of(0x00, 0x01, 0x02, 0x03, 0x04, 0x05, 0x06, 0x07, 0x08, 0x09, 0x0A, 0x0B, 0x0C, 0x0D, 0x0E, 0x0F)
    case 1 => Of(0x10, 0x11, 0x12, 0x13, 0x14, 0x15, 0x16, 0x17, 0x18, 0x19, 0x1A, 0x1B, 0x1C, 0x1D, 0x1E, 0x1F)
    case 2 => Of(0xA5, 0x73, 0xC2, 0x9F, 0xA1, 0x76, 0xC4, 0x98, 0xA9, 0x7F, 0xCE, 0x93, 0xA5, 0x72, 0xC0, 0x9C)
    case 3 => Of(0x16, 0x51, 0xA8, 0xCD, 0x02, 0x44, 0xBE, 0xDA, 0x1A, 0x5D, 0xA4, 0xC1, 0x06, 0x40, 0xBA, 0xDE)
    case 4 => Of(0xAE, 0x87, 0xDF, 0xF0, 0x0F, 0xF1, 0x1B, 0x68, 0xA6, 0x8E, 0xD5, 0xFB, 0x03, 0xFC, 0x15, 0x67)
    case 5 => Of(0x6D, 0xE1, 0xF1, 0x48, 0x6F, 0xA5, 0x4F, 0x92, 0x75, 0xF8, 0xEB, 0x53, 0x73, 0xB8, 0x51, 0x8D)
    case 6 => Of(0xC6, 0x56, 0x82, 0x7F, 0xC9, 0xA7, 0x99, 0x17, 0x6F, 0x29, 0x4C, 0xEC, 0x6C, 0xD5, 0x59, 0x8B)
    case 7 => Of(0x3D, 0xE2, 0x3A, 0x75, 0x52, 0x47, 0x75, 0xE7, 0x27, 0xBF, 0x9E, 0xB4, 0x54, 0x07, 0xCF, 0x39)
    case 8 => Of(0x0B, 0xDC, 0x90, 0x5F, 0xC2, 0x7B, 0x09, 0x48, 0xAD, 0x52, 0x45, 0xA4, 0xC1, 0x87, 0x1C, 0x2F)
    case 9 => Of(0x45, 0xF5, 0xA6, 0x60, 0x17, 0xB2, 0xD3, 0x87, 0x30, 0x0D, 0x4D, 0x33, 0x64, 0x0A, 0x82, 0x0A)
    case 10 => Of(0x7C, 0xCF, 0xF7, 0x1C, 0xBE, 0xB4, 0xFE, 0x54, 0x13, 0xE6, 0xBB, 0xF0, 0xD2, 0x61, 0xA7, 0xDF)
    case 11 => Of(0xF0, 0x1A, 0xFA, 0xFE, 0xE7, 0xA8, 0x29, 0x79, 0xD7, 0xA5, 0x64, 0x4A, 0xB3, 0xAF, 0xE6, 0x40)
    case 12 => Of(0x25, 0x41, 0xFE, 0x71, 0x9B, 0xF5, 0x00, 0x25, 0x88, 0x13, 0xBB, 0xD5, 0x5A, 0x72, 0x1C, 0x0A)
    case 13 => Of(0x4E, 0x5A, 0x66, 0x99, 0xA9, 0xF2, 0x4F, 0xE0, 0x7E, 0x57, 0x2B, 0xAA, 0xCD, 0xF8, 0xCD, 0xEA)
    case _ => Of(0x24, 0xFC, 0x79, 0xCC, 0xBF, 0x09, 0x79, 0xE9, 0x37, 0x1A, 0xC2, 0x3C, 0x6D, 0x68, 0xDE, 0x36)
  }

  /** The state at the start of round `n + 1`. */
  function Start256(n: nat): State {
    match n
    case 0 => Of(0x00, 0x10, 0x20, 0x30, 0x40, 0x50, 0x60, 0x70, 0x80, 0x90, 0xA0, 0xB0, 0xC0, 0xD0, 0xE0, 0xF0)
    case 1 => Of(0x4F, 0x63, 0x76, 0x06, 0x43, 0xE0, 0xAA, 0x85, 0xEF, 0xA7, 0x21, 0x32, 0x01, 0xA4, 0xE7, 0x05)
    case 2 => Of(0x18, 0x59, 0xFB, 0xC2, 0x8A, 0x1C, 0x00, 0xA0, 0x78, 0xED, 0x8A, 0xAD, 0xC4, 0x2F, 0x61, 0x09)
    case 3 => Of(0x97, 0x5C, 0x66, 0xC1, 0xCB, 0x9F, 0x3F, 0xA8, 0xA9, 0x3A, 0x28, 0xDF, 0x8E, 0xE1, 0x0F, 0x63)
    case 4 => Of(0x1C, 0x05, 0xF2, 0x71, 0xA4, 0x17, 0xE0, 0x4F, 0xF9, 0x21, 0xC5, 0xC1, 0x04, 0x70, 0x15, 0x54)
    case 5 => Of(0xC3, 0x57, 0xAA, 0xE1, 0x1B, 0x45, 0xB7, 0xB0, 0xA2, 0xC7, 0xBD, 0x28, 0xA8, 0xDC, 0x99, 0xFA)
    case 6 => Of(0x7F, 0x07, 0x41, 0x43, 0xCB, 0x4E, 0x24, 0x3E, 0xC1, 0x0C, 0x81, 0x5D, 0x83, 0x75, 0xD5, 0x4C)
    case 7 => Of(0xD6, 0x53, 0xA4, 0x69, 0x6C, 0xA0, 0xBC, 0x0F, 0x5A, 0xCA, 0xAB, 0x5D, 0xB9, 0x6C, 0x5E, 0x7D)
    case 8 => Of(0x5A, 0xA8, 0x58, 0x39, 0x5F, 0xD2, 0x8D, 0x7D, 0x05, 0xE1, 0xA3, 0x88, 0x68, 0xF3, 0xB9, 0xC5)
    case 9 => Of(0x4A, 0x82, 0x48, 0x51, 0xC5, 0x7E, 0x7E, 0x47, 0x64, 0x3D, 0xE5, 0x0C, 0x2A, 0xF3, 0xE8, 0xC9)
    case 10 => Of(0xC1, 0x49, 0x07, 0xF6, 0xCA, 0x3B, 0x3A, 0xA0, 0x70, 0xE9, 0xAA, 0x31, 0x3B, 0x52, 0xB5, 0xEC)
    case 11 => Of(0x5F, 0x9C, 0x6A, 0xBF, 0xBA, 0xC6, 0x34, 0xAA, 0x50, 0x40, 0x9F, 0xA7, 0x66, 0x67, 0x76, 0x53)
    case 12 => Of(0x51, 0x66, 0x04, 0x95, 0x43, 0x53, 0x95, 0x03, 0x14, 0xFB, 0x86, 0xE4, 0x01, 0x92, 0x25, 0x21)
    case _ => Of(0x62, 0x7B, 0xCE, 0xB9, 0x99, 0x9D, 0x5A, 0xAA, 0xC9, 0x45, 0xEC, 0xF4, 0x23, 0xF5, 0x6D, 0xA5)
  }

  /** The same after SubBytes: s_box of that round. */
  function Box256(n: nat): State {
    match n
    case 0 => Of(0x63, 0xCA, 0xB7, 0x04, 0x09, 0x53, 0xD0, 0x51, 0xCD, 0x60, 0xE0, 0xE7, 0xBA, 0x70, 0xE1, 0x8C)
    case 1 => Of(0x84, 0xFB, 0x38, 0x6F, 0x1A, 0xE1, 0xAC, 0x97, 0xDF, 0x5C, 0xFD, 0x23, 0x7C, 0x49, 0x94, 0x6B)
    case 2 => Of(0xAD, 0xCB, 0x0F, 0x25, 0x7E, 0x9C, 0x63, 0xE0, 0xBC, 0x55, 0x7E, 0x95, 0x1C, 0x15, 0xEF, 0x01)
    case 3 => Of(0x88, 0x4A, 0x33, 0x78, 0x1F, 0xDB, 0x75, 0xC2, 0xD3, 0x80, 0x34, 0x9E, 0x19, 0xF8, 0x76, 0xFB)
    case 4 => Of(0x9C, 0x6B, 0x89, 0xA3, 0x49, 0xF0, 0xE1, 0x84, 0x99, 0xFD, 0xA6, 0x78, 0xF2, 0x51, 0x59, 0x20)
    case 5 => Of(0x2E, 0x5B, 0xAC, 0xF8, 0xAF, 0x6E, 0xA9, 0xE7, 0x3A, 0xC6, 0x7A, 0x34, 0xC2, 0x86, 0xEE, 0x2D)
    case 6 => Of(0xD2, 0xC5, 0x83, 0x1A, 0x1F, 0x2F, 0x36, 0xB2, 0x78, 0xFE, 0x0C, 0x4C, 0xEC, 0x9D, 0x03, 0x29)
    case 7 => Of(0xF6, 0xED, 0x49, 0xF9, 0x50, 0xE0, 0x65, 0x76, 0xBE, 0x74, 0x62, 0x4C, 0x56, 0x50, 0x58, 0xFF)
    case 8 => Of(0xBE, 0xC2, 0x6A, 0x12, 0xCF, 0xB5, 0x5D, 0xFF, 0x6B, 0xF8, 0x0A, 0xC4, 0x45, 0x0D, 0x56, 0xA6)
    case 9 => Of(0xD6, 0x13, 0x52, 0xD1, 0xA6, 0xF3, 0xF3, 0xA0, 0x43, 0x27, 0xD9, 0xFE, 0xE5, 0x0D, 0x9B, 0xDD)
    case 10 => Of(0x78, 0x3B, 0xC5, 0x42, 0x74, 0xE2, 0x80, 0xE0, 0x51, 0x1E, 0xAC, 0xC7, 0xE2, 0x00, 0xD5, 0xCE)
    case 11 => Of(0xCF, 0xDE, 0x02, 0x08, 0xF4, 0xB4, 0x18, 0xAC, 0x53, 0x09, 0xDB, 0x5C, 0x33, 0x85, 0x38, 0xED)
    case 12 => Of(0xD1, 0x33, 0xF2, 0x2A, 0x1A, 0xED, 0x2A, 0x7B, 0xFA, 0x0F, 0x44, 0x69, 0x7C, 0x4F, 0x3F, 0xFD)
    case _ => Of(0xAA, 0x21, 0x8B, 0x56, 0xEE, 0x5E, 0xBE, 0xAC, 0xDD, 0x6E, 0xCE, 0xBF, 0x26, 0xE6, 0x3C, 0x06)
  }

  lemma Boxed256a(n: nat)
    requires n in {0, 1, 2}
    ensures SubBytes(Start256(n)) == Box256(n)
  {
    hide Sub, SubColumn;
    Boxed(0x00, 0x10, 0x20, 0x30, 0x40, 0x50, 0x60, 0x70, 0x80, 0x90, 0xA0, 0xB0, 0xC0, 0xD0, 0xE0, 0xF0);
    Boxed(0x4F, 0x63, 0x76, 0x06, 0x43, 0xE0, 0xAA, 0x85, 0xEF, 0xA7, 0x21, 0x32, 0x01, 0xA4, 0xE7, 0x05);
    Boxed(0x18, 0x59, 0xFB, 0xC2, 0x8A, 0x1C, 0x00, 0xA0, 0x78, 0xED, 0x8A, 0xAD, 0xC4, 0x2F, 0x61, 0x09);
  }

  lemma Boxed256b(n: nat)
    requires n in {3, 4, 5}
    ensures SubBytes(Start256(n)) == Box256(n)
  {
    hide Sub, SubColumn;
    Boxed(0x97, 0x5C, 0x66, 0xC1, 0xCB, 0x9F, 0x3F, 0xA8, 0xA9, 0x3A, 0x28, 0xDF, 0x8E, 0xE1, 0x0F, 0x63);
    Boxed(0x1C, 0x05, 0xF2, 0x71, 0xA4, 0x17, 0xE0, 0x4F, 0xF9, 0x21, 0xC5, 0xC1, 0x04, 0x70, 0x15, 0x54);
    Boxed(0xC3, 0x57, 0xAA, 0xE1, 0x1B, 0x45, 0xB7, 0xB0, 0xA2, 0xC7, 0xBD, 0x28, 0xA8, 0xDC, 0x99, 0xFA);
  }

  lemma Boxed256c(n: nat)
    requires n in {6, 7, 8}
    ensures SubBytes(Start256(n)) == Box256(n)
  {
    hide Sub, SubColumn;
    Boxed(0x7F, 0x07, 0x41, 0x43, 0xCB, 0x4E, 0x24, 0x3E, 0xC1, 0x0C, 0x81, 0x5D, 0x83, 0x75, 0xD5, 0x4C);
    Boxed(0xD6, 0x53, 0xA4, 0x69, 0x6C, 0xA0, 0xBC, 0x0F, 0x5A, 0xCA, 0xAB, 0x5D, 0xB9, 0x6C, 0x5E, 0x7D);
    Boxed(0x5A, 0xA8, 0x58, 0x39, 0x5F, 0xD2, 0x8D, 0x7D, 0x05, 0xE1, 0xA3, 0x88, 0x68, 0xF3, 0xB9, 0xC5);
  }

  lemma Boxed256d(n: nat)
    requires n in {9, 10, 11}
    ensures SubBytes(Start256(n)) == Box256(n)
  {
    hide Sub, SubColumn;
    Boxed(0x4A, 0x82, 0x48, 0x51, 0xC5, 0x7E, 0x7E, 0x47, 0x64, 0x3D, 0xE5, 0x0C, 0x2A, 0xF3, 0xE8, 0xC9);
    Boxed(0xC1, 0x49, 0x07, 0xF6, 0xCA, 0x3B, 0x3A, 0xA0, 0x70, 0xE9, 0xAA, 0x31, 0x3B, 0x52, 0xB5, 0xEC);
    Boxed(0x5F, 0x9C, 0x6A, 0xBF, 0xBA, 0xC6, 0x34, 0xAA, 0x50, 0x40, 0x9F, 0xA7, 0x66, 0x67, 0x76, 0x53);
  }

  lemma Boxed256e(n: nat)
    requires n in {12, 13}
    ensures SubBytes(Start256(n)) == Box256(n)
  {
    hide Sub, SubColumn;
    Boxed(0x51, 0x66, 0x04, 0x95, 0x43, 0x53, 0x95, 0x03, 0x14, 0xFB, 0x86, 0xE4, 0x01, 0x92, 0x25, 0x21);
    Boxed(0x62, 0x7B, 0xCE, 0xB9, 0x99, 0x9D, 0x5A, 0xAA, 0xC9, 0x45, 0xEC, 0xF4, 0x23, 0xF5, 0x6D, 0xA5);
  }

  lemma Boxed256(n: nat)
    requires 0 <= n <= 13
    ensures SubBytes(Start256(n)) == Box256(n)
  {
    hide SubBytes, Start256, Box256;
    if n <= 2 { Boxed256a(n); } else if n <= 5 { Boxed256b(n); } else if n <= 8 { Boxed256c(n); } else if n <= 11 { Boxed256d(n); } else { Boxed256e(n); }
  }

  lemma Mixed256(n: nat)
    requires n in {1, 2, 3, 4, 5, 6, 7, 8, 9, 10, 11, 12, 13}
    ensures Mixed(Box256(n - 1), Key256(n)) == Start256(n)
  {
  }

  lemma Even256(m: nat)
    requires m in {1, 2, 3, 4, 5, 6, 7}
    ensures Linked(Key256(2 * m), Key256(2 * m - 2), Plus(SubColumn(Rot(Key256(2 * m - 1).c3)), RoundConstant(m)), Key256(2 * m).c1)
  {
    hide Sub;
    Word(0x1D, 0x1E, 0x1F, 0x1C);
    Word(0x40, 0xBA, 0xDE, 0x06);
    Word(0xB8, 0x51, 0x8D, 0x73);
    Word(0x07, 0xCF, 0x39, 0x54);
    Word(0x0A, 0x82, 0x0A, 0x64);
    Word(0xAF, 0xE6, 0x40, 0xB3);
    Word(0xF8, 0xCD, 0xEA, 0xCD);
  }

  lemma Odd256(m: nat)
    requires m in {1, 2, 3, 4, 5, 6}
    ensures Linked(Key256(2 * m + 1), Key256(2 * m - 1), SubColumn(Key256(2 * m).c3), Key256(2 * m + 1).c1)
  {
    hide Sub;
    Word(0xA5, 0x72, 0xC0, 0x9C);
    Word(0x03, 0xFC, 0x15, 0x67);
    Word(0x6C, 0xD5, 0x59, 0x8B);
    Word(0xC1, 0x87, 0x1C, 0x2F);
    Word(0xD2, 0x61, 0xA7, 0xDF);
    Word(0x5A, 0x72, 0x1C, 0x0A);
  }

  lemma Given256()
    ensures FourWords(KEY256, 0) == Key256(0) && FourWords(KEY256, 4) == Key256(1)
  {
    hide KeyWord, SubColumn, Rcon, Rot, Plus;
    KeyItself(KEY256, 0); KeyItself(KEY256, 1); KeyItself(KEY256, 2); KeyItself(KEY256, 3); KeyItself(KEY256, 4); KeyItself(KEY256, 5); KeyItself(KEY256, 6); KeyItself(KEY256, 7);
  }

  lemma {:induction false} Keys256(n: nat)
    requires n <= 14
    ensures FourWords(KEY256, 4 * n) == Key256(n)
  {
    hide KeyWord, SubColumn, Rcon, Rot, Plus, RoundConstant, Key256;
    if n <= 1 {
      Given256();
    } else {
      Keys256(n - 1);
      Keys256(n - 2);
      Four256(KEY256, n);
      if n % 2 == 0 {
        RconIs(n / 2);
        Even256(n / 2);
      } else {
        Odd256(n / 2);
      }
    }
  }

  lemma {:induction false} Rounds256(n: nat)
    requires n <= 13
    ensures Rounds(RoundKeys(KEY256), StateOf(PLAIN), n) == Start256(n)
  {
    hide RoundKeys, SubBytes, ShiftRows, MixColumns, AddKey, StateOf, FourWords, Mixed, Key256, Start256, Box256;
    RoundKeyIs(KEY256, n);
    Keys256(n);
    if n == 0 {
      FirstKey256();
    } else {
      Rounds256(n - 1);
      Boxed256(n - 1);
      Mixed256(n);
      MixedIs(Box256(n - 1), Key256(n));
    }
  }

  lemma FirstKey256()
    ensures AddKey(StateOf(PLAIN), Key256(0)) == Start256(0)
  {
    hide StateOf;
    PlainIs();
  }

  lemma LastKey256()
    ensures BytesOf(AddKey(ShiftRows(Box256(13)), Key256(14)))
         == [0x8E, 0xA2, 0xB7, 0xCA, 0x51, 0x67, 0x45, 0xBF, 0xEA, 0xFC, 0x49, 0x90, 0x4B, 0x49, 0x60, 0x89]
  {
  }

  /** The example of appendix C.3, and back. */
  lemma Example256()
    ensures Crypt(RoundKeys(KEY256), false, PLAIN)
         == [0x8E, 0xA2, 0xB7, 0xCA, 0x51, 0x67, 0x45, 0xBF, 0xEA, 0xFC, 0x49, 0x90, 0x4B, 0x49, 0x60, 0x89]
    ensures Crypt(InverseKeys(RoundKeys(KEY256)), true, Crypt(RoundKeys(KEY256), false, PLAIN)) == PLAIN
  {
    hide RoundKeys, InverseKeys, EqInvCipher, SubBytes, ShiftRows, AddKey, StateOf, BytesOf, FourWords, Rounds, Key256, Start256, Box256;
    RoundKeyIs(KEY256, 14);
    Keys256(14);
    Rounds256(13);
    Boxed256(13);
    LastKey256();
    DecryptInvertsEncrypt(KEY256, PLAIN);
  }
}
