/** aes_crypt_ecb: the table-driven rounds are the cipher and the equivalent inverse cipher. */
module AesBlock {
  import opened AesField
  import opened AesSpec
  import opened AesTables
  import opened AesRounds
  import opened AesKeys

  function StateOf(b: seq<bv8>): State
    requires |b| == 16
  {
    State(Column(b[0], b[1], b[2], b[3]), Column(b[4], b[5], b[6], b[7]),
          Column(b[8], b[9], b[10], b[11]), Column(b[12], b[13], b[14], b[15]))
  }

  function BytesOfColumn(c: Column): seq<bv8> { [c.b0, c.b1, c.b2, c.b3] }

  function BytesOf(s: State): (b: seq<bv8>)
    ensures |b| == 16 && StateOf(b) == s
  {
    BytesOfColumn(s.c0) + BytesOfColumn(s.c1) + BytesOfColumn(s.c2) + BytesOfColumn(s.c3)
  }

  lemma BytesOfState(b: seq<bv8>)
    requires |b| == 16
    ensures BytesOf(StateOf(b)) == b
  {
  }

  /** Four words in registers that stand for a state. */
  datatype Words = Words(w0: bv32, w1: bv32, w2: bv32, w3: bv32)

  function PackState(s: State): Words { Words(Pack(s.c0), Pack(s.c1), Pack(s.c2), Pack(s.c3)) }

  /** A column of AES_FROUND, of AES_RROUND, and of the last round in each direction. */
  function FtWord(ft: array2<bv32>, k: bv32, y0: bv32, y1: bv32, y2: bv32, y3: bv32): bv32
    requires ft.Length0 == 4 && ft.Length1 == 256
    reads ft
  {
    Xor5(k, ft[0, Ix(B0(y0))], ft[1, Ix(B1(y1))], ft[2, Ix(B2(y2))], ft[3, Ix(B3(y3))])
  }

  function KeyedBytes(k: bv32, b0: bv8, b1: bv8, b2: bv8, b3: bv8): bv32 {
    Xor5(k, b0 as bv32, (b1 as bv32) << 8, (b2 as bv32) << 16, (b3 as bv32) << 24)
  }

  function SbWord(sb: array<bv8>, k: bv32, y0: bv32, y1: bv32, y2: bv32, y3: bv32): bv32
    requires sb.Length == 256
    reads sb
  {
    KeyedBytes(k, sb[Ix(B0(y0))], sb[Ix(B1(y1))], sb[Ix(B2(y2))], sb[Ix(B3(y3))])
  }

  lemma FtWordIs(t: Tables, k: Column, c0: Column, c1: Column, c2: Column, c3: Column)
    requires t.Valid() && t.ft.Length0 == 4 && t.ft.Length1 == 256
    ensures FtWord(t.ft, Pack(k), Pack(c0), Pack(c1), Pack(c2), Pack(c3))
         == Pack(Plus(Mix(SubColumn(Column(c0.b0, c1.b1, c2.b2, c3.b3))), k))
  {
    hide Pack, Ix, Sub, InvSub, RoundEntry, B0, B1, B2, B3, Mix, SubColumn, Plus, SBoxesHeld, TableHeld, Xor5, XPower;
    Unpack(c0);
    Unpack(c1);
    Unpack(c2);
    Unpack(c3);
    LookUp(t, c0.b0, 0);
    LookUp(t, c1.b1, 1);
    LookUp(t, c2.b2, 2);
    LookUp(t, c3.b3, 3);
    ForwardColumn(Column(c0.b0, c1.b1, c2.b2, c3.b3), k);
  }

  lemma RtWordIs(t: Tables, k: Column, c0: Column, c1: Column, c2: Column, c3: Column)
    requires t.Valid() && t.rt.Length0 == 4 && t.rt.Length1 == 256
    ensures FtWord(t.rt, Pack(k), Pack(c0), Pack(c1), Pack(c2), Pack(c3))
         == Pack(Plus(InvMix(InvSubColumn(Column(c0.b0, c1.b1, c2.b2, c3.b3))), k))
  {
    hide Pack, Ix, Sub, InvSub, RoundEntry, B0, B1, B2, B3, InvMix, InvSubColumn, Plus, SBoxesHeld, TableHeld, Xor5, XPower;
    Unpack(c0);
    Unpack(c1);
    Unpack(c2);
    Unpack(c3);
    LookUp(t, c0.b0, 0);
    LookUp(t, c1.b1, 1);
    LookUp(t, c2.b2, 2);
    LookUp(t, c3.b3, 3);
    BackwardColumn(Column(c0.b0, c1.b1, c2.b2, c3.b3), k);
  }

  /** Four shifted bytes and a key word. */
  lemma BytesAndKey(k: Column, b0: bv8, b1: bv8, b2: bv8, b3: bv8)
    ensures KeyedBytes(Pack(k), b0, b1, b2, b3) == Pack(Plus(Column(b0, b1, b2, b3), k))
  {
    hide Plus, Pack, Xor2, Xor4, Xor5;
    PackPlus2(Column(b0, b1, b2, b3), k);
    WordIs(b0, b1, b2, b3);
    Reorder(Pack(k), b0 as bv32, (b1 as bv32) << 8, (b2 as bv32) << 16, (b3 as bv32) << 24);
  }

  lemma WordIs(b0: bv8, b1: bv8, b2: bv8, b3: bv8)
    ensures Pack(Column(b0, b1, b2, b3)) == Xor4(b0 as bv32, (b1 as bv32) << 8, (b2 as bv32) << 16, (b3 as bv32) << 24)
  {
    hide Xor4;
  }

  lemma Reorder(k: bv32, a: bv32, b: bv32, c: bv32, d: bv32)
    ensures Xor5(k, a, b, c, d) == Xor2(Xor4(a, b, c, d), k)
  {
    hide Xor2;
    XorAssoc(k, a, b);
    XorAssoc(k, Xor2(a, b), c);
    XorAssoc(k, Xor2(Xor2(a, b), c), d);
    XorComm(k, Xor4(a, b, c, d));
  }

  lemma FsWordIs(t: Tables, k: Column, c0: Column, c1: Column, c2: Column, c3: Column)
    requires t.Valid()
    ensures SbWord(t.fsb, Pack(k), Pack(c0), Pack(c1), Pack(c2), Pack(c3))
         == Pack(Plus(SubColumn(Column(c0.b0, c1.b1, c2.b2, c3.b3)), k))
    ensures SbWord(t.rsb, Pack(k), Pack(c0), Pack(c1), Pack(c2), Pack(c3))
         == Pack(Plus(InvSubColumn(Column(c0.b0, c1.b1, c2.b2, c3.b3)), k))
  {
    hide Pack, Ix, Sub, InvSub, RoundEntry, B0, B1, B2, B3, Plus, SBoxesHeld, TableHeld, KeyedBytes, XPower;
    Unpack(c0);
    Unpack(c1);
    Unpack(c2);
    Unpack(c3);
    LookUp(t, c0.b0, 0);
    LookUp(t, c1.b1, 0);
    LookUp(t, c2.b2, 0);
    LookUp(t, c3.b3, 0);
    BytesAndKey(k, Sub(c0.b0), Sub(c1.b1), Sub(c2.b2), Sub(c3.b3));
    BytesAndKey(k, InvSub(c0.b0), InvSub(c1.b1), InvSub(c2.b2), InvSub(c3.b3));
  }

  lemma KeyWords(buf: array<bv32>, rk: nat, k: State)
    requires StateAt(buf, rk, k)
    ensures rk + 4 <= buf.Length
    ensures buf[rk] == Pack(k.c0) && buf[rk + 1] == Pack(k.c1) && buf[rk + 2] == Pack(k.c2) && buf[rk + 3] == Pack(k.c3)
  {
    hide Pack;
    assert Col(k, 0) == k.c0 && Col(k, 1) == k.c1 && Col(k, 2) == k.c2 && Col(k, 3) == k.c3;
    assert buf[rk + 0] == Pack(Col(k, 0));
  }

  /** AES_FROUND. */
  method FRound(t: Tables, buf: array<bv32>, rk: nat, y: Words, ghost s: State, ghost k: State) returns (x: Words)
    requires t.Valid() && StateAt(buf, rk, k) && y == PackState(s)
    ensures x == PackState(AddKey(MixColumns(ShiftRows(SubBytes(s))), k))
  {
    hide Pack, FtWord, Plus, Mix, StateAt, SBoxesHeld, TableHeld, XPower, Sub;
    KeyWords(buf, rk, k);
    TableSize(t);
    FtWordIs(t, k.c0, s.c0, s.c1, s.c2, s.c3);
    FtWordIs(t, k.c1, s.c1, s.c2, s.c3, s.c0);
    FtWordIs(t, k.c2, s.c2, s.c3, s.c0, s.c1);
    FtWordIs(t, k.c3, s.c3, s.c0, s.c1, s.c2);
    x := Words(FtWord(t.ft, buf[rk], y.w0, y.w1, y.w2, y.w3), FtWord(t.ft, buf[rk + 1], y.w1, y.w2, y.w3, y.w0),
               FtWord(t.ft, buf[rk + 2], y.w2, y.w3, y.w0, y.w1), FtWord(t.ft, buf[rk + 3], y.w3, y.w0, y.w1, y.w2));
  }

  /** AES_RROUND. */
  method RRound(t: Tables, buf: array<bv32>, rk: nat, y: Words, ghost s: State, ghost k: State) returns (x: Words)
    requires t.Valid() && StateAt(buf, rk, k) && y == PackState(s)
    ensures x == PackState(AddKey(InvMixColumns(InvShiftRows(InvSubBytes(s))), k))
  {
    hide Pack, FtWord, Plus, InvMix, StateAt, SBoxesHeld, TableHeld, XPower, InvSub;
    KeyWords(buf, rk, k);
    TableSize(t);
    RtWordIs(t, k.c0, s.c0, s.c3, s.c2, s.c1);
    RtWordIs(t, k.c1, s.c1, s.c0, s.c3, s.c2);
    RtWordIs(t, k.c2, s.c2, s.c1, s.c0, s.c3);
    RtWordIs(t, k.c3, s.c3, s.c2, s.c1, s.c0);
    x := Words(FtWord(t.rt, buf[rk], y.w0, y.w3, y.w2, y.w1), FtWord(t.rt, buf[rk + 1], y.w1, y.w0, y.w3, y.w2),
               FtWord(t.rt, buf[rk + 2], y.w2, y.w1, y.w0, y.w3), FtWord(t.rt, buf[rk + 3], y.w3, y.w2, y.w1, y.w0));
  }

  method LastF(t: Tables, buf: array<bv32>, rk: nat, y: Words, ghost s: State, ghost k: State) returns (x: Words)
    requires t.Valid() && StateAt(buf, rk, k) && y == PackState(s)
    ensures x == PackState(AddKey(ShiftRows(SubBytes(s)), k))
  {
    hide Pack, SbWord, Plus, StateAt, SBoxesHeld, TableHeld, XPower, Sub;
    KeyWords(buf, rk, k);
    FsWordIs(t, k.c0, s.c0, s.c1, s.c2, s.c3);
    FsWordIs(t, k.c1, s.c1, s.c2, s.c3, s.c0);
    FsWordIs(t, k.c2, s.c2, s.c3, s.c0, s.c1);
    FsWordIs(t, k.c3, s.c3, s.c0, s.c1, s.c2);
    x := Words(SbWord(t.fsb, buf[rk], y.w0, y.w1, y.w2, y.w3), SbWord(t.fsb, buf[rk + 1], y.w1, y.w2, y.w3, y.w0),
               SbWord(t.fsb, buf[rk + 2], y.w2, y.w3, y.w0, y.w1), SbWord(t.fsb, buf[rk + 3], y.w3, y.w0, y.w1, y.w2));
  }

  method LastR(t: Tables, buf: array<bv32>, rk: nat, y: Words, ghost s: State, ghost k: State) returns (x: Words)
    requires t.Valid() && StateAt(buf, rk, k) && y == PackState(s)
    ensures x == PackState(AddKey(InvShiftRows(InvSubBytes(s)), k))
  {
    hide Pack, SbWord, Plus, StateAt, SBoxesHeld, TableHeld, XPower, InvSub;
    KeyWords(buf, rk, k);
    FsWordIs(t, k.c0, s.c0, s.c3, s.c2, s.c1);
    FsWordIs(t, k.c1, s.c1, s.c0, s.c3, s.c2);
    FsWordIs(t, k.c2, s.c2, s.c1, s.c0, s.c3);
    FsWordIs(t, k.c3, s.c3, s.c2, s.c1, s.c0);
    x := Words(SbWord(t.rsb, buf[rk], y.w0, y.w3, y.w2, y.w1), SbWord(t.rsb, buf[rk + 1], y.w1, y.w0, y.w3, y.w2),
               SbWord(t.rsb, buf[rk + 2], y.w2, y.w1, y.w0, y.w3), SbWord(t.rsb, buf[rk + 3], y.w3, y.w2, y.w1, y.w0));
  }

  lemma KeyHeld(buf: array<bv32>, keys: seq<State>, n: nat)
    requires n < |keys| && KeysHeld(buf, keys, |keys|)
    ensures StateAt(buf, 4 * n, keys[n])
  {
  }

  method NextF(t: Tables, ctx: Context, n: nat, y: Words, ghost s: State, ghost keys: seq<State>) returns (x: Words)
    requires t.Valid() && KeysHeld(ctx.buf, keys, |keys|) && n + 1 < |keys| && y == PackState(Rounds(keys, s, n))
    ensures x == PackState(Rounds(keys, s, n + 1))
  {
    hide PackState, AddKey, MixColumns, ShiftRows, SubBytes, InvMixColumns, InvShiftRows, InvSubBytes, KeysHeld, StateAt;
    hide SBoxesHeld, TableHeld, XPower;
    KeyHeld(ctx.buf, keys, n + 1);
    x := FRound(t, ctx.buf, 4 * (n + 1), y, Rounds(keys, s, n), keys[n + 1]);
  }

  /** The rounds of encryption, two per pass. The key pointer is at word 4(n + 1) after n rounds. */
  method EncryptWords(t: Tables, ctx: Context, x0: Words, ghost s: State, ghost keys: seq<State>) returns (x: Words)
    requires t.Valid() && |keys| == ctx.nr + 1 && ctx.nr >= 2 && ctx.nr % 2 == 0 && KeysHeld(ctx.buf, keys, |keys|)
    requires x0 == PackState(AddKey(s, keys[0]))
    ensures x == PackState(Cipher(keys, s))
  {
    hide PackState, AddKey, ShiftRows, SubBytes, InvShiftRows, InvSubBytes, MixColumns, InvMixColumns, KeysHeld, StateAt;
    hide SBoxesHeld, TableHeld, XPower;
    x := x0;
    var n: nat := 0;
    var i := ctx.nr / 2 - 1;
    while i > 0
      invariant 0 <= i && n + 2 * i == ctx.nr - 2
      invariant x == PackState(Rounds(keys, s, n))
    {
      var y := NextF(t, ctx, n, x, s, keys);
      x := NextF(t, ctx, n + 1, y, s, keys);
      n, i := n + 2, i - 1;
    }
    var y := NextF(t, ctx, n, x, s, keys);
    KeyHeld(ctx.buf, keys, n + 2);
    x := LastF(t, ctx.buf, 4 * (n + 2), y, Rounds(keys, s, n + 1), keys[n + 2]);
  }

  method NextR(t: Tables, ctx: Context, n: nat, y: Words, ghost s: State, ghost keys: seq<State>) returns (x: Words)
    requires t.Valid() && KeysHeld(ctx.buf, keys, |keys|) && n + 1 < |keys| && y == PackState(EqInvRounds(keys, s, n))
    ensures x == PackState(EqInvRounds(keys, s, n + 1))
  {
    hide PackState, AddKey, MixColumns, ShiftRows, SubBytes, InvMixColumns, InvShiftRows, InvSubBytes, KeysHeld, StateAt;
    hide SBoxesHeld, TableHeld, XPower;
    KeyHeld(ctx.buf, keys, n + 1);
    x := RRound(t, ctx.buf, 4 * (n + 1), y, EqInvRounds(keys, s, n), keys[n + 1]);
  }

  /** The rounds of decryption. */
  method DecryptWords(t: Tables, ctx: Context, x0: Words, ghost s: State, ghost keys: seq<State>) returns (x: Words)
    requires t.Valid() && |keys| == ctx.nr + 1 && ctx.nr >= 2 && ctx.nr % 2 == 0 && KeysHeld(ctx.buf, keys, |keys|)
    requires x0 == PackState(AddKey(s, keys[0]))
    ensures x == PackState(EqInvCipher(keys, s))
  {
    hide PackState, AddKey, ShiftRows, SubBytes, InvShiftRows, InvSubBytes, MixColumns, InvMixColumns, KeysHeld, StateAt;
    hide SBoxesHeld, TableHeld, XPower;
    x := x0;
    var n: nat := 0;
    var i := ctx.nr / 2 - 1;
    while i > 0
      invariant 0 <= i && n + 2 * i == ctx.nr - 2
      invariant x == PackState(EqInvRounds(keys, s, n))
    {
      var y := NextR(t, ctx, n, x, s, keys);
      x := NextR(t, ctx, n + 1, y, s, keys);
      n, i := n + 2, i - 1;
    }
    var y := NextR(t, ctx, n, x, s, keys);
    KeyHeld(ctx.buf, keys, n + 2);
    x := LastR(t, ctx.buf, 4 * (n + 2), y, EqInvRounds(keys, s, n + 1), keys[n + 2]);
  }

  /** What one call does to a block. */
  ghost function Crypt(keys: seq<State>, decrypt: bool, b: seq<bv8>): (r: seq<bv8>)
    requires |keys| >= 2 && |b| == 16
    ensures |r| == 16
  {
    BytesOf(if decrypt then EqInvCipher(keys, StateOf(b)) else Cipher(keys, StateOf(b)))
  }

  lemma KeyedColumn(c: Column, k: Column, w: bv32, kw: bv32)
    requires w == Pack(c) && kw == Pack(k)
    ensures Xor2(w, kw) == Pack(Plus(c, k))
  {
    hide Pack, Plus;
    PackPlus(c, k);
  }

  method LoadWord(b: seq<bv8>, i: nat, key: bv32, ghost c: Column, ghost k: Column) returns (x: bv32)
    requires i + 4 <= |b| && c == Column(b[i], b[i + 1], b[i + 2], b[i + 3]) && key == Pack(k)
    ensures x == Pack(Plus(c, k))
  {
    hide Pack, Plus, Xor2;
    KeyedColumn(c, k, GetWord(b, i), key);
    x := Xor2(GetWord(b, i), key);
  }

  /** The first words of a call: input and first round key. */
  method LoadWords(buf: array<bv32>, b: seq<bv8>, ghost k: State) returns (x: Words)
    requires |b| == 16 && StateAt(buf, 0, k)
    ensures x == PackState(AddKey(StateOf(b), k))
  {
    hide Pack, Plus, StateAt;
    KeyWords(buf, 0, k);
    ghost var s := StateOf(b);
    var x0 := LoadWord(b, 0, buf[0], s.c0, k.c0);
    var x1 := LoadWord(b, 4, buf[1], s.c1, k.c1);
    var x2 := LoadWord(b, 8, buf[2], s.c2, k.c2);
    var x3 := LoadWord(b, 12, buf[3], s.c3, k.c3);
    x := Words(x0, x1, x2, x3);
  }

  /** PUT_UINT32_LE. */
  function WordBytes(w: bv32): (b: seq<bv8>)
    ensures |b| == 4
  {
    [B0(w), B1(w), B2(w), B3(w)]
  }

  lemma WordBytesOf(s: State)
    ensures WordBytes(Pack(s.c0)) + WordBytes(Pack(s.c1)) + WordBytes(Pack(s.c2)) + WordBytes(Pack(s.c3)) == BytesOf(s)
  {
    hide Pack, B0, B1, B2, B3;
    Unpack(s.c0);
    Unpack(s.c1);
    Unpack(s.c2);
    Unpack(s.c3);
  }

  method StoreBytes(output: array<bv8>, op: nat, b: seq<bv8>)
    requires |b| == 16 && op + 16 <= output.Length
    modifies output
    ensures output[..] == old(output[..op]) + b + old(output[op + 16..])
  {
    for i := 0 to 16
      invariant output[..] == old(output[..op]) + b[..i] + old(output[op + i..])
    {
      output[op + i] := b[i];
    }
  }

  /**
   aes_crypt_ecb: 16 bytes through the cipher or the equivalent inverse cipher with the keys that the
   context holds. Input and output may be the same memory.
   */
  method CryptEcb(t: Tables, ctx: Context, decrypt: bool, input: array<bv8>, ip: nat, output: array<bv8>, op: nat,
                  ghost keys: seq<State>)
    requires t.Valid() && |keys| == ctx.nr + 1 && ctx.nr >= 2 && ctx.nr % 2 == 0 && KeysHeld(ctx.buf, keys, |keys|)
    requires ip + 16 <= input.Length && op + 16 <= output.Length
    modifies output
    ensures output[..] == old(output[..op]) + Crypt(keys, decrypt, old(input[ip..ip + 16])) + old(output[op + 16..])
  {
    hide Pack, AddKey, Cipher, EqInvCipher, StateAt, BytesOf, StateOf, SBoxesHeld, TableHeld, XPower;
    var b := input[ip..ip + 16];
    KeyHeld(ctx.buf, keys, 0);
    var x := LoadWords(ctx.buf, b, keys[0]);
    if decrypt {
      x := DecryptWords(t, ctx, x, StateOf(b), keys);
      WordBytesOf(EqInvCipher(keys, StateOf(b)));
    } else {
      x := EncryptWords(t, ctx, x, StateOf(b), keys);
      WordBytesOf(Cipher(keys, StateOf(b)));
    }
    StoreBytes(output, op, WordBytes(x.w0) + WordBytes(x.w1) + WordBytes(x.w2) + WordBytes(x.w3));
  }

  /** For every key of 128, 192 or 256 bits and every block, decryption gives the block back. */
  lemma DecryptInvertsEncrypt(key: seq<bv8>, b: seq<bv8>)
    requires KeyOk(key) && |b| == 16
    ensures Crypt(InverseKeys(RoundKeys(key)), true, Crypt(RoundKeys(key), false, b)) == b
  {
    hide Cipher, EqInvCipher, InvCipher, BytesOf, StateOf, RoundKeys, InverseKeys;
    var keys := RoundKeys(key);
    EqInvCipherAgrees(keys, Cipher(keys, StateOf(b)));
    InvCipherInverts(keys, StateOf(b));
    BytesOfState(b);
  }
}
