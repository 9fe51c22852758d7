/** The key schedules of src/aes.c against section 5.2 and 5.3.5 of FIPS 197. */
module AesKeys {
  import opened AesField
  import opened AesSpec
  import opened AesTables
  import opened AesRounds

  const INVALID_KEY_LENGTH: int := -0x0020

  predicate KeyOk(key: seq<bv8>) { |key| in {16, 24, 32} }

  function Rcon(j: nat): Column
    requires j > 0
  {
    Column(XPower(j - 1), 0, 0, 0)
  }

  /** Word `i` of KeyExpansion. */
  ghost function KeyWord(key: seq<bv8>, i: nat): Column
    requires KeyOk(key)
  {
    var nk := |key| / 4;
    if i < nk then Column(key[4 * i], key[4 * i + 1], key[4 * i + 2], key[4 * i + 3])
    else
      var temp := KeyWord(key, i - 1);
      Plus(KeyWord(key, i - nk),
           if i % nk == 0 then Plus(SubColumn(Rot(temp)), Rcon(i / nk))
           else if nk > 6 && i % nk == 4 then SubColumn(temp)
           else temp)
  }

  function RoundsFor(key: seq<bv8>): nat { |key| / 4 + 6 }

  /** The round keys of KeyExpansion, four words each. */
  ghost function RoundKeys(key: seq<bv8>): (r: seq<State>)
    requires KeyOk(key)
    ensures |r| == RoundsFor(key) + 1 == if |key| == 16 then 11 else if |key| == 24 then 13 else 15
  {
    seq(RoundsFor(key) + 1, n requires 0 <= n =>
      State(KeyWord(key, 4 * n), KeyWord(key, 4 * n + 1), KeyWord(key, 4 * n + 2), KeyWord(key, 4 * n + 3)))
  }

  class Context {
    var nr: int
    const buf: array<bv32>

    constructor ()
      ensures fresh(buf) && buf.Length == 68
    {
      nr := 0;
      buf := new bv32[68];
    }
  }

  /** The first `n` words of the schedule are in the buffer. */
  ghost predicate Scheduled(buf: array<bv32>, key: seq<bv8>, n: nat)
    requires KeyOk(key)
    reads buf
  {
    n <= buf.Length && forall k: nat :: k < n ==> buf[k] == Pack(KeyWord(key, k))
  }

  /** SubWord(RotWord(w)) as the program looks it up. */
  function SubRot(fsb: array<bv8>, w: bv32): bv32
    requires fsb.Length == 256
    reads fsb
  {
    Word(fsb[Ix(B1(w))], fsb[Ix(B2(w))], fsb[Ix(B3(w))], fsb[Ix(B0(w))])
  }

  function SubWord(fsb: array<bv8>, w: bv32): bv32
    requires fsb.Length == 256
    reads fsb
  {
    Word(fsb[Ix(B0(w))], fsb[Ix(B1(w))], fsb[Ix(B2(w))], fsb[Ix(B3(w))])
  }

  lemma SubWordIs(fsb: array<bv8>, rsb: array<bv8>, c: Column)
    requires SBoxesHeld(fsb, rsb)
    ensures SubWord(fsb, Pack(c)) == Pack(SubColumn(c)) && SubRot(fsb, Pack(c)) == Pack(SubColumn(Rot(c)))
  {
    hide Word, Sub, InvSub, Ix, B0, B1, B2, B3;
    Unpack(c);
  }

  lemma RconIs(j: nat)
    requires j > 0
    ensures XPower(j - 1) as bv32 == Pack(Rcon(j))
  {
    hide XPower;
  }

  lemma Xor3(a: bv32, b: bv32, c: bv32)
    ensures a ^ b ^ c == a ^ (c ^ b)
  {
  }

  /** Group `r` of nk words begins at `p`. */
  predicate Group(nk: nat, r: nat, p: nat) {
    (nk == 4 && p == 4 * r) || (nk == 6 && p == 6 * r) || (nk == 8 && p == 8 * r)
  }

  lemma GroupIndex(nk: nat, r: nat, p: nat, c: nat)
    requires Group(nk, r, p) && c < nk
    ensures (p + nk + c) % nk == c && (p + nk) / nk == r + 1
  {
    if nk == 4 { Index4(r, c); } else if nk == 6 { Index6(r, c); } else { Index8(r, c); }
  }

  lemma Index4(r: nat, c: nat)
    requires c < 4
    ensures (4 * r + 4 + c) % 4 == c && (4 * r + 4) / 4 == r + 1
  {
  }

  lemma Index6(r: nat, c: nat)
    requires c < 6
    ensures (6 * r + 6 + c) % 6 == c && (6 * r + 6) / 6 == r + 1
  {
  }

  lemma Index8(r: nat, c: nat)
    requires c < 8
    ensures (8 * r + 8 + c) % 8 == c && (8 * r + 8) / 8 == r + 1
  {
  }

  /** The word that opens a group of nk words. */
  lemma GroupStart(t: Tables, buf: array<bv32>, key: seq<bv8>, nk: nat, r: nat, p: nat)
    requires t.Valid()
    requires KeyOk(key) && nk == |key| / 4 && Group(nk, r, p) && r < 10 && Scheduled(buf, key, p + nk)
    ensures buf[p] ^ t.rcon[r] ^ SubRot(t.fsb, buf[p + nk - 1]) == Pack(KeyWord(key, p + nk))
  {
    hide Pack, SubRot, XPower, SBoxesHeld, Plus, SubColumn, TableHeld;
    GroupIndex(nk, r, p, 0);
    var temp := KeyWord(key, p + nk - 1);
    SubWordIs(t.fsb, t.rsb, temp);
    RconIs(r + 1);
    PackPlus(SubColumn(Rot(temp)), Rcon(r + 1));
    PackPlus(KeyWord(key, p), Plus(SubColumn(Rot(temp)), Rcon(r + 1)));
    Xor3(buf[p], t.rcon[r], SubRot(t.fsb, buf[p + nk - 1]));
  }

  /** Any other word, except the middle one of a 256-bit key. */
  lemma GroupNext(buf: array<bv32>, key: seq<bv8>, nk: nat, r: nat, p: nat, c: nat)
    requires KeyOk(key) && nk == |key| / 4 && Group(nk, r, p) && 0 < c < nk && !(nk == 8 && c == 4)
    requires Scheduled(buf, key, p + nk + c)
    ensures buf[p + c] ^ buf[p + nk + c - 1] == Pack(KeyWord(key, p + nk + c))
  {
    hide Pack, Plus;
    GroupIndex(nk, r, p, c);
    PackPlus(KeyWord(key, p + c), KeyWord(key, p + nk + c - 1));
  }

  lemma GroupMiddle(t: Tables, buf: array<bv32>, key: seq<bv8>, r: nat, p: nat)
    requires t.Valid()
    requires |key| == 32 && Group(8, r, p) && Scheduled(buf, key, p + 12)
    ensures buf[p + 4] ^ SubWord(t.fsb, buf[p + 11]) == Pack(KeyWord(key, p + 12))
  {
    hide Pack, Plus, SubColumn, SubWord, SBoxesHeld, TableHeld;
    GroupIndex(8, r, p, 4);
    SubWordIs(t.fsb, t.rsb, KeyWord(key, p + 11));
    PackPlus(KeyWord(key, p + 4), SubColumn(KeyWord(key, p + 11)));
  }

  /** Appending one right word. */
  method PutKeyWord(buf: array<bv32>, ghost key: seq<bv8>, k: nat, w: bv32)
    requires KeyOk(key) && Scheduled(buf, key, k) && k < buf.Length && w == Pack(KeyWord(key, k))
    modifies buf
    ensures Scheduled(buf, key, k + 1)
  {
    hide Pack, KeyWord;
    buf[k] := w;
  }

  method PutNext(buf: array<bv32>, ghost key: seq<bv8>, nk: nat, ghost r: nat, p: nat, c: nat)
    requires KeyOk(key) && nk == |key| / 4 && Group(nk, r, p) && 0 < c < nk && !(nk == 8 && c == 4)
    requires Scheduled(buf, key, p + nk + c) && p + nk + c < buf.Length
    modifies buf
    ensures Scheduled(buf, key, p + nk + c + 1)
  {
    hide Pack, KeyWord;
    GroupNext(buf, key, nk, r, p, c);
    PutKeyWord(buf, key, p + nk + c, buf[p + c] ^ buf[p + nk + c - 1]);
  }

  method PutFirst(t: Tables, buf: array<bv32>, ghost key: seq<bv8>, nk: nat, r: nat, p: nat)
    requires t.Valid()
    requires KeyOk(key) && nk == |key| / 4 && Group(nk, r, p) && r < 10
    requires Scheduled(buf, key, p + nk) && p + nk < buf.Length
    modifies buf
    ensures Scheduled(buf, key, p + nk + 1)
  {
    hide Pack, KeyWord, SubRot, SBoxesHeld, TableHeld, XPower;
    GroupStart(t, buf, key, nk, r, p);
    PutKeyWord(buf, key, p + nk, buf[p] ^ t.rcon[r] ^ SubRot(t.fsb, buf[p + nk - 1]));
  }

  /** GET_UINT32_LE. */
  function GetWord(b: seq<bv8>, i: nat): bv32
    requires i + 4 <= |b|
  {
    Pack(Column(b[i], b[i + 1], b[i + 2], b[i + 3]))
  }

  method PutMiddle(t: Tables, buf: array<bv32>, ghost key: seq<bv8>, ghost r: nat, p: nat)
    requires t.Valid() && |key| == 32 && Group(8, r, p) && Scheduled(buf, key, p + 12) && p + 12 < buf.Length
    modifies buf
    ensures Scheduled(buf, key, p + 13)
  {
    hide Pack, KeyWord, SubWord, SBoxesHeld, TableHeld, XPower;
    GroupMiddle(t, buf, key, r, p);
    PutKeyWord(buf, key, p + 12, buf[p + 4] ^ SubWord(t.fsb, buf[p + 11]));
  }

  method Expand128(t: Tables, buf: array<bv32>, ghost key: seq<bv8>)
    requires t.Valid() && buf.Length == 68 && |key| == 16 && buf != t.rcon && Scheduled(buf, key, 4)
    modifies buf
    ensures Scheduled(buf, key, 44)
  {
    hide KeyWord, SBoxesHeld, TableHeld, XPower, Scheduled;
    for i := 0 to 10
      invariant t.Valid() && Scheduled(buf, key, 4 * i + 4)
    {
      var p := 4 * i;
      PutFirst(t, buf, key, 4, i, p);
      PutNext(buf, key, 4, i, p, 1);
      PutNext(buf, key, 4, i, p, 2);
      PutNext(buf, key, 4, i, p, 3);
    }
  }

  method Expand192(t: Tables, buf: array<bv32>, ghost key: seq<bv8>)
    requires t.Valid() && buf.Length == 68 && |key| == 24 && buf != t.rcon && Scheduled(buf, key, 6)
    modifies buf
    ensures Scheduled(buf, key, 54)
  {
    hide KeyWord, SBoxesHeld, TableHeld, XPower, Scheduled;
    for i := 0 to 8
      invariant t.Valid() && Scheduled(buf, key, 6 * i + 6)
    {
      var p := 6 * i;
      PutFirst(t, buf, key, 6, i, p);
      PutNext(buf, key, 6, i, p, 1);
      PutNext(buf, key, 6, i, p, 2);
      PutNext(buf, key, 6, i, p, 3);
      PutNext(buf, key, 6, i, p, 4);
      PutNext(buf, key, 6, i, p, 5);
    }
  }

  method Expand256(t: Tables, buf: array<bv32>, ghost key: seq<bv8>)
    requires t.Valid() && buf.Length == 68 && |key| == 32 && buf != t.rcon && Scheduled(buf, key, 8)
    modifies buf
    ensures Scheduled(buf, key, 64)
  {
    hide KeyWord, SBoxesHeld, TableHeld, XPower, Scheduled;
    for i := 0 to 7
      invariant t.Valid() && Scheduled(buf, key, 8 * i + 8)
    {
      var p := 8 * i;
      PutFirst(t, buf, key, 8, i, p);
      PutNext(buf, key, 8, i, p, 1);
      PutNext(buf, key, 8, i, p, 2);
      PutNext(buf, key, 8, i, p, 3);
      PutMiddle(t, buf, key, i, p);
      PutNext(buf, key, 8, i, p, 5);
      PutNext(buf, key, 8, i, p, 6);
      PutNext(buf, key, 8, i, p, 7);
    }
  }

  predicate SizeOk(keysize: int) { keysize in {128, 192, 256} }

  /**
   aes_setkey_enc: the buffer holds the words of KeyExpansion, in order; a key of another size is
   refused and changes nothing.
   */
  method SetKeyEnc(t: Tables, ctx: Context, key: seq<bv8>, keysize: int) returns (ret: int)
    requires t.Valid() && ctx.buf.Length == 68 && ctx.buf != t.rcon
    requires SizeOk(keysize) ==> |key| == keysize / 8
    modifies ctx, ctx.buf
    ensures t.Valid()
    ensures !SizeOk(keysize) ==> ret == INVALID_KEY_LENGTH && ctx.nr == old(ctx.nr) && ctx.buf[..] == old(ctx.buf[..])
    ensures SizeOk(keysize) ==> ret == 0 && ctx.nr == RoundsFor(key) && Scheduled(ctx.buf, key, 4 * (RoundsFor(key) + 1))
    ensures SizeOk(keysize) ==> ctx.nr == match keysize case 128 => 10 case 192 => 12 case _ => 14
  {
    hide KeyWord, SBoxesHeld, TableHeld, XPower, Pack;
    match keysize {
      case 128 => ctx.nr := 10;
      case 192 => ctx.nr := 12;
      case 256 => ctx.nr := 14;
      case _ => return INVALID_KEY_LENGTH;
    }
    var nk := keysize / 32;
    for i := 0 to nk
      invariant t.Valid() && Scheduled(ctx.buf, key, i) && ctx.nr == RoundsFor(key)
    {
      assert KeyWord(key, i) == Column(key[4 * i], key[4 * i + 1], key[4 * i + 2], key[4 * i + 3]) by { KeyItself(key, i); }
      PutKeyWord(ctx.buf, key, i, GetWord(key, 4 * i));
    }
    match ctx.nr {
      case 10 => Expand128(t, ctx.buf, key);
      case 12 => Expand192(t, ctx.buf, key);
      case 14 => Expand256(t, ctx.buf, key);
      case _ =>
    }
    ret := 0;
  }

  lemma KeyItself(key: seq<bv8>, i: nat)
    requires KeyOk(key) && i < |key| / 4
    ensures KeyWord(key, i) == Column(key[4 * i], key[4 * i + 1], key[4 * i + 2], key[4 * i + 3])
  {
  }

  // ---------------------------------------------------------------- the schedule for decryption

  /** Word `j` of a state. */
  function Col(s: State, j: nat): Column
    requires j < 4
  {
    if j == 0 then s.c0 else if j == 1 then s.c1 else if j == 2 then s.c2 else s.c3
  }

  /** The four words of a state, at `p`. */
  ghost predicate StateAt(buf: array<bv32>, p: nat, s: State)
    reads buf
  {
    p + 4 <= buf.Length && forall j: nat :: j < 4 ==> buf[p + j] == Pack(Col(s, j))
  }

  /** The first `n` round keys, one after the other. */
  ghost predicate KeysHeld(buf: array<bv32>, keys: seq<State>, n: nat)
    reads buf
  {
    n <= |keys| && forall r: nat :: r < n ==> StateAt(buf, 4 * r, keys[r])
  }

  lemma ScheduleHeld(buf: array<bv32>, key: seq<bv8>)
    requires KeyOk(key) && Scheduled(buf, key, 4 * (RoundsFor(key) + 1))
    ensures KeysHeld(buf, RoundKeys(key), RoundsFor(key) + 1)
  {
    hide Pack, KeyWord;
    var keys := RoundKeys(key);
    forall r: nat, j: nat | r < |keys| && j < 4 ensures buf[4 * r + j] == Pack(Col(keys[r], j)) {
      assert 4 * r + j < 4 * (RoundsFor(key) + 1);
    }
  }

  /** RT0[FSb[·]] ^ … ^ RT3[FSb[·]] on the bytes of a word. */
  function MixBack(fsb: array<bv8>, rt: array2<bv32>, w: bv32): bv32
    requires fsb.Length == 256 && rt.Length0 == 4 && rt.Length1 == 256
    reads fsb, rt
  {
    Xor4(rt[0, Ix(fsb[Ix(B0(w))])], rt[1, Ix(fsb[Ix(B1(w))])], rt[2, Ix(fsb[Ix(B2(w))])], rt[3, Ix(fsb[Ix(B3(w))])])
  }

  lemma MixBackIs(t: Tables, c: Column)
    requires t.Valid() && t.rt.Length0 == 4 && t.rt.Length1 == 256
    ensures MixBack(t.fsb, t.rt, Pack(c)) == Pack(InvMix(c))
  {
    hide Pack, InvMix, Ix, Sub, InvSub, RoundEntry, XPower, B0, B1, B2, B3, SBoxesHeld, TableHeld, Xor4;
    Unpack(c);
    LookUp(t, c.b0, 0);
    LookUp(t, c.b1, 0);
    LookUp(t, c.b2, 0);
    LookUp(t, c.b3, 0);
    LookUp(t, Sub(c.b0), 0);
    LookUp(t, Sub(c.b1), 1);
    LookUp(t, Sub(c.b2), 2);
    LookUp(t, Sub(c.b3), 3);
    BackwardOfSubs(c);
  }

  method MixGroup(t: Tables, dst: array<bv32>, rk: nat, src: array<bv32>, sk: nat, ghost s: State)
    requires t.Valid() && dst != src && dst != t.rcon && rk + 4 <= dst.Length && StateAt(src, sk, s)
    modifies dst
    ensures t.Valid() && StateAt(dst, rk, State(InvMix(s.c0), InvMix(s.c1), InvMix(s.c2), InvMix(s.c3)))
    ensures forall k :: 0 <= k < dst.Length && !(rk <= k < rk + 4) ==> dst[k] == old(dst[k])
  {
    hide Pack, InvMix, MixBack, SBoxesHeld, TableHeld, XPower;
    TableSize(t);
    for j := 0 to 4
      invariant t.Valid() && StateAt(src, sk, s)
      invariant forall k: nat :: k < j ==> dst[rk + k] == Pack(InvMix(Col(s, k)))
      invariant forall k :: 0 <= k < dst.Length && !(rk <= k < rk + 4) ==> dst[k] == old(dst[k])
    {
      MixBackIs(t, Col(s, j));
      dst[rk + j] := MixBack(t.fsb, t.rt, src[sk + j]);
    }
    ghost var m := State(InvMix(s.c0), InvMix(s.c1), InvMix(s.c2), InvMix(s.c3));
    assert forall j: nat :: j < 4 ==> Col(m, j) == InvMix(Col(s, j));
  }

  method CopyGroup(dst: array<bv32>, rk: nat, src: array<bv32>, sk: nat, ghost s: State)
    requires dst != src && rk + 4 <= dst.Length && StateAt(src, sk, s)
    modifies dst
    ensures StateAt(dst, rk, s)
    ensures forall k :: 0 <= k < dst.Length && !(rk <= k < rk + 4) ==> dst[k] == old(dst[k])
  {
    hide Pack;
    for j := 0 to 4
      invariant StateAt(src, sk, s)
      invariant forall k: nat :: k < j ==> dst[rk + k] == Pack(Col(s, k))
      invariant forall k :: 0 <= k < dst.Length && !(rk <= k < rk + 4) ==> dst[k] == old(dst[k])
    {
      dst[rk + j] := src[sk + j];
    }
  }

  /** One more group of four words after those that are there. */
  lemma OneMoreKey(before: seq<bv32>, buf: array<bv32>, keys: seq<State>, n: nat)
    requires n < |keys| && |before| == buf.Length && StateAt(buf, 4 * n, keys[n])
    requires forall r: nat :: r < n ==> 4 * r + 4 <= |before| && forall j: nat :: j < 4 ==> before[4 * r + j] == Pack(Col(keys[r], j))
    requires forall k :: 0 <= k < buf.Length && !(4 * n <= k < 4 * n + 4) ==> buf[k] == before[k]
    ensures KeysHeld(buf, keys, n + 1)
  {
    hide Pack, Col;
    forall r: nat | r < n + 1 ensures StateAt(buf, 4 * r, keys[r]) {
      if r < n {
        forall j: nat | j < 4 ensures buf[4 * r + j] == Pack(Col(keys[r], j)) { assert buf[4 * r + j] == before[4 * r + j]; }
      }
    }
  }

  /** aes_setkey_dec: the buffer holds the keys of the equivalent inverse cipher in the order it uses them. */
  method SetKeyDec(t: Tables, ctx: Context, key: seq<bv8>, keysize: int) returns (ret: int)
    requires t.Valid() && ctx.buf.Length == 68 && ctx.buf != t.rcon
    requires SizeOk(keysize) ==> |key| == keysize / 8
    modifies ctx, ctx.buf
    ensures t.Valid()
    ensures !SizeOk(keysize) ==> ret == INVALID_KEY_LENGTH && ctx.nr == old(ctx.nr) && ctx.buf[..] == old(ctx.buf[..])
    ensures SizeOk(keysize) ==>
      ret == 0 && ctx.nr == RoundsFor(key) && KeysHeld(ctx.buf, InverseKeys(RoundKeys(key)), ctx.nr + 1)
    ensures SizeOk(keysize) ==> ctx.nr == match keysize case 128 => 10 case 192 => 12 case _ => 14
  {
    hide KeyWord, SBoxesHeld, TableHeld, XPower, Pack, StateAt, KeysHeld, Scheduled, InvMix;
    match keysize {
      case 128 => ctx.nr := 10;
      case 192 => ctx.nr := 12;
      case 256 => ctx.nr := 14;
      case _ => return INVALID_KEY_LENGTH;
    }
    var cty := new Context();
    ret := SetKeyEnc(t, cty, key, keysize);
    ScheduleHeld(cty.buf, key);
    ghost var keys := RoundKeys(key);
    ghost var inv := InverseKeys(keys);
    var nr := ctx.nr;
    var rk, sk := 0, nr * 4;
    NoKeys(ctx.buf, inv);
    PutKey(t, ctx.buf, rk, cty.buf, sk, keys, inv, 0, false);
    rk, sk := rk + 4, sk + 4;
    var i := nr - 1;
    sk := sk - 8;
    while i > 0
      invariant ctx.nr == nr && 0 <= i < nr && rk == 4 * (nr - i) && sk == 4 * i
      invariant t.Valid() && KeysHeld(cty.buf, keys, nr + 1) && KeysHeld(ctx.buf, inv, nr - i)
    {
      PutKey(t, ctx.buf, rk, cty.buf, sk, keys, inv, nr - i, true);
      rk, sk := rk + 4, sk + 4;
      i, sk := i - 1, sk - 8;
    }
    PutKey(t, ctx.buf, rk, cty.buf, sk, keys, inv, nr, false);
    cty.nr := 0;
    forall k | 0 <= k < cty.buf.Length { cty.buf[k] := 0; }
  }

  lemma NoKeys(buf: array<bv32>, keys: seq<State>)
    ensures KeysHeld(buf, keys, 0)
  {
  }

  /** The n-th key of the inverse schedule, mixed back or copied from round nr - n of the schedule. */
  method PutKey(t: Tables, dst: array<bv32>, rk: nat, src: array<bv32>, sk: nat, ghost keys: seq<State>, ghost inv: seq<State>,
                ghost n: nat, mixed: bool)
    requires t.Valid() && dst != src && dst != t.rcon && n < |keys| && inv == InverseKeys(keys)
    requires rk == 4 * n && sk == 4 * (|keys| - 1 - n) && rk + 4 <= dst.Length
    requires mixed == (0 < n < |keys| - 1)
    requires KeysHeld(src, keys, |keys|) && KeysHeld(dst, inv, n)
    modifies dst
    ensures t.Valid() && KeysHeld(dst, inv, n + 1)
  {
    hide SBoxesHeld, TableHeld, XPower, Pack, InvMix, Col;
    ghost var before := dst[..];
    ghost var s := keys[|keys| - 1 - n];
    forall r: nat | r < n ensures 4 * r + 4 <= |before| && forall j: nat :: j < 4 ==> before[4 * r + j] == Pack(Col(inv[r], j)) {
      assert StateAt(dst, 4 * r, inv[r]);
    }
    if mixed {
      MixGroup(t, dst, rk, src, sk, s);
    } else {
      CopyGroup(dst, rk, src, sk, s);
    }
    OneMoreKey(before, dst, inv, n);
  }
}
