/** The lookup tables of src/aes.c and the code that fills them. */
module AesTables {
  import opened AesField
  import opened AesSpec

  // ---------------------------------------------------------------- bytes as indices, columns as words

  /** A byte used as an array index. */
  function Ix(b: bv8): (i: int)
    ensures 0 <= i < 256
  {
    b as int
  }

  lemma IxInjective(a: bv8, b: bv8)
    requires Ix(a) == Ix(b)
    ensures a == b
  {
    if a != b { IntsDiffer(a, b); }
  }

  /** The byte with index `i`. */
  function ByteAt(i: int): (b: bv8)
    requires 0 <= i < 256
    ensures Ix(b) == i
  {
    IntRoundTrip(i);
    i as bv8
  }

  lemma IntRoundTrip(i: int)
    requires 0 <= i < 256
    ensures (i as bv8) as int == i
  {
    var b := ByteWith(i);
    AsByte(b);
  }

  lemma {:induction false} ByteWith(i: nat) returns (b: bv8)
    requires i < 256
    ensures b as int == i
  {
    if i == 0 {
      b := 0;
    } else {
      b := ByteWith(i - 1);
      Successor(b);
      b := b + 1;
    }
  }

  lemma Successor(b: bv8)
    requires b as int < 255
    ensures (b + 1) as int == b as int + 1
  {
  }

  /** A column as the 32-bit word that GET_UINT32_LE makes of its bytes. */
  function Pack(c: Column): bv32 { Word(c.b0, c.b1, c.b2, c.b3) }

  function Word(b0: bv8, b1: bv8, b2: bv8, b3: bv8): bv32 {
    Xor4(b0 as bv32, (b1 as bv32) << 8, (b2 as bv32) << 16, (b3 as bv32) << 24)
  }

  function Xor2(a: bv32, b: bv32): bv32 { a ^ b }

  function Xor4(a: bv32, b: bv32, c: bv32, d: bv32): bv32 { Xor2(Xor2(Xor2(a, b), c), d) }

  function B0(w: bv32): bv8 { (w & 0xFF) as bv8 }
  function B1(w: bv32): bv8 { ((w >> 8) & 0xFF) as bv8 }
  function B2(w: bv32): bv8 { ((w >> 16) & 0xFF) as bv8 }
  function B3(w: bv32): bv8 { ((w >> 24) & 0xFF) as bv8 }

  function Rotl8(w: bv32): bv32 { (w << 8) | (w >> 24) }

  lemma Unpack(c: Column)
    ensures B0(Pack(c)) == c.b0 && B1(Pack(c)) == c.b1 && B2(Pack(c)) == c.b2 && B3(Pack(c)) == c.b3
  {
  }

  /** The column with its bytes moved up by one place. */
  function Turn(c: Column): Column { Column(c.b3, c.b0, c.b1, c.b2) }

  lemma PackTurn(c: Column)
    ensures Rotl8(Pack(c)) == Pack(Turn(c))
  {
  }

  lemma PackPlus(c: Column, d: Column)
    ensures Pack(c) ^ Pack(d) == Pack(Plus(c, d))
  {
  }

  // ---------------------------------------------------------------- what the tables hold

  ghost function Ft(b: bv8): Column { var s := Sub(b); Column(Mul(s, 2), s, s, Mul(s, 3)) }
  ghost function Rt(b: bv8): Column { var s := InvSub(b); Column(Mul(s, 14), Mul(s, 9), Mul(s, 13), Mul(s, 11)) }

  /** The n-th power of x. */
  function XPower(n: nat): bv8 {
    if n == 0 then 1 else Xtime(XPower(n - 1))
  }

  ghost predicate PowersHeld(pow: array<bv8>, log: array<int>)
    reads pow, log
  {
    && pow.Length == 256 && log.Length == 256
    && (forall k :: 0 <= k < 256 ==> pow[k] == Power(k))
    && (forall k :: 1 <= k < 256 ==> log[Ix(Power(k))] == k)
  }

  /** The first loop of aes_gen_tables: powers of 3 and, for every non-zero byte, its logarithm in 1 … 255. */
  method PowerTables() returns (pow: array<bv8>, log: array<int>)
    ensures fresh(pow) && fresh(log) && PowersHeld(pow, log)
  {
    hide Power, Triple;
    pow := new bv8[256];
    log := new int[256];
    var x: bv8 := 1;
    assert x == Power(0) by { PowerZero(); }
    for i := 0 to 256
      invariant x == Power(i)
      invariant forall k :: 0 <= k < i ==> pow[k] == Power(k)
      invariant forall k :: 1 <= k < i ==> log[Ix(Power(k))] == k
    {
      forall k | 1 <= k < i ensures Ix(Power(k)) != Ix(Power(i)) { LogsDiffer(k, i); }
      pow[i] := x;
      log[Ix(x)] := i;
      assert Power(i + 1) == Triple(Power(i)) by { PowerStep(i); }
      assert Triple(x) == x ^ Xtime(x) by { TripleIs(x); }
      x := x ^ Xtime(x);
    }
  }

  lemma PowerStep(n: nat)
    ensures Power(n + 1) == Triple(Power(n))
  {
  }

  lemma TripleIs(x: bv8)
    ensures Triple(x) == x ^ Xtime(x)
  {
  }

  lemma LogsDiffer(k: nat, i: nat)
    requires 1 <= k < i < 256
    ensures Ix(Power(k)) != Ix(Power(i))
  {
    hide Power;
    if i == 255 {
      OrderOfThree(k);
      if Ix(Power(k)) == Ix(Power(i)) { IxInjective(Power(k), Power(i)); }
    } else {
      PowersDiffer(k, i);
      if Ix(Power(k)) == Ix(Power(i)) { IxInjective(Power(k), Power(i)); }
    }
  }

  /** The round constants 1, x, …, x^9 in the low byte of each word. */
  method RoundConstants() returns (rcon: array<bv32>)
    ensures fresh(rcon) && rcon.Length == 10
    ensures forall k :: 0 <= k < 10 ==> rcon[k] == XPower(k) as bv32
  {
    hide Xtime;
    rcon := new bv32[10];
    var x: bv8 := 1;
    for i := 0 to 10
      invariant x == XPower(i)
      invariant forall k :: 0 <= k < i ==> rcon[k] == XPower(k) as bv32
    {
      rcon[i] := x as bv32;
      x := Xtime(x);
    }
  }

  lemma LogOf(pow: array<bv8>, log: array<int>, b: bv8)
    requires PowersHeld(pow, log) && b != 0
    ensures var n := log[Ix(b)]; 1 <= n < 256 && Power(n) == b
  {
    hide Power;
    var n := Logarithm(b);
    if n == 0 {
      OrderOfThree(1);
      assert Power(0) == 1 by { PowerZero(); }
      assert log[Ix(Power(255))] == 255;
    } else {
      assert log[Ix(Power(n))] == n;
    }
  }

  lemma InverseFromTables(pow: array<bv8>, log: array<int>, b: bv8)
    requires PowersHeld(pow, log) && b != 0
    ensures var n := log[Ix(b)]; 1 <= n < 256 && pow[255 - n] == Inverse(b)
  {
    hide Power, IsInverse;
    LogOf(pow, log, b);
    var n := log[Ix(b)];
    InverseOfPower(n, pow[255 - n]);
    InverseInvolution(b);
  }

  ghost predicate SBoxesHeld(fsb: array<bv8>, rsb: array<bv8>)
    reads fsb, rsb
  {
    && fsb.Length == 256 && rsb.Length == 256
    && (forall b: bv8 :: fsb[Ix(b)] == Sub(b))
    && (forall b: bv8 :: rsb[Ix(b)] == InvSub(b))
  }

  lemma SubZero()
    ensures Sub(0) == 0x63 && Ix(0) == 0 && Ix(0x63) == 0x63
  {
    hide Mul;
    assert IsInverse(0, Inverse(0));
  }

  lemma OnlyZero(c: bv8)
    requires Ix(c) < 1
    ensures c == 0
  {
    if c != 0 { IxInjective(c, 0); }
  }

  lemma NotZero(b: bv8)
    requires Ix(b) > 0
    ensures b != 0
  {
  }

  lemma Lengths(pow: array<bv8>, log: array<int>)
    requires PowersHeld(pow, log)
    ensures pow.Length == log.Length == 256
  {
  }

  /** The loop body that turns an inverse into an S-box entry, four rotations at a time. */
  method SBoxEntry(inverse: bv8) returns (x: bv8)
    ensures x == Affine(inverse)
  {
    hide Rotl;
    x := inverse;
    var y := x;
    y := Rotl(y);
    x := x ^ y;
    y := Rotl(y);
    x := x ^ y;
    y := Rotl(y);
    x := x ^ y;
    y := Rotl(y);
    x := x ^ (y ^ 0x63);
  }

  lemma SubsDiffer(b: bv8, c: bv8)
    requires Ix(b) != Ix(c)
    ensures Ix(Sub(b)) != Ix(Sub(c))
  {
    hide Sub, InvSub;
    SubInverts(b);
    SubInverts(c);
    if Ix(Sub(b)) == Ix(Sub(c)) { IxInjective(Sub(b), Sub(c)); }
  }

  /** Entries for all bytes below `n` are in both tables. */
  ghost predicate Filled(fsb: array<bv8>, rsb: array<bv8>, n: int)
    requires fsb.Length == rsb.Length == 256
    reads fsb, rsb
  {
    forall b: bv8 :: Ix(b) < n ==> fsb[Ix(b)] == Sub(b) && rsb[Ix(Sub(b))] == b
  }

  lemma FilledFirst(fsb: array<bv8>, rsb: array<bv8>)
    requires fsb.Length == rsb.Length == 256 && fsb[0x00] == 0x63 && rsb[0x63] == 0x00
    ensures Filled(fsb, rsb, 1)
  {
    hide Sub;
    SubZero();
    forall c: bv8 | Ix(c) < 1 ensures c == 0 { OnlyZero(c); }
  }

  /** Writing the entries of `b` leaves those of smaller bytes alone. */
  method FillEntry(fsb: array<bv8>, rsb: array<bv8>, b: bv8, x: bv8)
    requires fsb.Length == rsb.Length == 256 && fsb != rsb && x == Sub(b) && Filled(fsb, rsb, Ix(b))
    modifies fsb, rsb
    ensures Filled(fsb, rsb, Ix(b) + 1)
  {
    hide Ix, Sub;
    forall c: bv8 | Ix(c) < Ix(b) ensures Ix(Sub(c)) != Ix(x) { SubsDiffer(b, c); }
    fsb[Ix(b)] := x;
    rsb[Ix(x)] := b;
    forall c: bv8 | Ix(c) < Ix(b) + 1 ensures fsb[Ix(c)] == Sub(c) && rsb[Ix(Sub(c))] == c {
      if Ix(c) == Ix(b) { IxInjective(b, c); }
    }
  }

  lemma FilledAll(fsb: array<bv8>, rsb: array<bv8>)
    requires fsb.Length == rsb.Length == 256 && Filled(fsb, rsb, 256)
    ensures SBoxesHeld(fsb, rsb)
  {
    hide Ix, Sub, InvSub;
    forall b: bv8 ensures fsb[Ix(b)] == Sub(b) && rsb[Ix(b)] == InvSub(b) {
      assert Ix(b) < 256 && Ix(InvSub(b)) < 256;
      SubInverts(b);
    }
  }

  /** The S-boxes from the power tables; every entry of both is written. */
  method SBoxes(pow: array<bv8>, log: array<int>) returns (fsb: array<bv8>, rsb: array<bv8>)
    requires PowersHeld(pow, log)
    ensures fresh(fsb) && fresh(rsb) && SBoxesHeld(fsb, rsb)
  {
    hide Ix, Sub, Affine, Inverse, PowersHeld, Filled, SBoxesHeld;
    fsb := new bv8[256];
    rsb := new bv8[256];
    fsb[0x00] := 0x63;
    rsb[0x63] := 0x00;
    FilledFirst(fsb, rsb);
    Lengths(pow, log);
    for i := 1 to 256
      invariant PowersHeld(pow, log) && Filled(fsb, rsb, i)
    {
      var b := ByteAt(i);
      NotZero(b);
      InverseFromTables(pow, log, b);
      var x := SBoxEntry(pow[255 - log[i]]);
      assert x == Sub(b) by { SubIs(b); }
      FillEntry(fsb, rsb, b, x);
    }
    FilledAll(fsb, rsb);
  }

  lemma SubIs(b: bv8)
    ensures Sub(b) == Affine(Inverse(b))
  {
  }

  // ---------------------------------------------------------------- the round tables

  /** FT0 … FT3: what a byte contributes to a mixed column from each of the four rows. */
  ghost function Forward(k: nat, b: bv8): Column {
    if k == 0 then Ft(b) else Turn(Forward(k - 1, b))
  }

  /** RT0 … RT3: the same for the inverse. */
  ghost function Backward(k: nat, b: bv8): Column {
    if k == 0 then Rt(b) else Turn(Backward(k - 1, b))
  }

  /** The macro MUL: a product through logarithms. */
  function MulByLogs(pow: array<bv8>, log: array<int>, a: bv8, b: bv8): bv8
    requires PowersHeld(pow, log)
    reads pow, log
  {
    if a != 0 && b != 0 then
      LogOf(pow, log, a);
      LogOf(pow, log, b);
      pow[(log[Ix(a)] + log[Ix(b)]) % 255]
    else 0
  }

  lemma MulByLogsIsMul(pow: array<bv8>, log: array<int>, a: bv8, b: bv8)
    requires PowersHeld(pow, log)
    ensures MulByLogs(pow, log, a, b) == Mul(b, a)
  {
    hide Mul, Power;
    if a != 0 && b != 0 {
      LogOf(pow, log, a);
      LogOf(pow, log, b);
      var n := log[Ix(a)] + log[Ix(b)];
      PowersMultiply(log[Ix(b)], log[Ix(a)]);
      Remainder(n, n % 255, n / 255);
    } else {
      ZeroFactor(a, b);
    }
  }

  lemma ZeroFactor(a: bv8, b: bv8)
    requires a == 0 || b == 0
    ensures Mul(b, a) == 0
  {
    if a != 0 { ZeroTimes(a); }
  }

  lemma {:induction false} ZeroTimes(a: bv8)
    ensures Mul(0, a) == 0
    decreases a
  {
    hide Add, Xtime, Odd, Half;
    Zero(0);
    if a != 0 { ZeroTimes(Half(a)); }
  }

  /** The entry of byte `b` in table FTk or RTk. */
  ghost function RoundEntry(forward: bool, k: nat, b: bv8): bv32 {
    Pack(if forward then Forward(k, b) else Backward(k, b))
  }

  /** The entries for all bytes below `n` are in the four tables of one direction. */
  ghost predicate TableHeld(t: array2<bv32>, forward: bool, n: int)
    reads t
  {
    && t.Length0 == 4 && t.Length1 == 256
    && forall b: bv8, k: nat :: k < 4 && Ix(b) < n ==> t[k, Ix(b)] == RoundEntry(forward, k, b)
  }

  method SetEntries(t: array2<bv32>, forward: bool, b: bv8, e0: bv32, e1: bv32, e2: bv32, e3: bv32)
    requires TableHeld(t, forward, Ix(b))
    requires e0 == RoundEntry(forward, 0, b) && e1 == RoundEntry(forward, 1, b) && e2 == RoundEntry(forward, 2, b) && e3 == RoundEntry(forward, 3, b)
    modifies t
    ensures TableHeld(t, forward, Ix(b) + 1)
  {
    hide Ix, RoundEntry;
    var i := Ix(b);
    t[0, i], t[1, i], t[2, i], t[3, i] := e0, e1, e2, e3;
    forall c: bv8, k: nat | k < 4 && Ix(c) < i + 1 ensures t[k, Ix(c)] == RoundEntry(forward, k, c) {
      if Ix(c) == i { IxInjective(b, c); }
    }
  }

  /** The eight entries of one byte. */
  method RoundEntries(pow: array<bv8>, log: array<int>, s: bv8, r: bv8, ghost b: bv8)
      returns (f0: bv32, f1: bv32, f2: bv32, f3: bv32, r0: bv32, r1: bv32, r2: bv32, r3: bv32)
    requires PowersHeld(pow, log) && s == Sub(b) && r == InvSub(b)
    ensures f0 == Pack(Forward(0, b)) && f1 == Pack(Forward(1, b)) && f2 == Pack(Forward(2, b)) && f3 == Pack(Forward(3, b))
    ensures r0 == Pack(Backward(0, b)) && r1 == Pack(Backward(1, b)) && r2 == Pack(Backward(2, b)) && r3 == Pack(Backward(3, b))
  {
    hide Sub, InvSub, Mul, Rotl8, Turn, MulByLogs, PowersHeld, Xtime, Word;
    var y := Xtime(s);
    var z := y ^ s;
    f0 := Word(y, s, s, z);
    assert f0 == Pack(Forward(0, b)) by { ForwardEntry(s, b); }
    f1 := Rotl8(f0);
    f2 := Rotl8(f1);
    f3 := Rotl8(f2);
    MulByLogsIsMul(pow, log, 0x0E, r);
    MulByLogsIsMul(pow, log, 0x09, r);
    MulByLogsIsMul(pow, log, 0x0D, r);
    MulByLogsIsMul(pow, log, 0x0B, r);
    r0 := Word(MulByLogs(pow, log, 0x0E, r), MulByLogs(pow, log, 0x09, r), MulByLogs(pow, log, 0x0D, r), MulByLogs(pow, log, 0x0B, r));
    assert r0 == Pack(Backward(0, b));
    r1 := Rotl8(r0);
    r2 := Rotl8(r1);
    r3 := Rotl8(r2);
    TurnedEntries(b);
  }

  lemma ForwardEntry(s: bv8, b: bv8)
    requires s == Sub(b)
    ensures Word(Xtime(s), s, s, Xtime(s) ^ s) == Pack(Forward(0, b))
  {
    hide Sub, Mul, Xtime, Word;
    TimesSmall(s);
    assert Add(s, Xtime(s)) == Xtime(s) ^ s by { AddIs(s, Xtime(s)); }
  }

  lemma AddIs(a: bv8, b: bv8)
    ensures Add(a, b) == b ^ a
  {
  }

  lemma TurnedEntries(b: bv8)
    ensures Rotl8(Pack(Forward(0, b))) == Pack(Forward(1, b)) && Rotl8(Pack(Forward(1, b))) == Pack(Forward(2, b))
    ensures Rotl8(Pack(Forward(2, b))) == Pack(Forward(3, b)) && Rotl8(Pack(Backward(0, b))) == Pack(Backward(1, b))
    ensures Rotl8(Pack(Backward(1, b))) == Pack(Backward(2, b)) && Rotl8(Pack(Backward(2, b))) == Pack(Backward(3, b))
  {
    hide Pack, Rotl8, Ft, Rt, Turn;
    PackTurn(Forward(0, b));
    PackTurn(Forward(1, b));
    PackTurn(Forward(2, b));
    PackTurn(Backward(0, b));
    PackTurn(Backward(1, b));
    PackTurn(Backward(2, b));
  }

  /** The tables as the program keeps them; FT0 … FT3 and RT0 … RT3 are the rows of `ft` and `rt`. */
  class Tables {
    const fsb: array<bv8>
    const rsb: array<bv8>
    const ft: array2<bv32>
    const rt: array2<bv32>
    const rcon: array<bv32>

    ghost predicate Valid()
      reads fsb, rsb, ft, rt, rcon
    {
      && fsb.Length == rsb.Length == 256 && SBoxesHeld(fsb, rsb)
      && TableHeld(ft, true, 256) && TableHeld(rt, false, 256)
      && rcon.Length == 10 && forall k :: 0 <= k < 10 ==> rcon[k] == XPower(k) as bv32
    }

    /** aes_gen_tables: afterwards every table holds what the standard says. */
    constructor ()
      ensures Valid()
      ensures fresh(fsb) && fresh(rsb) && fresh(ft) && fresh(rt) && fresh(rcon)
    {
      hide SBoxesHeld, TableHeld, XPower;
      var f, r, fwd, bwd, rc := AllTables();
      fsb, rsb, ft, rt, rcon := f, r, fwd, bwd, rc;
    }
  }

  /** The steps of aes_gen_tables in their order. */
  method AllTables() returns (fsb: array<bv8>, rsb: array<bv8>, ft: array2<bv32>, rt: array2<bv32>, rcon: array<bv32>)
    ensures fsb.Length == rsb.Length == 256 && SBoxesHeld(fsb, rsb) && TableHeld(ft, true, 256) && TableHeld(rt, false, 256)
    ensures rcon.Length == 10 && forall k :: 0 <= k < 10 ==> rcon[k] == XPower(k) as bv32
    ensures fresh(fsb) && fresh(rsb) && fresh(ft) && fresh(rt) && fresh(rcon)
  {
    hide SBoxesHeld, TableHeld, PowersHeld, XPower;
    var pow, log := PowerTables();
    rcon := RoundConstants();
    fsb, rsb := SBoxes(pow, log);
    SBoxAt(fsb, rsb, 0);
    ft, rt := RoundTables(pow, log, fsb, rsb);
  }

  method RoundTables(pow: array<bv8>, log: array<int>, fsb: array<bv8>, rsb: array<bv8>) returns (ft: array2<bv32>, rt: array2<bv32>)
    requires PowersHeld(pow, log) && SBoxesHeld(fsb, rsb)
    ensures fresh(ft) && fresh(rt) && TableHeld(ft, true, 256) && TableHeld(rt, false, 256)
  {
    hide Sub, InvSub, Pack, Forward, Backward, Ix, PowersHeld, SBoxesHeld, TableHeld;
    ft := new bv32[4, 256];
    rt := new bv32[4, 256];
    EmptyTable(ft, true);
    EmptyTable(rt, false);
    for i := 0 to 256
      invariant PowersHeld(pow, log) && SBoxesHeld(fsb, rsb) && TableHeld(ft, true, i) && TableHeld(rt, false, i)
    {
      var b := ByteAt(i);
      SBoxAt(fsb, rsb, b);
      var f0, f1, f2, f3, r0, r1, r2, r3 := RoundEntries(pow, log, fsb[i], rsb[i], b);
      SetEntries(ft, true, b, f0, f1, f2, f3);
      SetEntries(rt, false, b, r0, r1, r2, r3);
    }
  }

  lemma EmptyTable(t: array2<bv32>, forward: bool)
    requires t.Length0 == 4 && t.Length1 == 256
    ensures TableHeld(t, forward, 0)
  {
  }

  lemma SBoxAt(fsb: array<bv8>, rsb: array<bv8>, b: bv8)
    requires SBoxesHeld(fsb, rsb)
    ensures fsb.Length == rsb.Length == 256 && fsb[Ix(b)] == Sub(b) && rsb[Ix(b)] == InvSub(b)
  {
  }

  lemma TableSize(t: Tables)
    requires t.Valid()
    ensures t.rt.Length0 == t.ft.Length0 == 4 && t.rt.Length1 == t.ft.Length1 == 256
  {
  }

  /** One look-up in each table. */
  lemma LookUp(t: Tables, b: bv8, k: nat)
    requires t.Valid() && k < 4
    ensures t.fsb[Ix(b)] == Sub(b) && t.rsb[Ix(b)] == InvSub(b)
    ensures t.ft.Length0 == t.rt.Length0 == 4 && t.ft.Length1 == t.rt.Length1 == 256
    ensures t.ft[k, Ix(b)] == RoundEntry(true, k, b) && t.rt[k, Ix(b)] == RoundEntry(false, k, b)
  {
    hide Sub, InvSub, RoundEntry, XPower, Ix;
    assert Ix(b) < 256;
  }
}
