/**
 ISO 9660 directory records: how one is encoded, how a run of them is packed into
 2048-byte sectors, and how the packed bytes are walked and patched in place.
 */
module DirRecords {
  import opened Bytes
  import opened Chunks

  const ISO_DIRECTORY: Byte := 2
  const ISO_MULTIEXTENT: Byte := 128

  /** `Stamp` is the six-byte recording date and time of ECMA-119 section 9.1.5. */
  type Stamp = t: seq<Byte> | |t| == 6 witness [0, 0, 0, 0, 0, 0]

  datatype Rec = Rec(start: U32, size: U32, time: Stamp, flags: Byte, id: seq<Byte>)

  predicate IsDir(r: Rec) {
    r.flags / 2 % 2 == 1
  }

  /** `len_dr` as the code computes it: a `uint8_t`, bumped when it is odd. */
  function LenDr(lenFi: Byte): Byte {
    var n := (0x27 + lenFi) % 0x100;
    if n % 2 == 1 then (n + 1) % 0x100 else n
  }

  /** The record survives the one-byte length exactly when its identifier has at most 215 bytes. */
  lemma LenDrFits(lenFi: Byte)
    ensures LenDr(lenFi) >= 0x21 + lenFi <==> lenFi <= 215
    ensures lenFi <= 215 ==> LenDr(lenFi) == 0x27 + lenFi + (1 + lenFi) % 2
    ensures LenDr(216) == 0
  {
  }

  predicate RecOk(r: Rec) {
    1 <= |r.id| <= 215
  }

  function RecLen(r: Rec): (n: nat)
    requires RecOk(r)
    ensures 0x21 + |r.id| <= n <= 254 && n % 2 == 0
  {
    LenDr(|r.id|)
  }

  /** Everything after the extent: date, flags, interleave, volume number, identifier, padding. */
  function Tail(r: Rec): (s: seq<Byte>)
    requires RecOk(r)
    ensures |s| == RecLen(r) - 18
  {
    r.time + [0, r.flags, 0, 0, 1, 0, 0, 1, |r.id|] + r.id + Zeros(RecLen(r) - 33 - |r.id|)
  }

  function Encode(r: Rec): (s: seq<Byte>)
    requires RecOk(r)
    ensures |s| == RecLen(r)
  {
    [RecLen(r), 0] + Both32(r.start) + Both32(r.size) + Tail(r)
  }

  function Decode(s: seq<Byte>): Rec
    requires |s| >= 33 && 33 + s[32] <= |s|
  {
    Rec(FromLe32(s[2..6]), FromLe32(s[10..14]), s[18..24], s[25], s[33..33 + s[32]])
  }

  lemma EncodeFields(r: Rec)
    requires RecOk(r)
    ensures var s := Encode(r);
      && s[0] == RecLen(r)
      && s[2..10] == Both32(r.start) && s[10..18] == Both32(r.size)
      && s[18..24] == r.time && s[25] == r.flags && s[32] == |r.id| && s[33..33 + |r.id|] == r.id
  {
    var s := Encode(r);
    var t := Tail(r);
    assert s[18..] == t;
    assert t[0..6] == r.time;
    assert t[15..15 + |r.id|] == r.id;
    SliceOfSlice(s, 18, |s|, 0, 6);
    SliceOfSlice(s, 18, |s|, 15, 15 + |r.id|);
    assert s[25] == t[7] && s[32] == t[14];
  }

  /** The bytes that no field of `Rec` is kept in: volume 1 in both byte orders, and zeros. */
  lemma FixedBytes(r: Rec)
    requires RecOk(r)
    ensures var s := Encode(r);
      && s[0] == |s| && s[1] == 0 && s[24] == 0 && s[26] == 0 && s[27] == 0
      && s[28] as int + 0x100 * s[29] as int == 1 == 0x100 * s[30] as int + s[31] as int
      && forall k :: 33 + |r.id| <= k < |s| ==> s[k] == 0
  {
    hide Both32;
    var s, t := Encode(r), Tail(r);
    assert s[18..] == t;
    assert forall k :: 18 <= k < |s| ==> s[k] == t[k - 18];
  }

  lemma DecodeEncode(r: Rec)
    requires RecOk(r)
    ensures Encode(r)[32] == |r.id| && 33 + |r.id| <= |Encode(r)| && Decode(Encode(r)) == r
    ensures FromBe32(Encode(r)[6..10]) == r.start && FromBe32(Encode(r)[14..18]) == r.size
  {
    var s := Encode(r);
    EncodeFields(r);
    SliceOfSlice(s, 2, 10, 0, 4);
    SliceOfSlice(s, 2, 10, 4, 8);
    SliceOfSlice(s, 10, 18, 0, 4);
    SliceOfSlice(s, 10, 18, 4, 8);
    WordRoundTrip(r.start);
    WordRoundTrip(r.size);
  }

  lemma EncodePatched(r: Rec, start: U32, size: U32)
    requires RecOk(r)
    ensures Encode(r.(start := start)) == Splice(Encode(r), 2, Both32(start))
    ensures Encode(r.(start := start, size := size)) == Splice(Encode(r), 2, Both32(start) + Both32(size))
  {
    var s := Encode(r);
    var t := Encode(r.(start := start, size := size));
    assert t[18..] == s[18..] == Tail(r);
    assert t == Splice(s, 2, Both32(start) + Both32(size));
    assert Encode(r.(start := start)) == Splice(s, 2, Both32(start));
  }

  // ---------------------------------------------------------------- placement

  /** First byte of the following sector. */
  function Skip(pos: nat): (q: nat)
    ensures q > pos
  {
    pos + (2048 - pos % 2048)
  }

  /** Where the packer puts a record of `len` bytes when the next free byte is `offs`. */
  function Place(offs: nat, len: nat): nat {
    if offs / 2048 < (offs + len) / 2048 then RoundUp(offs) else offs
  }

  lemma PlaceInSector(offs: nat, len: nat)
    requires 0 < len < 2048
    ensures var p := Place(offs, len);
      && offs <= p && (p + len) / 2048 == p / 2048 && (p + len) % 2048 != 0
      && (p != offs ==> p == RoundUp(offs) == Skip(offs))
      && (p == offs <==> offs % 2048 + len < 2048)
  {
  }

  lemma SkipRounds(pos: nat)
    requires pos % 2048 != 0
    ensures Skip(pos) == RoundUp(pos)
  {
  }

  predicate LensOk(ns: seq<nat>) {
    |ns| > 0 && forall i :: 0 <= i < |ns| ==> 0 < ns[i] < 0x100
  }

  /** Offset of record `i` of a packed run whose record lengths are `ns`. */
  function Pos(ns: seq<nat>, i: nat): nat
    requires LensOk(ns) && i < |ns|
  {
    if i == 0 then 0 else Place(Pos(ns, i - 1) + ns[i - 1], ns[i])
  }

  function End(ns: seq<nat>): nat
    requires LensOk(ns)
  {
    Pos(ns, |ns| - 1) + ns[|ns| - 1]
  }

  /** First byte that no longer belongs to record `i` or to the gap behind it. */
  function Behind(ns: seq<nat>, i: nat): nat
    requires LensOk(ns) && i < |ns|
  {
    if i + 1 < |ns| then Pos(ns, i + 1) else RoundUp(End(ns))
  }

  /** The packer never lets a record straddle a sector boundary or end on one. */
  lemma {:induction false} PosInSector(ns: seq<nat>, i: nat)
    requires LensOk(ns) && i < |ns|
    ensures (Pos(ns, i) + ns[i]) / 2048 == Pos(ns, i) / 2048 && (Pos(ns, i) + ns[i]) % 2048 != 0
    ensures Pos(ns, i) + ns[i] <= Behind(ns, i)
    ensures Behind(ns, i) != Pos(ns, i) + ns[i] ==> Behind(ns, i) == Skip(Pos(ns, i) + ns[i])
  {
    hide RoundUp, Place, Skip;
    if i > 0 {
      PlaceInSector(Pos(ns, i - 1) + ns[i - 1], ns[i]);
    }
    if i + 1 < |ns| {
      PlaceInSector(Pos(ns, i) + ns[i], ns[i + 1]);
    } else {
      SkipRounds(Pos(ns, i) + ns[i]);
    }
  }

  lemma {:induction false} PosMonotone(ns: seq<nat>, i: nat, j: nat)
    requires LensOk(ns) && i < j < |ns|
    ensures Behind(ns, i) <= Pos(ns, j) && Pos(ns, j) + ns[j] <= End(ns)
    decreases j
  {
    if i + 1 < j {
      PosMonotone(ns, i, j - 1);
      PosInSector(ns, j - 1);
    }
    EndBound(ns, j);
  }

  lemma {:induction false} EndBound(ns: seq<nat>, i: nat)
    requires LensOk(ns) && i < |ns|
    ensures Pos(ns, i) + ns[i] <= End(ns) && Behind(ns, i) <= RoundUp(End(ns))
    decreases |ns| - i
  {
    if i + 1 < |ns| {
      PosInSector(ns, i);
      EndBound(ns, i + 1);
    }
  }

  lemma {:induction false} PosPrefix(ns: seq<nat>, ms: seq<nat>, i: nat)
    requires LensOk(ns) && LensOk(ns + ms) && i < |ns|
    ensures Pos(ns + ms, i) == Pos(ns, i)
  {
    hide Place;
    if i > 0 {
      PosPrefix(ns, ms, i - 1);
    }
  }

  // ---------------------------------------------------------------- packed runs

  predicate RecsOk(rs: seq<Rec>) {
    |rs| > 0 && forall i :: 0 <= i < |rs| ==> RecOk(rs[i])
  }

  function Lens(rs: seq<Rec>): (ns: seq<nat>)
    requires RecsOk(rs)
    ensures |ns| == |rs| && LensOk(ns)
    ensures forall i :: 0 <= i < |rs| ==> ns[i] == RecLen(rs[i])
  {
    seq(|rs|, i requires 0 <= i < |rs| => RecLen(rs[i]) as nat)
  }

  function Positions(ns: seq<nat>): (ps: seq<nat>)
    requires LensOk(ns)
    ensures |ps| == |ns| && forall i :: 0 <= i < |ns| ==> ps[i] == Pos(ns, i)
  {
    seq(|ns|, i requires 0 <= i < |ns| => Pos(ns, i))
  }

  function Encodings(rs: seq<Rec>): (ss: seq<seq<Byte>>)
    requires RecsOk(rs)
    ensures |ss| == |rs| && forall i :: 0 <= i < |rs| ==> ss[i] == Encode(rs[i])
  {
    seq(|rs|, i requires 0 <= i < |rs| => Encode(rs[i]))
  }

  /** `buf` holds exactly the packed records `rs`, and zeros everywhere else. */
  ghost predicate Laid(buf: seq<Byte>, rs: seq<Rec>) {
    RecsOk(rs) && LaidOut(buf, Positions(Lens(rs)), Encodings(rs))
  }

  /** The extent of a finished directory: its packed records, rounded up to whole sectors. */
  ghost predicate Packed(buf: seq<Byte>, rs: seq<Rec>) {
    Laid(buf, rs) && |buf| == RoundUp(End(Lens(rs)))
  }

  lemma PackedUnique(a: seq<Byte>, b: seq<Byte>, rs: seq<Rec>)
    requires Packed(a, rs) && Packed(b, rs)
    ensures a == b
  {
    Unique(a, b, Positions(Lens(rs)), Encodings(rs));
  }

  lemma RecordAt(buf: seq<Byte>, rs: seq<Rec>, i: nat)
    requires Laid(buf, rs) && i < |rs|
    ensures ChunkAt(buf, Pos(Lens(rs), i), Encode(rs[i]))
  {
    assert ChunkAt(buf, Positions(Lens(rs))[i], Encodings(rs)[i]);
  }

  lemma LaidOk(buf: seq<Byte>, rs: seq<Rec>)
    requires Laid(buf, rs)
    ensures RecsOk(rs)
  {
  }

  lemma GapAt(buf: seq<Byte>, rs: seq<Rec>, i: nat)
    requires Laid(buf, rs) && i < |rs|
    ensures ZeroRange(buf, Pos(Lens(rs), i) + RecLen(rs[i]), if i + 1 < |rs| then Pos(Lens(rs), i + 1) else |buf|)
  {
    hide Pos, Encode, ZeroRange, LaidOut, RecLen, RecsOk;
    GapBehind(buf, Positions(Lens(rs)), Encodings(rs), i);
  }

  /** Overwriting one record in place, keeping its identifier length, changes that record alone. */
  lemma LaidPatch(buf: seq<Byte>, rs: seq<Rec>, i: nat, r: Rec)
    requires Laid(buf, rs) && i < |rs|
    requires RecOk(r) && |r.id| == |rs[i].id|
    ensures Pos(Lens(rs), i) + RecLen(r) <= |buf|
    ensures RecsOk(rs[i := r]) && Lens(rs[i := r]) == Lens(rs)
    ensures Laid(Splice(buf, Pos(Lens(rs), i), Encode(r)), rs[i := r])
  {
    hide Encode, Pos, LenDr;
    assert Lens(rs[i := r]) == Lens(rs);
    assert Encodings(rs[i := r]) == Encodings(rs)[i := Encode(r)];
    Patched(buf, Positions(Lens(rs)), Encodings(rs), i, Encode(r));
  }

  lemma SpliceWithin(buf: seq<Byte>, p: nat, s: seq<Byte>, off: nat, t: seq<Byte>)
    requires ChunkAt(buf, p, s) && off + |t| <= |s|
    ensures Splice(buf, p, Splice(s, off, t)) == Splice(buf, p + off, t)
  {
    var a, b := Splice(buf, p, Splice(s, off, t)), Splice(buf, p + off, t);
    forall k | 0 <= k < |buf| ensures a[k] == b[k] {
      if p <= k < p + |s| {
        assert a[k] == Splice(s, off, t)[k - p];
        assert s[k - p] == buf[k];
        if off <= k - p < off + |t| {
          assert Splice(s, off, t)[k - p] == t[k - p - off];
        }
      }
    }
  }

  lemma SpliceTwice(buf: seq<Byte>, p: nat, t: seq<Byte>, u: seq<Byte>)
    requires p + |t| + |u| <= |buf|
    ensures Splice(Splice(buf, p, t), p + |t|, u) == Splice(buf, p, t + u)
  {
  }

  /** Rewriting the extent fields of record `i` where it lies. */
  lemma LaidPatchExtent(buf: seq<Byte>, rs: seq<Rec>, i: nat, start: U32, size: U32)
    requires Laid(buf, rs) && i < |rs|
    ensures Pos(Lens(rs), i) + 18 <= |buf|
    ensures Laid(Splice(buf, Pos(Lens(rs), i) + 2, Both32(start) + Both32(size)),
                 rs[i := rs[i].(start := start, size := size)])
  {
    hide Encode, Pos, LenDr, Both32, Splice;
    RecordAt(buf, rs, i);
    EncodePatched(rs[i], start, size);
    SpliceWithin(buf, Pos(Lens(rs), i), Encode(rs[i]), 2, Both32(start) + Both32(size));
    LaidPatch(buf, rs, i, rs[i].(start := start, size := size));
  }

  /** Rewriting only the start sector. */
  lemma LaidPatchStart(buf: seq<Byte>, rs: seq<Rec>, i: nat, start: U32)
    requires Laid(buf, rs) && i < |rs|
    ensures Pos(Lens(rs), i) + 18 <= |buf|
    ensures Laid(Splice(buf, Pos(Lens(rs), i) + 2, Both32(start)), rs[i := rs[i].(start := start)])
  {
    hide Encode, Pos, LenDr, Both32, Splice;
    RecordAt(buf, rs, i);
    EncodePatched(rs[i], start, rs[i].size);
    SpliceWithin(buf, Pos(Lens(rs), i), Encode(rs[i]), 2, Both32(start));
    LaidPatch(buf, rs, i, rs[i].(start := start));
  }

  // ---------------------------------------------------------------- packing

  lemma LaidFirst(buf: seq<Byte>, r: Rec)
    requires RecOk(r) && RecLen(r) <= |buf| && forall k :: 0 <= k < |buf| ==> buf[k] == 0
    ensures Laid(Splice(buf, 0, Encode(r)), [r]) && End(Lens([r])) == RecLen(r)
  {
    hide Encode, LenDr;
    assert Positions(Lens([r])) == [0];
    assert Encodings([r]) == [Encode(r)];
  }

  lemma PositionsAppend(ns: seq<nat>, n: nat)
    requires LensOk(ns) && 0 < n < 0x100
    ensures Positions(ns + [n]) == Positions(ns) + [Place(End(ns), n)]
    ensures End(ns + [n]) == Place(End(ns), n) + n
  {
    hide Place;
    var ms := ns + [n];
    forall i | 0 <= i < |ns| ensures Positions(ms)[i] == Positions(ns)[i] {
      PosPrefix(ns, [n], i);
    }
    assert Pos(ms, |ns|) == Place(Pos(ms, |ns| - 1) + ms[|ns| - 1], n);
  }

  /** Packing one more record behind the last one. */
  lemma LaidAppend(buf: seq<Byte>, rs: seq<Rec>, r: Rec)
    requires Laid(buf, rs) && RecOk(r)
    requires Place(End(Lens(rs)), RecLen(r)) + RecLen(r) <= |buf|
    ensures Laid(Splice(buf, Place(End(Lens(rs)), RecLen(r)), Encode(r)), rs + [r])
    ensures End(Lens(rs + [r])) == Place(End(Lens(rs)), RecLen(r)) + RecLen(r)
  {
    hide Encode, LenDr, Pos, Place, Splice, LaidOut;
    var ns, n := Lens(rs), RecLen(r);
    var p := Place(End(ns), n);
    PlaceInSector(End(ns), n);
    PositionsAppend(ns, n);
    assert Lens(rs + [r]) == ns + [n];
    assert Encodings(rs + [r]) == Encodings(rs) + [Encode(r)];
    Appended(buf, Positions(ns), Encodings(rs), p, Encode(r));
  }

  /** Cutting the zeros behind the last record. */
  lemma LaidTruncated(buf: seq<Byte>, rs: seq<Rec>, n: nat)
    requires Laid(buf, rs) && End(Lens(rs)) <= n <= |buf|
    ensures Laid(buf[..n], rs)
  {
    hide Encode, LenDr, Pos;
    var ps, ss := Positions(Lens(rs)), Encodings(rs);
    Truncated(buf, ps, ss, n);
  }

  /**
   Appends `r` behind the records already packed, moving it to the next sector when it would
   touch the boundary; refuses when the buffer is full.
   */
  method AppendRecord(buf: array<Byte>, p: nat, r: Rec, ghost rs: seq<Rec>) returns (ok: bool, q: nat)
    requires RecsOk(rs) && Laid(buf[..], rs) && p == End(Lens(rs)) && RecOk(r)
    modifies buf
    ensures RecsOk(rs + [r])
    ensures ok == (End(Lens(rs + [r])) < buf.Length)
    ensures ok ==> Laid(buf[..], rs + [r]) && q == End(Lens(rs + [r]))
  {
    hide Encode, Pos, Place, Splice, Laid, LenDr, RoundUp;
    ghost var was := buf[..];
    q := p;
    var lenDr := LenDr(|r.id|);
    PlaceIs(p, lenDr);
    if p / SECTOR < (p + lenDr) / SECTOR {
      q := RoundUp(p);
    }
    assert Lens(rs + [r]) == Lens(rs) + [lenDr as nat];
    PositionsAppend(Lens(rs), lenDr);
    if q + lenDr >= buf.Length {
      return false, q;
    }
    LaidAppend(was, rs, r);
    Put(buf, q, Encode(r));
    return true, q + lenDr;
  }

  lemma PlaceIs(offs: nat, len: nat)
    ensures Place(offs, len) == if offs / 2048 < (offs + len) / 2048 then RoundUp(offs) else offs
  {
  }

  // ---------------------------------------------------------------- walking

  /** Next free byte once records `0..i` are packed; where a walker stands before record `i`. */
  function Free(ns: seq<nat>, i: nat): nat
    requires LensOk(ns) && i <= |ns|
  {
    if i == 0 then 0 else Pos(ns, i - 1) + ns[i - 1]
  }

  lemma FreeBound(ns: seq<nat>, i: nat)
    requires LensOk(ns) && i <= |ns|
    ensures Free(ns, i) <= End(ns) < RoundUp(End(ns)) == Skip(End(ns))
  {
    hide RoundUp, Place, Skip, Pos;
    PosInSector(ns, |ns| - 1);
    SkipRounds(End(ns));
    EndBound(ns, if i > 0 then i - 1 else 0);
  }

  lemma FreeStart(ns: seq<nat>)
    requires LensOk(ns)
    ensures Free(ns, 0) == Pos(ns, 0) == 0
  {
  }

  lemma FreeStep(ns: seq<nat>, i: nat)
    requires LensOk(ns) && 0 < i <= |ns|
    ensures Free(ns, i) == Pos(ns, i - 1) + ns[i - 1]
    ensures i == |ns| ==> Free(ns, i) == End(ns)
  {
    hide Pos;
  }

  /** Where a walker standing behind record `i - 1` finds the next record. */
  lemma FreeNext(ns: seq<nat>, i: nat)
    requires LensOk(ns) && 0 < i < |ns|
    ensures Pos(ns, i) != Free(ns, i) ==> Free(ns, i) < Pos(ns, i) == Skip(Free(ns, i))
  {
    hide RoundUp, Place, Skip, Pos;
    PosInSector(ns, i - 1);
    FreeStep(ns, i);
    assert Behind(ns, i - 1) == Pos(ns, i);
  }

  /**
   One step of the zero-length-skip walk: standing behind record `i - 1`, a zero length byte
   means that record `i` starts the next sector, and the walk ends exactly behind the last one.
   */
  lemma WalkStep(buf: seq<Byte>, rs: seq<Rec>, i: nat)
    requires Packed(buf, rs) && i <= |rs|
    ensures Free(Lens(rs), i) < |buf|
    ensures i < |rs| ==>
              && Pos(Lens(rs), i) < |buf| && buf[Pos(Lens(rs), i)] == RecLen(rs[i])
              && Pos(Lens(rs), i) == if buf[Free(Lens(rs), i)] == 0 then Skip(Free(Lens(rs), i)) else Free(Lens(rs), i)
    ensures i == |rs| ==> buf[Free(Lens(rs), i)] == 0 && Skip(Free(Lens(rs), i)) == |buf|
  {
    hide Encode, LenDr, RoundUp, Sectors, Skip, Pos, Laid, Free, End;
    LaidOk(buf, rs);
    var ns := Lens(rs);
    FreeStart(ns);
    FreeBound(ns, i);
    if i > 0 {
      FreeStep(ns, i);
      GapAt(buf, rs, i - 1);
    }
    if i < |rs| {
      if i > 0 {
        FreeNext(ns, i);
      }
      RecordAt(buf, rs, i);
      RecordFields(buf, Pos(ns, i), rs[i]);
    }
  }

  lemma RecordFields(buf: seq<Byte>, pos: nat, r: Rec)
    requires RecOk(r) && ChunkAt(buf, pos, Encode(r))
    ensures pos + 33 <= |buf|
    ensures buf[pos] == RecLen(r) && buf[pos + 25] == r.flags
    ensures FromLe32(buf[pos + 2..pos + 6]) == r.start && FromBe32(buf[pos + 6..pos + 10]) == r.start
    ensures FromLe32(buf[pos + 10..pos + 14]) == r.size && FromBe32(buf[pos + 14..pos + 18]) == r.size
    ensures pos + 33 + |r.id| <= |buf| && buf[pos + 32] == |r.id| && buf[pos + 33..pos + 33 + |r.id|] == r.id
    ensures buf[pos + 2..pos + 10] == Both32(r.start) && buf[pos + 10..pos + 18] == Both32(r.size)
  {
    hide Encode, Both32, FromLe32, FromBe32;
    var s := Encode(r);
    EncodeFields(r);
    DecodeEncode(r);
    SliceOfSlice(buf, pos, pos + |s|, 2, 6);
    SliceOfSlice(buf, pos, pos + |s|, 6, 10);
    SliceOfSlice(buf, pos, pos + |s|, 10, 14);
    SliceOfSlice(buf, pos, pos + |s|, 14, 18);
    SliceOfSlice(buf, pos, pos + |s|, 2, 10);
    SliceOfSlice(buf, pos, pos + |s|, 10, 18);
    SliceOfSlice(buf, pos, pos + |s|, 33, 33 + |r.id|);
    assert buf[pos + 32] == buf[pos..pos + |s|][32];
    assert buf[pos] == buf[pos..pos + |s|][0] && buf[pos + 25] == buf[pos..pos + |s|][25];
    assert FromLe32(s[2..6]) == Decode(s).start && FromLe32(s[10..14]) == Decode(s).size;
  }

  lemma FirstChunk(buf: seq<Byte>, rs: seq<Rec>)
    requires RecsOk(rs) && Packed(buf, rs)
    ensures |rs| > 0 && RecOk(rs[0]) && ChunkAt(buf, 0, Encode(rs[0]))
  {
    FreeStart(Lens(rs));
    hide Encode, RecOk, RoundUp, Laid, ChunkAt, Lens, Pos;
    RecordAt(buf, rs, 0);
  }

  /** The extent that the first record of a packed directory carries, in both byte orders. */
  lemma FirstRecord(buf: seq<Byte>, rs: seq<Rec>)
    requires RecsOk(rs) && Packed(buf, rs)
    ensures |rs| > 0 && 33 <= |buf|
    ensures buf[2..10] == Both32(rs[0].start) && buf[10..18] == Both32(rs[0].size)
    ensures FromLe32(buf[2..6]) == FromBe32(buf[6..10]) == rs[0].start && FromLe32(buf[10..14]) == rs[0].size
  {
    hide Encode, RecOk, RecsOk, Packed, ChunkAt, Both32, FromLe32, FromBe32, RecLen;
    FirstChunk(buf, rs);
    RecordFields(buf, 0, rs[0]);
  }

  // ---------------------------------------------------------------- findDirRecord

  function FirstMatch(rs: seq<Rec>, key: seq<Byte>, i: nat): (m: Option<nat>)
    requires i <= |rs|
    ensures m.Some? ==> i <= m.value < |rs| && rs[m.value].id == key && forall k :: i <= k < m.value ==> rs[k].id != key
    ensures m.None? ==> forall k :: i <= k < |rs| ==> rs[k].id != key
    decreases |rs| - i
  {
    if i == |rs| then None else if rs[i].id == key then Some(i) else FirstMatch(rs, key, i + 1)
  }

  /** The length and `memcmp` test on the record at `pos`. */
  predicate IdMatches(buf: seq<Byte>, pos: nat, key: seq<Byte>)
    requires pos + 33 <= |buf| && pos + 33 + buf[pos + 32] <= |buf|
  {
    buf[pos + 32] == |key| && buf[pos + 33..pos + 33 + |key|] == key
  }

  lemma MatchMeans(buf: seq<Byte>, rs: seq<Rec>, i: nat, key: seq<Byte>)
    requires Packed(buf, rs) && i < |rs|
    ensures var pos := Pos(Lens(rs), i);
      && pos + 33 <= |buf| && pos + 33 + buf[pos + 32] <= |buf|
      && buf[pos] == RecLen(rs[i])
      && (IdMatches(buf, pos, key) <==> rs[i].id == key)
  {
    hide Pos, Encode, LenDr, RoundUp, End;
    RecordAt(buf, rs, i);
    RecordFields(buf, Pos(Lens(rs), i), rs[i]);
  }

  method FindDirRecord(buf: array<Byte>, key: seq<Byte>, ghost rs: seq<Rec>) returns (at: Option<nat>)
    requires RecsOk(rs) && Packed(buf[..], rs)
    ensures match FirstMatch(rs, key, 0)
            case None => at == None
            case Some(i) => at == Some(Pos(Lens(rs), i))
  {
    hide Encode, RecLen, Pos, RoundUp, Place, Laid, Free, Skip, ChunkAt, End, IdMatches;
    var pos := 0;
    ghost var i := 0;
    FreeStart(Lens(rs));
    WalkStep(buf[..], rs, 0);
    while pos < buf.Length
      invariant i <= |rs| && pos == Free(Lens(rs), i) < buf.Length
      invariant FirstMatch(rs, key, 0) == FirstMatch(rs, key, i)
      decreases |rs| - i
    {
      WalkStep(buf[..], rs, i);
      if buf[pos] == 0 {
        pos := Skip(pos);
        if pos >= buf.Length {
          break;
        }
        if buf[pos] == 0 {
          assert false;
          break;
        }
      }
      MatchMeans(buf[..], rs, i, key);
      if IdMatches(buf[..], pos, key) {
        return Some(pos);
      }
      pos := pos + buf[pos];
      i := i + 1;
      FreeBound(Lens(rs), i);
      FreeStep(Lens(rs), i);
    }
    return None;
  }

  // ---------------------------------------------------------------- fixDirLba

  function FixRec(r: Rec, dirLba: U32, filesLba: U32): Rec {
    r.(start := Wrap32(r.start + if IsDir(r) then dirLba else filesLba))
  }

  /** `rs` with the first `n` records rebased. */
  function FixFirst(rs: seq<Rec>, n: nat, dirLba: U32, filesLba: U32): (fs: seq<Rec>)
    ensures |fs| == |rs|
    ensures forall i :: 0 <= i < |rs| ==> fs[i] == if i < n then FixRec(rs[i], dirLba, filesLba) else rs[i]
  {
    seq(|rs|, i requires 0 <= i < |rs| => if i < n then FixRec(rs[i], dirLba, filesLba) else rs[i])
  }

  /** Every start sector is rebased exactly once, in both byte orders, and nothing else changes. */
  method FixDirLba(buf: array<Byte>, dirLba: U32, filesLba: U32, ghost rs: seq<Rec>)
    requires RecsOk(rs) && Packed(buf[..], rs)
    modifies buf
    ensures RecsOk(FixFirst(rs, |rs|, dirLba, filesLba))
    ensures Packed(buf[..], FixFirst(rs, |rs|, dirLba, filesLba))
  {
    hide Encode, RecLen, Pos, RoundUp, Place, Wrap32, Laid, Free, Skip, ChunkAt, FixRec, End;
    var pos := 0;
    ghost var i := 0;
    FreeStart(Lens(rs));
    WalkStep(buf[..], rs, 0);
    assert FixFirst(rs, 0, dirLba, filesLba) == rs;
    while pos < buf.Length
      invariant i <= |rs| && pos == Free(Lens(rs), i) < buf.Length
      invariant RecsOk(FixFirst(rs, i, dirLba, filesLba)) && Laid(buf[..], FixFirst(rs, i, dirLba, filesLba))
      invariant Lens(FixFirst(rs, i, dirLba, filesLba)) == Lens(rs)
      decreases |rs| - i
    {
      ghost var fs := FixFirst(rs, i, dirLba, filesLba);
      WalkStep(buf[..], fs, i);
      if buf[pos] == 0 {
        pos := Skip(pos);
        if pos >= buf.Length {
          break;
        }
        if buf[pos] == 0 {
          assert false;
          break;
        }
      }
      assert fs[i := FixRec(fs[i], dirLba, filesLba)] == FixFirst(rs, i + 1, dirLba, filesLba);
      RebaseRecord(buf, pos, dirLba, filesLba, fs, i);
      i := i + 1;
      WalkStep(buf[..], FixFirst(rs, i, dirLba, filesLba), i - 1);
      pos := pos + buf[pos];
      FreeBound(Lens(rs), i);
      FreeStep(Lens(rs), i);
    }
    assert FixFirst(rs, i, dirLba, filesLba) == FixFirst(rs, |rs|, dirLba, filesLba);
  }

  method RebaseRecord(buf: array<Byte>, pos: nat, dirLba: U32, filesLba: U32, ghost rs: seq<Rec>, ghost i: nat)
    requires RecsOk(rs) && Laid(buf[..], rs) && i < |rs| && pos == Pos(Lens(rs), i)
    modifies buf
    ensures RecsOk(rs[i := FixRec(rs[i], dirLba, filesLba)]) && Laid(buf[..], rs[i := FixRec(rs[i], dirLba, filesLba)])
    ensures Lens(rs[i := FixRec(rs[i], dirLba, filesLba)]) == Lens(rs)
  {
    hide Encode, LenDr, Pos, Le32, Be32, FromLe32, FromBe32, Wrap32, Splice, Laid, ChunkAt;
    ghost var r := rs[i];
    RecordAt(buf[..], rs, i);
    RecordFields(buf[..], pos, r);
    ghost var was := buf[..];
    assert buf[pos + 2..pos + 6] == was[pos + 2..pos + 6] && buf[pos + 6..pos + 10] == was[pos + 6..pos + 10];
    var base := if buf[pos + 25] / 2 % 2 == 1 then dirLba else filesLba;
    var lsb := FromLe32(buf[pos + 2..pos + 6]);
    var msb := FromBe32(buf[pos + 6..pos + 10]);
    assert lsb == msb == r.start;
    Put(buf, pos + 2, Le32(Wrap32(lsb + base)));
    Put(buf, pos + 6, Be32(Wrap32(msb + base)));
    LaidPatchStart(was, rs, i, FixRec(r, dirLba, filesLba).start);
    SpliceTwice(was, pos + 2, Le32(Wrap32(lsb + base)), Be32(Wrap32(msb + base)));
    assert FixRec(r, dirLba, filesLba).start == Wrap32(lsb + base);
    assert buf[..] == Splice(was, pos + 2, Both32(Wrap32(lsb + base)));
    assert FixRec(r, dirLba, filesLba) == r.(start := Wrap32(lsb + base));
    assert Lens(rs[i := FixRec(r, dirLba, filesLba)]) == Lens(rs);
  }
}
