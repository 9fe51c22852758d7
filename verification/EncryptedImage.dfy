/** Encrypted disc images of the Redump kind: the region table of sector 0, and sectors decrypted as they are read. */
module EncryptedImage {
  import opened Bytes
  import opened AesSpec
  import opened AesTables
  import opened AesKeys
  import opened AesBlock
  import opened AesCbc

  datatype Region = Region(encrypted: bool, first: int, last: int)

  /** char_arr_BE_to_uint, at offset `i`. */
  function BeWord(b: seq<bv8>, i: nat): nat
    requires i + 4 <= |b|
  {
    Ix(b[i + 3]) + 256 * (Ix(b[i + 2]) + 256 * (Ix(b[i + 1]) + 256 * Ix(b[i])))
  }

  /** The byte in front counts most: the upper half of a word is its first two bytes, the lower half the other two. */
  lemma WordHalves(b: seq<bv8>, i: nat)
    requires i + 4 <= |b|
    ensures BeWord(b, i) / 0x1_0000 == 256 * Ix(b[i]) + Ix(b[i + 1])
    ensures BeWord(b, i) % 0x1_0000 == 256 * Ix(b[i + 2]) + Ix(b[i + 3])
  {
    hide Ix;
    var hi, lo := 256 * Ix(b[i]) + Ix(b[i + 1]), 256 * Ix(b[i + 2]) + Ix(b[i + 3]);
    assert BeWord(b, i) == 0x1_0000 * hi + lo;
  }

  /** The header is the first two sectors: a count and, from byte 8 on, first and last sector of each plain range. */
  predicate Header(h: seq<bv8>) { |h| == 2 * 2048 }

  function Count(h: seq<bv8>): nat
    requires Header(h)
  {
    BeWord(h, 0)
  }

  predicate CountOk(h: seq<bv8>)
    requires Header(h)
  {
    0 < Count(h) < 32
  }

  function PlainStart(h: seq<bv8>, k: nat): nat
    requires Header(h) && k < 32
  {
    BeWord(h, 8 + 8 * k)
  }

  function PlainEnd(h: seq<bv8>, k: nat): nat
    requires Header(h) && k < 32
  {
    BeWord(h, 12 + 8 * k)
  }

  /** The plain ranges are in order, do not overlap, and the first begins the disc. */
  ghost predicate Sorted(h: seq<bv8>)
    requires Header(h)
  {
    && CountOk(h) && PlainStart(h, 0) == 0
    && (forall k: nat :: k < Count(h) ==> PlainStart(h, k) <= PlainEnd(h, k))
    && (forall k: nat :: 0 < k < Count(h) ==> PlainEnd(h, k - 1) < PlainStart(h, k))
  }

  ghost predicate InPlain(h: seq<bv8>, s: nat)
    requires Header(h) && CountOk(h)
  {
    exists k: nat :: k < Count(h) && PlainStart(h, k) <= s <= PlainEnd(h, k)
  }

  function LastSector(h: seq<bv8>): nat
    requires Header(h) && CountOk(h)
  {
    PlainEnd(h, Count(h) - 1)
  }

  /** What the loop in `open` stores. */
  ghost predicate TableOf(h: seq<bv8>, r: seq<Region>, n: nat)
    requires Header(h) && n <= 62
  {
    && |r| == n
    && (n > 0 ==> r[0].first == 0)
    && (forall i: nat, j: nat :: i + 1 == j < n ==> r[j].first == r[i].last + 1)
    && forall i: nat :: i < n ==>
      && r[i].encrypted == (i % 2 == 1)
      && r[i].last == (BeWord(h, 12 + 4 * i) - (if i % 2 == 1 then 1 else 0)) * 2048 + 2047
  }

  /** The table, or nothing when the count cannot be one. */
  method BuildTable(h: seq<bv8>) returns (r: seq<Region>)
    requires Header(h)
    ensures if CountOk(h) then TableOf(h, r, 2 * Count(h) - 1) else r == []
  {
    hide BeWord;
    r := [];
    var count := BeWord(h, 0);
    if count > 0 && count < 32 {
      for i := 0 to 2 * count - 1
        invariant TableOf(h, r, i)
      {
        var last := (BeWord(h, 12 + 4 * i) - (if i % 2 == 1 then 1 else 0)) * 2048 + 2047;
        r := r + [Region(i % 2 == 1, if i == 0 then 0 else r[i - 1].last + 1, last)];
      }
    }
  }

  predicate Covers(r: Region, address: int) { r.first <= address <= r.last }

  /** Last sector of region `i`: the end of a plain range, or the sector before the next one begins. */
  function Hi(h: seq<bv8>, i: nat): int
    requires Header(h) && i < 62
  {
    BeWord(h, 12 + 4 * i) - if i % 2 == 1 then 1 else 0
  }

  function Lo(h: seq<bv8>, i: nat): int
    requires Header(h) && i < 62
  {
    if i == 0 then 0 else Hi(h, i - 1) + 1
  }

  lemma CoversSector(h: seq<bv8>, r: seq<Region>, n: nat, i: nat, address: nat)
    requires Header(h) && n <= 62 && TableOf(h, r, n) && i < n
    ensures Covers(r[i], address) <==> Lo(h, i) <= address / 2048 <= Hi(h, i)
  {
    hide BeWord;
    assert r[i].last == Hi(h, i) * 2048 + 2047;
    if i > 0 { assert r[i - 1].last == Hi(h, i - 1) * 2048 + 2047; }
    assert r[i].first == Lo(h, i) * 2048;
    hide Hi, Lo, TableOf;
    InSectors(Lo(h, i), Hi(h, i), address);
  }

  lemma InSectors(lo: int, hi: int, address: nat)
    ensures lo * 2048 <= address <= hi * 2048 + 2047 <==> lo <= address / 2048 <= hi
  {
  }

  lemma Bounds(h: seq<bv8>, i: nat)
    requires Header(h) && i < 62
    ensures i % 2 == 0 ==> Hi(h, i) == PlainEnd(h, i / 2) && (i > 0 ==> Lo(h, i) == PlainStart(h, i / 2))
    ensures i % 2 == 1 ==> Hi(h, i) == PlainStart(h, i / 2 + 1) - 1 && Lo(h, i) == PlainEnd(h, i / 2) + 1
  {
    hide BeWord;
    assert i % 2 == 0 ==> 12 + 4 * i == 12 + 8 * (i / 2);
    assert i % 2 == 1 ==> 12 + 4 * i == 8 + 8 * (i / 2 + 1);
  }

  /** Plain ranges further on are higher up. */
  lemma {:induction false} SortedRanges(h: seq<bv8>, j: nat, k: nat)
    requires Header(h) && Sorted(h) && j < k < Count(h)
    ensures PlainEnd(h, j) < PlainStart(h, k)
    decreases k
  {
    hide BeWord, PlainStart, PlainEnd;
    if j < k - 1 { SortedRanges(h, j, k - 1); }
  }

  lemma {:induction false} RegionsInOrder(h: seq<bv8>, i: nat, j: nat)
    requires Header(h) && Sorted(h) && i < j < 2 * Count(h) - 1
    ensures Hi(h, i) < Lo(h, j)
    decreases j
  {
    hide BeWord, PlainStart, PlainEnd, Hi;
    if i < j - 1 {
      RegionsInOrder(h, i, j - 1);
      Bounds(h, j - 1);
    }
  }

  lemma {:induction false} SomeRegion(h: seq<bv8>, s: nat, n: nat) returns (i: nat)
    requires Header(h) && 0 < n < 62 && s <= Hi(h, n - 1)
    ensures i < n && Lo(h, i) <= s <= Hi(h, i)
  {
    hide Hi;
    if n == 1 || Lo(h, n - 1) <= s {
      i := n - 1;
    } else {
      i := SomeRegion(h, s, n - 1);
    }
  }

  /**
   The table partitions the disc: each address up to the end of the last plain range is in exactly one region,
   and that region is marked encrypted exactly when the sector is in no plain range; no later address is in any.
   */
  lemma Partition(h: seq<bv8>, r: seq<Region>, address: nat) returns (i: nat)
    requires Header(h) && Sorted(h) && TableOf(h, r, 2 * Count(h) - 1)
    ensures var s := address / 2048;
      if s <= LastSector(h) then
        && i < |r| && Covers(r[i], address) && (r[i].encrypted <==> !InPlain(h, s))
        && forall j: nat :: j < |r| && Covers(r[j], address) ==> j == i
      else
        forall j: nat :: j < |r| ==> !Covers(r[j], address)
  {
    hide BeWord, PlainStart, PlainEnd, Hi, Lo, TableOf;
    var n := 2 * Count(h) - 1;
    assert |r| == n by { TableLength(h, r, n); }
    var s := address / 2048;
    Bounds(h, n - 1);
    forall j: nat | j < n ensures Covers(r[j], address) <==> Lo(h, j) <= s <= Hi(h, j) { CoversSector(h, r, n, j, address); }
    if s <= LastSector(h) {
      i := SomeRegion(h, s, n);
      forall j: nat | j < n && Covers(r[j], address) ensures j == i {
        if i < j { RegionsInOrder(h, i, j); } else if j < i { RegionsInOrder(h, j, i); }
      }
      PlainOrNot(h, s, i);
      assert r[i].encrypted == (i % 2 == 1) by { TableParity(h, r, n, i); }
    } else {
      i := 0;
      forall j: nat | j < n ensures Hi(h, j) < s {
        if j < n - 1 { RegionsInOrder(h, j, n - 1); LastRegion(h); }
      }
    }
  }

  lemma TableLength(h: seq<bv8>, r: seq<Region>, n: nat)
    requires Header(h) && n <= 62 && TableOf(h, r, n)
    ensures |r| == n
  {
  }

  lemma TableParity(h: seq<bv8>, r: seq<Region>, n: nat, i: nat)
    requires Header(h) && n <= 62 && TableOf(h, r, n) && i < n
    ensures r[i].encrypted == (i % 2 == 1)
  {
  }

  lemma LastRegion(h: seq<bv8>)
    requires Header(h) && Sorted(h)
    ensures Lo(h, 2 * Count(h) - 2) <= Hi(h, 2 * Count(h) - 2) + 1
  {
    Bounds(h, 2 * Count(h) - 2);
  }

  lemma PlainOrNot(h: seq<bv8>, s: nat, i: nat)
    requires Header(h) && Sorted(h) && i < 2 * Count(h) - 1 && Lo(h, i) <= s <= Hi(h, i)
    ensures i % 2 == 1 <==> !InPlain(h, s)
  {
    hide BeWord, PlainStart, PlainEnd, Hi, Lo;
    Bounds(h, i);
    var k := i / 2;
    if i % 2 == 0 {
      assert Lo(h, 0) == 0 by { FirstRegion(h); }
      assert PlainStart(h, k) <= s <= PlainEnd(h, k);
    } else {
      forall j: nat | j < Count(h) ensures !(PlainStart(h, j) <= s <= PlainEnd(h, j)) {
        if j < k { SortedRanges(h, j, k); }
        if j > k + 1 { SortedRanges(h, k + 1, j); }
      }
    }
  }

  lemma FirstRegion(h: seq<bv8>)
    requires Header(h)
    ensures Lo(h, 0) == 0
  {
  }

  // ---------------------------------------------------------------- sectors

  /** reset_iv: the sector number, big-endian, in the last four bytes. */
  function Iv(lba: nat): (iv: seq<bv8>)
    ensures |iv| == 16
  {
    var w := Wrap32(lba);
    seq(12, _ => 0) + [LbaByte(w, 0), LbaByte(w, 1), LbaByte(w, 2), LbaByte(w, 3)]
  }

  /** Byte `k` of a 32-bit number, the highest first. */
  function LbaByte(w: U32, k: nat): bv8
    requires k < 4
  {
    ByteAt(if k == 0 then w / 0x100_0000 else if k == 1 then w / 0x1_0000 % 0x100 else if k == 2 then w / 0x100 % 0x100 else w % 0x100)
  }

  ghost function OpenSector(keys: seq<State>, lba: nat, s: seq<bv8>): (r: seq<bv8>)
    requires |keys| >= 2 && |s| == 2048
    ensures |r| == 2048
  {
    Decrypted(keys, Iv(lba), s)
  }

  ghost function SealSector(keys: seq<State>, lba: nat, s: seq<bv8>): (r: seq<bv8>)
    requires |keys| >= 2 && |s| == 2048
    ensures |r| == 2048
  {
    Encrypted(keys, Iv(lba), s)
  }

  /** A sector as the console should see it. */
  ghost function ClearSector(keys: seq<State>, h: seq<bv8>, s: nat, sector: seq<bv8>): (r: seq<bv8>)
    requires |keys| >= 2 && Header(h) && Sorted(h) && |sector| == 2048
    ensures |r| == 2048
  {
    if ToOpen(h, s) then OpenSector(keys, s, sector) else sector
  }

  /** The first `n` sectors of the image with every encrypted one decrypted, on its own. */
  ghost function ClearSectors(keys: seq<State>, h: seq<bv8>, image: seq<bv8>, n: nat): (r: seq<bv8>)
    requires |keys| >= 2 && Header(h) && Sorted(h) && n * 2048 <= |image|
    ensures |r| == n * 2048
  {
    if n == 0 then []
    else ClearSectors(keys, h, image, n - 1) + ClearSector(keys, h, n - 1, image[(n - 1) * 2048..n * 2048])
  }

  /** The wholly decrypted image. A last piece shorter than a sector stays as it is. */
  ghost function ClearImage(keys: seq<State>, h: seq<bv8>, image: seq<bv8>): (r: seq<bv8>)
    requires |keys| >= 2 && Header(h) && Sorted(h)
    ensures |r| == |image|
  {
    var n := |image| / 2048;
    ClearSectors(keys, h, image, n) + image[n * 2048..]
  }

  function SectorAt(image: seq<bv8>, k: nat): (x: seq<bv8>)
    requires (k + 1) * 2048 <= |image|
    ensures |x| == 2048
  {
    image[k * 2048..(k + 1) * 2048]
  }

  lemma SectorIs(image: seq<bv8>, k: nat)
    requires (k + 1) * 2048 <= |image|
    ensures SectorAt(image, k) == image[k * 2048..(k + 1) * 2048]
  {
  }

  lemma {:induction false} SectorOfPrefix(keys: seq<State>, h: seq<bv8>, image: seq<bv8>, n: nat, s: nat)
    requires |keys| >= 2 && Header(h) && Sorted(h) && n * 2048 <= |image| && s < n
    ensures ClearSectors(keys, h, image, n)[s * 2048..(s + 1) * 2048] ==
      ClearSector(keys, h, s, image[s * 2048..(s + 1) * 2048])
  {
    hide Sorted, ClearSector;
    if s < n - 1 {
      SectorOfPrefix(keys, h, image, n - 1, s);
      var front := ClearSectors(keys, h, image, n - 1);
      assert ClearSectors(keys, h, image, n)[..(n - 1) * 2048] == front;
      assert ClearSectors(keys, h, image, n)[s * 2048..(s + 1) * 2048] == front[s * 2048..(s + 1) * 2048];
    }
  }

  lemma SectorOfClear(keys: seq<State>, h: seq<bv8>, image: seq<bv8>, s: nat)
    requires |keys| >= 2 && Header(h) && Sorted(h) && (s + 1) * 2048 <= |image|
    ensures SectorAt(ClearImage(keys, h, image), s) == ClearSector(keys, h, s, SectorAt(image, s))
  {
    hide Sorted, ClearSector, ClearSectors;
    var n := |image| / 2048;
    SectorOfPrefix(keys, h, image, n, s);
    var front := ClearSectors(keys, h, image, n);
    assert ClearImage(keys, h, image)[s * 2048..(s + 1) * 2048] == front[s * 2048..(s + 1) * 2048];
  }

  // ---------------------------------------------------------------- decrypting a buffer

  /** The first `n` sectors of a buffer decrypted, the first with number `lba`. */
  ghost function OpenRun(keys: seq<State>, lba: nat, data: seq<bv8>, n: nat): (r: seq<bv8>)
    requires |keys| >= 2 && n * 2048 <= |data|
    ensures |r| == n * 2048
  {
    if n == 0 then []
    else OpenRun(keys, lba, data, n - 1) + OpenSector(keys, lba + n - 1, data[(n - 1) * 2048..n * 2048])
  }

  /** reset_iv into the 16 bytes that decrypt_data keeps for it. */
  method ResetIv(iv: array<bv8>, lba: U32)
    requires iv.Length == 16
    modifies iv
    ensures (forall k :: 0 <= k < 12 ==> iv[k] == 0) && BeWord(iv[..], 12) == lba
    ensures Ix(iv[12]) == lba / 0x100_0000 && Ix(iv[13]) == lba / 0x1_0000 % 0x100
    ensures Ix(iv[14]) == lba / 0x100 % 0x100 && Ix(iv[15]) == lba % 0x100
    ensures iv[..] == Iv(lba)
  {
    hide LbaByte, BeWord, Iv;
    for i := 0 to 12
      invariant forall k :: 0 <= k < i ==> iv[k] == 0
    {
      iv[i] := 0;
    }
    iv[12] := LbaByte(lba, 0);
    iv[13] := LbaByte(lba, 1);
    iv[14] := LbaByte(lba, 2);
    iv[15] := LbaByte(lba, 3);
    IvIs(iv[..], lba);
    IvMeans(lba);
    Wrap32Add(lba, 0);
  }

  lemma IvIs(s: seq<bv8>, lba: U32)
    requires |s| == 16 && forall k :: 0 <= k < 12 ==> s[k] == 0
    requires s[12] == LbaByte(lba, 0) && s[13] == LbaByte(lba, 1) && s[14] == LbaByte(lba, 2) && s[15] == LbaByte(lba, 3)
    ensures s == Iv(lba)
  {
    assert Wrap32(lba) == lba;
    hide LbaByte, Wrap32;
    TwelveAndFour(s, 0, LbaByte(lba, 0), LbaByte(lba, 1), LbaByte(lba, 2), LbaByte(lba, 3));
  }

  lemma TwelveAndFour<T>(s: seq<T>, z: T, a: T, b: T, c: T, d: T)
    requires |s| == 16 && forall k :: 0 <= k < 12 ==> s[k] == z
    requires s[12] == a && s[13] == b && s[14] == c && s[15] == d
    ensures s == seq(12, _ => z) + [a, b, c, d]
  {
  }

  /**
   The IV is the sector number as a 128-bit big-endian number, of which 32 bits are kept: twelve zeros,
   then its digits to base 256, the highest first.
   */
  lemma IvMeans(lba: nat)
    ensures (forall k :: 0 <= k < 12 ==> Iv(lba)[k] == 0) && BeWord(Iv(lba), 12) == Wrap32(lba)
    ensures Ix(Iv(lba)[12]) == Wrap32(lba) / 0x100_0000 && Ix(Iv(lba)[13]) == Wrap32(lba) / 0x1_0000 % 0x100
    ensures Ix(Iv(lba)[14]) == Wrap32(lba) / 0x100 % 0x100 && Ix(Iv(lba)[15]) == Wrap32(lba) % 0x100
  {
    hide ByteAt, Ix, Wrap32;
    var w := Wrap32(lba);
    assert Ix(LbaByte(w, 0)) == w / 0x100_0000 && Ix(LbaByte(w, 1)) == w / 0x1_0000 % 0x100;
    assert Ix(LbaByte(w, 2)) == w / 0x100 % 0x100 && Ix(LbaByte(w, 3)) == w % 0x100;
    hide LbaByte;
    Digits256(w);
  }

  lemma Digits256(w: U32)
    ensures w == w % 0x100 + 256 * (w / 0x100 % 0x100 + 256 * (w / 0x1_0000 % 0x100 + 256 * (w / 0x100_0000)))
  {
    assert w / 0x1_0000 == w / 0x100 / 0x100 && w / 0x100_0000 == w / 0x100 / 0x100 / 0x100;
  }

  /** So two sectors share an IV exactly when their numbers agree modulo 32 bits. */
  lemma IvDistinct(a: nat, b: nat)
    ensures Iv(a) == Iv(b) <==> Wrap32(a) == Wrap32(b)
  {
    hide BeWord, LbaByte;
    IvMeans(a);
    IvMeans(b);
  }

  lemma IvWraps(lba: nat, i: nat)
    ensures Iv(Wrap32(Wrap32(lba) + i)) == Iv(lba + i)
  {
    Wrap32Add(lba, i);
    Wrap32Add(Wrap32(lba + i), 0);
  }

  /** decrypt_data: each sector with its own IV, in place. */
  method DecryptData(t: Tables, ctx: Context, iv: array<bv8>, data: array<bv8>, sectorCount: nat, startLba: U32, ghost lba: nat,
                     ghost keys: seq<State>)
    requires t.Valid() && Usable(ctx, keys) && iv.Length == 16 && sectorCount * 2048 <= data.Length && startLba == Wrap32(lba)
    requires iv !in {data, t.fsb, t.rsb} && data !in {t.fsb, t.rsb}
    modifies data, iv
    ensures data[..] == OpenRun(keys, lba, old(data[..]), sectorCount) + old(data[..])[sectorCount * 2048..]
  {
    hide KeysHeld, SBoxesHeld, TableHeld, XPower, Iv, Decrypted, OpenRun, OpenedTo;
    ghost var was := data[..];
    NoneDecrypted(keys, lba, was);
    var i: nat := 0;
    while i < sectorCount
      invariant t.Valid() && Usable(ctx, keys)
      invariant i <= sectorCount && OpenedTo(keys, lba, was, data[..], i)
    {
      DecryptSector(t, ctx, iv, data, i, Wrap32(startLba + i), lba, was, keys);
      i := i + 1;
    }
    AllOpened(keys, lba, was, data[..], sectorCount);
  }

  /** The first `i` sectors of a buffer are decrypted, the rest is as it was. */
  ghost predicate OpenedTo(keys: seq<State>, lba: nat, was: seq<bv8>, now: seq<bv8>, i: nat)
    requires |keys| >= 2
  {
    i * 2048 <= |was| && now == OpenRun(keys, lba, was, i) + was[i * 2048..]
  }

  lemma AllOpened(keys: seq<State>, lba: nat, was: seq<bv8>, now: seq<bv8>, n: nat)
    requires |keys| >= 2 && OpenedTo(keys, lba, was, now, n)
    ensures n * 2048 <= |was| && now == OpenRun(keys, lba, was, n) + was[n * 2048..]
  {
  }

  lemma NoneDecrypted(keys: seq<State>, lba: nat, was: seq<bv8>)
    requires |keys| >= 2
    ensures OpenedTo(keys, lba, was, was, 0)
  {
  }

  method DecryptSector(t: Tables, ctx: Context, iv: array<bv8>, data: array<bv8>, i: nat, w: U32, ghost lba: nat,
                       ghost was: seq<bv8>, ghost keys: seq<State>)
    requires t.Valid() && Usable(ctx, keys) && iv.Length == 16 && (i + 1) * 2048 <= data.Length && w == Wrap32(Wrap32(lba) + i)
    requires iv !in {data, t.fsb, t.rsb} && data !in {t.fsb, t.rsb}
    requires |was| == data.Length && OpenedTo(keys, lba, was, data[..], i)
    modifies data, iv
    ensures OpenedTo(keys, lba, was, data[..], i + 1)
  {
    hide KeysHeld, SBoxesHeld, TableHeld, XPower, Iv, Decrypted, NextIv, OpenRun;
    var at := i * 2048;
    IvWraps(lba, i);
    ResetIv(iv, w);
    ghost var run, now := OpenRun(keys, lba, was, i), data[..];
    NextPiece(now, run, was, at, 2048);
    var _ := CryptCbc(t, ctx, true, 2048, iv, data, at, data, at, keys);
    ghost var b := OpenSector(keys, lba + i, was[at..at + 2048]);
    ReplacePiece(now, run, was, at, b);
    OpenNext(keys, lba, was, i);
  }

  lemma OpenNext(keys: seq<State>, lba: nat, was: seq<bv8>, i: nat)
    requires |keys| >= 2 && (i + 1) * 2048 <= |was|
    ensures OpenRun(keys, lba, was, i + 1) == OpenRun(keys, lba, was, i) + OpenSector(keys, lba + i, was[i * 2048..i * 2048 + 2048])
  {
    hide OpenSector;
  }

  lemma ReplacePiece<T>(now: seq<T>, run: seq<T>, was: seq<T>, at: nat, b: seq<T>)
    requires |run| == at && at + |b| <= |was| && now == run + was[at..]
    ensures now[..at] + b + now[at + |b|..] == (run + b) + was[at + |b|..]
  {
    assert now[..at] == run;
    assert now[at + |b|..] == was[at + |b|..];
  }

  // ---------------------------------------------------------------- reading

  /** What the search through the table finds for an address: the flag of the first region with it, from `i` on. */
  function Flagged(r: seq<Region>, address: int, i: nat): bool
    requires i <= |r|
    decreases |r| - i
  {
    i < |r| && if Covers(r[i], address) then r[i].encrypted else Flagged(r, address, i + 1)
  }

  /** Data read at `position`, after the program has decrypted all of it, or nothing, as that address says. */
  ghost function Handled(keys: seq<State>, r: seq<Region>, position: nat, data: seq<bv8>, ret: nat): (d: seq<bv8>)
    requires |keys| >= 2 && ret <= |data|
    ensures |d| == |data|
  {
    if Flagged(r, position, 0) then OpenRun(keys, position / 2048, data, ret / 2048) + data[ret / 2048 * 2048..] else data
  }

  /** The fields of `File` that serve a Redump image, whose header gave `regions`. */
  class DiscFile {
    const image: seq<bv8>
    const header: seq<bv8>
    const regions: seq<Region>
    const tables: Tables
    const aes: Context
    const iv: array<bv8>
    ghost const keys: seq<State>
    var pos: nat
    var faults: nat // host reads that failed or stopped short

    ghost predicate Valid()
      reads this, aes, aes.buf, iv, tables.fsb, tables.rsb, tables.ft, tables.rt, tables.rcon
    {
      && Header(header) && (if CountOk(header) then TableOf(header, regions, 2 * Count(header) - 1) else regions == [])
      && tables.Valid() && Usable(aes, keys) && iv.Length == 16 && iv !in {tables.fsb, tables.rsb}
    }

    /**
     open, for an image with a key: the schedule for decryption and the region table of the first two sectors,
     which count as zeros when the image is shorter than that. A count that is refused returns before the
     position is restored.
     */
    constructor (t: Tables, image: seq<bv8>, key: seq<bv8>)
      requires t.Valid() && |key| == 16
      ensures Valid() && this.image == image && tables == t && faults == 0
      ensures pos == if |image| >= 2 * 2048 && !CountOk(header) then 2 * 2048 else 0
      ensures header == if |image| >= 2 * 2048 then image[..2 * 2048] else seq(2 * 2048, _ => 0)
      ensures keys == InverseKeys(RoundKeys(key))
      ensures fresh(aes) && fresh(aes.buf) && fresh(iv)
    {
      hide KeysHeld, TableOf, SBoxesHeld, TableHeld, XPower, CountOk;
      var ctx := new Context();
      var ret := SetKeyDec(t, ctx, key, 128);
      var h := if |image| >= 2 * 2048 then image[..2 * 2048] else seq(2 * 2048, _ => 0);
      var table := BuildTable(h);
      var v := new bv8[16];
      this.image, header, regions, tables, aes, iv := image, h, table, t, ctx, v;
      pos, faults := if |image| >= 2 * 2048 && !CountOk(h) then 2 * 2048 else 0, 0;
      keys := InverseKeys(RoundKeys(key));
    }

    /** read_file on the image: the position moves by what is returned, which less than asked is a fault inside the image. */
    method HostRead(n: nat) returns (ret: int)
      modifies this`pos, this`faults
      ensures -1 <= ret <= (if old(pos) >= |image| then 0 else Min(n, |image| - old(pos))) && pos == old(pos) + (if ret < 0 then 0 else ret)
      ensures faults >= old(faults)
      ensures faults == old(faults) ==> ret == if old(pos) >= |image| then 0 else Min(n, |image| - old(pos))
    {
      var most := if pos >= |image| then 0 else Min(n, |image| - pos);
      ret := most;
      if * {
        faults := faults + 1;
        ret :| -1 <= ret <= most;
      }
      pos := pos + if ret < 0 then 0 else ret;
    }

    /**
     read: what the host returns, all of it decrypted or none as the table says of its first address. When it
     starts at a sector, returns whole sectors or what is left of the image, and stays in one region, that is the
     slice of the wholly decrypted image, whatever was read before. After the last plain range nothing is in a
     region and nothing is decrypted, which is what the decrypted image says too.
     */
    method Read(buf: array<bv8>, n: nat) returns (ret: int)
      requires Valid() && n <= buf.Length && buf !in {iv, tables.fsb, tables.rsb}
      modifies this`pos, this`faults, buf, iv
      ensures Valid()
      ensures -1 <= ret <= (if old(pos) >= |image| then 0 else Min(n, |image| - old(pos))) && pos == old(pos) + (if ret < 0 then 0 else ret)
      ensures faults >= old(faults)
      ensures faults == old(faults) ==> ret == if old(pos) >= |image| then 0 else Min(n, |image| - old(pos))
      ensures ret > 0 ==> buf[..] == Handled(keys, regions, old(pos), image[old(pos)..old(pos) + ret] + old(buf[ret..]), ret)
      ensures ret <= 0 ==> buf[..] == old(buf[..])
      ensures ret > 0 && Sorted(header) && Whole(old(pos), ret, |image|) && OneRegion(header, old(pos) / 2048, ret / 2048) ==>
        buf[..ret] == ClearImage(keys, header, image)[old(pos)..old(pos) + ret] && buf[ret..] == old(buf[ret..])
    {
      hide KeysHeld, Sorted, TableOf, SBoxesHeld, TableHeld, XPower, ClearImage, OpenRun, OneRegion, Whole, CountOk, Flagged;
      var position := pos;
      ret := HostRead(n);
      if ret <= 0 { return; }
      ghost var was := buf[ret..];
      Store(buf, image[position..position + ret]);
      ghost var data := buf[..];
      var encrypted := Search(position);
      if encrypted {
        DecryptData(tables, aes, iv, buf, ret / 2048, Wrap32(position / 2048), position / 2048, keys);
      }
      assert buf[..] == Handled(keys, regions, position, data, ret);
      HandledIsClear(keys, header, regions, image, position, ret, was);
    }

    /** The search through the region table. */
    method Search(position: nat) returns (encrypted: bool)
      ensures encrypted == Flagged(regions, position, 0)
    {
      var i: nat := 0;
      while i < |regions|
        invariant i <= |regions| && Flagged(regions, position, i) == Flagged(regions, position, 0)
      {
        if regions[i].first <= position <= regions[i].last {
          return regions[i].encrypted;
        }
        i := i + 1;
      }
      encrypted := false;
    }
  }

  /** A read of whole sectors of one kind, as it was handled, is the slice of the decrypted image. */
  lemma HandledIsClear(keys: seq<State>, h: seq<bv8>, r: seq<Region>, image: seq<bv8>, position: nat, ret: nat, rest: seq<bv8>)
    requires |keys| >= 2 && Header(h) && (if CountOk(h) then TableOf(h, r, 2 * Count(h) - 1) else r == [])
    requires 0 < ret && position + ret <= |image|
    ensures Sorted(h) && Whole(position, ret, |image|) && OneRegion(h, position / 2048, ret / 2048) ==>
      var d := Handled(keys, r, position, image[position..position + ret] + rest, ret);
      d[..ret] == ClearImage(keys, h, image)[position..position + ret] && d[ret..] == rest
  {
    hide Sorted, TableOf, ClearImage, OpenRun, OneRegion, Flagged, CountOk, AllAlike, Count;
    if Sorted(h) && Whole(position, ret, |image|) && OneRegion(h, position / 2048, ret / 2048) {
      assert TableOf(h, r, 2 * Count(h) - 1) by { CountIsOk(h); }
      WhichRegion(h, r, position);
      KindsAlike(keys, h, image, position / 2048, ret / 2048);
      var data := image[position..position + ret] + rest;
      ReadIsClear(keys, h, image, position, ret, data, Handled(keys, r, position, data, ret), Flagged(r, position, 0));
    }
  }

  lemma CountIsOk(h: seq<bv8>)
    requires Header(h) && Sorted(h)
    ensures CountOk(h)
  {
  }

  /** Partition, as the search through the table uses it. */
  lemma WhichRegion(h: seq<bv8>, r: seq<Region>, address: nat)
    requires Header(h) && Sorted(h) && TableOf(h, r, 2 * Count(h) - 1)
    ensures Flagged(r, address, 0) <==> ToOpen(h, address / 2048)
  {
    hide TableOf, Covers, Count;
    var i := Partition(h, r, address);
    FlaggedIs(r, address, 0);
  }

  lemma {:induction false} FlaggedIs(r: seq<Region>, address: int, i: nat)
    requires i <= |r|
    ensures forall j: nat :: i <= j < |r| && Covers(r[j], address) && (forall k: nat :: i <= k < |r| && Covers(r[k], address) ==> k == j) ==>
      (Flagged(r, address, i) <==> r[j].encrypted)
    ensures (forall j: nat :: i <= j < |r| ==> !Covers(r[j], address)) ==> !Flagged(r, address, i)
    decreases |r| - i
  {
    hide Covers;
    if i < |r| { FlaggedIs(r, address, i + 1); }
  }

  method Store(buf: array<bv8>, x: seq<bv8>)
    requires |x| <= buf.Length
    modifies buf
    ensures buf[..] == x + old(buf[|x|..])
  {
    for i := 0 to |x|
      invariant buf[..i] == x[..i] && buf[i..] == old(buf[i..])
    {
      assert buf[i..][1..] == buf[i + 1..] && old(buf[i..])[1..] == old(buf[i + 1..]);
      buf[i] := x[i];
    }
  }

  /** Decrypting sector `k` or leaving it, as the kind of sector `s` has it, is what the decrypted image has there. */
  ghost predicate Alike(keys: seq<State>, h: seq<bv8>, s: nat, k: nat, x: seq<bv8>)
    requires |keys| >= 2 && Header(h) && Sorted(h) && |x| == 2048
  {
    ClearSector(keys, h, k, x) == if ToOpen(h, s) then OpenSector(keys, k, x) else x
  }

  ghost predicate AllAlike(keys: seq<State>, h: seq<bv8>, image: seq<bv8>, s: nat, m: nat)
    requires |keys| >= 2 && Header(h) && Sorted(h) && (s + m) * 2048 <= |image|
  {
    forall k: nat :: s <= k < s + m ==> Alike(keys, h, s, k, SectorAt(image, k))
  }

  /** Sectors of one kind are. */
  lemma KindsAlike(keys: seq<State>, h: seq<bv8>, image: seq<bv8>, s: nat, m: nat)
    requires |keys| >= 2 && Header(h) && Sorted(h) && (s + m) * 2048 <= |image| && OneRegion(h, s, m)
    ensures AllAlike(keys, h, image, s, m)
  {
    hide Sorted, ToOpen, OpenSector;
  }

  /** `m` sectors, all decrypted or all left. */
  ghost function Treated(keys: seq<State>, encrypted: bool, s: nat, data: seq<bv8>, m: nat): (r: seq<bv8>)
    requires |keys| >= 2 && m * 2048 <= |data|
    ensures |r| == m * 2048
  {
    if encrypted then OpenRun(keys, s, data, m) else data[..m * 2048]
  }

  lemma OneMoreTreated(keys: seq<State>, encrypted: bool, s: nat, data: seq<bv8>, m: nat)
    requires |keys| >= 2 && (m + 1) * 2048 <= |data|
    ensures Treated(keys, encrypted, s, data, m + 1)
         == Treated(keys, encrypted, s, data, m) + if encrypted then OpenSector(keys, s + m, SectorAt(data, m)) else SectorAt(data, m)
  {
    hide OpenSector;
    if !encrypted { assert data[..(m + 1) * 2048] == data[..m * 2048] + data[m * 2048..(m + 1) * 2048]; }
  }

  lemma SliceJoin<T>(s: seq<T>, a: nat, b: nat, c: nat)
    requires a <= b <= c <= |s|
    ensures s[a..c] == s[a..b] + s[b..c]
  {
  }

  lemma SameSector(data: seq<bv8>, image: seq<bv8>, s: nat, m: nat)
    requires 0 < m && (s + m) * 2048 <= |image| && m * 2048 <= |data|
    requires data[..m * 2048] == image[s * 2048..(s + m) * 2048]
    ensures SectorAt(data, m - 1) == SectorAt(image, s + m - 1)
  {
    EndPiece(data, image, s * 2048, m * 2048, (m - 1) * 2048);
  }

  /** A run of sectors, all decrypted or all left as the first of them says, against the decrypted image. */
  lemma {:induction false} ClearRun(keys: seq<State>, h: seq<bv8>, image: seq<bv8>, s: nat, m: nat, data: seq<bv8>)
    requires |keys| >= 2 && Header(h) && Sorted(h) && (s + m) * 2048 <= |image| && m * 2048 <= |data|
    requires AllAlike(keys, h, image, s, m)
    requires data[..m * 2048] == image[s * 2048..(s + m) * 2048]
    ensures ClearImage(keys, h, image)[s * 2048..(s + m) * 2048] == Treated(keys, ToOpen(h, s), s, data, m)
  {
    hide Sorted, ToOpen, OpenSector, ClearSector, ClearImage, Treated, SectorAt;
    var clear := ClearImage(keys, h, image);
    if m > 0 {
      var a, b, c := s * 2048, (s + m - 1) * 2048, (s + m) * 2048;
      FrontPiece(data, image, a, m * 2048, (m - 1) * 2048);
      ClearRun(keys, h, image, s, m - 1, data);
      SectorOfClear(keys, h, image, s + m - 1);
      SameSector(data, image, s, m);
      SectorIs(clear, s + m - 1);
      assert Alike(keys, h, s, s + m - 1, SectorAt(image, s + m - 1));
      OneMoreTreated(keys, ToOpen(h, s), s, data, m - 1);
      SliceJoin(clear, a, b, c);
    } else {
      assert Treated(keys, ToOpen(h, s), s, data, 0) == [];
    }
  }

  lemma FrontPiece<T>(data: seq<T>, image: seq<T>, a: nat, n: nat, k: nat)
    requires k <= n <= |data| && a + n <= |image| && data[..n] == image[a..a + n]
    ensures data[..k] == image[a..a + k]
  {
    SliceOfSlice(image, a, a + n, 0, k);
    SliceOfSlice(data, 0, n, 0, k);
  }

  lemma EndPiece<T>(data: seq<T>, image: seq<T>, a: nat, n: nat, k: nat)
    requires k <= n <= |data| && a + n <= |image| && data[..n] == image[a..a + n]
    ensures data[k..n] == image[a + k..a + n]
  {
    SliceOfSlice(image, a, a + n, k, n);
    SliceOfSlice(data, 0, n, k, n);
  }

  lemma TailIsClear(keys: seq<State>, h: seq<bv8>, image: seq<bv8>)
    requires |keys| >= 2 && Header(h) && Sorted(h)
    ensures var at := |image| / 2048 * 2048; ClearImage(keys, h, image)[at..|image|] == image[at..|image|]
  {
    hide Sorted, ClearSectors;
  }

  /** A read that starts at a sector and ends at one, or at the end of the image. */
  predicate Whole(position: nat, ret: nat, size: nat) {
    position % 2048 == 0 && position + ret <= size && (ret % 2048 == 0 || position + ret == size)
  }

  /** What is read, decrypted or not as the first sector says, is what the decrypted image has there. */
  lemma ReadIsClear(keys: seq<State>, h: seq<bv8>, image: seq<bv8>, position: nat, ret: nat, data: seq<bv8>, after: seq<bv8>, encrypted: bool)
    requires |keys| >= 2 && Header(h) && Sorted(h)
    requires Whole(position, ret, |image|) && 0 < ret <= |data|
    requires AllAlike(keys, h, image, position / 2048, ret / 2048)
    requires data[..ret] == image[position..position + ret]
    requires encrypted == ToOpen(h, position / 2048)
    requires var m := ret / 2048;
      after == if encrypted then OpenRun(keys, position / 2048, data, m) + data[m * 2048..] else data
    ensures after[..ret] == ClearImage(keys, h, image)[position..position + ret] && after[ret..] == data[ret..]
  {
    hide Sorted, ToOpen, OpenRun, ClearImage, AllAlike;
    var s, m := position / 2048, ret / 2048;
    var clear := ClearImage(keys, h, image);
    FrontPiece(data, image, position, ret, m * 2048);
    ClearRun(keys, h, image, s, m, data);
    TailPart(keys, h, image, position, ret, m * 2048, data);
    TwoPieces(after, clear, position, Treated(keys, encrypted, s, data, m), data, m * 2048, ret);
  }

  /** A piece shorter than a sector can only be the end of the image. */
  lemma TailPart(keys: seq<State>, h: seq<bv8>, image: seq<bv8>, position: nat, ret: nat, whole: nat, data: seq<bv8>)
    requires |keys| >= 2 && Header(h) && Sorted(h)
    requires Whole(position, ret, |image|) && 0 < ret <= |data|
    requires whole <= ret && whole == ret / 2048 * 2048
    requires data[..ret] == image[position..position + ret]
    ensures ClearImage(keys, h, image)[position + whole..position + ret] == data[whole..ret]
  {
    hide Sorted, ClearImage;
    if whole < ret {
      assert position + ret == |image| && |image| / 2048 * 2048 == position + whole;
      TailIsClear(keys, h, image);
      EndPiece(data, image, position, ret, whole);
    }
  }

  lemma TwoPieces<T>(after: seq<T>, clear: seq<T>, p: nat, front: seq<T>, data: seq<T>, k: nat, n: nat)
    requires |front| == k <= n <= |data| && p + n <= |clear|
    requires after == front + data[k..] || (after == data && front == data[..k])
    requires clear[p..p + k] == front && clear[p + k..p + n] == data[k..n]
    ensures after[..n] == clear[p..p + n] && after[n..] == data[n..]
  {
    assert clear[p..p + n] == clear[p..p + k] + clear[p + k..p + n];
    assert after[..n] == front + data[k..n];
  }

  /** `n` sectors from `s` on: all encrypted, or none of them. */
  ghost predicate OneRegion(h: seq<bv8>, s: nat, n: nat)
    requires Header(h) && Sorted(h)
  {
    forall k: nat :: s <= k < s + n ==> (ToOpen(h, k) <==> ToOpen(h, s))
  }

  ghost predicate ToOpen(h: seq<bv8>, s: nat)
    requires Header(h) && Sorted(h)
  {
    s <= LastSector(h) && !InPlain(h, s)
  }

  // ---------------------------------------------------------------- reads over regions of both kinds

  /** A sector of zeros but for one byte of its last block but one. */
  function AlmostZero(v: bv8): (x: seq<bv8>)
    ensures |x| == 2048 && x[2048 - 16] == 0
  {
    seq(2048, i => if i == 2048 - 32 then v else 0)
  }

  lemma OpenedByte(keys: seq<State>, lba: nat, v: bv8)
    requires |keys| >= 2
    ensures OpenSector(keys, lba, AlmostZero(v))[2048 - 16] == Crypt(keys, true, seq(16, _ => 0))[0] ^ v
  {
    hide Crypt, Iv;
    var x := AlmostZero(v);
    assert x[2048 - 16..] == seq(16, _ => 0);
  }

  lemma XorDiffers(d: bv8)
    ensures d ^ 0 != d ^ 1
  {
  }

  /** Decryption changes some sector, under any keys and any sector number. */
  lemma SomeSectorChanges(keys: seq<State>, lba: nat) returns (x: seq<bv8>)
    requires |keys| >= 2
    ensures |x| == 2048 && OpenSector(keys, lba, x) != x
  {
    hide OpenSector, AlmostZero;
    OpenedByte(keys, lba, 0);
    OpenedByte(keys, lba, 1);
    XorDiffers(Crypt(keys, true, seq(16, _ => 0))[0]);
    x := if OpenSector(keys, lba, AlmostZero(0)) != AlmostZero(0) then AlmostZero(0) else AlmostZero(1);
  }

  lemma {:induction false} SectorOfRun(keys: seq<State>, lba: nat, data: seq<bv8>, n: nat, i: nat)
    requires |keys| >= 2 && n * 2048 <= |data| && i < n
    ensures (i + 1) * 2048 <= n * 2048
    ensures SectorAt(OpenRun(keys, lba, data, n), i) == OpenSector(keys, lba + i, SectorAt(data, i))
  {
    hide OpenSector, OpenRun;
    OpenNext(keys, lba, data, n - 1);
    var front, last := OpenRun(keys, lba, data, n - 1), OpenSector(keys, lba + n - 1, SectorAt(data, n - 1));
    if i < n - 1 {
      SectorOfRun(keys, lba, data, n - 1, i);
      FrontSlice(front, last, i * 2048, (i + 1) * 2048);
    } else {
      assert (front + last)[|front|..|front| + |last|] == last;
    }
  }

  /** An image with the header `h`: zeros behind it, but for sector `k`. */
  function WithSector(h: seq<bv8>, len: nat, k: nat, x: seq<bv8>): (image: seq<bv8>)
    requires Header(h) && |x| == 2048 && 2 <= k && (k + 1) * 2048 <= len
    ensures |image| == len && image[..2 * 2048] == h && SectorAt(image, k) == x
  {
    h + seq((k - 2) * 2048, _ => 0) + x + seq(len - (k + 1) * 2048, _ => 0)
  }

  /** Sector `j` of what a read returns. */
  lemma HandledSector(keys: seq<State>, r: seq<Region>, position: nat, data: seq<bv8>, ret: nat, j: nat)
    requires |keys| >= 2 && ret <= |data| && j < ret / 2048
    ensures (j + 1) * 2048 <= ret
    ensures Handled(keys, r, position, data, ret)[j * 2048..(j + 1) * 2048] ==
      if Flagged(r, position, 0) then OpenSector(keys, position / 2048 + j, SectorAt(data, j)) else SectorAt(data, j)
  {
    hide Flagged, OpenSector, OpenRun;
    var m := ret / 2048;
    if Flagged(r, position, 0) {
      SectorOfRun(keys, position / 2048, data, m, j);
      FrontSlice(OpenRun(keys, position / 2048, data, m), data[m * 2048..], j * 2048, (j + 1) * 2048);
    }
  }

  lemma FrontSlice<T>(a: seq<T>, z: seq<T>, lo: nat, hi: nat)
    requires lo <= hi <= |a|
    ensures (a + z)[lo..hi] == a[lo..hi]
  {
  }

  /** Sectors of a slice that begins at sector `s`. */
  lemma SectorOfSlice(image: seq<bv8>, s: nat, ret: nat, j: nat)
    requires s * 2048 + ret <= |image| && j < ret / 2048
    ensures (s + j + 1) * 2048 <= |image| && SectorAt(image[s * 2048..s * 2048 + ret], j) == SectorAt(image, s + j)
  {
    SliceOfSlice(image, s * 2048, s * 2048 + ret, j * 2048, (j + 1) * 2048);
  }

  /** Sector `j` of what a read returns, and of what the decrypted image has there. */
  lemma SectorRead(keys: seq<State>, h: seq<bv8>, r: seq<Region>, image: seq<bv8>, position: nat, ret: nat, j: nat)
    requires |keys| >= 2 && Header(h) && Sorted(h) && TableOf(h, r, 2 * Count(h) - 1) && Whole(position, ret, |image|)
    requires j < ret / 2048
    ensures (j + 1) * 2048 <= ret && (position / 2048 + j + 1) * 2048 <= |image|
    ensures SectorAt(Handled(keys, r, position, image[position..position + ret], ret), j) ==
      var x, s := SectorAt(image, position / 2048 + j), position / 2048; if ToOpen(h, s) then OpenSector(keys, s + j, x) else x
    ensures SectorAt(ClearImage(keys, h, image)[position..position + ret], j) ==
      ClearSector(keys, h, position / 2048 + j, SectorAt(image, position / 2048 + j))
  {
    hide TableOf, Count, ToOpen, OpenSector, ClearImage, ClearSector, Handled, Flagged, Sorted, SectorAt;
    var s := position / 2048;
    WhichRegion(h, r, position);
    HandledSector(keys, r, position, image[position..position + ret], ret, j);
    SectorOfSlice(image, s, ret, j);
    SectorOfSlice(ClearImage(keys, h, image), s, ret, j);
    SectorOfClear(keys, h, image, s + j);
    SectorIs(Handled(keys, r, position, image[position..position + ret], ret), j);
  }

  /** The bytes that a read returns are those of the decrypted image. */
  ghost predicate ReadRight(keys: seq<State>, h: seq<bv8>, r: seq<Region>, image: seq<bv8>, position: nat, ret: nat)
    requires |keys| >= 2 && Header(h) && Sorted(h) && position + ret <= |image|
  {
    Handled(keys, r, position, image[position..position + ret], ret) == ClearImage(keys, h, image)[position..position + ret]
  }

  lemma AlikeReadsRight(keys: seq<State>, h: seq<bv8>, r: seq<Region>, image: seq<bv8>, position: nat, ret: nat)
    requires |keys| >= 2 && Header(h) && Sorted(h) && TableOf(h, r, 2 * Count(h) - 1) && Whole(position, ret, |image|) && 0 < ret
    requires AllAlike(keys, h, image, position / 2048, ret / 2048)
    ensures ReadRight(keys, h, r, image, position, ret)
  {
    hide TableOf, Count, ToOpen, ClearImage, OpenRun, Sorted, AllAlike, Flagged;
    WhichRegion(h, r, position);
    var data := image[position..position + ret];
    var d := Handled(keys, r, position, data, ret);
    ReadIsClear(keys, h, image, position, ret, data, d, Flagged(r, position, 0));
    assert d[..ret] == d;
  }

  lemma RightReadsAlike(keys: seq<State>, h: seq<bv8>, r: seq<Region>, image: seq<bv8>, position: nat, ret: nat, j: nat)
    requires |keys| >= 2 && Header(h) && Sorted(h) && TableOf(h, r, 2 * Count(h) - 1) && Whole(position, ret, |image|)
    requires ReadRight(keys, h, r, image, position, ret) && j < ret / 2048
    ensures (position / 2048 + j + 1) * 2048 <= |image|
    ensures Alike(keys, h, position / 2048, position / 2048 + j, SectorAt(image, position / 2048 + j))
  {
    hide TableOf, Count, ToOpen, ClearImage, ClearSector, OpenSector, Handled, Sorted, SectorAt;
    SectorRead(keys, h, r, image, position, ret, j);
  }

  /** For one image: a read of whole sectors is right if and only if it treats every sector as the decrypted image does. */
  lemma ReadRightIs(keys: seq<State>, h: seq<bv8>, r: seq<Region>, image: seq<bv8>, position: nat, ret: nat)
    requires |keys| >= 2 && Header(h) && Sorted(h) && TableOf(h, r, 2 * Count(h) - 1) && Whole(position, ret, |image|) && 0 < ret
    ensures (position / 2048 + ret / 2048) * 2048 <= |image|
    ensures ReadRight(keys, h, r, image, position, ret) <==> AllAlike(keys, h, image, position / 2048, ret / 2048)
  {
    hide TableOf, Count, Sorted, ReadRight, Alike, SectorAt;
    var s, m := position / 2048, ret / 2048;
    if AllAlike(keys, h, image, s, m) {
      AlikeReadsRight(keys, h, r, image, position, ret);
    } else if ReadRight(keys, h, r, image, position, ret) {
      forall k: nat | s <= k < s + m ensures Alike(keys, h, s, k, SectorAt(image, k)) {
        RightReadsAlike(keys, h, r, image, position, ret, k - s);
      }
    }
  }

  /** Sector `k` is of the kind of `s`; or it is sector 1, whose contents the header fixes, and decryption happens not to change it. */
  ghost predicate Harmless(keys: seq<State>, h: seq<bv8>, s: nat, k: nat)
    requires |keys| >= 2 && Header(h) && Sorted(h)
  {
    (ToOpen(h, k) <==> ToOpen(h, s)) || (k == 1 && OpenSector(keys, 1, h[2048..]) == h[2048..])
  }

  lemma FirstIsPlain(h: seq<bv8>)
    requires Header(h) && Sorted(h)
    ensures !ToOpen(h, 0)
  {
    hide BeWord;
    assert PlainStart(h, 0) <= 0 <= PlainEnd(h, 0);
  }

  lemma HeaderSectors(h: seq<bv8>, image: seq<bv8>)
    requires Header(h) && 2 * 2048 <= |image| && image[..2 * 2048] == h
    ensures SectorAt(image, 1) == h[2048..]
  {
  }

  /** The same sectors with the kinds of the table: whatever the image holds, or for some image not. */
  lemma HarmlessAlike(keys: seq<State>, h: seq<bv8>, image: seq<bv8>, s: nat, k: nat)
    requires |keys| >= 2 && Header(h) && Sorted(h) && s <= k && (k + 1) * 2048 <= |image|
    requires 2 * 2048 <= |image| && image[..2 * 2048] == h && Harmless(keys, h, s, k)
    ensures Alike(keys, h, s, k, SectorAt(image, k))
  {
    hide Sorted, ToOpen, OpenSector;
    HeaderSectors(h, image);
  }

  lemma SomeImageNotAlike(keys: seq<State>, h: seq<bv8>, s: nat, k: nat, len: nat) returns (image: seq<bv8>)
    requires |keys| >= 2 && Header(h) && Sorted(h) && s <= k && (k + 1) * 2048 <= len && 2 * 2048 <= len && !Harmless(keys, h, s, k)
    ensures |image| == len && image[..2 * 2048] == h && !Alike(keys, h, s, k, SectorAt(image, k))
  {
    hide Sorted, ToOpen, OpenSector;
    assert k > s && k > 0;
    if k == 1 {
      image := h + seq(len - 2 * 2048, _ => 0);
      HeaderSectors(h, image);
    } else {
      var x := SomeSectorChanges(keys, k);
      image := WithSector(h, len, k, x);
    }
  }

  /**
   A read of whole sectors is right for every image with the header `h` if and only if the sectors it
   returns are all encrypted or all plain, but for sector 1, which the header holds. The last piece of an
   image may be shorter than a sector.
   */
  lemma WholeReads(keys: seq<State>, h: seq<bv8>, r: seq<Region>, position: nat, ret: nat, len: nat)
    requires |keys| >= 2 && Header(h) && Sorted(h) && TableOf(h, r, 2 * Count(h) - 1)
    requires 2 * 2048 <= len && Whole(position, ret, len) && 0 < ret
    ensures (forall image: seq<bv8> :: |image| == len && image[..2 * 2048] == h ==> ReadRight(keys, h, r, image, position, ret))
      <==> forall k: nat :: position / 2048 <= k < position / 2048 + ret / 2048 ==> Harmless(keys, h, position / 2048, k)
  {
    hide TableOf, Count, Harmless, Sorted, ReadRight, Alike;
    var s, m := position / 2048, ret / 2048;
    if forall k: nat :: s <= k < s + m ==> Harmless(keys, h, s, k) {
      forall image: seq<bv8> | |image| == len && image[..2 * 2048] == h ensures ReadRight(keys, h, r, image, position, ret) {
        ReadRightIs(keys, h, r, image, position, ret);
        forall k: nat | s <= k < s + m ensures Alike(keys, h, s, k, SectorAt(image, k)) { HarmlessAlike(keys, h, image, s, k); }
      }
    } else {
      var k: nat :| s <= k < s + m && !Harmless(keys, h, s, k);
      var image := SomeImageNotAlike(keys, h, s, k, len);
      ReadRightIs(keys, h, r, image, position, ret);
    }
  }

  /** When the first plain range has both header sectors, the kinds alone decide. */
  lemma WholeReadsByKind(keys: seq<State>, h: seq<bv8>, r: seq<Region>, position: nat, ret: nat, len: nat)
    requires |keys| >= 2 && Header(h) && Sorted(h) && TableOf(h, r, 2 * Count(h) - 1) && PlainEnd(h, 0) >= 1
    requires 2 * 2048 <= len && Whole(position, ret, len) && 0 < ret
    ensures (forall image: seq<bv8> :: |image| == len && image[..2 * 2048] == h ==> ReadRight(keys, h, r, image, position, ret))
      <==> OneRegion(h, position / 2048, ret / 2048)
  {
    hide TableOf, Count, ToOpen, Sorted, ReadRight, PlainEnd, OpenSector;
    WholeReads(keys, h, r, position, ret, len);
    FirstIsPlain(h);
    assert !ToOpen(h, 1) by { SecondIsPlain(h); }
    var s := position / 2048;
    forall k: nat | s <= k ensures Harmless(keys, h, s, k) <==> (ToOpen(h, k) <==> ToOpen(h, s)) {
      if k == 1 { assert s in {0, 1} && !ToOpen(h, s) && !ToOpen(h, k); }
    }
  }

  lemma SecondIsPlain(h: seq<bv8>)
    requires Header(h) && Sorted(h) && PlainEnd(h, 0) >= 1
    ensures !ToOpen(h, 1)
  {
    hide BeWord;
    assert PlainStart(h, 0) <= 1 <= PlainEnd(h, 0);
  }

  /** A header with two plain ranges, sectors 0 to 1 and sector 3; sector 2 is encrypted. */
  function TwoRanges(): (h: seq<bv8>)
    ensures Header(h)
  {
    seq(2 * 2048, i => if i == 3 then 2 else if i == 15 then 1 else if i == 19 || i == 23 then 3 else 0)
  }

  lemma SmallWord(b: seq<bv8>, i: nat, v: bv8)
    requires i + 4 <= |b| && b[i] == b[i + 1] == b[i + 2] == 0 && b[i + 3] == v
    ensures BeWord(b, i) == Ix(v)
  {
    assert Ix(0) == 0;
    hide Ix;
  }

  lemma WordsOfTwoRanges()
    ensures var h := TwoRanges();
      Count(h) == 2 && PlainStart(h, 0) == 0 && PlainEnd(h, 0) == 1 && PlainStart(h, 1) == 3 && PlainEnd(h, 1) == 3
  {
    hide BeWord;
    var h := TwoRanges();
    SmallWord(h, 0, 2);
    SmallWord(h, 8, 0);
    SmallWord(h, 12, 1);
    SmallWord(h, 16, 3);
    SmallWord(h, 20, 3);
    assert Ix(0) == 0 && Ix(1) == 1 && Ix(2) == 2 && Ix(3) == 3;
  }

  lemma TwoRangesAre()
    ensures var h := TwoRanges(); Sorted(h) && !ToOpen(h, 0) && ToOpen(h, 2)
  {
    hide TwoRanges, Count, PlainStart, PlainEnd;
    var h := TwoRanges();
    WordsOfTwoRanges();
    assert PlainStart(h, 0) <= 0 <= PlainEnd(h, 0);
  }

  /** Sector 2 of an image with that header, read alone and thus rightly, tells for which of two contents decryption changes it. */
  method ChangedBy(t: Tables, key: seq<bv8>) returns (v: bv8, faults: nat)
    requires t.Valid() && |key| == 16
    ensures faults == 0 ==> OpenSector(InverseKeys(RoundKeys(key)), 2, AlmostZero(v)) != AlmostZero(v)
  {
    hide KeysHeld, Sorted, TableOf, SBoxesHeld, TableHeld, XPower, ToOpen, OpenSector, ClearSector, ClearImage, OneRegion, RoundKeys, InverseKeys, Handled, TwoRanges, AlmostZero, WithSector, CountOk;
    TwoRangesAre();
    ghost var keys := InverseKeys(RoundKeys(key));
    var image := WithSector(TwoRanges(), 4 * 2048, 2, AlmostZero(0));
    var disc := new DiscFile(t, image, key);
    disc.pos := 2 * 2048;
    var buf := new bv8[2048];
    OneSector(TwoRanges(), 2);
    var ret := disc.Read(buf, 2048);
    faults := disc.faults;
    v := if buf[2048 - 16] != 0 then 0 else 1;
    if faults == 0 {
      SectorOfClear(keys, TwoRanges(), image, 2);
      assert buf[..] == buf[..ret] == ClearSector(keys, TwoRanges(), 2, SectorAt(image, 2));
      OpensSector(keys, TwoRanges(), 2, AlmostZero(0));
      ChangedContents(keys, buf[..], v);
    }
  }

  lemma ChangedContents(keys: seq<State>, clear: seq<bv8>, v: bv8)
    requires |keys| >= 2 && clear == OpenSector(keys, 2, AlmostZero(0)) && v == if clear[2048 - 16] != 0 then 0 else 1
    ensures OpenSector(keys, 2, AlmostZero(v)) != AlmostZero(v)
  {
    hide OpenSector, AlmostZero;
    OpenedByte(keys, 2, 0);
    OpenedByte(keys, 2, 1);
    XorDiffers(Crypt(keys, true, seq(16, _ => 0))[0]);
  }

  lemma OneSector(h: seq<bv8>, s: nat)
    requires Header(h) && Sorted(h)
    ensures OneRegion(h, s, 1)
  {
  }

  lemma OpensSector(keys: seq<State>, h: seq<bv8>, s: nat, x: seq<bv8>)
    requires |keys| >= 2 && Header(h) && Sorted(h) && |x| == 2048 && ToOpen(h, s)
    ensures ClearSector(keys, h, s, x) == OpenSector(keys, s, x)
  {
  }

  /** It does happen: an image with that header, and a read of its first three sectors that gives the third as it is stored. */
  method MixedRead(t: Tables, key: seq<bv8>) returns (image: seq<bv8>, out: array<bv8>, faults: nat)
    requires t.Valid() && |key| == 16
    ensures |image| == 4 * 2048 && image[..2 * 2048] == TwoRanges() && Sorted(TwoRanges()) && out.Length == 3 * 2048
    ensures faults == 0 ==> out[..] != ClearImage(InverseKeys(RoundKeys(key)), TwoRanges(), image)[..3 * 2048]
  {
    hide KeysHeld, Sorted, TableOf, SBoxesHeld, TableHeld, XPower, ToOpen, OpenSector, ClearSector, ClearImage, OneRegion, RoundKeys, InverseKeys, Handled, TwoRanges, AlmostZero, WithSector;
    TwoRangesAre();
    ghost var h, keys := TwoRanges(), InverseKeys(RoundKeys(key));
    var v, before := ChangedBy(t, key);
    image := WithSector(TwoRanges(), 4 * 2048, 2, AlmostZero(v));
    var disc := new DiscFile(t, image, key);
    out := new bv8[3 * 2048];
    CountIsOk(h);
    var ret := disc.Read(out, 3 * 2048);
    faults := before + disc.faults;
    if faults == 0 {
      SectorRead(keys, h, disc.regions, image, 0, 3 * 2048, 2);
      OpensSector(keys, h, 2, AlmostZero(v));
      assert image[0..3 * 2048] + [] == image[0..3 * 2048];
      assert ClearImage(keys, h, image)[0..3 * 2048] == ClearImage(keys, h, image)[..3 * 2048];
    }
  }

  // ---------------------------------------------------------------- the image as it was made

  /** A plain image with the sectors between the plain ranges encrypted, as the disc's maker left it. */
  ghost function SealSectors(keys: seq<State>, h: seq<bv8>, image: seq<bv8>, n: nat): (r: seq<bv8>)
    requires |keys| >= 2 && Header(h) && Sorted(h) && n * 2048 <= |image|
    ensures |r| == n * 2048
  {
    if n == 0 then []
    else
      var sector := image[(n - 1) * 2048..n * 2048];
      SealSectors(keys, h, image, n - 1) + if ToOpen(h, n - 1) then SealSector(keys, n - 1, sector) else sector
  }

  ghost function SealImage(keys: seq<State>, h: seq<bv8>, image: seq<bv8>): (r: seq<bv8>)
    requires |keys| >= 2 && Header(h) && Sorted(h)
    ensures |r| == |image|
  {
    var n := |image| / 2048;
    SealSectors(keys, h, image, n) + image[n * 2048..]
  }

  lemma {:induction false} ClearOfSealed(key: seq<bv8>, h: seq<bv8>, image: seq<bv8>, rest: seq<bv8>, n: nat)
    requires KeyOk(key) && Header(h) && Sorted(h) && n * 2048 <= |image|
    ensures var keys := RoundKeys(key);
      ClearSectors(InverseKeys(keys), h, SealSectors(keys, h, image, n) + rest, n) == image[..n * 2048]
    decreases n
  {
    hide Sorted, ToOpen, RoundKeys, InverseKeys, Iv, Encrypted, Decrypted, ClearSectors;
    if n > 0 {
      var keys := RoundKeys(key);
      var front, sector := SealSectors(keys, h, image, n - 1), image[(n - 1) * 2048..n * 2048];
      var last := if ToOpen(h, n - 1) then SealSector(keys, n - 1, sector) else sector;
      assert SealSectors(keys, h, image, n) == front + last;
      ClearOfSealed(key, h, image, last + rest, n - 1);
      LastClear(InverseKeys(keys), h, front, last, rest, n);
      DecryptInverts(key, Iv(n - 1), sector);
      assert image[..n * 2048] == image[..(n - 1) * 2048] + sector;
    } else {
      NoneClear(InverseKeys(RoundKeys(key)), h, SealSectors(RoundKeys(key), h, image, n) + rest);
    }
  }

  lemma NoneClear(keys: seq<State>, h: seq<bv8>, image: seq<bv8>)
    requires |keys| >= 2 && Header(h) && Sorted(h)
    ensures ClearSectors(keys, h, image, 0) == []
  {
  }

  lemma LastClear(keys: seq<State>, h: seq<bv8>, front: seq<bv8>, last: seq<bv8>, rest: seq<bv8>, n: nat)
    requires |keys| >= 2 && Header(h) && Sorted(h) && n > 0 && |front| == (n - 1) * 2048 && |last| == 2048
    ensures ClearSectors(keys, h, front + last + rest, n) == ClearSectors(keys, h, front + (last + rest), n - 1) + ClearSector(keys, h, n - 1, last)
  {
    hide Sorted, ClearSector;
    assert front + last + rest == front + (last + rest);
    assert (front + last + rest)[(n - 1) * 2048..n * 2048] == last;
  }

  /** With the disc's own key the decrypted image is the plain image that was encrypted. */
  lemma ClearInvertsSeal(key: seq<bv8>, h: seq<bv8>, image: seq<bv8>)
    requires KeyOk(key) && Header(h) && Sorted(h)
    ensures ClearImage(InverseKeys(RoundKeys(key)), h, SealImage(RoundKeys(key), h, image)) == image
  {
    hide Sorted, RoundKeys, InverseKeys, SealSectors, ClearSectors;
    var at := |image| / 2048 * 2048;
    ClearOfSealed(key, h, image, image[at..], |image| / 2048);
    assert image == image[..at] + image[at..];
  }
}
