/** CD sectors from a multi-part image, where a seek can be refused and the handler does not look. */
module CdParts {
  import opened Bytes
  import opened ReadHandlers
  import opened MultiPart

  /** Only zeros are among the `n` bytes from `from` on, as far as there are any. */
  predicate ZerosFrom(whole: seq<Byte>, from: nat, n: nat) {
    forall k :: from <= k < from + n && k < |whole| ==> whole[k] == 0
  }

  /**
   One pass of the per-sector loop over a multi-part file: the result of the seek is dropped, a short read that
   seems to reach the end is filled with zeros. A refused seek leaves the position where the last read ended,
   and the sector is then right if and only if nothing but zeros was read there. Parts shorter than a sector
   can stop a read in the middle of the image; the pass then fails, unless the seek was refused.
   */
  method CdSector(file: PartFile, size: nat, at: nat) returns (ok: bool, sector: seq<Byte>)
    requires file.Valid() && size == |file.Whole()|
    modifies file
    ensures file.Valid() && |sector| == 2048
    ensures at + 24 >= |file.parts| * file.partSize || file.partSize >= 2048 ==> ok
    ensures at + 24 < |file.parts| * file.partSize && ok ==> sector == Extended(file.Whole(), at + 24, 2048)
    ensures at + 24 >= |file.parts| * file.partSize ==>
      var n := file.Offset() - old(file.Offset());
      && 0 <= n <= 2048 && sector == Extended(file.Whole(), old(file.Offset()), n) + Zeros(2048 - n)
      && (sector == Extended(file.Whole(), at + 24, 2048) <==> ZerosFrom(file.Whole(), old(file.Offset()), n))
    ensures file.partSize >= 2048 ==>
      var from := if at + 24 < |file.parts| * file.partSize then at + 24 else old(file.Offset());
      file.Offset() == Moved(from, size) && sector == Extended(file.Whole(), from, 2048)
    ensures file.partSize >= 2048 ==>
      (sector == Extended(file.Whole(), at + 24, 2048) <==>
         at + 24 < |file.parts| * file.partSize || ZerosFrom(file.Whole(), old(file.Offset()), 2048))
  {
    hide Join, Equal, ZerosFrom, Extended, Moved;
    var _ := file.Seek(at + 24);
    ghost var from := file.Offset();
    var data := file.Read(2048);
    WholeFits(file.parts, file.partSize);
    if |data| < 2048 {
      ok := at + 24 + |data| >= size;
    } else {
      ok := true;
    }
    sector := data + Zeros(2048 - |data|);
    ReadExtended(data, file.Whole(), from);
    if at + 24 >= |file.parts| * file.partSize {
      StaleSector(file.Whole(), from, |data|, at + 24);
    }
  }

  /** Where a read of one sector that begins at `from` ends. */
  function Moved(from: nat, size: nat): nat {
    if from + 2048 <= size then from + 2048 else if from <= size then size else from
  }

  lemma WholeFits(parts: seq<seq<Byte>>, size: nat)
    requires Equal(parts, size)
    ensures |Join(parts)| <= |parts| * size
  {
    hide Join;
    PartAt(parts, size, |parts| - 1);
    StartNext(|parts| - 1, size);
  }

  /** What a read gives is the image from there on; filled with zeros it is the image continued by zeros if the read got to the end. */
  lemma ReadExtended(data: seq<Byte>, whole: seq<Byte>, from: nat)
    requires Slice(data, whole, from, |data|) && |data| <= 2048
    ensures data == Extended(whole, from, |data|)
    ensures |data| == 2048 || from + |data| >= |whole| || Slice(data, whole, from, 2048) ==>
      && data + Zeros(2048 - |data|) == Extended(whole, from, 2048)
      && from + |data| == Moved(from, |whole|)
      && (ZerosFrom(whole, from, |data|) <==> ZerosFrom(whole, from, 2048))
  {
  }

  /** Bytes read somewhere else are right for a place past the end exactly when they are zeros. */
  lemma StaleSector(whole: seq<Byte>, stale: nat, n: nat, at: nat)
    requires at >= |whole| && n <= 2048
    ensures Extended(whole, stale, n) + Zeros(2048 - n) == Extended(whole, at, 2048) <==> ZerosFrom(whole, stale, n)
  {
    var got, right := Extended(whole, stale, n) + Zeros(2048 - n), Extended(whole, at, 2048);
    assert forall k :: 0 <= k < 2048 ==> right[k] == 0;
    if got == right {
      forall k | stale <= k < stale + n && k < |whole| ensures whole[k] == 0 { assert got[k - stale] == right[k - stale]; }
    }
  }

  // ---------------------------------------------------------------- the whole command

  /**
   A command for sectors of `width` bytes from `offset` on, with the image's size, the sum `limit` of its part
   sizes as `seek` reckons it, and the position where the read before the command ended. No contents.
   */
  datatype Request = Request(limit: nat, size: nat, offset: nat, width: nat, start: nat) {
    /** Where the payload of sector `i` is. */
    function At(i: nat): nat {
      offset + 24 + i * width
    }

    /** Where the file stands before sector `i`. */
    function Stands(i: nat): nat
      decreases i, 0
    {
      if i == 0 then start else Moved(From(i - 1), size)
    }

    /** Where sector `i` is read from: its place, unless the seek is refused. */
    function From(i: nat): nat
      decreases i, 1
    {
      if At(i) < limit then At(i) else Stands(i)
    }
  }

  /** The first `n` sectors of the reply. */
  function Reply(whole: seq<Byte>, q: Request, n: nat): (r: seq<Byte>)
    ensures |r| == n * 2048
  {
    if n == 0 then [] else Reply(whole, q, n - 1) + Extended(whole, q.From(n - 1), 2048)
  }

  /** The per-sector loop of the CD command over a multi-part file whose parts hold at least a sector. */
  method CdSectors(file: PartFile, size: nat, buf: array<Byte>, offset: nat, width: nat, count: nat) returns (ok: bool)
    requires file.Valid() && file.partSize >= 2048 && size == |file.Whole()| && count * 2048 <= buf.Length
    modifies file, buf
    ensures file.Valid() && ok
    ensures var q := Request(|file.parts| * file.partSize, size, offset, width, old(file.Offset()));
      && buf[..count * 2048] == Reply(file.Whole(), q, count) && file.Offset() == q.Stands(count)
      && (buf[..count * 2048] == Payloads(file.Whole(), offset, width, count) <==>
            forall i :: 0 <= i < count ==> q.At(i) < q.limit || ZerosFrom(file.Whole(), q.Stands(i), 2048))
  {
    hide Join, Equal, ZerosFrom, Payloads, Reply;
    ghost var q := Request(|file.parts| * file.partSize, size, offset, width, file.Offset());
    assert size <= q.limit by { WholeFits(file.parts, file.partSize); }
    ReplyRight(file.Whole(), q, count);
    ok := GatherSectors(file, size, buf, offset, width, count, q);
  }

  /** The first offset that `seek` refuses. */
  function Limit(file: PartFile): nat {
    |file.parts| * file.partSize
  }

  method GatherSectors(file: PartFile, size: nat, buf: array<Byte>, offset: nat, width: nat, count: nat, ghost q: Request) returns (ok: bool)
    requires file.Valid() && file.partSize >= 2048 && size == |file.Whole()| && count * 2048 <= buf.Length
    requires q == Request(Limit(file), size, offset, width, file.Offset())
    modifies file, buf
    ensures file.Valid() && ok && buf[..count * 2048] == Reply(file.Whole(), q, count) && file.Offset() == q.Stands(count)
  {
    var at: nat := offset;
    var i: nat := 0;
    assert at + 24 == q.At(0) && file.Offset() == q.Stands(0) && Reply(file.Whole(), q, 0) == [];
    hide Join, Equal, Moved, Reply, Request.At, Request.Stands, Request.From, Limit;
    while i < count
      invariant i <= count && at + 24 == q.At(i) && file.Valid()
      invariant buf[..i * 2048] == Reply(file.Whole(), q, i) && file.Offset() == q.Stands(i)
    {
      AtNext(q, i);
      ok := NextSector(file, size, buf, at, i, q);
      at := at + width;
      i := i + 1;
    }
    ok := true;
  }

  /** One pass of the loop: the sector goes behind those gathered before. */
  method NextSector(file: PartFile, size: nat, buf: array<Byte>, at: nat, i: nat, ghost q: Request) returns (ok: bool)
    requires file.Valid() && file.partSize >= 2048 && size == q.size == |file.Whole()| && (i + 1) * 2048 <= buf.Length
    requires q.limit == Limit(file) && at + 24 == q.At(i) && file.Offset() == q.Stands(i)
    requires buf[..i * 2048] == Reply(file.Whole(), q, i)
    modifies file, buf
    ensures file.Valid() && ok && buf[..(i + 1) * 2048] == Reply(file.Whole(), q, i + 1) && file.Offset() == q.Stands(i + 1)
  {
    hide Join, Equal, Extended, Moved, ZerosFrom, Splice;
    var sector;
    ok, sector := CdSector(file, size, at);
    ghost var before := buf[..];
    SpliceBehind(before, i * 2048, sector);
    Put(buf, i * 2048, sector);
    assert buf[..(i + 1) * 2048] == buf[..][..(i + 1) * 2048];
    assert buf[..i * 2048] == buf[..][..i * 2048];
  }

  lemma SpliceBehind(s: seq<Byte>, at: nat, t: seq<Byte>)
    requires at + |t| <= |s|
    ensures Splice(s, at, t)[..at + |t|] == s[..at] + t
  {
  }

  lemma AtNext(q: Request, i: nat)
    ensures q.At(i + 1) == q.At(i) + q.width
  {
  }

  /** The reply is right for an image exactly when every refused seek left the file before nothing but zeros. */
  lemma {:induction false} ReplyRight(whole: seq<Byte>, q: Request, n: nat)
    requires |whole| == q.size <= q.limit
    ensures Reply(whole, q, n) == Payloads(whole, q.offset, q.width, n) <==>
      forall i :: 0 <= i < n ==> q.At(i) < q.limit || ZerosFrom(whole, q.Stands(i), 2048)
  {
    hide Extended, ZerosFrom, Moved;
    if n > 0 {
      ReplyRight(whole, q, n - 1);
      SameEnds(Reply(whole, q, n - 1), Extended(whole, q.From(n - 1), 2048),
               Payloads(whole, q.offset, q.width, n - 1), Extended(whole, q.At(n - 1), 2048));
      if q.At(n - 1) >= q.limit {
        StaleSector(whole, q.Stands(n - 1), 2048, q.At(n - 1));
        assert Extended(whole, q.Stands(n - 1), 2048) + Zeros(0) == Extended(whole, q.Stands(n - 1), 2048);
      }
    }
  }

  lemma SameEnds(a: seq<Byte>, b: seq<Byte>, c: seq<Byte>, d: seq<Byte>)
    requires |a| == |c|
    ensures a + b == c + d <==> a == c && b == d
  {
    assert (a + b)[..|a|] == a && (c + d)[..|c|] == c && (a + b)[|a|..] == b && (c + d)[|c|..] == d;
  }

  /**
   So the sizes decide alone: the reply is right for every image with these part sizes if and only if each
   sector begins below the limit or is read where the image has ended.
   */
  lemma RightForAll(q: Request, n: nat)
    requires q.size <= q.limit
    ensures (forall whole: seq<Byte> :: |whole| == q.size ==> Reply(whole, q, n) == Payloads(whole, q.offset, q.width, n)) <==>
      forall i :: 0 <= i < n ==> q.At(i) < q.limit || q.Stands(i) >= q.size
  {
    hide Reply, Payloads, Moved;
    if forall i :: 0 <= i < n ==> q.At(i) < q.limit || q.Stands(i) >= q.size {
      forall whole: seq<Byte> | |whole| == q.size ensures Reply(whole, q, n) == Payloads(whole, q.offset, q.width, n) {
        ReplyRight(whole, q, n);
      }
    } else {
      var i :| 0 <= i < n && q.At(i) >= q.limit && q.Stands(i) < q.size;
      var ones: seq<Byte> := seq(q.size, _ => 1);
      ReplyRight(ones, q, n);
      assert ones[q.Stands(i)] == 1;
    }
  }

  /** It does fail: a single part that ends ten bytes after the first payload gives those bytes to the second sector. */
  method WrongTail(part: seq<Byte>) returns (second: seq<Byte>)
    requires |part| == 24 + 2048 + 10 && part[2072] != 0
    ensures |second| == 2048 && second[0] == part[2072] && second != Extended(part, 2352 + 24, 2048)
  {
    var none := seq(MAX_PARTS - 1, _ => None);
    assert Found(part, none) == [part];
    var file := new PartFile(part, none);
    assert Join([part]) == part by { JoinOne(part); }
    assert |file.parts| * file.partSize == 2082;
    var _, first := CdSector(file, 2082, 0);
    assert file.Offset() == 2072;
    var _, s := CdSector(file, 2082, 2352);
    second := s;
    assert second[0] == part[2072];
    assert Extended(part, 2352 + 24, 2048)[0] == 0;
  }

  lemma JoinOne(part: seq<Byte>)
    ensures Join([part]) == part
  {
    assert [part][..0] == [];
  }
}
