/** The two read commands that stream an image: fixed-length critical reads, and 2048-byte payloads of CD sectors. */
module ReadHandlers {
  import opened Bytes

  const BUFFER_SIZE: nat := 4 * 1048576
  const SUCCEEDED: int := 0

  /** The image continued by zeros: `n` bytes of it from `off` on. */
  function Extended(image: seq<Byte>, off: nat, n: nat): (r: seq<Byte>)
    ensures |r| == n
  {
    seq(n, k requires 0 <= k < n => if off + k < |image| then image[off + k] else 0)
  }

  /** Inside the image it is the image, behind it zeros. */
  lemma ExtendedIs(image: seq<Byte>, off: nat, n: nat)
    ensures off + n <= |image| ==> Extended(image, off, n) == image[off..off + n]
    ensures off >= |image| ==> Extended(image, off, n) == Zeros(n)
  {
  }

  lemma ExtendedSplit(image: seq<Byte>, off: nat, a: nat, b: nat)
    ensures Extended(image, off, a + b) == Extended(image, off, a) + Extended(image, off + a, b)
  {
  }

  /** An opened file. `faults` counts refused seeks and reads that fail or stop before the end of the image. */
  class Backend {
    const image: seq<Byte>
    const bulk: bool // supportsBulkRead
    var pos: nat
    var faults: nat
    var refusals: nat // the refused seeks among the faults

    constructor (image: seq<Byte>, bulk: bool)
      ensures this.image == image && this.bulk == bulk && pos == faults == refusals == 0
    {
      this.image, this.bulk := image, bulk;
      pos, faults, refusals := 0, 0, 0;
    }

    /** A read from here gives the bytes from `p` on: the same place, or both are past the end. */
    predicate At(p: nat)
      reads this
    {
      pos == p || (pos >= |image| && p >= |image|)
    }

    /** The argument is a 64-bit number that the program passes as a signed one. */
    method Seek(offset: nat) returns (ret: int)
      modifies this
      ensures offset >= 0x8000_0000_0000_0000 ==> ret < 0
      ensures if ret < 0 then pos == old(pos) else pos == offset
      ensures faults >= old(faults) && refusals >= old(refusals) && (faults == old(faults) ==> refusals == old(refusals))
      ensures refusals == old(refusals) && offset < 0x8000_0000_0000_0000 ==> ret >= 0
    {
      if offset >= 0x8000_0000_0000_0000 { return -1; }
      if * {
        faults, refusals := faults + 1, refusals + 1;
        return -1;
      }
      pos, ret := offset, offset;
    }

    /** At most `n` bytes of the image from the current position on, put at `off`. */
    method Read(buf: array<Byte>, off: nat, n: nat) returns (ret: int)
      requires off + n <= buf.Length
      modifies this, buf
      ensures -1 <= ret <= n && pos == old(pos) + (if ret < 0 then 0 else ret)
      ensures ret > 0 ==> pos <= |image|
      ensures ret >= 0 ==> buf[..] == Splice(old(buf[..]), off, Extended(image, old(pos), ret))
      ensures ret < 0 ==> buf[..] == old(buf[..])
      ensures faults >= old(faults) && refusals == old(refusals)
      ensures faults == old(faults) ==> ret == n || (ret >= 0 && pos >= |image|)
    {
      var most := if pos >= |image| then 0 else Min(n, |image| - pos);
      var k := most;
      if * {
        faults := faults + 1;
        if * { return -1; }
        k :| 0 <= k <= most;
      }
      Put(buf, off, Extended(image, pos, k));
      pos := pos + k;
      ret := k;
    }
  }

  /** The console's end of the connection. `drops` counts sends that did not go through whole. */
  class Peer {
    var received: seq<Byte>
    var drops: nat

    method Send(buf: array<Byte>, n: nat) returns (ret: int)
      requires n <= buf.Length
      modifies this
      ensures old(received) <= received <= old(received) + buf[..n]
      ensures ret == n ==> received == old(received) + buf[..n]
      ensures drops >= old(drops) && (drops == old(drops) ==> ret == n)
    {
      if * {
        drops := drops + 1;
        var k :| 0 <= k <= n;
        received := received + buf[..k];
        assert buf[..k] <= buf[..n];
        return if k < n then k else -1;
      }
      received := received + buf[..n];
      ret := n;
    }
  }

  /** memset of the part of the buffer that a short read left. */
  method Clear(buf: array<Byte>, off: nat, n: nat)
    requires off + n <= buf.Length
    modifies buf
    ensures buf[..] == Splice(old(buf[..]), off, Zeros(n))
  {
    Put(buf, off, Zeros(n));
  }

  /** A read at the end of the image, filled up with zeros, is the image continued by zeros. */
  lemma FilledUp(image: seq<Byte>, from: nat, pos: nat, k: nat, n: nat)
    requires k <= n && (k < n ==> pos + k >= |image|)
    requires from == pos || (from >= |image| && pos >= |image|)
    ensures Extended(image, from, k) + Zeros(n - k) == Extended(image, pos, n)
  {
  }

  lemma SpliceFront(s: seq<Byte>, off: nat, t: seq<Byte>)
    requires off + |t| <= |s|
    ensures forall k :: 0 <= k <= off ==> Splice(s, off, t)[..k] == s[..k]
  {
  }

  lemma TwoSplices(s: seq<Byte>, off: nat, a: seq<Byte>, b: seq<Byte>)
    requires off + |a| + |b| <= |s|
    ensures Splice(Splice(s, off, a), off + |a|, b) == Splice(s, off, a + b)
  {
  }

  /**
   One read with its zero-fill: all `n` bytes of the continued image, or a failure that is never hidden,
   as long as the backend stands where the caller believes it to.
   */
  method ReadOrPad(file: Backend, size: nat, pos: nat, buf: array<Byte>, off: nat, n: nat) returns (ok: bool)
    requires size == |file.image| && off + n <= buf.Length
    modifies file, buf
    ensures ok && old(file.At(pos)) ==> buf[..] == Splice(old(buf[..]), off, Extended(file.image, pos, n)) && file.At(pos + n)
    ensures buf[..off] == old(buf[..off])
    ensures file.faults >= old(file.faults) && file.refusals == old(file.refusals)
    ensures file.faults == old(file.faults) && old(file.At(pos)) ==> ok
  {
    hide Extended, Splice;
    ghost var from := file.pos;
    var ret := file.Read(buf, off, n);
    if ret < 0 { return false; }
    SpliceFront(old(buf[..]), off, Extended(file.image, from, ret));
    if ret != n {
      if pos + ret < size { return false; }
      SpliceFront(buf[..], off + ret, Zeros(n - ret));
      Clear(buf, off + ret, n - ret);
      TwoSplices(old(buf[..]), off, Extended(file.image, from, ret), Zeros(n - ret));
      if old(file.At(pos)) { FilledUp(file.image, from, pos, ret, n); }
    } else {
      if old(file.At(pos)) { FilledUp(file.image, from, pos, n, n); }
      assert Extended(file.image, from, n) + Zeros(0) == Extended(file.image, from, n);
    }
    ok := true;
  }

  /** One pass of the loop: read, fill up, send. */
  method SendChunk(file: Backend, size: nat, pos: nat, buf: array<Byte>, peer: Peer, n: nat) returns (ok: bool)
    requires size == |file.image| && n <= buf.Length && file.At(pos)
    modifies file, buf, peer
    ensures old(peer.received) <= peer.received <= old(peer.received) + Extended(file.image, pos, n)
    ensures ok ==> peer.received == old(peer.received) + Extended(file.image, pos, n)
    ensures ok ==> file.At(pos + n)
    ensures file.faults >= old(file.faults) && peer.drops >= old(peer.drops)
    ensures file.faults == old(file.faults) && peer.drops == old(peer.drops) ==> ok
  {
    hide Extended;
    ok := ReadOrPad(file, size, pos, buf, 0, n);
    if ok {
      assert buf[..n] == Extended(file.image, pos, n);
      var sent := peer.Send(buf, n);
      ok := sent == n;
    }
  }

  /** What was sent of one chunk, after all chunks before it, is a prefix of the whole reply. */
  lemma PrefixOfReply(image: seq<Byte>, offset: nat, done: nat, n: nat, total: nat, was: seq<Byte>, now: seq<Byte>)
    requires done + n <= total && now <= was + Extended(image, offset, done) + Extended(image, offset + done, n)
    ensures now <= was + Extended(image, offset, total)
  {
    hide Extended;
    ExtendedSplit(image, offset, done, n);
    ExtendedSplit(image, offset, done + n, total - done - n);
    var whole := was + Extended(image, offset, done) + Extended(image, offset + done, n);
    assert whole + Extended(image, offset + done + n, total - done - n) == was + Extended(image, offset, total);
    assert whole <= was + Extended(image, offset, total);
  }

  /**
   process_read_file_critical. Whatever the backend and the connection do, the peer gets a prefix of the
   continued image and nothing else; on success it gets all of it.
   */
  method ReadCritical(file: Backend?, size: nat, buf: array<Byte>, peer: Peer, offset: nat, numBytes: U32) returns (ret: int)
    requires file != null ==> size == |file.image|
    requires buf.Length == BUFFER_SIZE
    modifies peer, buf, file
    ensures ret in {SUCCEEDED, FAILED} && (file == null ==> ret == FAILED && peer.received == old(peer.received))
    ensures file != null ==> old(peer.received) <= peer.received <= old(peer.received) + Extended(file.image, offset, numBytes)
    ensures file != null && ret == SUCCEEDED ==> peer.received == old(peer.received) + Extended(file.image, offset, numBytes)
    ensures file != null && offset < 0x8000_0000_0000_0000 && file.faults == old(file.faults) && peer.drops == old(peer.drops) ==>
      ret == SUCCEEDED
  {
    hide Extended;
    if file == null { return FAILED; }
    ghost var was := peer.received;
    var image := file.image;
    var r := file.Seek(offset);
    if r < 0 { return FAILED; }
    var remaining: nat := numBytes;
    var readSize: nat := Min(BUFFER_SIZE, remaining);
    var pos: nat := offset;
    assert was + Extended(image, offset, 0) == was;
    while remaining > 0
      invariant remaining <= numBytes && pos == offset + (numBytes - remaining) && readSize <= BUFFER_SIZE
      invariant remaining > 0 ==> readSize > 0
      invariant file.At(pos)
      invariant peer.received == was + Extended(image, offset, pos - offset)
      invariant file.faults >= old(file.faults) && peer.drops >= old(peer.drops)
    {
      if readSize > remaining {
        readSize := remaining;
      }
      var ok := SendChunk(file, size, pos, buf, peer, readSize);
      PrefixOfReply(image, offset, pos - offset, readSize, numBytes, was, peer.received);
      if !ok { return FAILED; }
      ExtendedSplit(image, offset, pos - offset, readSize);
      pos := pos + readSize;
      remaining := remaining - readSize;
    }
    ret := SUCCEEDED;
  }

  // ---------------------------------------------------------------- CD sectors

  /** The 2048 bytes that follow the 24-byte header of each of `n` sectors of `width` bytes. */
  function Payloads(image: seq<Byte>, offset: nat, width: nat, n: nat): (r: seq<Byte>)
    ensures |r| == n * 2048
  {
    if n == 0 then [] else Payloads(image, offset, width, n - 1) + Extended(image, offset + 24 + (n - 1) * width, 2048)
  }

  /** Byte by byte: payload byte `k` of sector `i` is byte 24 + k of that sector in the image, or 0 past its end. */
  lemma {:induction false} PayloadAt(image: seq<Byte>, offset: nat, width: nat, n: nat, i: nat, k: nat)
    requires i < n && k < 2048
    ensures var at := offset + 24 + i * width + k;
      Payloads(image, offset, width, n)[i * 2048 + k] == if at < |image| then image[at] else 0
  {
    if i < n - 1 {
      PayloadAt(image, offset, width, n - 1, i, k);
    }
  }

  /** The first sectors of the reply are in the buffer. */
  ghost predicate Gathered(buf: seq<Byte>, image: seq<Byte>, offset: nat, width: nat, n: nat) {
    n * 2048 <= |buf| && buf[..n * 2048] == Payloads(image, offset, width, n)
  }

  lemma OneMoreSector(before: seq<Byte>, after: seq<Byte>, image: seq<Byte>, offset: nat, width: nat, n: nat)
    requires Gathered(before, image, offset, width, n) && (n + 1) * 2048 <= |before|
    requires after == Splice(before, n * 2048, Extended(image, offset + 24 + n * width, 2048))
    ensures Gathered(after, image, offset, width, n + 1)
  {
    hide Extended;
    assert after[..(n + 1) * 2048] == before[..n * 2048] + Extended(image, offset + 24 + n * width, 2048);
  }

  /** A sector's payload inside the span that one bulk read covers. */
  lemma PayloadInSpan(image: seq<Byte>, base: nat, width: nat, i: nat, count: nat)
    requires i < count
    ensures i * width + 2048 <= (count - 1) * width + 24 + 2048
    ensures Extended(image, base, (count - 1) * width + 24 + 2048)[i * width..i * width + 2048] == Extended(image, base + i * width, 2048)
  {
    assert i * width <= (count - 1) * width by { ProductUp(i, count - 1, width); }
  }

  /** Copying the payload of every sector out of the span. */
  method ExtractPayloads(scratch: array<Byte>, buf: array<Byte>, ghost image: seq<Byte>, ghost offset: nat, width: nat, count: nat)
    requires scratch != buf && 0 < count && count * 2048 <= buf.Length && scratch.Length == (count - 1) * width + 24 + 2048
    modifies buf
    ensures scratch[..] == Extended(image, offset + 24, scratch.Length) ==> Gathered(buf[..], image, offset, width, count)
  {
    hide Extended, Gathered, Payloads;
    ghost var right := scratch[..] == Extended(image, offset + 24, scratch.Length);
    GatheredNone(buf[..], image, offset, width);
    var i: nat := 0;
    while i < count
      invariant i <= count && (right ==> Gathered(buf[..], image, offset, width, i))
    {
      PayloadInSpan(image, offset + 24, width, i, count);
      assert (i + 1) * 2048 <= count * 2048;
      ghost var before := buf[..];
      assert scratch[i * width..i * width + 2048] == scratch[..][i * width..i * width + 2048];
      Put(buf, i * 2048, scratch[i * width..i * width + 2048]);
      if right { OneMoreSector(before, buf[..], image, offset, width, i); }
      i := i + 1;
    }
  }

  lemma GatheredNone(buf: seq<Byte>, image: seq<Byte>, offset: nat, width: nat)
    ensures Gathered(buf, image, offset, width, 0)
  {
  }

  /** The fast path: one read over all sectors, then a copy of each payload. */
  method BulkSectors(file: Backend, size: nat, buf: array<Byte>, offset: nat, width: nat, count: nat) returns (ok: bool)
    requires size == |file.image| && 0 < count && count * 2048 <= buf.Length && offset + 24 < 0x8000_0000_0000_0000
    modifies file, buf
    ensures file.faults >= old(file.faults) && file.refusals >= old(file.refusals)
    ensures file.faults == old(file.faults) ==> ok
    ensures ok && file.refusals == old(file.refusals) ==> Gathered(buf[..], file.image, offset, width, count)
  {
    hide Extended, Gathered, Payloads, Splice;
    var span := (count - 1) * width + 24 + 2048;
    var scratch := new Byte[span];
    var _ := file.Seek(offset + 24);
    ghost var before := scratch[..];
    ok := ReadOrPad(file, size, offset + 24, scratch, 0, span);
    if ok {
      SpliceAll(before, Extended(file.image, offset + 24, span));
      ExtractPayloads(scratch, buf, file.image, offset, width, count);
    }
  }

  lemma SpliceAll(s: seq<Byte>, t: seq<Byte>)
    requires |s| == |t|
    ensures Splice(s, 0, t) == t
  {
  }

  /** The slow path: a seek and a read for each sector. */
  method EachSector(file: Backend, size: nat, buf: array<Byte>, offset: nat, width: nat, count: nat) returns (ok: bool)
    requires size == |file.image| && count * 2048 <= buf.Length && offset + 24 + count * width < 0x8000_0000_0000_0000
    modifies file, buf
    ensures file.faults >= old(file.faults) && file.refusals >= old(file.refusals)
    ensures file.faults == old(file.faults) ==> ok
    ensures ok && file.refusals == old(file.refusals) ==> Gathered(buf[..], file.image, offset, width, count)
  {
    hide Extended, Gathered, Payloads;
    var at: nat := offset;
    var i: nat := 0;
    GatheredNone(buf[..], file.image, offset, width);
    while i < count
      invariant i <= count && at == offset + i * width
      invariant file.faults >= old(file.faults) && file.refusals >= old(file.refusals)
      invariant file.refusals == old(file.refusals) ==> Gathered(buf[..], file.image, offset, width, i)
    {
      ProductUp(i + 1, count, width);
      assert (i + 1) * width == i * width + width && (i + 1) * 2048 <= count * 2048;
      ghost var before, refused := buf[..], file.refusals;
      var _ := file.Seek(at + 24);
      ok := ReadOrPad(file, size, at + 24, buf, i * 2048, 2048);
      if !ok { return; }
      if file.refusals == refused && refused == old(file.refusals) {
        OneMoreSector(before, buf[..], file.image, offset, width, i);
      }
      at := at + width;
      i := i + 1;
    }
    ok := true;
  }

  /**
   process_read_cd_2048_critical_cmd. `scratchOk` says whether memory for the span was to be had. Both paths
   send the same bytes: the payloads of the continued image. Nothing is sent on failure except what a broken
   connection took. A refused seek is not noticed here, which is why the last clause excludes it.
   */
  method ReadCd(file: Backend?, size: nat, buf: array<Byte>, peer: Peer, startSector: U32, sectorCount: U32, width: U16, scratchOk: bool)
      returns (ret: int)
    requires file != null ==> size == |file.image|
    requires buf.Length == BUFFER_SIZE
    modifies peer, buf, file
    ensures ret in {SUCCEEDED, FAILED} && (file == null || sectorCount * 2048 > BUFFER_SIZE ==> ret == FAILED && peer.received == old(peer.received))
    ensures ret == FAILED ==> peer.received == old(peer.received) || peer.drops > old(peer.drops)
    ensures file != null && sectorCount * 2048 <= BUFFER_SIZE && file.faults == old(file.faults) && peer.drops == old(peer.drops) ==>
      ret == SUCCEEDED
    ensures file != null && ret == SUCCEEDED && file.refusals == old(file.refusals) ==>
      peer.received == old(peer.received) + Payloads(file.image, startSector * width, width, sectorCount)
  {
    hide Extended, Payloads;
    if file == null { return FAILED; }
    if sectorCount * 2048 > BUFFER_SIZE { return FAILED; }
    var offset: nat := startSector * width;
    InRange(startSector, sectorCount, width);
    var ok;
    if sectorCount > 0 && file.bulk && scratchOk {
      ok := BulkSectors(file, size, buf, offset, width, sectorCount);
    } else {
      ok := EachSector(file, size, buf, offset, width, sectorCount);
    }
    if !ok { return FAILED; }
    var sent := peer.Send(buf, sectorCount * 2048);
    ret := if sent == sectorCount * 2048 then SUCCEEDED else FAILED;
  }

  /** No 64-bit offset of a CD read comes near the sign bit. */
  lemma InRange(start: U32, count: U32, width: U16)
    ensures start * width + 24 + count * width < 0x8000_0000_0000_0000
  {
    ProductUp(start, 0x1_0000_0000, width);
    ProductUp(count, 0x1_0000_0000, width);
  }
}
