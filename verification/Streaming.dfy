/** `process_read_file_critical` over the backends themselves: a virtual ISO and a multi-part image. */
module Streaming {
  import opened Bytes
  import opened ReadHandlers
  import opened MultiPart
  import opened VIsoRead

  type U64 = x: int | 0 <= x < 0x1_0000_0000_0000_0000

  /** A 64-bit offset as the signed number that `seek` takes. */
  function Signed(offset: U64): int {
    if offset < 0x8000_0000_0000_0000 then offset else offset - 0x1_0000_0000_0000_0000
  }

  /** The backend stands where the handler believes it to, or both are past the end. */
  predicate SamePlace(size: nat, from: nat, pos: nat) {
    from == pos || (from >= size && pos >= size)
  }

  /** After a chunk they still do: the handler counts the zeros it has added, the backend does not. */
  lemma Onward(size: nat, from: nat, pos: nat, got: nat, n: nat)
    requires SamePlace(size, from, pos) && got <= n && (got < n ==> pos + got >= size)
    ensures SamePlace(size, from + got, pos + n)
  {
  }

  /** What follows a read that gave `out`: zero-fill at the end of the image, and the send. */
  method Deliver(out: seq<Byte>, n: nat, pos: nat, size: nat, buf: array<Byte>, peer: Peer, ghost image: seq<Byte>, ghost from: nat)
    returns (ok: bool)
    requires |out| <= n <= buf.Length && size == |image|
    requires out == Extended(image, from, |out|) && SamePlace(size, from, pos)
    modifies buf, peer
    ensures old(peer.received) <= peer.received <= old(peer.received) + Extended(image, pos, n)
    ensures ok ==> peer.received == old(peer.received) + Extended(image, pos, n) && (|out| < n ==> pos + |out| >= size)
    ensures peer.drops >= old(peer.drops)
    ensures (|out| == n || pos + |out| >= size) && peer.drops == old(peer.drops) ==> ok
  {
    hide Extended;
    if |out| != n && pos + |out| < size { return false; }
    FilledUp(image, from, pos, |out|, n);
    Put(buf, 0, out);
    Clear(buf, |out|, n - |out|);
    assert buf[..n] == out + Zeros(n - |out|);
    var sent := peer.Send(buf, n);
    ok := sent == n;
  }

  /** Bytes of the image from `from` on. */
  lemma WantedExtended(image: seq<Byte>, from: nat, n: nat, out: seq<Byte>)
    requires out <= Wanted(image, from, n)
    ensures out == Extended(image, from, |out|)
  {
    assert forall k :: 0 <= k < |out| ==> out[k] == Wanted(image, from, n)[k];
  }

  lemma SliceIsExtended(data: seq<Byte>, whole: seq<Byte>, from: nat)
    requires Slice(data, whole, from, |data|)
    ensures data == Extended(whole, from, |data|)
  {
  }

  /**
   The command on an opened virtual ISO: the peer gets a prefix of the continued slice of the image, and
   all of it on success; without faults of disk and connection it succeeds for every offset that is not negative.
   */
  method StreamVolume(viso: VIsoFile, size: nat, buf: array<Byte>, peer: Peer, offset: U64, numBytes: U32) returns (ret: int)
    requires viso.Valid() && viso.generated && viso.gap == 0 && size == |viso.image|
    requires buf.Length == BUFFER_SIZE && buf != viso.fsBuf
    modifies viso`vFilePtr, viso`fd, viso`lastPath, viso.host, buf, peer
    ensures viso.Valid() && ret in {SUCCEEDED, FAILED}
    ensures old(peer.received) <= peer.received <= old(peer.received) + Extended(viso.image, offset, numBytes)
    ensures ret == SUCCEEDED ==> peer.received == old(peer.received) + Extended(viso.image, offset, numBytes)
    ensures Signed(offset) < 0 ==> ret == FAILED && peer.received == old(peer.received)
    ensures Signed(offset) >= 0 && viso.host.faults == old(viso.host.faults) && peer.drops == old(peer.drops) ==> ret == SUCCEEDED
  {
    hide Extended, Wanted, Serves;
    ghost var was, image := peer.received, viso.image;
    assert was + Extended(image, offset, 0) == was by { NoBytes(image, offset); }
    var r := viso.Seek(SeekSet(Signed(offset)));
    if r < 0 {
      PrefixOfReply(image, offset, 0, 0, numBytes, was, was);
      return FAILED;
    }
    var pos: nat, remaining: nat := offset, numBytes;
    while remaining > 0
      invariant remaining <= numBytes && pos == offset + (numBytes - remaining)
      invariant viso.Valid() && viso.generated && viso.vFilePtr >= 0 && SamePlace(size, viso.vFilePtr, pos)
      invariant peer.received == was + Extended(image, offset, pos - offset)
      invariant viso.host.faults >= old(viso.host.faults) && peer.drops >= old(peer.drops)
    {
      var n := Min(BUFFER_SIZE, remaining);
      var ok := VolumeChunk(viso, size, buf, peer, pos, n);
      PrefixOfReply(image, offset, pos - offset, n, numBytes, was, peer.received);
      if !ok { return FAILED; }
      ExtendedSplit(image, offset, pos - offset, n);
      pos, remaining := pos + n, remaining - n;
    }
    ret := SUCCEEDED;
  }

  lemma NoBytes(image: seq<Byte>, offset: nat)
    ensures Extended(image, offset, 0) == []
  {
  }

  method VolumeChunk(viso: VIsoFile, size: nat, buf: array<Byte>, peer: Peer, pos: nat, n: nat) returns (ok: bool)
    requires viso.Valid() && viso.generated && viso.gap == 0 && size == |viso.image| && viso.vFilePtr >= 0
    requires SamePlace(size, viso.vFilePtr, pos) && 0 < n <= buf.Length && buf != viso.fsBuf
    modifies viso`vFilePtr, viso`fd, viso`lastPath, viso.host, buf, peer
    ensures viso.Valid() && old(peer.received) <= peer.received <= old(peer.received) + Extended(viso.image, pos, n)
    ensures ok ==> peer.received == old(peer.received) + Extended(viso.image, pos, n)
    ensures ok ==> viso.vFilePtr >= 0 && SamePlace(size, viso.vFilePtr, pos + n)
    ensures viso.host.faults >= old(viso.host.faults) && peer.drops >= old(peer.drops)
    ensures viso.host.faults == old(viso.host.faults) && peer.drops == old(peer.drops) ==> ok
  {
    hide Extended, Wanted, Serves;
    ghost var from := viso.vFilePtr;
    var r, out := viso.Read(n);
    WantedExtended(viso.image, from, n, out);
    WantedLength(viso.image, from, n);
    assert r == |out|;
    ok := Deliver(out, n, pos, size, buf, peer, viso.image, from);
    if ok { Onward(size, from, pos, |out|, n); }
  }

  lemma WantedLength(image: seq<Byte>, from: nat, n: nat)
    ensures |Wanted(image, from, n)| == if from >= |image| then 0 else Min(n, |image| - from)
  {
  }

  /**
   The command on a multi-part image: nothing at all from an offset that `seek` refuses, though a single
   file would give zeros there; from any other offset it succeeds if the parts hold at least a chunk.
   */
  method StreamParts(file: PartFile, size: nat, buf: array<Byte>, peer: Peer, offset: U64, numBytes: U32) returns (ret: int)
    requires file.Valid() && size == |file.Whole()| && buf.Length == BUFFER_SIZE
    modifies file, buf, peer
    ensures file.Valid() && ret in {SUCCEEDED, FAILED}
    ensures old(peer.received) <= peer.received <= old(peer.received) + Extended(file.Whole(), offset, numBytes)
    ensures ret == SUCCEEDED ==> peer.received == old(peer.received) + Extended(file.Whole(), offset, numBytes)
    ensures Signed(offset) < 0 || offset >= |file.parts| * file.partSize ==> ret == FAILED && peer.received == old(peer.received)
    ensures 0 <= Signed(offset) < |file.parts| * file.partSize && file.partSize >= BUFFER_SIZE && peer.drops == old(peer.drops) ==>
      ret == SUCCEEDED
  {
    hide Extended, Join, Equal, Slice;
    ghost var was, image := peer.received, file.Whole();
    assert was + Extended(image, offset, 0) == was by { NoBytes(image, offset); }
    PrefixOfReply(image, offset, 0, 0, numBytes, was, was);
    if Signed(offset) < 0 { return FAILED; }
    var r := file.Seek(offset);
    if r < 0 { return FAILED; }
    var pos: nat, remaining: nat := offset, numBytes;
    while remaining > 0
      invariant remaining <= numBytes && pos == offset + (numBytes - remaining)
      invariant file.Valid() && SamePlace(size, file.Offset(), pos)
      invariant peer.received == was + Extended(image, offset, pos - offset)
      invariant peer.drops >= old(peer.drops)
    {
      var n := Min(BUFFER_SIZE, remaining);
      var ok := PartsChunk(file, size, buf, peer, pos, n);
      PrefixOfReply(image, offset, pos - offset, n, numBytes, was, peer.received);
      if !ok { return FAILED; }
      ExtendedSplit(image, offset, pos - offset, n);
      pos, remaining := pos + n, remaining - n;
    }
    ret := SUCCEEDED;
  }

  method PartsChunk(file: PartFile, size: nat, buf: array<Byte>, peer: Peer, pos: nat, n: nat) returns (ok: bool)
    requires file.Valid() && size == |file.Whole()| && SamePlace(size, file.Offset(), pos) && 0 < n <= buf.Length
    modifies file, buf, peer
    ensures file.Valid() && old(peer.received) <= peer.received <= old(peer.received) + Extended(file.Whole(), pos, n)
    ensures ok ==> peer.received == old(peer.received) + Extended(file.Whole(), pos, n) && SamePlace(size, file.Offset(), pos + n)
    ensures peer.drops >= old(peer.drops)
    ensures n <= file.partSize && peer.drops == old(peer.drops) ==> ok
  {
    hide Extended, Join, Equal;
    ghost var from := file.Offset();
    var out := file.Read(n);
    SliceIsExtended(out, file.Whole(), from);
    hide Slice;
    assert n <= file.partSize ==> |out| == n || pos + |out| >= size by { SliceEnds(out, file.Whole(), from, n); }
    ok := Deliver(out, n, pos, size, buf, peer, file.Whole(), from);
    if ok { Onward(size, from, pos, |out|, n); }
  }

  lemma SliceEnds(data: seq<Byte>, whole: seq<Byte>, from: nat, n: nat)
    ensures Slice(data, whole, from, n) ==> |data| == n || from + |data| >= |whole|
  {
  }
}
