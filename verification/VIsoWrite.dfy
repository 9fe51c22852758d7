/** `VIsoFile::write`: the metadata of a finished volume, copied into one buffer. */
module VIsoWrite {
  import opened Bytes
  import opened FolderTree
  import opened VIso
  import opened VIsoImage
  import opened VIsoTables

  /** The buffer is written up to `at`, and still cleared behind it. */
  ghost predicate WrittenTo(buf: seq<Byte>, at: nat, front: seq<Byte>) {
    && at <= |buf| && buf[..at] == front
    && forall k :: at <= k < |buf| ==> buf[k] == 0
  }

  lemma WrittenMore(buf: seq<Byte>, at: nat, front: seq<Byte>, s: seq<Byte>, size: nat)
    requires WrittenTo(buf, at, front) && |s| <= size && at + size <= |buf|
    ensures WrittenTo(Splice(buf, at, s), at + size, front + (s + Zeros(size - |s|)))
  {
    var out := Splice(buf, at, s);
    var t := s + Zeros(size - |s|);
    forall k | 0 <= k < at + size ensures out[k] == (front + t)[k] {
      if k < at {
        assert buf[k] == front[k];
      } else if k < at + |s| {
        assert out[k] == out[at..at + |s|][k - at];
      }
    }
    assert out[..at + size] == front + t;
  }

  /** Copies `s` and moves on by `size` bytes of the cleared buffer. */
  method Chunk(buf: array<Byte>, at: nat, s: seq<Byte>, size: nat, ghost front: seq<Byte>) returns (next: nat)
    requires WrittenTo(buf[..], at, front) && |s| <= size && at + size <= buf.Length
    modifies buf
    ensures next == at + size && WrittenTo(buf[..], next, front + (s + Zeros(size - |s|)))
  {
    hide WrittenTo, Splice;
    WrittenMore(buf[..], at, front, s, size);
    Put(buf, at, s);
    next := at + size;
  }

  method ChunkExact(buf: array<Byte>, at: nat, s: seq<Byte>, ghost front: seq<Byte>) returns (next: nat)
    requires WrittenTo(buf[..], at, front) && at + |s| <= buf.Length
    modifies buf
    ensures next == at + |s| && WrittenTo(buf[..], next, front + s)
  {
    hide WrittenTo;
    next := Chunk(buf, at, s, |s|, front);
    assert s + Zeros(0) == s;
  }

  method ChunkPadded(buf: array<Byte>, at: nat, s: seq<Byte>, ghost front: seq<Byte>) returns (next: nat)
    requires WrittenTo(buf[..], at, front) && at + |Padded(s)| <= buf.Length
    modifies buf
    ensures next == at + |Padded(s)| && WrittenTo(buf[..], next, front + Padded(s))
  {
    hide WrittenTo;
    next := Chunk(buf, at, s, Sectors(|s|) * 2048, front);
  }

  /** The loop that copies the directories of one tree. */
  method Tree(buf: array<Byte>, at: nat, content: seq<array<Byte>>, ghost front: seq<Byte>) returns (next: nat)
    requires buf !in content && WrittenTo(buf[..], at, front)
    requires at + |Concat(Snapshot(content), |content|)| <= buf.Length
    modifies buf
    ensures next == at + |Concat(Snapshot(content), |content|)|
    ensures WrittenTo(buf[..], next, front + Concat(Snapshot(content), |content|))
    ensures Snapshot(content) == old(Snapshot(content))
  {
    hide WrittenTo;
    ghost var cs := Snapshot(content);
    next := at;
    var d := 0;
    assert front + Concat(cs, 0) == front;
    while d < |content|
      invariant d <= |content| && Snapshot(content) == cs
      invariant next == at + |Concat(cs, d)| && WrittenTo(buf[..], next, front + Concat(cs, d))
    {
      ConcatAt(cs, |cs|, d);
      next := ChunkExact(buf, next, content[d][..], front + Concat(cs, d));
      assert (front + Concat(cs, d)) + cs[d] == front + Concat(cs, d + 1);
      d := d + 1;
      assert forall e :: 0 <= e < |content| ==> content[e][..] == cs[e];
      assert Snapshot(content) == cs;
    }
  }

  /** The twenty sectors in front of the path tables. */
  method WriteHead(buf: array<Byte>, labels: Labels, volumeSize: U32, p: Buffers, ghost v: Volume, ghost from: Counters) returns (next: nat)
    requires Rooted(v) && |p.content| > 0 && |p.contentJoliet| > 0 && buf.Length >= 20 * 2048
    requires p.content[0][..] == v.content[0] && p.contentJoliet[0][..] == v.contentJoliet[0]
    requires p.tableL.Length == |v.tableL| && p.tableJolietL.Length == |v.tableJolietL|
    requires volumeSize == Wrap32(TotalSectors(Dirs(v.nodes), from))
    requires buf != p.content[0] && buf != p.contentJoliet[0]
    requires WrittenTo(buf[..], 0, [])
    modifies buf
    ensures next == 20 * 2048 && WrittenTo(buf[..], next, Head(v, labels, from))
  {
    hide WrittenTo, Descriptor, SystemArea, TotalSectors, LevelsOk, BytesToSectors, Wrap32;
    var a, b := BytesToSectors(p.tableL.Length) as int, BytesToSectors(p.tableJolietL.Length);
    var sys := SystemArea(labels, volumeSize);
    var iso := Descriptor(labels.isoText, 1, volumeSize, Wrap32(p.tableL.Length), 20, Wrap32(20 + a), p.content[0][..]);
    var jol := Descriptor(labels.jolietText, 2, volumeSize, Wrap32(p.tableJolietL.Length), Wrap32(20 + 2 * a), Wrap32(20 + 2 * a + b), p.contentJoliet[0][..]);
    assert [] + sys == sys;
    next := ChunkExact(buf, 0, sys, []);
    next := ChunkExact(buf, next, iso, sys);
    next := ChunkExact(buf, next, jol, sys + iso);
    next := ChunkExact(buf, next, Terminator(), sys + iso + jol);
    next := ChunkExact(buf, next, Zeros(2048), sys + iso + jol + Terminator());
  }

  method WriteTables(buf: array<Byte>, at: nat, p: Buffers, ghost v: Volume, ghost front: seq<Byte>) returns (next: nat)
    requires WrittenTo(buf[..], at, front) && at + |TablesBytes(v)| <= buf.Length
    requires buf !in p.Tables()
    requires p.tableL[..] == v.tableL && p.tableM[..] == v.tableM && p.tableJolietL[..] == v.tableJolietL && p.tableJolietM[..] == v.tableJolietM
    modifies buf
    ensures next == at + |TablesBytes(v)| && WrittenTo(buf[..], next, front + TablesBytes(v))
  {
    hide WrittenTo, Padded, RoundUp;
    next := ChunkPadded(buf, at, p.tableL[..], front);
    next := ChunkPadded(buf, next, p.tableM[..], front + Padded(v.tableL));
    next := ChunkPadded(buf, next, p.tableJolietL[..], front + Padded(v.tableL) + Padded(v.tableM));
    next := ChunkPadded(buf, next, p.tableJolietM[..], front + Padded(v.tableL) + Padded(v.tableM) + Padded(v.tableJolietL));
    assert front + Padded(v.tableL) + Padded(v.tableM) + Padded(v.tableJolietL) + Padded(v.tableJolietM) == front + TablesBytes(v);
  }

  lemma ClearStart(buf: seq<Byte>)
    requires forall k :: 0 <= k < |buf| ==> buf[k] == 0
    ensures WrittenTo(buf, 0, [])
  {
  }

  lemma WrittenAll(buf: seq<Byte>, at: nat, front: seq<Byte>)
    requires WrittenTo(buf, at, front)
    ensures buf == front + Zeros(|buf| - at)
  {
  }

  /** `write`: everything the served image keeps in memory. What the buffer is too long by stays zero. */
  method Write(buf: array<Byte>, nodes: seq<Node>, p: Buffers, labels: Labels, volumeSize: U32, ghost from: Counters)
    requires buf !in p.content && buf !in p.contentJoliet && buf !in p.Tables()
    requires Rooted(VolumeOf(nodes, p)) && volumeSize == Wrap32(TotalSectors(Dirs(nodes), from))
    requires buf.Length == |FsBytes(VolumeOf(nodes, p), labels, from)| && forall k :: 0 <= k < buf.Length ==> buf[k] == 0
    modifies buf
    ensures VolumeOf(nodes, p) == old(VolumeOf(nodes, p)) && Rooted(VolumeOf(nodes, p))
    ensures buf[..] == FsBytes(VolumeOf(nodes, p), labels, from)
  {
    hide Head, TablesBytes, Concat, TotalSectors, LevelsOk, WrittenTo;
    ghost var v := VolumeOf(nodes, p);
    ClearStart(buf[..]);
    var at := WriteHead(buf, labels, volumeSize, p, v, from);
    assert VolumeOf(nodes, p) == v;
    at := WriteTables(buf, at, p, v, Head(v, labels, from));
    assert VolumeOf(nodes, p) == v;
    ghost var front := Head(v, labels, from) + TablesBytes(v);
    at := Tree(buf, at, p.content, front);
    assert VolumeOf(nodes, p) == v;
    at := Tree(buf, at, p.contentJoliet, front + Concat(v.content, |v.content|));
    assert VolumeOf(nodes, p) == v;
    WrittenAll(buf[..], at, Written(v, labels, from));
  }
}
