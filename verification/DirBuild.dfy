/** `VIsoFile::buildContent`: one directory of one tree, built, sized and linked in place. */
module DirBuild {
  import opened Bytes
  import opened Chunks
  import opened DirRecords
  import opened FolderTree
  import opened DirList
  import opened DirContent
  import opened DirLinks

  /**
   The directories built so far, in list order: each holds its records, with every directory
   below `linked` already entered in its parent.
   */
  ghost predicate ContentOk(nodes: seq<Node>, content: seq<array<Byte>>, joliet: bool, dirBase: U32, fileBase: U32, linked: nat)
    reads content
  {
    && LevelsOk(Dirs(nodes)) && |content| <= |nodes| && linked <= |nodes|
    && (forall i, j :: 0 <= i < j < |content| ==> content[i] != content[j])
    && (forall e :: 0 <= e < |content| ==> DirOk(nodes, content[e][..], joliet, dirBase, fileBase, linked, e))
  }

  ghost predicate DirOk(nodes: seq<Node>, bytes: seq<Byte>, joliet: bool, dirBase: U32, fileBase: U32, linked: nat, e: nat)
    requires LevelsOk(Dirs(nodes)) && linked <= |nodes| && e < |nodes|
  {
    nodes[e].parent < |nodes| && Packed(bytes, NodeRecs(nodes, joliet, dirBase, fileBase, linked, e))
  }

  lemma RoundUpFits(n: nat)
    requires n < TEMP_BUF_SIZE
    ensures RoundUp(n) <= TEMP_BUF_SIZE
  {
  }

  /** Extent recorded in the "." record at the start of a packed directory. */
  method ReadSelf(a: array<Byte>, ghost rs: seq<Rec>) returns (x: Extent)
    requires RecsOk(rs) && Packed(a[..], rs)
    ensures x == Extent(rs[0].start, rs[0].size)
  {
    hide FromLe32, RecsOk, Packed;
    FirstRecord(a[..], rs);
    assert a[2..6] == a[..][2..6] && a[10..14] == a[..][10..14];
    x := Extent(FromLe32(a[2..6]), FromLe32(a[10..14]));
  }

  lemma LensKept(rs: seq<Rec>, k: nat, start: U32, size: U32)
    requires RecsOk(rs) && k < |rs|
    ensures RecsOk(rs[k := rs[k].(start := start, size := size)])
    ensures Lens(rs[k := rs[k].(start := start, size := size)]) == Lens(rs)
  {
    hide LenDr;
  }

  lemma PackedPatched(b: seq<Byte>, bs: seq<Rec>, k: nat, start: U32, size: U32)
    requires RecsOk(bs) && Packed(b, bs) && k < |bs|
    ensures RecsOk(bs[k := bs[k].(start := start, size := size)])
    ensures Pos(Lens(bs), k) + 18 <= |b|
    ensures Packed(Splice(b, Pos(Lens(bs), k) + 2, Both32(start) + Both32(size)), bs[k := bs[k].(start := start, size := size)])
  {
    hide Laid, Pos, End, Lens, RoundUp, RecsOk, Both32;
    LaidPatchExtent(b, bs, k, start, size);
    LensKept(bs, k, start, size);
  }

  lemma ExtentCopied(a: seq<Byte>, as_: seq<Rec>, b: seq<Byte>, bs: seq<Rec>, k: nat)
    requires RecsOk(as_) && Packed(a, as_)
    requires RecsOk(bs) && Packed(b, bs) && k < |bs|
    ensures |as_| > 0 && RecsOk(bs[k := bs[k].(start := as_[0].start, size := as_[0].size)])
    ensures 18 <= |a| && Pos(Lens(bs), k) + 18 <= |b|
    ensures Packed(Splice(b, Pos(Lens(bs), k) + 2, a[2..18]), bs[k := bs[k].(start := as_[0].start, size := as_[0].size)])
  {
    hide Packed, Pos, Lens, RecsOk, Both32, Splice;
    FirstRecord(a, as_);
    PackedPatched(b, bs, k, as_[0].start, as_[0].size);
    assert a[2..18] == a[2..10] + a[10..18];
  }

  /** Copies the extent fields of the "." record of `a` over those of record `k` of `b`. */
  method CopyExtent(a: array<Byte>, ghost as_: seq<Rec>, b: array<Byte>, at: nat, ghost bs: seq<Rec>, ghost k: nat)
    requires RecsOk(as_) && Packed(a[..], as_)
    requires RecsOk(bs) && Packed(b[..], bs) && k < |bs| && at == Pos(Lens(bs), k)
    modifies b
    ensures |as_| > 0 && RecsOk(bs[k := bs[k].(start := as_[0].start, size := as_[0].size)])
    ensures Packed(b[..], bs[k := bs[k].(start := as_[0].start, size := as_[0].size)])
  {
    hide Packed, RecsOk, Pos, Splice, Lens;
    ExtentCopied(a[..], as_, b[..], bs, k);
    assert a[2..18] == a[..][2..18];
    Put(b, at + 2, a[2..18]);
  }

  lemma SizeSpliced(was: seq<Byte>, start: U32, size: U32)
    requires 18 <= |was| && was[2..10] == Both32(start)
    ensures Splice(Splice(was, 10, Le32(size)), 14, Be32(size)) == Splice(was, 2, Both32(start) + Both32(size))
  {
    hide Le32, Be32;
    SpliceTwice(was, 10, Le32(size), Be32(size));
    var a, b := Splice(was, 10, Both32(size)), Splice(was, 2, Both32(start) + Both32(size));
    forall i | 0 <= i < |was| ensures a[i] == b[i] {
      if 2 <= i < 10 {
        assert was[i] == was[2..10][i - 2];
      }
    }
  }

  lemma SizeEntered(buf: seq<Byte>, rs: seq<Rec>, size: U32)
    requires RecsOk(rs) && Packed(buf, rs)
    ensures 18 <= |buf| && RecsOk(rs[0 := rs[0].(size := size)])
    ensures Packed(Splice(Splice(buf, 10, Le32(size)), 14, Be32(size)), rs[0 := rs[0].(size := size)])
  {
    hide Packed, Pos, Lens, RecsOk, Both32, Splice, Le32, Be32;
    FirstRecord(buf, rs);
    FreeStart(Lens(rs));
    PackedPatched(buf, rs, 0, rs[0].start, size);
    SizeSpliced(buf, rs[0].start, size);
    assert rs[0].(start := rs[0].start, size := size) == rs[0].(size := size);
  }

  lemma Trimmed(buf: seq<Byte>, rs: seq<Rec>)
    requires RecsOk(rs) && Laid(buf, rs) && RoundUp(End(Lens(rs))) <= |buf|
    ensures Packed(buf[..RoundUp(End(Lens(rs)))], rs)
  {
    hide Laid, RoundUp, End;
    LaidTruncated(buf, rs, RoundUp(End(Lens(rs))));
  }

  /** Copies the filled part of the buffer, whole sectors of it, and enters its size in ".". */
  method Trim(buf: array<Byte>, q: nat, ghost rs: seq<Rec>) returns (p: array<Byte>)
    requires RecsOk(rs) && Laid(buf[..], rs) && q == End(Lens(rs)) < buf.Length == TEMP_BUF_SIZE
    ensures fresh(p)
    ensures RecsOk(rs[0 := rs[0].(size := Wrap32(RoundUp(q)))])
    ensures Packed(p[..], rs[0 := rs[0].(size := Wrap32(RoundUp(q)))])
    ensures p.Length == RoundUp(q)
  {
    hide Packed, RecsOk, Laid, End, Splice, Le32, Be32, RoundUp, Wrap32, Lens;
    RoundUpFits(q);
    var size := RoundUp(q);
    Trimmed(buf[..], rs);
    p := new Byte[size](i requires 0 <= i < size <= buf.Length reads buf => buf[i]);
    assert p[..] == buf[..size] == buf[..][..size];
    SizeEntered(p[..], rs, Wrap32(size));
    Put(p, 10, Le32(Wrap32(size)));
    Put(p, 14, Be32(Wrap32(size)));
  }

  // ---------------------------------------------------------------- buildContent

  // Sectors are counted on from `dirBase` and `fileBase`, the values the running counters had when `build` began.

  /** Records of directory `d` before its own size, and its place in its parent, are known. */
  function DraftRecs(nodes: seq<Node>, joliet: bool, dirBase: U32, fileBase: U32, d: nat): seq<Rec>
    requires LevelsOk(Dirs(nodes)) && d < |nodes| && nodes[d].parent < |nodes|
  {
    var ds, up := Dirs(nodes), nodes[d].parent;
    RecList(ds[d], ds[up].time, joliet, Extent(Wrap32(dirBase + RelStart(ds, joliet, d)), 0),
            if up == d then NOWHERE else DirExtent(ds, joliet, dirBase, up), Lbas(ds, d, fileBase), Blanks(|ds[d].subdirs|))
  }

  lemma DraftBecomes(nodes: seq<Node>, root: Dir, joliet: bool, dirBase: U32, fileBase: U32, d: nat)
    requires Ready(nodes, root) && d < |nodes| && nodes[d].parent < |nodes|
    ensures RecsOk(DraftRecs(nodes, joliet, dirBase, fileBase, d))
    ensures End(Lens(DraftRecs(nodes, joliet, dirBase, fileBase, d))) == PackedEnd(nodes[d].dir, joliet)
    ensures var x := DirExtent(Dirs(nodes), joliet, dirBase, d);
            var rs := DraftRecs(nodes, joliet, dirBase, fileBase, d);
            var sized := rs[0 := rs[0].(size := x.size)];
            NodeRecs(nodes, joliet, dirBase, fileBase, d + 1, d)
              == if nodes[d].parent == d then sized[1 := sized[1].(start := x.start, size := x.size)] else sized
  {
    hide Listed, LevelOk, RecList, RelStart, Shape, End, Lens, Lbas, DirSize, Wrap32, ChildStart, KidExtents;
    var ds, up := Dirs(nodes), nodes[d].parent;
    var x := DirExtent(ds, joliet, dirBase, d);
    var self := Extent(Wrap32(dirBase + RelStart(ds, joliet, d)), 0);
    var above := if up == d then NOWHERE else DirExtent(ds, joliet, dirBase, up);
    assert LevelOk(ds[d]);
    RecListLens(ds[d], ds[up].time, joliet, self, above, Lbas(ds, d, fileBase), Blanks(|ds[d].subdirs|));
    KidsBlank(nodes, root, joliet, dirBase, d);
    PatchSelf(ds[d], ds[up].time, joliet, self, x, above, Lbas(ds, d, fileBase), Blanks(|ds[d].subdirs|));
    PatchUp(ds[d], ds[up].time, joliet, x, above, x, Lbas(ds, d, fileBase), Blanks(|ds[d].subdirs|));
  }

  lemma DraftParts(nodes: seq<Node>, joliet: bool, dirBase: U32, fileBase: U32, d: nat)
    requires LevelsOk(Dirs(nodes)) && d < |nodes| && nodes[d].parent < |nodes|
    ensures var ds, up, dir := Dirs(nodes), nodes[d].parent, nodes[d].dir;
            var above := if up == d then NOWHERE else DirExtent(ds, joliet, dirBase, up);
            var dots := [DirRec(Extent(Wrap32(dirBase + RelStart(ds, joliet, d)), 0), dir.time, [0]), DirRec(above, nodes[up].dir.time, [1])];
            DraftRecs(nodes, joliet, dirBase, fileBase, d)
              == (dots + FilesRecs(dir.files, Lbas(ds, d, fileBase), joliet, |dir.files|))
                 + KidRecs(dir.subdirs, joliet, Blanks(|dir.subdirs|))
  {
    hide LevelsOk, RelStart, DirExtent, FilesRecs, KidRecs, DirRec, Wrap32;
  }

  /** The records of directory `d` packed into the scratch buffer. */
  method FillRecords(buf: array<Byte>, nodes: seq<Node>, ghost root: Dir, ghost dirBase: U32, ghost fileBase: U32, d: nat, joliet: bool,
                     start: U32, up: Extent)
    returns (ok: bool, q: nat)
    requires Ready(nodes, root) && FilesPlaced(nodes, fileBase) && d < |nodes| && nodes[d].parent < |nodes| && buf.Length == TEMP_BUF_SIZE
    requires start == Wrap32(dirBase + RelStart(Dirs(nodes), joliet, d))
    requires up == if nodes[d].parent == d then NOWHERE else DirExtent(Dirs(nodes), joliet, dirBase, nodes[d].parent)
    modifies buf
    ensures ok <==> PackedEnd(nodes[d].dir, joliet) < TEMP_BUF_SIZE
    ensures ok ==> Laid(buf[..], DraftRecs(nodes, joliet, dirBase, fileBase, d)) && q == PackedEnd(nodes[d].dir, joliet)
  {
    hide Laid, End, Listed, LevelsOk, FilesPlaced, RelStart, DirExtent, FilesRecs, KidRecs, PackedEnd, LevelOk, RecOk, Wrap32, DraftRecs, Lens;
    DraftBecomes(nodes, root, joliet, dirBase, fileBase, d);
    ReadyAt(nodes, root, d);
    PlacedAt(nodes, fileBase, d);
    var dir := nodes[d].dir;
    var dot := DirRec(Extent(start, 0), dir.time, [0]);
    var dotDot := DirRec(up, nodes[nodes[d].parent].dir.time, [1]);
    PutDots(buf, dot, dotDot);
    ghost var rs := [dot, dotDot];
    ghost var fs := FilesRecs(dir.files, Lbas(Dirs(nodes), d, fileBase), joliet, |dir.files|);
    ghost var ks := KidRecs(dir.subdirs, joliet, Blanks(|dir.subdirs|));
    DraftParts(nodes, joliet, dirBase, fileBase, d);
    ok, q := PutFiles(buf, 0x50, nodes[d].files, joliet, rs);
    if !ok {
      EndPrefix(rs + fs, ks);
      return;
    }
    ok, q := PutChildren(buf, q, nodes, root, d, joliet, rs + fs);
  }

  method SizeDirectory(buf: array<Byte>, q: nat, nodes: seq<Node>, ghost root: Dir, ghost dirBase: U32, ghost fileBase: U32, d: nat, joliet: bool)
    returns (p: array<Byte>)
    requires Ready(nodes, root) && d < |nodes| && nodes[d].parent < |nodes| && buf.Length == TEMP_BUF_SIZE
    requires q == PackedEnd(nodes[d].dir, joliet) < TEMP_BUF_SIZE && Laid(buf[..], DraftRecs(nodes, joliet, dirBase, fileBase, d))
    ensures fresh(p) && p.Length == DirSize(nodes[d].dir, joliet)
    ensures DirOk(nodes, p[..], joliet, dirBase, fileBase, d + 1, d)
  {
    hide Packed, Laid, Listed, DraftRecs, NodeRecs, PackedEnd, RelStart, FilesPlaced, LevelOk, Wrap32, RoundUp, RecsOk;
    DraftBecomes(nodes, root, joliet, dirBase, fileBase, d);
    ghost var rs := DraftRecs(nodes, joliet, dirBase, fileBase, d);
    DraftDots(nodes, joliet, dirBase, fileBase, d);
    p := Trim(buf, q, rs);
    ghost var sized := rs[0 := rs[0].(size := Wrap32(RoundUp(q)))];
    if nodes[d].parent == d {
      SecondAt(sized);
      CopyExtent(p, sized, p, 0x28, sized, 1);
    }
  }

  lemma DraftDots(nodes: seq<Node>, joliet: bool, dirBase: U32, fileBase: U32, d: nat)
    requires LevelsOk(Dirs(nodes)) && d < |nodes| && nodes[d].parent < |nodes|
    ensures var rs := DraftRecs(nodes, joliet, dirBase, fileBase, d);
      |rs| > 1 && rs[0].start == Wrap32(dirBase + RelStart(Dirs(nodes), joliet, d)) && rs[0].id == [0] && rs[1].id == [1]
  {
    hide LevelOk, RelStart, Wrap32, DirExtent, FilesRecs, KidRecs, Lbas;
  }

  /** Enters the finished directory `d` in its parent's records. */
  method LinkIntoParent(p: array<Byte>, parent: array<Byte>, nodes: seq<Node>, ghost root: Dir, ghost dirBase: U32, ghost fileBase: U32,
                        d: nat, joliet: bool)
    returns (ok: bool)
    requires Ready(nodes, root) && 0 < d < |nodes| && nodes[d].parent < d && p != parent
    requires DirOk(nodes, p[..], joliet, dirBase, fileBase, d + 1, d) && DirOk(nodes, parent[..], joliet, dirBase, fileBase, d, nodes[d].parent)
    modifies parent
    ensures ok && DirOk(nodes, parent[..], joliet, dirBase, fileBase, d + 1, nodes[d].parent)
  {
    hide Packed, Listed, NodeRecs, RelStart, FilesPlaced, LevelOk, ChildStart, Wrap32, RecsOk, DirSize, SearchKey, KidIndex;
    ghost var e := nodes[d].parent;
    OneMoreLinked(nodes, root, joliet, dirBase, fileBase, d, e);
    NodeSelf(nodes, joliet, dirBase, fileBase, d + 1, d);
    NodeRecsLens(nodes, joliet, dirBase, fileBase, d + 1, d);
    NodeRecsLens(nodes, joliet, dirBase, fileBase, d, e);
    ghost var ps := NodeRecs(nodes, joliet, dirBase, fileBase, d, e);
    var at := FindDirRecord(parent, SearchKey(nodes[d].dir.name, joliet), ps);
    if at.None? {
      return false;
    }
    CopyExtent(p, NodeRecs(nodes, joliet, dirBase, fileBase, d + 1, d), parent, at.value, ps,
               FirstMatch(ps, SearchKey(nodes[d].dir.name, joliet), 0).value);
    return true;
  }

  method ParentExtent(nodes: seq<Node>, ghost root: Dir, parent: array<Byte>, ghost dirBase: U32, ghost fileBase: U32, d: nat, joliet: bool)
    returns (x: Extent)
    requires Ready(nodes, root) && d < |nodes| && nodes[d].parent < d
    requires DirOk(nodes, parent[..], joliet, dirBase, fileBase, d, nodes[d].parent)
    ensures x == DirExtent(Dirs(nodes), joliet, dirBase, nodes[d].parent)
  {
    hide Packed, Listed, NodeRecs, RelStart, FilesPlaced, LevelOk, Wrap32, RecsOk, DirSize;
    NodeRecsLens(nodes, joliet, dirBase, fileBase, d, nodes[d].parent);
    NodeSelf(nodes, joliet, dirBase, fileBase, d, nodes[d].parent);
    x := ReadSelf(parent, NodeRecs(nodes, joliet, dirBase, fileBase, d, nodes[d].parent));
  }

  method BuildContent(buf: array<Byte>, nodes: seq<Node>, ghost root: Dir, content: seq<array<Byte>>, ghost dirBase: U32, ghost fileBase: U32,
                      d: nat, joliet: bool, dirsSectors: U32)
    returns (ok: bool, p: array<Byte>)
    requires Ready(nodes, root) && FilesPlaced(nodes, fileBase) && |content| == d < |nodes| && buf.Length == TEMP_BUF_SIZE && buf !in content
    requires ContentOk(nodes, content, joliet, dirBase, fileBase, d)
    requires dirsSectors == Wrap32(dirBase + RelStart(Dirs(nodes), joliet, d))
    modifies buf, content
    ensures ok <==> PackedEnd(nodes[d].dir, joliet) < TEMP_BUF_SIZE
    ensures fresh(p)
    ensures ok ==> ContentOk(nodes, content + [p], joliet, dirBase, fileBase, d + 1) && p.Length == DirSize(nodes[d].dir, joliet)
  {
    hide Laid, Packed, Listed, DraftRecs, NodeRecs, PackedEnd, RelStart, FilesPlaced, LevelOk, ChildStart, Wrap32, RoundUp, DirExtent, DirSize;
    LinksMean(nodes, root, d);
    ghost var was := seq(d, e requires 0 <= e < d reads content => content[e][..]);
    var parent := nodes[d].parent;
    var up := NOWHERE;
    if parent != d {
      up := ParentExtent(nodes, root, content[parent], dirBase, fileBase, d, joliet);
    }
    var q;
    ok, q := FillRecords(buf, nodes, root, dirBase, fileBase, d, joliet, dirsSectors, up);
    if !ok {
      p := new Byte[0];
      return;
    }
    p := SizeDirectory(buf, q, nodes, root, dirBase, fileBase, d, joliet);
    if parent != d {
      ok := LinkIntoParent(p, content[parent], nodes, root, dirBase, fileBase, d, joliet);
    }
    forall e | 0 <= e < d ensures DirOk(nodes, content[e][..], joliet, dirBase, fileBase, d + 1, e) {
      if e != parent {
        assert content[e][..] == was[e];
        EarlierKept(nodes, root, was[e], joliet, dirBase, fileBase, d, e);
      }
    }
    if ok {
      ContentGrows(nodes, content, p, joliet, dirBase, fileBase);
    }
  }

  lemma ContentGrows(nodes: seq<Node>, content: seq<array<Byte>>, p: array<Byte>, joliet: bool, dirBase: U32, fileBase: U32)
    requires LevelsOk(Dirs(nodes)) && |content| < |nodes| && p !in content
    requires forall i, j :: 0 <= i < j < |content| ==> content[i] != content[j]
    requires forall e :: 0 <= e < |content| ==> DirOk(nodes, content[e][..], joliet, dirBase, fileBase, |content| + 1, e)
    requires DirOk(nodes, p[..], joliet, dirBase, fileBase, |content| + 1, |content|)
    ensures ContentOk(nodes, content + [p], joliet, dirBase, fileBase, |content| + 1)
  {
    hide LevelsOk, DirOk;
  }

  /** What placing directory `d` leaves alone: every earlier directory but its parent. */
  lemma EarlierKept(nodes: seq<Node>, root: Dir, bytes: seq<Byte>, joliet: bool, dirBase: U32, fileBase: U32, d: nat, e: nat)
    requires Ready(nodes, root) && e < d < |nodes| && e != nodes[d].parent
    requires DirOk(nodes, bytes, joliet, dirBase, fileBase, d, e)
    ensures DirOk(nodes, bytes, joliet, dirBase, fileBase, d + 1, e)
  {
    hide Packed, Listed, NodeRecs, PackedEnd, FilesPlaced, LevelOk, ChildStart, DirExtent, KidIndex;
    OneMoreLinked(nodes, root, joliet, dirBase, fileBase, d, e);
  }

  lemma SecondAt(rs: seq<Rec>)
    requires RecsOk(rs) && |rs| > 1 && |rs[0].id| == 1 && |rs[1].id| == 1
    ensures Pos(Lens(rs), 1) == 0x28
  {
  }

  /** The first record of a directory is its own extent. */
  lemma NodeSelf(nodes: seq<Node>, joliet: bool, dirBase: U32, fileBase: U32, linked: nat, e: nat)
    requires LevelsOk(Dirs(nodes)) && linked <= |nodes| && e < |nodes| && nodes[e].parent < |nodes|
    ensures var rs := NodeRecs(nodes, joliet, dirBase, fileBase, linked, e);
      |rs| > 1 && Extent(rs[0].start, rs[0].size) == DirExtent(Dirs(nodes), joliet, dirBase, e)
  {
    hide RelStart, Wrap32, DirSize, LevelOk;
  }
}
