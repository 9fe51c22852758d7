/** `VIsoFile::buildContent`: filling, trimming and linking the records of one directory. */
module DirContent {
  import opened Bytes
  import opened DirRecords
  import opened FolderTree
  import opened DirList

  const TEMP_BUF_SIZE: nat := 0x40_0000

  lemma EndPrefix(a: seq<Rec>, b: seq<Rec>)
    requires RecsOk(a) && RecsOk(a + b)
    ensures End(Lens(a)) <= End(Lens(a + b))
  {
    hide Pos, RecLen;
    LensConcat(a, b);
    PosPrefix(Lens(a), Lens(a + b)[|a|..], |a| - 1);
    EndBound(Lens(a + b), |a| - 1);
  }

  lemma LensConcat(a: seq<Rec>, b: seq<Rec>)
    requires RecsOk(a) && RecsOk(a + b)
    ensures Lens(a + b) == Lens(a) + Lens(a + b)[|a|..]
  {
    hide RecLen;
  }

  lemma SecondDot(a: Rec, b: Rec)
    requires RecOk(a) && RecOk(b) && RecLen(a) == 0x28 && RecLen(b) == 0x28
    ensures Place(End(Lens([a])), RecLen(b)) == 0x28
  {
  }

  /** The "." and ".." records at the start of a cleared buffer. */
  method PutDots(buf: array<Byte>, dot: Rec, dotDot: Rec)
    requires buf.Length == TEMP_BUF_SIZE && |dot.id| == 1 && |dotDot.id| == 1
    modifies buf
    ensures RecsOk([dot, dotDot]) && Laid(buf[..], [dot, dotDot]) && End(Lens([dot, dotDot])) == 0x50
  {
    forall k | 0 <= k < buf.Length {
      buf[k] := 0;
    }
    hide Encode, Pos, Laid, Place, Splice;
    LaidFirst(buf[..], dot);
    Put(buf, 0, Encode(dot));
    SecondDot(dot, dotDot);
    LaidAppend(buf[..], [dot], dotDot);
    assert [dot] + [dotDot] == [dot, dotDot];
    Put(buf, 0x28, Encode(dotDot));
  }

  // ---------------------------------------------------------------- file records

  function FilesOf(fs: seq<FileNode>): (r: seq<File>)
    ensures |r| == |fs| && forall i :: 0 <= i < |fs| ==> r[i] == fs[i].file
  {
    seq(|fs|, i requires 0 <= i < |fs| => fs[i].file)
  }

  function LbasOf(fs: seq<FileNode>): (r: seq<U32>)
    ensures |r| == |fs| && forall i :: 0 <= i < |fs| ==> r[i] == fs[i].rlba
  {
    seq(|fs|, i requires 0 <= i < |fs| => fs[i].rlba)
  }

  lemma LbaSteps(lba: U32, i: nat)
    ensures Wrap32(Wrap32(lba + i * 0x1F_FFFF) + BytesToSectors(MULTIEXTENT_PART_SIZE)) == Wrap32(lba + (i + 1) * 0x1F_FFFF)
  {
    assert Sectors(MULTIEXTENT_PART_SIZE) == 0x1F_FFFF;
    hide Wrap32, Sectors;
    Wrap32Sum(lba + i * 0x1F_FFFF, 0x1F_FFFF);
  }

  /** One record of a file, computed the way the loop does from the running `lba`. */
  lemma FileRecIs(f: File, lba0: U32, joliet: bool, i: nat, lba: U32)
    requires i < Parts(|f.data|) && lba == Wrap32(lba0 + i * 0x1F_FFFF)
    ensures FileRec(f, lba0, joliet, i) ==
      var parts := Parts(|f.data|);
      if parts == 1 then Rec(lba, Wrap32(|f.data|), f.time, 0, FileId(f.name, joliet))
      else if i == parts - 1 then Rec(lba, Wrap32(|f.data| - Wrap32(i * MULTIEXTENT_PART_SIZE)), f.time, 0, FileId(f.name, joliet))
      else Rec(lba, MULTIEXTENT_PART_SIZE, f.time, ISO_MULTIEXTENT, FileId(f.name, joliet))
  {
    hide FileId, Parts;
  }

  /** Record `i` of a file, as the loop body computes it from the running `lba`. */
  method MakeFileRec(f: File, lba: U32, joliet: bool, parts: nat, i: nat, ghost lba0: U32) returns (r: Rec)
    requires i < parts == Parts(|f.data|) && lba == Wrap32(lba0 + i * 0x1F_FFFF)
    ensures r == FileRec(f, lba0, joliet, i)
  {
    FileRecIs(f, lba0, joliet, i, lba);
    hide FileId, FileRec, Parts, Wrap32;
    var id := FileId(f.name, joliet);
    if parts == 1 {
      r := Rec(lba, Wrap32(|f.data|), f.time, 0, id);
    } else if i == parts - 1 {
      r := Rec(lba, Wrap32(|f.data| - Wrap32(i * MULTIEXTENT_PART_SIZE)), f.time, 0, id);
    } else {
      r := Rec(lba, MULTIEXTENT_PART_SIZE, f.time, ISO_MULTIEXTENT, id);
    }
  }

  method PutFile(buf: array<Byte>, p: nat, f: File, rlba: U32, joliet: bool, ghost rs: seq<Rec>) returns (ok: bool, q: nat)
    requires RecsOk(rs) && Laid(buf[..], rs) && p == End(Lens(rs)) < buf.Length
    modifies buf
    ensures RecsOk(rs + FileRecs(f, rlba, joliet))
    ensures ok <==> End(Lens(rs + FileRecs(f, rlba, joliet))) < buf.Length
    ensures ok ==> Laid(buf[..], rs + FileRecs(f, rlba, joliet)) && q == End(Lens(rs + FileRecs(f, rlba, joliet)))
  {
    hide Laid, End, FileId, FileRec, Wrap32, BytesToSectors, Parts, RecOk, Lens;
    var parts := Parts(|f.data|);
    ghost var fs := FileRecs(f, rlba, joliet);
    FileRecsAllOk(rs, f, rlba, joliet);
    var lba := rlba;
    Wrap32Same(rlba);
    assert rs + fs[..0] == rs;
    q := p;
    var i := 0;
    while i < parts
      invariant i <= parts && RecsOk(rs + fs[..i])
      invariant Laid(buf[..], rs + fs[..i]) && q == End(Lens(rs + fs[..i])) < buf.Length
      invariant lba == Wrap32(rlba + i * 0x1F_FFFF)
    {
      var r := MakeFileRec(f, lba, joliet, parts, i, rlba);
      assert r == fs[i] && r == (rs + fs)[|rs| + i];
      assert (rs + fs[..i]) + [r] == rs + fs[..i + 1];
      LbaSteps(rlba, i);
      lba := Wrap32(lba + BytesToSectors(MULTIEXTENT_PART_SIZE));
      ok, q := AppendRecord(buf, q, r, rs + fs[..i]);
      if !ok {
        assert rs + fs == (rs + fs[..i + 1]) + fs[i + 1..];
        EndPrefix(rs + fs[..i + 1], fs[i + 1..]);
        return;
      }
      i := i + 1;
    }
    assert fs[..i] == fs;
    ok := true;
  }

  lemma Wrap32Same(x: U32)
    ensures Wrap32(x) == x
  {
  }

  lemma FileRecsAllOk(rs: seq<Rec>, f: File, lba: U32, joliet: bool)
    requires RecsOk(rs)
    ensures RecsOk(rs + FileRecs(f, lba, joliet))
  {
    hide FileId, Parts;
    var fs := FileRecs(f, lba, joliet);
    assert forall i :: 0 <= i < |fs| ==> fs[i].id == FileId(f.name, joliet);
  }

  lemma FilesRecsAllOk(rs: seq<Rec>, files: seq<File>, lbas: seq<U32>, joliet: bool, n: nat)
    requires RecsOk(rs) && n <= |files| == |lbas|
    ensures RecsOk(rs + FilesRecs(files, lbas, joliet, n))
  {
    hide FilesRecs, RecOk;
    FilesRecsOk(files, lbas, joliet, n);
    var fs := FilesRecs(files, lbas, joliet, n);
    forall i | 0 <= i < |rs + fs| ensures RecOk((rs + fs)[i]) {
      if i >= |rs| {
        assert fs[i - |rs|] in fs;
      }
    }
  }

  lemma FilesRecsStep(files: seq<File>, lbas: seq<U32>, joliet: bool, n: nat)
    requires n < |files| == |lbas|
    ensures FilesRecs(files, lbas, joliet, n + 1) == FilesRecs(files, lbas, joliet, n) + FileRecs(files[n], lbas[n], joliet)
  {
  }

  lemma {:induction false} FilesRecsPrefix(files: seq<File>, lbas: seq<U32>, joliet: bool, n: nat, m: nat)
    requires n <= m <= |files| == |lbas|
    ensures FilesRecs(files, lbas, joliet, n) <= FilesRecs(files, lbas, joliet, m)
    decreases m
  {
    if n < m {
      FilesRecsPrefix(files, lbas, joliet, n, m - 1);
    }
  }

  method PutFiles(buf: array<Byte>, p: nat, fileList: seq<FileNode>, joliet: bool, ghost rs: seq<Rec>) returns (ok: bool, q: nat)
    requires RecsOk(rs) && Laid(buf[..], rs) && p == End(Lens(rs)) < buf.Length
    modifies buf
    ensures var fs := FilesRecs(FilesOf(fileList), LbasOf(fileList), joliet, |fileList|);
      && RecsOk(rs + fs)
      && (ok <==> End(Lens(rs + fs)) < buf.Length)
      && (ok ==> Laid(buf[..], rs + fs) && q == End(Lens(rs + fs)))
  {
    hide Laid, End, FilesRecs, FileRecs;
    ghost var files, lbas := FilesOf(fileList), LbasOf(fileList);
    ghost var all := FilesRecs(files, lbas, joliet, |fileList|);
    FilesRecsAllOk(rs, files, lbas, joliet, |fileList|);
    NoFiles(rs, files, lbas, joliet);
    q := p;
    var f := 0;
    while f < |fileList|
      invariant f <= |fileList| && RecsOk(rs + FilesRecs(files, lbas, joliet, f))
      invariant Laid(buf[..], rs + FilesRecs(files, lbas, joliet, f))
      invariant q == End(Lens(rs + FilesRecs(files, lbas, joliet, f))) < buf.Length
    {
      ghost var done := FilesRecs(files, lbas, joliet, f);
      FilesRecsStep(files, lbas, joliet, f);
      assert (rs + done) + FileRecs(files[f], lbas[f], joliet) == rs + FilesRecs(files, lbas, joliet, f + 1);
      ok, q := PutFile(buf, q, fileList[f].file, fileList[f].rlba, joliet, rs + done);
      if !ok {
        FilesRecsPrefix(files, lbas, joliet, f + 1, |fileList|);
        ghost var n := |FilesRecs(files, lbas, joliet, f + 1)|;
        assert rs + all == (rs + FilesRecs(files, lbas, joliet, f + 1)) + all[n..];
        EndPrefix(rs + FilesRecs(files, lbas, joliet, f + 1), all[n..]);
        return;
      }
      f := f + 1;
    }
    ok := true;
  }

  lemma NoFiles(rs: seq<Rec>, files: seq<File>, lbas: seq<U32>, joliet: bool)
    requires |files| == |lbas|
    ensures rs + FilesRecs(files, lbas, joliet, 0) == rs
  {
  }

  // ---------------------------------------------------------------- subdirectory records

  ghost predicate Ready(nodes: seq<Node>, root: Dir) {
    Listed(nodes, root) && LevelsOk(Dirs(nodes))
  }

  function Blanks(n: nat): (xs: seq<Extent>)
    ensures |xs| == n && forall i :: 0 <= i < n ==> xs[i] == NOWHERE
  {
    seq(n, _ => NOWHERE)
  }

  lemma ChildNode(nodes: seq<Node>, root: Dir, d: nat, j: nat)
    requires Ready(nodes, root) && d < |nodes| && j < |nodes[d].dir.subdirs|
    ensures ChildStart(Dirs(nodes), d) + j < |nodes|
    ensures ChildOf(nodes, d, j, ChildStart(Dirs(nodes), d) + j)
  {
    hide Listed, LevelsOk;
    ChildIs(nodes, root, d, j);
  }

  lemma KidRecsOk(rs: seq<Rec>, dir: Dir, joliet: bool, kids: seq<Extent>)
    requires RecsOk(rs) && LevelOk(dir) && |kids| == |dir.subdirs|
    ensures RecsOk(rs + KidRecs(dir.subdirs, joliet, kids))
  {
    hide KidRecs, RecOk, LevelOk, DirId;
    forall j | 0 <= j < |kids| ensures RecOk(KidRecs(dir.subdirs, joliet, kids)[j]) {
      KidOk(dir, joliet, kids, j);
    }
  }

  /** The loop over `firstChild`/`nextSibling`. */
  method PutChildren(buf: array<Byte>, p: nat, nodes: seq<Node>, ghost root: Dir, d: nat, joliet: bool, ghost rs: seq<Rec>)
    returns (ok: bool, q: nat)
    requires Ready(nodes, root) && d < |nodes|
    requires RecsOk(rs) && Laid(buf[..], rs) && p == End(Lens(rs)) < buf.Length
    modifies buf
    ensures var ks := KidRecs(nodes[d].dir.subdirs, joliet, Blanks(|nodes[d].dir.subdirs|));
      && RecsOk(rs + ks)
      && (ok <==> End(Lens(rs + ks)) < buf.Length)
      && (ok ==> Laid(buf[..], rs + ks) && q == End(Lens(rs + ks)))
  {
    hide Laid, End, Ready, ChildStart, DirId, LevelOk, RecOk;
    ghost var dir := nodes[d].dir;
    ghost var ks := KidRecs(dir.subdirs, joliet, Blanks(|dir.subdirs|));
    ReadyAt(nodes, root, d);
    KidRecsOk(rs, dir, joliet, Blanks(|dir.subdirs|));
    q := p;
    var next := nodes[d].firstChild;
    ghost var j := 0;
    assert rs + ks[..0] == rs;
    while next.Some?
      invariant j <= |ks| && RecsOk(rs + ks[..j])
      invariant next == if j < |ks| then Some(ChildStart(Dirs(nodes), d) + j) else None
      invariant Laid(buf[..], rs + ks[..j]) && q == End(Lens(rs + ks[..j])) < buf.Length
      decreases |ks| - j
    {
      ChildNode(nodes, root, d, j);
      var child := nodes[next.value];
      var r := Rec(0, 0, child.dir.time, ISO_DIRECTORY, DirId(child.dir.name, joliet));
      assert r == ks[j];
      KidOk(dir, joliet, Blanks(|ks|), j);
      assert (rs + ks[..j]) + [r] == rs + ks[..j + 1];
      ok, q := AppendRecord(buf, q, r, rs + ks[..j]);
      if !ok {
        assert rs + ks == (rs + ks[..j + 1]) + ks[j + 1..];
        EndPrefix(rs + ks[..j + 1], ks[j + 1..]);
        return;
      }
      next := child.nextSibling;
      j := j + 1;
    }
    assert ks[..j] == ks;
    ok := true;
  }

  lemma ReadyAt(nodes: seq<Node>, root: Dir, d: nat)
    requires Ready(nodes, root) && d < |nodes|
    ensures LevelOk(nodes[d].dir) && nodes[d].parent < |nodes|
    ensures nodes[d].firstChild == if |nodes[d].dir.subdirs| > 0 then Some(ChildStart(Dirs(nodes), d)) else None
  {
    hide ChildStart, Listed, LevelOk;
    LinksMean(nodes, root, d);
    assert LevelOk(Dirs(nodes)[d]);
  }

  lemma PlacedAt(nodes: seq<Node>, base: U32, d: nat)
    requires FilesPlaced(nodes, base) && d < |nodes|
    ensures FilesOf(nodes[d].files) == nodes[d].dir.files && LbasOf(nodes[d].files) == Lbas(Dirs(nodes), d, base)
  {
    hide FileLba;
    assert nodes[d].files == FileNodes(Dirs(nodes), base, d);
  }
}
