/** Path table construction, and what rebasing makes of the relative sector numbers. */
module VIsoTables {
  import opened Bytes
  import opened DirRecords
  import opened PathTables
  import opened FolderTree
  import opened DirList
  import opened DirContent
  import opened DirLinks
  import opened DirBuild

  // ---------------------------------------------------------------- path table entries

  function PathId(ds: seq<Dir>, joliet: bool, d: nat): seq<Byte>
    requires d < |ds|
  {
    if d == 0 then [0] else DirId(ds[d].name, joliet)
  }

  /** Entry of directory `d`: its location, and the 1-based number of its parent, truncated to 16 bits. */
  function PathEntry(nodes: seq<Node>, joliet: bool, base: U32, d: nat): Entry
    requires LevelsOk(Dirs(nodes)) && d < |nodes|
  {
    Entry(DirExtent(Dirs(nodes), joliet, base, d).start,
          if d == 0 then 1 else Wrap16(Wrap16(nodes[d].parent) + 1),
          PathId(Dirs(nodes), joliet, d))
  }

  /** The table lists the first 65536 directories in list order. */
  function PathEntries(nodes: seq<Node>, joliet: bool, base: U32, n: nat): (es: seq<Entry>)
    requires LevelsOk(Dirs(nodes)) && n <= |nodes|
    ensures |es| == n && forall d :: 0 <= d < n ==> es[d] == PathEntry(nodes, joliet, base, d)
  {
    seq(n, d requires 0 <= d < n => PathEntry(nodes, joliet, base, d))
  }

  lemma PathEntriesOk(nodes: seq<Node>, root: Dir, joliet: bool, base: U32, n: nat)
    requires Ready(nodes, root) && n <= |nodes|
    ensures EntriesOk(PathEntries(nodes, joliet, base, n))
  {
    hide Listed, LevelsOk, DirId, DirExtent;
    forall d | 0 <= d < n ensures 1 <= |PathId(Dirs(nodes), joliet, d)| <= 254 {
      if d > 0 {
        NamedOk(nodes, root, joliet, d);
      }
    }
  }

  lemma NamedOk(nodes: seq<Node>, root: Dir, joliet: bool, d: nat)
    requires Ready(nodes, root) && 0 < d < |nodes|
    ensures 1 <= |DirId(nodes[d].dir.name, joliet)| <= 215
  {
    hide Listed, FilesPlaced, DirId, ChildStart, LevelOk, DirNameOk;
    var ds := Dirs(nodes);
    LinksMean(nodes, root, d);
    var p := nodes[d].parent;
    SubdirNameOk(ds[p], d - ChildStart(ds, p));
    DirNameFits(nodes[d].dir.name, joliet);
  }

  lemma SubdirNameOk(dir: Dir, j: nat)
    requires LevelOk(dir) && j < |dir.subdirs|
    ensures DirNameOk(dir.subdirs[j].name)
  {
  }

  function TableCount(nodes: seq<Node>): (n: nat)
    ensures n <= |nodes|
  {
    Min(|nodes|, 65536)
  }

  /** Bytes of the path table entries of the first `n` directories. */
  function TableLen(ds: seq<Dir>, joliet: bool, n: nat): nat
    requires n <= |ds|
  {
    if n == 0 then 0 else TableLen(ds, joliet, n - 1) + EntryLen(|PathId(ds, joliet, n - 1)|)
  }

  lemma {:induction false} TableLenIs(nodes: seq<Node>, root: Dir, joliet: bool, base: U32, msb: bool, n: nat)
    requires Ready(nodes, root) && LevelsOk(Dirs(nodes)) && n <= |nodes|
    ensures EntriesOk(PathEntries(nodes, joliet, base, n))
    ensures |Table(PathEntries(nodes, joliet, base, n), msb)| == TableLen(Dirs(nodes), joliet, n)
  {
    hide Ready, LevelsOk, PathEntry, EncodeEntry, EntryOk, PathId, EntryLen;
    PathEntriesOk(nodes, root, joliet, base, n);
    if n > 0 {
      TableLenIs(nodes, root, joliet, base, msb, n - 1);
      var es, e := PathEntries(nodes, joliet, base, n - 1), PathEntry(nodes, joliet, base, n - 1);
      assert PathEntries(nodes, joliet, base, n)[n - 1] == e;
      PathEntryId(nodes, joliet, base, n - 1);
      TableAppend(es, e, msb);
      assert PathEntries(nodes, joliet, base, n) == es + [e];
    } else {
      assert PathEntries(nodes, joliet, base, n) == [];
    }
  }

  lemma {:induction false} TableLenBound(ds: seq<Dir>, joliet: bool, n: nat)
    requires n <= |ds|
    ensures TableLen(ds, joliet, n) <= 264 * n
  {
    hide DirId;
    if n > 0 {
      TableLenBound(ds, joliet, n - 1);
      assert |DirId(ds[n - 1].name, joliet)| <= 254 by { IdBound(ds[n - 1].name, joliet); }
    }
  }

  lemma IdBound(n: Name, joliet: bool)
    ensures |DirId(n, joliet)| <= 254
  {
  }

  lemma PathEntryId(nodes: seq<Node>, joliet: bool, base: U32, d: nat)
    requires LevelsOk(Dirs(nodes)) && d < |nodes|
    ensures PathEntry(nodes, joliet, base, d).id == PathId(Dirs(nodes), joliet, d)
  {
    hide LevelsOk, DirExtent, PathId;
  }

  /** Every entry is written only while a worst-case entry still fits. */
  predicate TableFits(nodes: seq<Node>, joliet: bool, n: nat)
    requires LevelsOk(Dirs(nodes)) && n <= |nodes| && EntriesOk(PathEntries(nodes, joliet, 0, n))
  {
    forall d :: 0 <= d < n ==> |Table(PathEntries(nodes, joliet, 0, n)[..d], false)| + 8 + MAX_ISODIR <= TEMP_BUF_SIZE
  }

  lemma {:induction false} SameTableSize(es: seq<Entry>, fs: seq<Entry>, m: bool, m': bool)
    requires EntriesOk(es) && EntriesOk(fs) && |es| == |fs|
    requires forall i :: 0 <= i < |es| ==> |es[i].id| == |fs[i].id|
    ensures |Table(es, m)| == |Table(fs, m')|
  {
    hide EncodeEntry;
    if es != [] {
      SameTableSize(es[1..], fs[1..], m, m');
    }
  }

  /** Neither byte order nor sector numbers change the size of a table. */
  lemma TableAnyBase(nodes: seq<Node>, root: Dir, joliet: bool, base: U32, msb: bool, n: nat)
    requires Ready(nodes, root) && LevelsOk(Dirs(nodes)) && n <= |nodes|
    ensures EntriesOk(PathEntries(nodes, joliet, base, n)) && EntriesOk(PathEntries(nodes, joliet, 0, n))
    ensures |Table(PathEntries(nodes, joliet, base, n), msb)| == |Table(PathEntries(nodes, joliet, 0, n), false)|
  {
    hide Ready, LevelsOk, Table, PathEntry, EntriesOk;
    PathEntriesOk(nodes, root, joliet, base, n);
    PathEntriesOk(nodes, root, joliet, 0, n);
    var es, fs := PathEntries(nodes, joliet, base, n), PathEntries(nodes, joliet, 0, n);
    forall d | 0 <= d < n ensures |es[d].id| == |fs[d].id| {
      PathEntryId(nodes, joliet, base, d);
      PathEntryId(nodes, joliet, 0, d);
    }
    SameTableSize(es, fs, msb, false);
  }

  // ---------------------------------------------------------------- rebasing

  lemma Wrap32Base(from: U32, a: nat, base: U32)
    ensures Wrap32(Wrap32(from + a) + base) == Wrap32(Wrap32(from + base) + a)
  {
  }

  lemma {:induction false} FilesRebased(files: seq<File>, lbas: seq<U32>, lbas': seq<U32>, joliet: bool, n: nat, i: nat, dirBase: U32, base: U32)
    requires n <= |files| == |lbas| == |lbas'|
    requires forall f :: 0 <= f < |files| ==> lbas'[f] == Wrap32(lbas[f] + base)
    requires i < |FilesRecs(files, lbas, joliet, n)|
    ensures |FilesRecs(files, lbas', joliet, n)| == |FilesRecs(files, lbas, joliet, n)|
    ensures FilesRecs(files, lbas', joliet, n)[i] == FixRec(FilesRecs(files, lbas, joliet, n)[i], dirBase, base)
  {
    hide FileRec, FixRec, Wrap32, Parts;
    var before := FilesRecs(files, lbas, joliet, n - 1);
    FilesRecsIds(files, lbas, lbas', joliet, n - 1);
    if i < |before| {
      FilesRebased(files, lbas, lbas', joliet, n - 1, i, dirBase, base);
    } else {
      FileRebased(files[n - 1], lbas[n - 1], joliet, i - |before|, dirBase, base);
    }
  }

  lemma FileRebased(f: File, lba: U32, joliet: bool, i: nat, dirBase: U32, base: U32)
    requires i < Parts(|f.data|)
    ensures FileRec(f, Wrap32(lba + base), joliet, i) == FixRec(FileRec(f, lba, joliet, i), dirBase, base)
  {
    hide FileId, Parts;
    LbaRebased(lba, base, i * 0x1F_FFFF);
    Wrap32Same(lba);
  }

  lemma LbaRebased(lba: U32, base: U32, off: nat)
    ensures Wrap32(Wrap32(lba + base) + off) == Wrap32(Wrap32(lba + off) + base)
  {
  }

  lemma ExtentRebased(ds: seq<Dir>, joliet: bool, from: U32, base: U32, d: nat)
    requires LevelsOk(ds) && d < |ds|
    ensures DirExtent(ds, joliet, Wrap32(from + base), d)
         == Extent(Wrap32(DirExtent(ds, joliet, from, d).start + base), DirExtent(ds, joliet, from, d).size)
  {
    hide RelStart, DirSize, Wrap32;
    Wrap32Base(from, RelStart(ds, joliet, d), base);
  }

  lemma DirRecRebased(x: Extent, time: Stamp, id: seq<Byte>, dirBase: U32, fileBase: U32)
    ensures FixRec(DirRec(x, time, id), dirBase, fileBase) == DirRec(Extent(Wrap32(x.start + dirBase), x.size), time, id)
  {
  }

  /** Rebasing the records of a directory gives its records in the final layout, whatever sectors they were counted from. */
  lemma NodeRebased(nodes: seq<Node>, root: Dir, joliet: bool, dirBase: U32, fileBase: U32, dirLba: U32, filesLba: U32, e: nat)
    requires Ready(nodes, root) && e < |nodes| && nodes[e].parent < |nodes|
    ensures var rs := NodeRecs(nodes, joliet, dirBase, fileBase, |nodes|, e);
      FixFirst(rs, |rs|, dirLba, filesLba) == NodeRecs(nodes, joliet, Wrap32(dirBase + dirLba), Wrap32(fileBase + filesLba), |nodes|, e)
  {
    hide Ready, FixRec, RecList, DirExtent, FilesRecs, ChildStart, DirId, Wrap32, FileLba, LevelOk;
    assert LevelsOk(Dirs(nodes)) by { ReadyLevels(nodes, root); }
    var ds, n := Dirs(nodes), |nodes|;
    var dirBase', fileBase' := Wrap32(dirBase + dirLba), Wrap32(fileBase + filesLba);
    var lbas, lbas' := Lbas(ds, e, fileBase), Lbas(ds, e, fileBase');
    var kids, kids' := KidExtents(ds, joliet, dirBase, n, e), KidExtents(ds, joliet, dirBase', n, e);
    var up := nodes[e].parent;
    var x, y := DirExtent(ds, joliet, dirBase, e), DirExtent(ds, joliet, dirBase, up);
    var x', y' := DirExtent(ds, joliet, dirBase', e), DirExtent(ds, joliet, dirBase', up);
    var rs, rs' := NodeRecs(nodes, joliet, dirBase, fileBase, n, e), NodeRecs(nodes, joliet, dirBase', fileBase', n, e);
    ExtentRebased(ds, joliet, dirBase, dirLba, e);
    ExtentRebased(ds, joliet, dirBase, dirLba, up);
    LbasRebased(ds, e, fileBase, filesLba);
    FilesRecsIds(ds[e].files, lbas, lbas', joliet, |ds[e].files|);
    RecListAt(ds[e], ds[up].time, joliet, x, y, lbas, kids, 0);
    RecListAt(ds[e], ds[up].time, joliet, x', y', lbas', kids', 0);
    DirRecRebased(x, ds[e].time, [0], dirLba, filesLba);
    DirRecRebased(y, ds[up].time, [1], dirLba, filesLba);
    var m := |FilesRecs(ds[e].files, lbas, joliet, |ds[e].files|)|;
    forall i | 0 <= i < |rs| ensures rs'[i] == FixRec(rs[i], dirLba, filesLba) {
      RecListAt(ds[e], ds[up].time, joliet, x, y, lbas, kids, i);
      RecListAt(ds[e], ds[up].time, joliet, x', y', lbas', kids', i);
      if 2 <= i < 2 + m {
        FilesRebased(ds[e].files, lbas, lbas', joliet, |ds[e].files|, i - 2, dirLba, filesLba);
      } else if 2 + m <= i {
        var j := i - 2 - m;
        KidsAllLinked(nodes, root, joliet, dirBase, e, j);
        KidsAllLinked(nodes, root, joliet, dirBase', e, j);
        ExtentRebased(ds, joliet, dirBase, dirLba, ChildStart(ds, e) + j);
        DirRecRebased(kids[j], ds[e].subdirs[j].time, DirId(ds[e].subdirs[j].name, joliet), dirLba, filesLba);
      }
    }
  }

  lemma ReadyLevels(nodes: seq<Node>, root: Dir)
    requires Ready(nodes, root)
    ensures LevelsOk(Dirs(nodes)) && |nodes| > 0
  {
  }

  lemma LbasRebased(ds: seq<Dir>, e: nat, from: U32, base: U32)
    requires e < |ds|
    ensures forall f :: 0 <= f < |ds[e].files| ==> Lbas(ds, e, Wrap32(from + base))[f] == Wrap32(Lbas(ds, e, from)[f] + base)
  {
    forall f | 0 <= f < |ds[e].files| ensures FileLba(ds, e, Wrap32(from + base), f) == Wrap32(FileLba(ds, e, from, f) + base) {
      hide FilesBefore, FilesSectors, Wrap32;
      Wrap32Base(from, FilesBefore(ds, e) + FilesSectors(ds[e].files, f), base);
    }
  }

  lemma KidsAllLinked(nodes: seq<Node>, root: Dir, joliet: bool, base: U32, e: nat, j: nat)
    requires Ready(nodes, root) && LevelsOk(Dirs(nodes)) && e < |nodes| && j < |nodes[e].dir.subdirs|
    ensures ChildStart(Dirs(nodes), e) + j < |nodes|
    ensures KidExtents(Dirs(nodes), joliet, base, |nodes|, e)[j] == DirExtent(Dirs(nodes), joliet, base, ChildStart(Dirs(nodes), e) + j)
  {
    hide ChildStart, DirExtent, Ready, ChildOf, LevelsOk;
    ChildNode(nodes, root, e, j);
  }

  // ---------------------------------------------------------------- the loops of `build`

  /** How many directories of the list are built, from directory `d` on, until one does not fit. */
  function Reached(nodes: seq<Node>, joliet: bool, d: nat): nat
    requires LevelsOk(Dirs(nodes)) && d <= |nodes|
    decreases |nodes| - d
  {
    if d < |nodes| && Fits(nodes, joliet, d) then Reached(nodes, joliet, d + 1) else d
  }

  lemma {:induction false} ReachedMeans(nodes: seq<Node>, joliet: bool, d: nat)
    requires LevelsOk(Dirs(nodes)) && d <= |nodes|
    ensures d <= Reached(nodes, joliet, d) <= |nodes|
    ensures forall e :: d <= e < Reached(nodes, joliet, d) ==> Fits(nodes, joliet, e)
    ensures Reached(nodes, joliet, d) < |nodes| ==> !Fits(nodes, joliet, Reached(nodes, joliet, d))
    decreases |nodes| - d
  {
    hide LevelsOk, Fits;
    if d < |nodes| && Fits(nodes, joliet, d) {
      ReachedMeans(nodes, joliet, d + 1);
    }
  }

  lemma ReachedAll(nodes: seq<Node>, joliet: bool)
    requires LevelsOk(Dirs(nodes))
    ensures Reached(nodes, joliet, 0) <= |nodes|
    ensures Reached(nodes, joliet, 0) == |nodes| <==> forall d :: 0 <= d < |nodes| ==> Fits(nodes, joliet, d)
  {
    hide LevelsOk, Fits;
    ReachedMeans(nodes, joliet, 0);
  }

  /** The records of directory `d` fit the scratch buffer. */
  predicate Fits(nodes: seq<Node>, joliet: bool, d: nat)
    requires LevelsOk(Dirs(nodes)) && d < |nodes|
  {
    PackedEnd(Dirs(nodes)[d], joliet) < TEMP_BUF_SIZE
  }

  /**
   The loop that builds every directory of one tree, in list order. The running count of directory
   sectors goes on from `dirBase`, and keeps what it has reached when a directory does not fit.
   */
  method BuildTree(buf: array<Byte>, nodes: seq<Node>, ghost root: Dir, joliet: bool, dirBase: U32, ghost fileBase: U32)
    returns (ok: bool, content: seq<array<Byte>>, dirsSectors: U32)
    requires Ready(nodes, root) && LevelsOk(Dirs(nodes)) && FilesPlaced(nodes, fileBase) && buf.Length == TEMP_BUF_SIZE
    modifies buf
    ensures forall e :: 0 <= e < |content| ==> fresh(content[e])
    ensures Reached(nodes, joliet, 0) <= |nodes|
    ensures ok <==> Reached(nodes, joliet, 0) == |nodes|
    ensures ok ==> |content| == |nodes| && ContentOk(nodes, content, joliet, dirBase, fileBase, |nodes|)
    ensures dirsSectors == Wrap32(dirBase + RelStart(Dirs(nodes), joliet, Reached(nodes, joliet, 0)))
  {
    hide Packed, DirOk, Listed, PackedEnd, LevelsOk, RelStart, FilesPlaced, LevelOk, Wrap32, DirSize, Sectors;
    ReachedAll(nodes, joliet);
    content := [];
    dirsSectors := dirBase;
    RelStartZero(Dirs(nodes), joliet, dirBase);
    var d := 0;
    while d < |nodes|
      invariant d == |content| <= |nodes|
      invariant forall e :: 0 <= e < |content| ==> fresh(content[e])
      invariant Reached(nodes, joliet, d) == Reached(nodes, joliet, 0)
      invariant ContentOk(nodes, content, joliet, dirBase, fileBase, d)
      invariant dirsSectors == Wrap32(dirBase + RelStart(Dirs(nodes), joliet, d))
    {
      var p;
      ok, p := BuildContent(buf, nodes, root, content, dirBase, fileBase, d, joliet, dirsSectors);
      if !ok {
        return;
      }
      RelStartStep(Dirs(nodes), joliet, dirBase, d);
      content := content + [p];
      dirsSectors := Wrap32(dirsSectors + BytesToSectors(p.Length));
      d := d + 1;
    }
    ok := true;
  }

  lemma RelStartZero(ds: seq<Dir>, joliet: bool, base: U32)
    requires LevelsOk(ds)
    ensures Wrap32(base + RelStart(ds, joliet, 0)) == base
  {
  }

  lemma RelStartStep(ds: seq<Dir>, joliet: bool, base: U32, d: nat)
    requires LevelsOk(ds) && d < |ds|
    ensures Wrap32(Wrap32(base + RelStart(ds, joliet, d)) + BytesToSectors(DirSize(ds[d], joliet))) == Wrap32(base + RelStart(ds, joliet, d + 1))
  {
    hide LevelOk, DirSize, Wrap32, Sectors;
    Wrap32Sum(base + RelStart(ds, joliet, d), Sectors(DirSize(ds[d], joliet)));
  }

  lemma TableFitsAt(nodes: seq<Node>, root: Dir, joliet: bool, n: nat, d: nat)
    requires Ready(nodes, root) && d < n <= |nodes|
    ensures EntriesOk(PathEntries(nodes, joliet, 0, n))
    ensures PathEntries(nodes, joliet, 0, n)[..d] == PathEntries(nodes, joliet, 0, d)
  {
    hide Ready, PathEntry, EntriesOk;
    assert LevelsOk(Dirs(nodes)) by { ReadyLevels(nodes, root); }
    PathEntriesOk(nodes, root, joliet, 0, n);
  }

  /** `buildPathTable`: the locations are copied from the "." records of the directories. */
  method BuildPathTable(buf: array<Byte>, nodes: seq<Node>, ghost root: Dir, content: seq<array<Byte>>, ghost dirBase: U32, ghost fileBase: U32,
                        msb: bool, joliet: bool)
    returns (ok: bool, table: array<Byte>)
    requires Ready(nodes, root) && LevelsOk(Dirs(nodes)) && buf.Length == TEMP_BUF_SIZE && buf !in content
    requires |content| == |nodes| && ContentOk(nodes, content, joliet, dirBase, fileBase, |nodes|)
    modifies buf
    ensures fresh(table)
    ensures EntriesOk(PathEntries(nodes, joliet, dirBase, TableCount(nodes))) && EntriesOk(PathEntries(nodes, joliet, 0, TableCount(nodes)))
    ensures ok <==> TableFits(nodes, joliet, TableCount(nodes))
    ensures ok ==> table[..] == Table(PathEntries(nodes, joliet, dirBase, TableCount(nodes)), msb)
  {
    hide Ready, LevelsOk, DirOk, PathEntry, EntriesOk, Table, EncodeEntry, TableFits, PathEntries, Partial, DirExtent, PathId, Wrap16;
    PathEntriesOk(nodes, root, joliet, 0, TableCount(nodes));
    PathEntriesOk(nodes, root, joliet, dirBase, TableCount(nodes));
    PartialStart(nodes, root, joliet, dirBase, msb);
    table := new Byte[0];
    var p: nat, i: nat := 0, 0;
    assert buf[..p] == [];
    while i < |nodes| && i < 65536
      invariant i <= TableCount(nodes) && p <= buf.Length
      invariant Partial(nodes, root, joliet, dirBase, msb, i, buf[..p])
      invariant forall e :: 0 <= e < |content| ==> content[e][..] == old(content[e][..])
    {
      if p + 8 + MAX_ISODIR > buf.Length {
        PartialFull(nodes, root, joliet, dirBase, msb, i, buf[..p], TableCount(nodes));
        return false, table;
      }
      var loc := ReadLocation(nodes, root, content[i], dirBase, fileBase, joliet, msb, i);
      var e := Entry(loc, if i == 0 then 1 else Wrap16(Wrap16(nodes[i].parent) + 1), PathId(Dirs(nodes), joliet, i));
      PartialStep(nodes, root, joliet, dirBase, msb, i, buf[..p], e);
      p := PutEntry(buf, p, e, msb);
      i := i + 1;
    }
    PartialDone(nodes, root, joliet, dirBase, msb, i, buf[..p]);
    table := new Byte[p](k requires 0 <= k < p <= buf.Length reads buf => buf[k]);
    assert table[..] == buf[..p];
    ok := true;
  }

  /** `t` is the table of the first `i` directories, and each of their entries had room. */
  ghost predicate Partial(nodes: seq<Node>, root: Dir, joliet: bool, dirBase: U32, msb: bool, i: nat, t: seq<Byte>)
    requires Ready(nodes, root) && i <= |nodes|
  {
    ReadyLevels(nodes, root);
    PathEntriesOk(nodes, root, joliet, dirBase, i);
    t == Table(PathEntries(nodes, joliet, dirBase, i), msb) && FitsUpTo(nodes, root, joliet, i)
  }

  lemma PartialStart(nodes: seq<Node>, root: Dir, joliet: bool, dirBase: U32, msb: bool)
    requires Ready(nodes, root)
    ensures Partial(nodes, root, joliet, dirBase, msb, 0, [])
  {
    hide Ready, LevelsOk;
    ReadyLevels(nodes, root);
    TableStart(nodes, root, joliet, dirBase, msb);
  }

  lemma PartialStep(nodes: seq<Node>, root: Dir, joliet: bool, dirBase: U32, msb: bool, i: nat, t: seq<Byte>, e: Entry)
    requires Ready(nodes, root) && LevelsOk(Dirs(nodes)) && i < |nodes| && Partial(nodes, root, joliet, dirBase, msb, i, t)
    requires |t| + 8 + MAX_ISODIR <= TEMP_BUF_SIZE
    requires e == Entry(DirExtent(Dirs(nodes), joliet, dirBase, i).start,
                        if i == 0 then 1 else Wrap16(Wrap16(nodes[i].parent) + 1), PathId(Dirs(nodes), joliet, i))
    ensures PathTables.EntryOk(e) && Partial(nodes, root, joliet, dirBase, msb, i + 1, t + EncodeEntry(e, msb))
  {
    hide Ready, LevelsOk, DirExtent, PathId, Wrap16, EncodeEntry, Table, PathEntries, EntriesOk, FitsUpTo;
    TableAnyBase(nodes, root, joliet, dirBase, msb, i);
    PathEntriesStep(nodes, root, joliet, dirBase, msb, i);
    FitsStep(nodes, root, joliet, i);
  }

  lemma PartialFull(nodes: seq<Node>, root: Dir, joliet: bool, dirBase: U32, msb: bool, i: nat, t: seq<Byte>, n: nat)
    requires Ready(nodes, root) && LevelsOk(Dirs(nodes)) && i < n <= |nodes| && Partial(nodes, root, joliet, dirBase, msb, i, t)
    requires EntriesOk(PathEntries(nodes, joliet, 0, n))
    requires |t| + 8 + MAX_ISODIR > TEMP_BUF_SIZE
    ensures !TableFits(nodes, joliet, n)
  {
    hide Ready, LevelsOk, EncodeEntry, Table, PathEntries, EntriesOk, FitsUpTo, TableFits;
    TableAnyBase(nodes, root, joliet, dirBase, msb, i);
    NotFitting(nodes, root, joliet, n, i);
  }

  lemma PartialDone(nodes: seq<Node>, root: Dir, joliet: bool, dirBase: U32, msb: bool, n: nat, t: seq<Byte>)
    requires Ready(nodes, root) && LevelsOk(Dirs(nodes)) && n <= |nodes| && Partial(nodes, root, joliet, dirBase, msb, n, t)
    requires EntriesOk(PathEntries(nodes, joliet, 0, n))
    ensures TableFits(nodes, joliet, n)
    ensures EntriesOk(PathEntries(nodes, joliet, dirBase, n)) && t == Table(PathEntries(nodes, joliet, dirBase, n), msb)
  {
    hide Ready, LevelsOk, EncodeEntry, Table, PathEntries, EntriesOk, FitsUpTo, TableFits;
    PathEntriesOk(nodes, root, joliet, dirBase, n);
    FitsAll(nodes, root, joliet, n);
  }

  method PutEntry(buf: array<Byte>, p: nat, e: Entry, msb: bool) returns (q: nat)
    requires PathTables.EntryOk(e) && p + 8 + MAX_ISODIR <= buf.Length
    modifies buf
    ensures q <= buf.Length && buf[..q] == old(buf[..p]) + EncodeEntry(e, msb)
  {
    hide EncodeEntry, Splice;
    Put(buf, p, EncodeEntry(e, msb));
    q := p + 8 + |e.id| + |e.id| % 2;
    assert buf[..q] == buf[..][..q];
    assert buf[..][p..q] == EncodeEntry(e, msb);
  }

  ghost predicate FitsUpTo(nodes: seq<Node>, root: Dir, joliet: bool, n: nat)
    requires Ready(nodes, root) && n <= |nodes|
  {
    forall d :: 0 <= d < n ==> FitsAt(nodes, root, joliet, d)
  }

  ghost predicate FitsAt(nodes: seq<Node>, root: Dir, joliet: bool, d: nat)
    requires Ready(nodes, root) && d <= |nodes|
  {
    ReadyLevels(nodes, root);
    PathEntriesOk(nodes, root, joliet, 0, d);
    |Table(PathEntries(nodes, joliet, 0, d), false)| + 8 + MAX_ISODIR <= TEMP_BUF_SIZE
  }

  lemma FitsStep(nodes: seq<Node>, root: Dir, joliet: bool, i: nat)
    requires Ready(nodes, root) && i < |nodes| && FitsUpTo(nodes, root, joliet, i)
    requires LevelsOk(Dirs(nodes)) && EntriesOk(PathEntries(nodes, joliet, 0, i))
    requires |Table(PathEntries(nodes, joliet, 0, i), false)| + 8 + MAX_ISODIR <= TEMP_BUF_SIZE
    ensures FitsUpTo(nodes, root, joliet, i + 1)
  {
    hide Ready, LevelsOk, Table, PathEntries, EntriesOk;
  }

  lemma NotFitting(nodes: seq<Node>, root: Dir, joliet: bool, n: nat, i: nat)
    requires Ready(nodes, root) && i < n <= |nodes| && LevelsOk(Dirs(nodes))
    requires EntriesOk(PathEntries(nodes, joliet, 0, n)) && EntriesOk(PathEntries(nodes, joliet, 0, i))
    requires |Table(PathEntries(nodes, joliet, 0, i), false)| + 8 + MAX_ISODIR > TEMP_BUF_SIZE
    ensures !TableFits(nodes, joliet, n)
  {
    hide Ready, LevelsOk, Table, PathEntries, EntriesOk;
    TableFitsAt(nodes, root, joliet, n, i);
  }

  lemma FitsAll(nodes: seq<Node>, root: Dir, joliet: bool, n: nat)
    requires Ready(nodes, root) && n <= |nodes| && LevelsOk(Dirs(nodes)) && EntriesOk(PathEntries(nodes, joliet, 0, n))
    requires FitsUpTo(nodes, root, joliet, n)
    ensures TableFits(nodes, joliet, n)
  {
    hide Ready, LevelsOk, Table, PathEntries, EntriesOk;
    forall d | 0 <= d < n
      ensures PathEntries(nodes, joliet, 0, n)[..d] == PathEntries(nodes, joliet, 0, d) && FitsAt(nodes, root, joliet, d)
    {
      TableFitsAt(nodes, root, joliet, n, d);
    }
  }

  lemma TableStart(nodes: seq<Node>, root: Dir, joliet: bool, dirBase: U32, msb: bool)
    requires Ready(nodes, root) && LevelsOk(Dirs(nodes))
    ensures EntriesOk(PathEntries(nodes, joliet, dirBase, 0)) && Table(PathEntries(nodes, joliet, dirBase, 0), msb) == []
    ensures FitsUpTo(nodes, root, joliet, 0)
  {
  }

  lemma PathEntriesStep(nodes: seq<Node>, root: Dir, joliet: bool, base: U32, msb: bool, i: nat)
    requires Ready(nodes, root) && LevelsOk(Dirs(nodes)) && i < |nodes|
    ensures EntriesOk(PathEntries(nodes, joliet, base, i)) && EntriesOk(PathEntries(nodes, joliet, base, i + 1))
    ensures PathTables.EntryOk(PathEntry(nodes, joliet, base, i))
    ensures Table(PathEntries(nodes, joliet, base, i + 1), msb)
         == Table(PathEntries(nodes, joliet, base, i), msb) + EncodeEntry(PathEntry(nodes, joliet, base, i), msb)
  {
    hide Ready, LevelsOk, Table, PathEntry, EncodeEntry;
    PathEntriesOk(nodes, root, joliet, base, i);
    PathEntriesOk(nodes, root, joliet, base, i + 1);
    var es := PathEntries(nodes, joliet, base, i);
    assert PathEntries(nodes, joliet, base, i + 1)[i] == PathEntry(nodes, joliet, base, i);
    TableAppend(es, PathEntry(nodes, joliet, base, i), msb);
    assert PathEntries(nodes, joliet, base, i + 1) == es + [PathEntry(nodes, joliet, base, i)];
  }

  method ReadLocation(nodes: seq<Node>, ghost root: Dir, a: array<Byte>, ghost dirBase: U32, ghost fileBase: U32, joliet: bool, msb: bool, d: nat) returns (loc: U32)
    requires Ready(nodes, root) && LevelsOk(Dirs(nodes)) && d < |nodes|
    requires DirOk(nodes, a[..], joliet, dirBase, fileBase, |nodes|, d)
    ensures loc == DirExtent(Dirs(nodes), joliet, dirBase, d).start
  {
    hide Ready, LevelsOk, DirExtent, NodeRecs, FromLe32, FromBe32, Packed;
    NodeRecsLens(nodes, joliet, dirBase, fileBase, |nodes|, d);
    NodeSelf(nodes, joliet, dirBase, fileBase, |nodes|, d);
    FirstRecord(a[..], NodeRecs(nodes, joliet, dirBase, fileBase, |nodes|, d));
    assert a[2..6] == a[..][2..6] && a[6..10] == a[..][6..10];
    loc := FromWord32(if msb then a[6..10] else a[2..6], msb);
  }

  // ---------------------------------------------------------------- fixLba

  lemma PathRebased(nodes: seq<Node>, root: Dir, joliet: bool, from: U32, base: U32, n: nat)
    requires Ready(nodes, root) && LevelsOk(Dirs(nodes)) && n <= |nodes|
    ensures RebaseAll(PathEntries(nodes, joliet, from, n), base) == PathEntries(nodes, joliet, Wrap32(from + base), n)
  {
    hide Ready, LevelsOk, DirExtent, PathId, Wrap16, Wrap32;
    forall d | 0 <= d < n ensures Rebase(PathEntry(nodes, joliet, from, d), base) == PathEntry(nodes, joliet, Wrap32(from + base), d) {
      ExtentRebased(Dirs(nodes), joliet, from, base, d);
    }
  }

  /** One directory rebased in place. */
  method FixDirectory(a: array<Byte>, nodes: seq<Node>, ghost root: Dir, ghost dirBase: U32, ghost fileBase: U32, joliet: bool,
                      dirLba: U32, filesLba: U32, ghost e: nat)
    requires Ready(nodes, root) && LevelsOk(Dirs(nodes)) && e < |nodes|
    requires DirOk(nodes, a[..], joliet, dirBase, fileBase, |nodes|, e)
    modifies a
    ensures DirOk(nodes, a[..], joliet, Wrap32(dirBase + dirLba), Wrap32(fileBase + filesLba), |nodes|, e)
  {
    hide Ready, LevelsOk, NodeRecs, Packed, FixFirst, Wrap32;
    ghost var rs := NodeRecs(nodes, joliet, dirBase, fileBase, |nodes|, e);
    NodeRecsLens(nodes, joliet, dirBase, fileBase, |nodes|, e);
    NodeRebased(nodes, root, joliet, dirBase, fileBase, dirLba, filesLba, e);
    FixDirLba(a, dirLba, filesLba, rs);
  }
}
