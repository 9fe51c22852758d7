/**
 Opening a folder on an object whose last `open` failed. `build` resets the running sector counts
 only when a path table does not fit; when a directory does not, they keep what was counted, and
 the next image is laid out with them.
 */
module VIsoReopen {
  import opened Bytes
  import opened DirRecords
  import opened FolderTree
  import opened DirList
  import opened DirContent
  import opened VIsoTables
  import opened VIso
  import opened VIsoImage
  import opened Disk
  import opened VIsoRead
  import opened VIsoServer
  import DirLinks
  import IsoReader

  /**
   A failed `open` of this list on a new object leaves all counts at 0: every directory fitted, so
   that a path table did not, or the first did not and no file has any contents.
   */
  predicate LeavesNothing(nodes: seq<Node>)
    requires LevelsOk(Dirs(nodes))
  {
    || (Reached(nodes, false, 0) == |nodes| && Reached(nodes, true, 0) == |nodes|)
    || (Reached(nodes, false, 0) == 0 && FilesBefore(Dirs(nodes), |nodes|) == 0)
  }

  lemma StartPositive(ds: seq<Dir>, joliet: bool, n: nat)
    requires LevelsOk(ds) && 0 < n <= |ds|
    ensures 0 < RelStart(ds, joliet, n) <= RelStart(ds, joliet, |ds|)
  {
    hide LevelOk, DirSize;
    DirSizeWhole(ds[n - 1], joliet);
    IsoReader.RelStartMonotone(ds, joliet, n);
  }

  /** What a failure leaves, exactly, and never more than the sectors of that folder. */
  lemma FailureLeaves(nodes: seq<Node>)
    requires LevelsOk(Dirs(nodes)) && |nodes| > 0 && SectorsFit(Dirs(nodes)) && !(FitsScratch(nodes, false) && FitsScratch(nodes, true))
    ensures CountersAfter(nodes, FRESH) == FRESH <==> LeavesNothing(nodes)
    ensures var to := CountersAfter(nodes, FRESH); to.files + to.dirs + to.dirsJoliet <= VolumeSectors(Dirs(nodes))
  {
    hide LevelsOk, Fits, TablesFit, RelStart, FilesBefore, TableLen, Sectors, Wrap32;
    var ds, n, m := Dirs(nodes), Reached(nodes, false, 0), Reached(nodes, true, 0);
    ReachedAll(nodes, false);
    ReachedAll(nodes, true);
    RelStartZero(ds, false, 0);
    RelStartZero(ds, true, 0);
    if n > 0 {
      StartPositive(ds, false, n);
    }
    if m > 0 {
      StartPositive(ds, true, m);
    }
    CountsFit(ds, n, m);
  }

  lemma CountsFit(ds: seq<Dir>, n: nat, m: nat)
    requires LevelsOk(ds) && n <= |ds| && m <= |ds| && SectorsFit(ds)
    ensures Wrap32(0 + FilesBefore(ds, |ds|)) == FilesBefore(ds, |ds|)
    ensures Wrap32(0 + RelStart(ds, false, n)) == RelStart(ds, false, n) <= RelStart(ds, false, |ds|)
    ensures Wrap32(0 + RelStart(ds, true, m)) == RelStart(ds, true, m) <= RelStart(ds, true, |ds|)
    ensures FilesBefore(ds, |ds|) + RelStart(ds, false, |ds|) + RelStart(ds, true, |ds|) <= VolumeSectors(ds)
  {
    hide LevelsOk, RelStart, FilesBefore, TableLen, Sectors;
    IsoReader.RelStartMonotone(ds, false, n);
    IsoReader.RelStartMonotone(ds, true, m);
  }

  /**
   Two folders opened on one new object. When the first fails, the image of the second is right if
   and only if that failure left nothing in the counts.
   */
  method OpenTwice(viso: VIsoFile, first: Dir, second: Dir, labels: Labels)
    returns (ok1: bool, ok2: bool, ghost v1: Volume, ghost v2: Volume)
    requires viso.Valid() && viso.From() == FRESH && TreeOk(first) && TreeOk(second)
    requires LevelsOk(BreadthFirst(first)) && LevelsOk(BreadthFirst(second))
    requires VolumeSectors(BreadthFirst(first)) + VolumeSectors(BreadthFirst(second)) + 64 <= 0x1_0000_0000
    modifies viso, viso.host
    ensures viso.Valid()
    ensures LevelsOk(Dirs(v1.nodes)) && Dirs(v1.nodes) == BreadthFirst(first)
    ensures LevelsOk(Dirs(v2.nodes)) && Dirs(v2.nodes) == BreadthFirst(second)
    ensures ok1 <==> FitsScratch(v1.nodes, false) && FitsScratch(v1.nodes, true)
    ensures ok2 <==> FitsScratch(v2.nodes, false) && FitsScratch(v2.nodes, true)
    ensures ok2 ==> |viso.image| >= 20 * 2048 && (Right(v2, viso.image, viso.gap) <==> ok1 || LeavesNothing(v1.nodes))
    ensures ok2 ==> IsoReader.RootExtent(viso.image, false).start
                      == TreeStart(Dirs(v2.nodes), false) + if ok1 then 0 else CountersAfter(v1.nodes, FRESH).dirs
  {
    hide LevelsOk, TreeOk, FitsScratch, VolumeSectors, CountersAfter, Right, LeavesNothing, VolumeOk, Rooted, Image, TreeStart;
    ok1, v1 := Open(viso, first, labels);
    if !ok1 {
      FailureLeaves(v1.nodes);
    }
    ghost var from := viso.From();
    TotalFits(BreadthFirst(second), from, VolumeSectors(BreadthFirst(first)));
    ok2, v2 := Open(viso, second, labels);
    if ok2 {
      RootShift(v2, labels, second, from, false);
    }
  }

  lemma TotalFits(ds: seq<Dir>, from: Counters, n: nat)
    requires LevelsOk(ds) && from.files + from.dirs + from.dirsJoliet <= n && n + VolumeSectors(ds) + 64 <= 0x1_0000_0000
    ensures SectorsFit(ds, from)
  {
    hide LevelsOk, RelStart, FilesBefore, TableLen, Sectors;
  }

  // ---------------------------------------------------------------- folders for which it goes wrong

  const TODAY: Stamp := [0, 0, 0, 0, 0, 0]

  function Digits(i: nat): (s: seq<Byte>)
    requires i < 0x10_0000
    ensures |s| == 4
  {
    [64 + i / 0x8000, 64 + i / 0x400 % 0x20, 64 + i / 0x20 % 0x20, 64 + i % 0x20]
  }

  function Value(s: seq<Byte>): int
    requires |s| == 4
  {
    (((s[0] as int - 64) * 0x20 + s[1] as int - 64) * 0x20 + s[2] as int - 64) * 0x20 + s[3] as int - 64
  }

  lemma ValueOfDigits(i: nat)
    requires i < 0x10_0000
    ensures Value(Digits(i)) == i
  {
    assert i / 0x20 / 0x20 == i / 0x400 && i / 0x400 / 0x20 == i / 0x8000;
  }

  function NumberedFile(i: nat): File
    requires i < 0x10_0000
  {
    var s := Digits(i);
    File(Name(s, [s[0], s[1], s[2], s[3]]), TODAY, [])
  }

  lemma NumberedDiffer(i: nat, j: nat, joliet: bool)
    requires i < 0x10_0000 && j < 0x10_0000 && FileId(NumberedFile(i).name, joliet) == FileId(NumberedFile(j).name, joliet)
    ensures i == j
  {
    hide Digits;
    var a, b := FileId(NumberedFile(i).name, joliet), FileId(NumberedFile(j).name, joliet);
    NumberedId(i, joliet);
    NumberedId(j, joliet);
    forall k | 0 <= k < 4 ensures Digits(i)[k] == Digits(j)[k] {
      assert a[if joliet then 2 * k + 1 else k] == b[if joliet then 2 * k + 1 else k];
    }
    assert Digits(i) == Digits(j);
    ValueOfDigits(i);
    ValueOfDigits(j);
  }

  lemma NumberedId(i: nat, joliet: bool)
    requires i < 0x10_0000
    ensures var id := FileId(NumberedFile(i).name, joliet);
      |id| >= 8 - (if joliet then 0 else 2) && forall k :: 0 <= k < 4 ==> id[if joliet then 2 * k + 1 else k] == Digits(i)[k]
  {
    hide FileId, Digits;
    if joliet { UnitsId(i); } else { BytesId(i); }
  }

  lemma BytesId(i: nat)
    requires i < 0x10_0000
    ensures var id := FileId(NumberedFile(i).name, false); |id| == 6 && forall k :: 0 <= k < 4 ==> id[k] == Digits(i)[k]
  {
    var s := Digits(i);
    assert forall k :: 0 <= k < 4 ==> 64 <= s[k] < 96;
    hide Digits;
    assert |UpperCopy(s, MAX_ISONAME - 3)| == 4;
  }

  lemma UnitsId(i: nat)
    requires i < 0x10_0000
    ensures var id := FileId(NumberedFile(i).name, true); |id| == 12 && forall k :: 0 <= k < 4 ==> id[2 * k + 1] == Digits(i)[k]
  {
    hide Digits;
    var units := NumberedFile(i).name.units + [59, 49];
    forall k | 0 <= k < 4 ensures UnitBytes(units, MAX_ISONAME / 2)[2 * k + 1] == Digits(i)[k] {
      assert (2 * k + 1) % 2 == 1 && (2 * k + 1) / 2 == k;
    }
  }

  function Folder(files: seq<File>, subdirs: seq<Dir>): Dir {
    Dir(Name([65], [65]), TODAY, files, subdirs)
  }

  /** A folder of 130,000 empty files with different names. */
  function Crowded(): Dir {
    Folder(seq(130_000, i requires 0 <= i < 130_000 => NumberedFile(i)), [])
  }

  lemma CrowdedIds(joliet: bool)
    ensures NoDuplicates(Ids(Crowded(), joliet))
  {
    hide FileId, Crowded, Ids;
    var ids := Ids(Crowded(), joliet);
    assert |ids| == 2 + 130_000 by { CrowdedIs(); }
    forall i, j | 0 <= i < j < |ids| ensures ids[i] != ids[j] {
      CrowdedId(joliet, i);
      CrowdedId(joliet, j);
      if i >= 2 && ids[i] == ids[j] {
        NumberedDiffer(i - 2, j - 2, joliet);
      }
    }
  }

  lemma CrowdedIs()
    ensures |Crowded().files| == 130_000 && Crowded().subdirs == []
    ensures forall f :: 0 <= f < 130_000 ==> Crowded().files[f] == NumberedFile(f)
  {
    hide NumberedFile;
  }

  lemma CrowdedId(joliet: bool, i: nat)
    requires i < 2 + 130_000
    ensures |Ids(Crowded(), joliet)| == 2 + 130_000
    ensures Ids(Crowded(), joliet)[i] == if i < 2 then [i] else FileId(NumberedFile(i - 2).name, joliet)
  {
    hide FileId, NumberedFile, Crowded, Ids;
    CrowdedIs();
    if i >= 2 {
      assert Ids(Crowded(), joliet)[2 + (i - 2)] == FileId(Crowded().files[i - 2].name, joliet);
    }
  }

  lemma CrowdedOk()
    ensures LevelOk(Crowded())
  {
    hide Crowded, Ids, NoDuplicates;
    CrowdedIs();
    CrowdedIds(false);
    CrowdedIds(true);
  }

  lemma PlaceBound(offs: nat, len: nat)
    ensures offs <= Place(offs, len) <= offs + len
  {
  }

  /** A record takes at least 34 bytes and less than 256, and the gap in front of it no more than it does. */
  lemma {:induction false} PosBounds(ns: seq<nat>, i: nat)
    requires LensOk(ns) && i < |ns| && forall k :: 0 <= k < |ns| ==> ns[k] >= 34
    ensures 34 * i <= Pos(ns, i) <= 510 * i
  {
    hide Place;
    if i > 0 {
      PlaceBound(Pos(ns, i - 1) + ns[i - 1], ns[i]);
      PosBounds(ns, i - 1);
    }
  }

  lemma {:induction false} EmptyFiles(files: seq<File>, lbas: seq<U32>, joliet: bool, n: nat)
    requires n <= |files| == |lbas| && forall f :: 0 <= f < |files| ==> files[f].data == []
    ensures |FilesRecs(files, lbas, joliet, n)| == n && FilesSectors(files, n) == 0
  {
    hide FileRec;
    if n > 0 {
      EmptyFiles(files, lbas, joliet, n - 1);
    }
  }

  lemma RecLenBound(r: Rec)
    requires RecOk(r)
    ensures RecLen(r) >= 34
  {
  }

  /** Size of a directory of empty files, within bounds. */
  lemma PackedBounds(dir: Dir, joliet: bool)
    requires LevelOk(dir) && forall f :: 0 <= f < |dir.files| ==> dir.files[f].data == []
    ensures 34 * (2 + |dir.files| + |dir.subdirs|) <= PackedEnd(dir, joliet) <= 510 * (2 + |dir.files| + |dir.subdirs|)
  {
    hide LevelOk, RecsOk, RecList, FilesRecs, RecOk, RecLen, Pos;
    var rs := Shape(dir, joliet);
    var zs, ks := seq(|dir.files|, _ => 0), seq(|dir.subdirs|, _ => NOWHERE);
    assert RecsOk(rs) by { ShapeOk(dir, joliet); }
    EmptyFiles(dir.files, zs, joliet, |dir.files|);
    DirLinks.RecListAt(dir, dir.time, joliet, NOWHERE, NOWHERE, zs, ks, 0);
    var ns := Lens(rs);
    forall k | 0 <= k < |ns| ensures ns[k] >= 34 {
      assert RecOk(rs[k]) by { RecsAt(rs, k); }
      RecLenBound(rs[k]);
    }
    PosBounds(ns, |ns| - 1);
  }

  lemma RecsAt(rs: seq<Rec>, k: nat)
    requires RecsOk(rs) && k < |rs|
    ensures RecOk(rs[k])
  {
  }

  /** A folder whose own records fit, with a subfolder whose records do not; and an empty folder. */
  function Overfull(): Dir {
    Folder([], [Crowded()])
  }

  function Empty(): Dir {
    Folder([], [])
  }

  lemma FolderId(joliet: bool)
    ensures |DirId(Name([65], [65]), joliet)| == if joliet then 2 else 1
    ensures DirId(Name([65], [65]), false) == [65]
  {
  }

  lemma FewIds(dir: Dir, joliet: bool)
    requires dir.files == [] && |dir.subdirs| <= 1 && forall j :: 0 <= j < |dir.subdirs| ==> dir.subdirs[j].name == Name([65], [65])
    ensures NoDuplicates(Ids(dir, joliet))
  {
    hide DirId;
    FolderId(joliet);
    if dir.subdirs != [] {
      assert Ids(dir, joliet)[2 + 0 + 0] == DirId(dir.subdirs[0].name, joliet);
    }
  }

  lemma FewNames()
    ensures LevelOk(Empty()) && LevelOk(Overfull())
  {
    hide Crowded, Ids, NoDuplicates;
    assert Crowded().name == Name([65], [65]) by { CrowdedName(); }
    FewIds(Empty(), false);
    FewIds(Empty(), true);
    FewIds(Overfull(), false);
    FewIds(Overfull(), true);
  }

  lemma CrowdedName()
    ensures Crowded().name == Name([65], [65])
  {
  }

  lemma FoldersOk()
    ensures TreeOk(Overfull()) && TreeOk(Empty())
    ensures BreadthFirst(Overfull()) == [Overfull(), Crowded()] && BreadthFirst(Empty()) == [Empty()]
    ensures LevelsOk([Overfull(), Crowded()]) && LevelsOk([Empty()])
  {
    hide Crowded;
    CrowdedOk();
    CrowdedIs();
    FewNames();
    assert [Overfull()] + [Crowded()] == [Overfull(), Crowded()];
    assert Expand([Overfull(), Crowded()], 2) == [Overfull(), Crowded()];
    assert Expand([Overfull(), Crowded()], 1) == Expand([Overfull(), Crowded()] + [], 2);
    assert Expand([Overfull()], 0) == Expand([Overfull()] + [Crowded()], 1);
    assert Expand([Empty()], 0) == Expand([Empty()] + [], 1);
  }

  lemma SizesAre(joliet: bool)
    ensures LevelOk(Overfull()) && LevelOk(Crowded()) && LevelOk(Empty())
    ensures PackedEnd(Overfull(), joliet) <= 1530 && PackedEnd(Empty(), joliet) <= 1020
    ensures TEMP_BUF_SIZE <= PackedEnd(Crowded(), joliet) <= 0x400_0000
  {
    hide Crowded, LevelOk, PackedEnd;
    FoldersOk();
    CrowdedIs();
    CrowdedOk();
    assert LevelsOk([Overfull(), Crowded()]) && LevelOk([Overfull(), Crowded()][0]) && LevelOk([Empty()][0]);
    PackedBounds(Overfull(), joliet);
    PackedBounds(Empty(), joliet);
    PackedBounds(Crowded(), joliet);
  }

  /** One directory of the first list is built, the second is not. */
  lemma OverfullStops(nodes: seq<Node>)
    requires Dirs(nodes) == [Overfull(), Crowded()] && LevelsOk(Dirs(nodes))
    ensures Reached(nodes, false, 0) == 1 && !Fits(nodes, false, 1)
  {
    hide Crowded, Overfull, LevelsOk, LevelOk, PackedEnd;
    SizesAre(false);
    assert Fits(nodes, false, 0) && !Fits(nodes, false, 1);
    assert Reached(nodes, false, 0) == Reached(nodes, false, 1);
  }

  lemma OverfullFails(nodes: seq<Node>)
    requires Dirs(nodes) == [Overfull(), Crowded()] && LevelsOk(Dirs(nodes))
    ensures !LeavesNothing(nodes) && !FitsScratch(nodes, false) && CountersAfter(nodes, FRESH).dirs == 1
  {
    hide Crowded, Overfull, LevelsOk, PackedEnd, TablesFit, Fits, RelStart;
    OverfullStops(nodes);
    RelStartsAre(Dirs(nodes), false);
  }

  lemma OverfullSize()
    ensures LevelsOk([Overfull(), Crowded()]) && VolumeSectors([Overfull(), Crowded()]) <= 0x2_0000
  {
    hide Crowded, LevelsOk, RelStart, TableLen, FilesBefore;
    FoldersOk();
    var ds := [Overfull(), Crowded()];
    RelStartsAre(ds, false);
    RelStartsAre(ds, true);
    TableLenBound(ds, false, 2);
    TableLenBound(ds, true, 2);
    NoFileSectors(ds, 2);
  }

  lemma {:induction false} NoFileSectors(ds: seq<Dir>, d: nat)
    requires d <= |ds| && ds in {[Overfull(), Crowded()], [Empty()]}
    ensures FilesBefore(ds, d) == 0
  {
    hide Crowded, FilesSectors;
    if d > 0 {
      NoFileSectors(ds, d - 1);
      CrowdedIs();
      EmptyFiles(ds[d - 1].files, seq(|ds[d - 1].files|, _ => 0), false, |ds[d - 1].files|);
    }
  }

  lemma EmptyFits(nodes: seq<Node>)
    requires Dirs(nodes) == [Empty()] && LevelsOk(Dirs(nodes))
    ensures FitsScratch(nodes, false) && FitsScratch(nodes, true)
  {
    hide LevelsOk, LevelOk, PackedEnd, Empty, TablesFit, Crowded, Overfull;
    forall joliet ensures FitsScratch(nodes, joliet) {
      SizesAre(joliet);
      OneEntryTable(nodes, joliet);
      assert Fits(nodes, joliet, 0);
    }
  }

  lemma OneEntryTable(nodes: seq<Node>, joliet: bool)
    requires |nodes| == 1 && LevelsOk(Dirs(nodes))
    ensures TablesFit(nodes, joliet)
  {
    hide LevelsOk, DirExtent;
    var es := PathEntries(nodes, joliet, 0, 1);
    assert es[0].id == [0];
    assert es[..0] == [];
  }

  lemma EmptySize()
    ensures LevelsOk([Empty()]) && VolumeSectors([Empty()]) <= 0x1000
  {
    hide LevelsOk, TableLen, FilesBefore, LevelOk, PackedEnd, Empty, Crowded, Overfull;
    FoldersOk();
    var ds := [Empty()];
    TableLenBound(ds, false, 1);
    TableLenBound(ds, true, 1);
    NoFileSectors(ds, 1);
    forall joliet ensures RelStart(ds, joliet, 1) == 1 {
      SizesAre(joliet);
      StartPositive(ds, joliet, 1);
      assert RelStart(ds, joliet, 1) == RelStart(ds, joliet, 0) + Sectors(DirSize(ds[0], joliet));
    }
  }

  lemma RelStartsAre(ds: seq<Dir>, joliet: bool)
    requires ds == [Overfull(), Crowded()] && LevelsOk(ds)
    ensures RelStart(ds, joliet, 1) == 1 && RelStart(ds, joliet, 2) <= 0x8002
  {
    hide Crowded, LevelsOk, LevelOk, PackedEnd;
    SizesAre(joliet);
    StartPositive(ds, joliet, 1);
    assert RelStart(ds, joliet, 1) == RelStart(ds, joliet, 0) + Sectors(DirSize(ds[0], joliet));
    assert RelStart(ds, joliet, 2) == RelStart(ds, joliet, 1) + Sectors(DirSize(ds[1], joliet));
  }

  /**
   The input for which it goes wrong: a folder with an overfull subfolder is refused, and the empty
   folder that the same object opens next has its root directory one sector before the one its descriptor names.
   */
  method ReopenedWrong(labels: Labels) returns (ok1: bool, ok2: bool, ghost v2: Volume, ghost image: seq<Byte>, ghost gap: nat)
    ensures !ok1 && ok2 && Dirs(v2.nodes) == [Empty()] && LevelsOk(Dirs(v2.nodes)) && |image| >= 20 * 2048
    ensures IsoReader.RootExtent(image, false).start == TreeStart(Dirs(v2.nodes), false) + 1 && !Right(v2, image, gap)
  {
    hide LevelsOk, VolumeSectors, Right, LeavesNothing, FitsScratch, TreeOk, BreadthFirst, Crowded, Overfull, Empty, TreeStart, CountersAfter, IsoReader.RootExtent;
    FoldersOk();
    OverfullSize();
    EmptySize();
    var host := new HostFiles();
    var viso := new VIsoFile(false, host);
    ghost var v1;
    ok1, ok2, v1, v2 := OpenTwice(viso, Overfull(), Empty(), labels);
    OverfullFails(v1.nodes);
    EmptyFits(v2.nodes);
    image, gap := viso.image, viso.gap;
  }
}
