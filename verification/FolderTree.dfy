/**
 The folder tree a virtual ISO is built from, the flat breadth-first list of its directories,
 and the directory records each directory must end up with.
 */
module FolderTree {
  import opened Bytes
  import opened DirRecords

  /** A file name: its bytes, and the UCS-2 code units they decode to. */
  datatype Name = Name(bytes: seq<Byte>, units: seq<U16>)
  datatype File = File(name: Name, time: Stamp, data: seq<Byte>)
  datatype Dir = Dir(name: Name, time: Stamp, files: seq<File>, subdirs: seq<Dir>)

  const MAX_ISONAME: nat := 207
  const MAX_ISODIR: nat := 254
  const MULTIEXTENT_PART_SIZE: U32 := 0xFFFF_F800

  // ---------------------------------------------------------------- identifiers

  /** What `strncpy_upper` leaves in its destination: at most `n` bytes, `a`-`z` upper-cased. */
  function UpperCopy(s: seq<Byte>, n: nat): (r: seq<Byte>)
    ensures |r| == Min(|s|, n)
  {
    seq(Min(|s|, n), i requires 0 <= i < Min(|s|, n) => if 97 <= s[i] <= 122 then s[i] - 32 else s[i])
  }

  /** At most `n` code units, each most significant byte first. */
  function UnitBytes(units: seq<U16>, n: nat): (r: seq<Byte>)
    ensures |r| == 2 * Min(|units|, n)
  {
    seq(2 * Min(|units|, n), i requires 0 <= i < 2 * Min(|units|, n) => if i % 2 == 0 then units[i / 2] / 0x100 else units[i / 2] % 0x100)
  }

  /** Identifier of a directory in its parent and in the path tables. */
  function DirId(n: Name, joliet: bool): seq<Byte> {
    if joliet then UnitBytes(n.units, MAX_ISODIR / 2) else UpperCopy(n.bytes, MAX_ISODIR)
  }

  /** What `findDirRecord` searches for. */
  function SearchKey(n: Name, joliet: bool): seq<Byte> {
    if joliet then UnitBytes(n.units, MAX_ISODIR / 2) else UpperCopy(n.bytes, MAX_ISONAME - 3)
  }

  /** Identifier of a file: the name followed by ";1". */
  function FileId(n: Name, joliet: bool): (id: seq<Byte>)
    ensures 2 <= |id| <= 206
  {
    if joliet then UnitBytes(n.units + [59, 49], MAX_ISONAME / 2) else UpperCopy(n.bytes, MAX_ISONAME - 3) + [59, 49]
  }

  /** Directory names for which both the one-byte record length and the search key are exact. */
  predicate DirNameOk(n: Name) {
    1 <= |n.bytes| <= 204 && 1 <= |n.units| <= 107
  }

  lemma DirNameFits(n: Name, joliet: bool)
    requires DirNameOk(n)
    ensures SearchKey(n, joliet) == DirId(n, joliet) && 1 <= |DirId(n, joliet)| <= 215
  {
  }

  /** The two conditions are also necessary: a longer Joliet name loses its record length, */
  lemma JolietNameLimit(n: Name)
    ensures LenDr(|DirId(n, true)|) >= 0x21 + |DirId(n, true)| <==> |n.units| <= 107
  {
    LenDrFits(|DirId(n, true)|);
  }

  /** and a longer ISO name is searched for under a truncated key. */
  lemma IsoNameLimit(n: Name)
    ensures SearchKey(n, false) == DirId(n, false) <==> |n.bytes| <= 204
  {
  }

  /** Every identifier of a directory, the "." and ".." records first. */
  function Ids(dir: Dir, joliet: bool): (ids: seq<seq<Byte>>)
    ensures |ids| == 2 + |dir.files| + |dir.subdirs|
    ensures ids[0] == [0] && ids[1] == [1]
    ensures forall f :: 0 <= f < |dir.files| ==> ids[2 + f] == FileId(dir.files[f].name, joliet)
    ensures forall j :: 0 <= j < |dir.subdirs| ==> ids[2 + |dir.files| + j] == DirId(dir.subdirs[j].name, joliet)
  {
    [[0], [1]]
    + seq(|dir.files|, f requires 0 <= f < |dir.files| => FileId(dir.files[f].name, joliet))
    + seq(|dir.subdirs|, j requires 0 <= j < |dir.subdirs| => DirId(dir.subdirs[j].name, joliet))
  }

  predicate NoDuplicates(ids: seq<seq<Byte>>) {
    forall i, j :: 0 <= i < j < |ids| ==> ids[i] != ids[j]
  }

  predicate LevelOk(dir: Dir) {
    && (forall j :: 0 <= j < |dir.subdirs| ==> DirNameOk(dir.subdirs[j].name))
    && NoDuplicates(Ids(dir, false)) && NoDuplicates(Ids(dir, true))
  }

  /** What the builder needs of the names in a tree. */
  predicate TreeOk(dir: Dir) {
    LevelOk(dir) && forall j :: 0 <= j < |dir.subdirs| ==> TreeOk(dir.subdirs[j])
  }

  // ---------------------------------------------------------------- the flat list

  /** A file of the list with its first sector, counted from the start of the file area. */
  datatype FileNode = FileNode(file: File, rlba: U32)

  datatype Node = Node(dir: Dir, idx: nat, parent: nat, firstChild: Option<nat>, nextSibling: Option<nat>,
                       files: seq<FileNode>)

  function Dirs(nodes: seq<Node>): (ds: seq<Dir>)
    ensures |ds| == |nodes| && forall i :: 0 <= i < |nodes| ==> ds[i] == nodes[i].dir
  {
    seq(|nodes|, i requires 0 <= i < |nodes| => nodes[i].dir)
  }

  /** Index of the first child of directory `d`: children are appended parent by parent. */
  function ChildStart(ds: seq<Dir>, d: nat): (c: nat)
    requires d <= |ds|
    ensures c > 0
  {
    if d == 0 then 1 else ChildStart(ds, d - 1) + |ds[d - 1].subdirs|
  }

  lemma {:induction false} ChildStartPrefix(ds: seq<Dir>, es: seq<Dir>, d: nat)
    requires d <= |ds|
    ensures ChildStart(ds + es, d) == ChildStart(ds, d)
  {
    if d > 0 {
      ChildStartPrefix(ds, es, d - 1);
      assert (ds + es)[d - 1] == ds[d - 1];
    }
  }

  lemma {:induction false} ChildStartMonotone(ds: seq<Dir>, d: nat, e: nat)
    requires d < e <= |ds|
    ensures ChildStart(ds, d) + |ds[d].subdirs| <= ChildStart(ds, e)
    decreases e
  {
    if d + 1 < e {
      ChildStartMonotone(ds, d, e - 1);
    }
  }

  // ---------------------------------------------------------------- sector counts

  /**
   The running sector counts of the object: files, ISO directories, Joliet directories. `build`
   counts on from whatever it finds in them.
   */
  datatype Counters = Counters(files: U32, dirs: U32, dirsJoliet: U32) {
    function Of(joliet: bool): U32 {
      if joliet then dirsJoliet else dirs
    }

    /** Bytes counted as directories before any was built, and bytes in front of the first file. */
    function Slack(): nat {
      2048 * (dirs as nat + dirsJoliet as nat)
    }

    function Gap(): nat {
      2048 * files as nat
    }
  }

  const FRESH := Counters(0, 0, 0)

  // ---------------------------------------------------------------- file extents

  function Parts(size: nat): (n: nat)
    ensures n > 0
  {
    if size > 0xFFFF_FFFF then size / MULTIEXTENT_PART_SIZE + (if size % MULTIEXTENT_PART_SIZE != 0 then 1 else 0) else 1
  }

  /** A file whose size fits 32 bits is one extent; a larger one is in parts of 0xFFFFF800 bytes, the last one shorter or as long. */
  lemma PartsAre(size: nat)
    ensures size <= 0xFFFF_FFFF ==> Parts(size) == 1
    ensures size > 0xFFFF_FFFF ==> (Parts(size) - 1) * 0xFFFF_F800 < size <= Parts(size) * 0xFFFF_F800
  {
  }

  /** Record `i` of the `Parts(|f.data|)` records of a file whose first sector is `lba`. */
  function FileRec(f: File, lba: U32, joliet: bool, i: nat): Rec
    requires i < Parts(|f.data|)
  {
    if Parts(|f.data|) == 1 then
      Rec(lba, Wrap32(|f.data|), f.time, 0, FileId(f.name, joliet))
    else if i == Parts(|f.data|) - 1 then
      Rec(Wrap32(lba + i * 0x1F_FFFF), Wrap32(|f.data| - Wrap32(i * MULTIEXTENT_PART_SIZE)), f.time, 0, FileId(f.name, joliet))
    else
      Rec(Wrap32(lba + i * 0x1F_FFFF), MULTIEXTENT_PART_SIZE, f.time, ISO_MULTIEXTENT, FileId(f.name, joliet))
  }

  function FileRecs(f: File, lba: U32, joliet: bool): (rs: seq<Rec>)
    ensures |rs| == Parts(|f.data|)
    ensures forall i :: 0 <= i < |rs| ==> rs[i] == FileRec(f, lba, joliet, i)
  {
    seq(Parts(|f.data|), i requires 0 <= i < Parts(|f.data|) => FileRec(f, lba, joliet, i))
  }

  /** The records of the first `n` files of a directory. */
  function FilesRecs(files: seq<File>, lbas: seq<U32>, joliet: bool, n: nat): seq<Rec>
    requires n <= |files| == |lbas|
  {
    if n == 0 then [] else FilesRecs(files, lbas, joliet, n - 1) + FileRecs(files[n - 1], lbas[n - 1], joliet)
  }

  /** Sectors of the first `n` files of a directory. */
  function FilesSectors(files: seq<File>, n: nat): nat
    requires n <= |files|
  {
    if n == 0 then 0 else FilesSectors(files, n - 1) + Sectors(|files[n - 1].data|)
  }

  /** Sectors of all files of the first `d` directories. */
  function FilesBefore(ds: seq<Dir>, d: nat): nat
    requires d <= |ds|
  {
    if d == 0 then 0 else FilesBefore(ds, d - 1) + FilesSectors(ds[d - 1].files, |ds[d - 1].files|)
  }

  /** First sector of file `f` of directory `d` when the file area starts at sector `base`. */
  function FileLba(ds: seq<Dir>, d: nat, base: U32, f: nat): U32
    requires d < |ds| && f < |ds[d].files|
  {
    Wrap32(base + FilesBefore(ds, d) + FilesSectors(ds[d].files, f))
  }

  function Lbas(ds: seq<Dir>, d: nat, base: U32): (lbas: seq<U32>)
    requires d < |ds|
    ensures |lbas| == |ds[d].files|
    ensures forall f :: 0 <= f < |lbas| ==> lbas[f] == FileLba(ds, d, base, f)
  {
    seq(|ds[d].files|, f requires 0 <= f < |ds[d].files| => FileLba(ds, d, base, f))
  }

  // ---------------------------------------------------------------- directory records

  datatype Extent = Extent(start: U32, size: U32)

  function DirRec(x: Extent, time: Stamp, id: seq<Byte>): Rec {
    Rec(x.start, x.size, time, ISO_DIRECTORY, id)
  }

  function KidRecs(subdirs: seq<Dir>, joliet: bool, kids: seq<Extent>): (rs: seq<Rec>)
    requires |kids| == |subdirs|
    ensures |rs| == |subdirs|
    ensures forall j :: 0 <= j < |rs| ==> rs[j] == DirRec(kids[j], subdirs[j].time, DirId(subdirs[j].name, joliet))
  {
    seq(|subdirs|, j requires 0 <= j < |subdirs| => DirRec(kids[j], subdirs[j].time, DirId(subdirs[j].name, joliet)))
  }

  /** The records of one directory: ".", "..", its files, its subdirectories. */
  function RecList(dir: Dir, upTime: Stamp, joliet: bool, self: Extent, up: Extent, lbas: seq<U32>, kids: seq<Extent>): (rs: seq<Rec>)
    requires |lbas| == |dir.files| && |kids| == |dir.subdirs|
    ensures |rs| >= 2 && rs[0] == DirRec(self, dir.time, [0]) && rs[1] == DirRec(up, upTime, [1])
  {
    [DirRec(self, dir.time, [0]), DirRec(up, upTime, [1])]
    + FilesRecs(dir.files, lbas, joliet, |dir.files|) + KidRecs(dir.subdirs, joliet, kids)
  }

  const NOWHERE := Extent(0, 0)

  /** The record list with every extent blank; it has the final identifiers, hence the final size. */
  function Shape(dir: Dir, joliet: bool): seq<Rec> {
    RecList(dir, dir.time, joliet, NOWHERE, NOWHERE, seq(|dir.files|, _ => 0), seq(|dir.subdirs|, _ => NOWHERE))
  }

  function IdLens(rs: seq<Rec>): (ns: seq<nat>)
    ensures |ns| == |rs| && forall i :: 0 <= i < |rs| ==> ns[i] == |rs[i].id|
  {
    seq(|rs|, i requires 0 <= i < |rs| => |rs[i].id|)
  }

  lemma {:induction false} FilesRecsIds(files: seq<File>, lbas: seq<U32>, lbas': seq<U32>, joliet: bool, n: nat)
    requires n <= |files| == |lbas| == |lbas'|
    ensures |FilesRecs(files, lbas, joliet, n)| == |FilesRecs(files, lbas', joliet, n)|
    ensures IdLens(FilesRecs(files, lbas, joliet, n)) == IdLens(FilesRecs(files, lbas', joliet, n))
  {
    if n > 0 {
      FilesRecsIds(files, lbas, lbas', joliet, n - 1);
      var r, r' := FileRecs(files[n - 1], lbas[n - 1], joliet), FileRecs(files[n - 1], lbas'[n - 1], joliet);
      assert forall i :: 0 <= i < |r| ==> r[i].id == r'[i].id;
    }
  }

  lemma {:induction false} FilesRecsOk(files: seq<File>, lbas: seq<U32>, joliet: bool, n: nat)
    requires n <= |files| == |lbas|
    ensures forall r :: r in FilesRecs(files, lbas, joliet, n) ==> RecOk(r)
  {
    if n > 0 {
      FilesRecsOk(files, lbas, joliet, n - 1);
      var rs := FileRecs(files[n - 1], lbas[n - 1], joliet);
      assert forall r :: r in rs ==> RecOk(r);
    }
  }

  lemma RecListOk(dir: Dir, upTime: Stamp, joliet: bool, self: Extent, up: Extent, lbas: seq<U32>, kids: seq<Extent>)
    requires |lbas| == |dir.files| && |kids| == |dir.subdirs| && LevelOk(dir)
    ensures RecsOk(RecList(dir, upTime, joliet, self, up, lbas, kids))
  {
    hide FilesRecs, FileId, DirId, LenDr, LevelOk, RecOk, RecList;
    var rs := RecList(dir, upTime, joliet, self, up, lbas, kids);
    forall i | 0 <= i < |rs| ensures RecOk(rs[i]) {
      RecListAtOk(dir, upTime, joliet, self, up, lbas, kids, i);
    }
  }

  lemma RecListAtOk(dir: Dir, upTime: Stamp, joliet: bool, self: Extent, up: Extent, lbas: seq<U32>, kids: seq<Extent>, i: nat)
    requires |lbas| == |dir.files| && |kids| == |dir.subdirs| && LevelOk(dir)
    requires i < |RecList(dir, upTime, joliet, self, up, lbas, kids)|
    ensures RecOk(RecList(dir, upTime, joliet, self, up, lbas, kids)[i])
  {
    hide FilesRecs, KidRecs, FileId, DirId, RecOk, LevelOk;
    var fs, ks := FilesRecs(dir.files, lbas, joliet, |dir.files|), KidRecs(dir.subdirs, joliet, kids);
    var rs := RecList(dir, upTime, joliet, self, up, lbas, kids);
    if i < 2 {
      DotsOk(dir, upTime, self, up);
    } else if i < 2 + |fs| {
      FilesRecsOk(dir.files, lbas, joliet, |dir.files|);
      assert rs[i] == fs[i - 2] && fs[i - 2] in fs;
    } else {
      assert rs[i] == ks[i - 2 - |fs|];
      KidOk(dir, joliet, kids, i - 2 - |fs|);
    }
  }

  lemma DotsOk(dir: Dir, upTime: Stamp, self: Extent, up: Extent)
    ensures RecOk(DirRec(self, dir.time, [0])) && RecOk(DirRec(up, upTime, [1]))
  {
  }

  lemma KidOk(dir: Dir, joliet: bool, kids: seq<Extent>, j: nat)
    requires |kids| == |dir.subdirs| && LevelOk(dir) && j < |kids|
    ensures RecOk(KidRecs(dir.subdirs, joliet, kids)[j])
  {
    DirNameFits(dir.subdirs[j].name, joliet);
  }

  lemma SameLens(rs: seq<Rec>, rs': seq<Rec>)
    requires RecsOk(rs) && RecsOk(rs') && IdLens(rs) == IdLens(rs')
    ensures Lens(rs) == Lens(rs')
  {
    forall i | 0 <= i < |rs| ensures Lens(rs)[i] == Lens(rs')[i] {
      assert IdLens(rs)[i] == IdLens(rs')[i];
    }
  }

  /** The size of a directory does not depend on where anything is. */
  lemma RecListLens(dir: Dir, upTime: Stamp, joliet: bool, self: Extent, up: Extent, lbas: seq<U32>, kids: seq<Extent>)
    requires |lbas| == |dir.files| && |kids| == |dir.subdirs| && LevelOk(dir)
    ensures RecsOk(RecList(dir, upTime, joliet, self, up, lbas, kids)) && RecsOk(Shape(dir, joliet))
    ensures Lens(RecList(dir, upTime, joliet, self, up, lbas, kids)) == Lens(Shape(dir, joliet))
  {
    hide FilesRecs, RecList, LevelOk, RecsOk, IdLens, Lens, FileId, DirId;
    var zs, ks := seq(|dir.files|, _ => 0), seq(|dir.subdirs|, _ => NOWHERE);
    RecListOk(dir, upTime, joliet, self, up, lbas, kids);
    RecListOk(dir, dir.time, joliet, NOWHERE, NOWHERE, zs, ks);
    RecListIds(dir, upTime, joliet, self, up, lbas, kids);
    RecListIds(dir, dir.time, joliet, NOWHERE, NOWHERE, zs, ks);
    FilesRecsIds(dir.files, lbas, zs, joliet, |dir.files|);
    assert IdLens(KidRecs(dir.subdirs, joliet, kids)) == IdLens(KidRecs(dir.subdirs, joliet, ks));
    SameLens(RecList(dir, upTime, joliet, self, up, lbas, kids), Shape(dir, joliet));
  }

  lemma RecListIds(dir: Dir, upTime: Stamp, joliet: bool, self: Extent, up: Extent, lbas: seq<U32>, kids: seq<Extent>)
    requires |lbas| == |dir.files| && |kids| == |dir.subdirs|
    ensures IdLens(RecList(dir, upTime, joliet, self, up, lbas, kids))
         == [1, 1] + IdLens(FilesRecs(dir.files, lbas, joliet, |dir.files|)) + IdLens(KidRecs(dir.subdirs, joliet, kids))
  {
    hide FilesRecs, KidRecs, FileId, DirId, IdLens;
    var fs, ks := FilesRecs(dir.files, lbas, joliet, |dir.files|), KidRecs(dir.subdirs, joliet, kids);
    var rs := RecList(dir, upTime, joliet, self, up, lbas, kids);
    assert rs == [rs[0], rs[1]] + fs + ks;
    assert IdLens(rs) == [1, 1] + IdLens(fs) + IdLens(ks);
  }

  /** Bytes the packed records of a directory occupy, and the size of its extent. */
  function PackedEnd(dir: Dir, joliet: bool): nat
    requires LevelOk(dir)
  {
    RecListOk(dir, dir.time, joliet, NOWHERE, NOWHERE, seq(|dir.files|, _ => 0), seq(|dir.subdirs|, _ => NOWHERE));
    End(Lens(Shape(dir, joliet)))
  }

  function DirSize(dir: Dir, joliet: bool): nat
    requires LevelOk(dir)
  {
    RoundUp(PackedEnd(dir, joliet))
  }

  predicate LevelsOk(ds: seq<Dir>) {
    forall d :: 0 <= d < |ds| ==> LevelOk(ds[d])
  }

  /** First sector of directory `d` relative to the first directory of its tree. */
  function RelStart(ds: seq<Dir>, joliet: bool, d: nat): nat
    requires LevelsOk(ds) && d <= |ds|
  {
    if d == 0 then 0 else RelStart(ds, joliet, d - 1) + Sectors(DirSize(ds[d - 1], joliet))
  }

  /** Where directory `d` lies when its tree starts at sector `base`. */
  function DirExtent(ds: seq<Dir>, joliet: bool, base: U32, d: nat): Extent
    requires LevelsOk(ds) && d < |ds|
  {
    Extent(Wrap32(base + RelStart(ds, joliet, d)), Wrap32(DirSize(ds[d], joliet)))
  }

  /** Extent of child `j` of directory `d`, blank when it has index `linked` or more. */
  function KidExtent(ds: seq<Dir>, joliet: bool, base: U32, linked: nat, d: nat, j: nat): Extent
    requires LevelsOk(ds) && linked <= |ds| && d < |ds|
  {
    if ChildStart(ds, d) + j < linked then DirExtent(ds, joliet, base, ChildStart(ds, d) + j) else NOWHERE
  }

  function KidExtents(ds: seq<Dir>, joliet: bool, base: U32, linked: nat, d: nat): (xs: seq<Extent>)
    requires LevelsOk(ds) && linked <= |ds| && d < |ds|
    ensures |xs| == |ds[d].subdirs|
    ensures forall j :: 0 <= j < |xs| ==> xs[j] == KidExtent(ds, joliet, base, linked, d, j)
  {
    seq(|ds[d].subdirs|, j requires 0 <= j < |ds[d].subdirs| => KidExtent(ds, joliet, base, linked, d, j))
  }

  /** The records of directory `d`, whose parent is directory `up`, once directories `0..linked` are placed. */
  function DirRecs(ds: seq<Dir>, up: nat, joliet: bool, dirBase: U32, fileBase: U32, linked: nat, d: nat): seq<Rec>
    requires LevelsOk(ds) && linked <= |ds| && d < |ds| && up < |ds|
  {
    RecList(ds[d], ds[up].time, joliet, DirExtent(ds, joliet, dirBase, d), DirExtent(ds, joliet, dirBase, up),
            Lbas(ds, d, fileBase), KidExtents(ds, joliet, dirBase, linked, d))
  }
}
