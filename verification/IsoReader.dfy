/**
 An ISO 9660 reader that knows nothing of the builder, and the theorem that it finds every
 file of the folder tree, byte for byte, in the served image.
 */
module IsoReader {
  import opened Bytes
  import opened Chunks
  import opened DirRecords
  import opened FolderTree
  import opened Spelling
  import opened DirList
  import opened DirContent
  import opened DirLinks
  import opened DirBuild
  import opened VIsoTables
  import opened VIso
  import opened VIsoImage

  // ---------------------------------------------------------------- the reader

  /** Records of a directory extent from byte `pos` on; a zero length byte skips to the next sector. */
  function Parse(buf: seq<Byte>, pos: nat): seq<Rec>
    decreases |buf| - pos
  {
    if pos >= |buf| then []
    else if buf[pos] == 0 then Parse(buf, Skip(pos))
    else if buf[pos] < 33 || pos + buf[pos] > |buf| || 33 + buf[pos + 32] as int > buf[pos] then []
    else [Decode(buf[pos..pos + buf[pos]])] + Parse(buf, pos + buf[pos])
  }

  /** The bytes of an extent, empty when it is not inside the image. */
  function ReadExtent(image: seq<Byte>, x: Extent): seq<Byte> {
    if x.start * 2048 + x.size <= |image| then image[x.start * 2048..x.start * 2048 + x.size] else []
  }

  function ReadDir(image: seq<Byte>, x: Extent): seq<Rec> {
    Parse(ReadExtent(image, x), 0)
  }

  function FindDir(rs: seq<Rec>, id: seq<Byte>): Option<Extent> {
    if rs == [] then None
    else if IsDir(rs[0]) && rs[0].id == id then Some(Extent(rs[0].start, rs[0].size))
    else FindDir(rs[1..], id)
  }

  /** The directory reached from extent `x` along a path of directory identifiers. */
  function Follow(image: seq<Byte>, x: Extent, path: seq<seq<Byte>>): Option<Extent>
    decreases |path|
  {
    if path == [] then Some(x)
    else
      match FindDir(ReadDir(image, x), path[0])
      case None => None
      case Some(y) => Follow(image, y, path[1..])
  }

  /** All extents recorded for file `id`, one behind the other. */
  function FileData(image: seq<Byte>, rs: seq<Rec>, id: seq<Byte>): seq<Byte> {
    if rs == [] then []
    else (if !IsDir(rs[0]) && rs[0].id == id then ReadExtent(image, Extent(rs[0].start, rs[0].size)) else [])
         + FileData(image, rs[1..], id)
  }

  /** The root directory record of the primary or of the Joliet volume descriptor. */
  function RootExtent(image: seq<Byte>, joliet: bool): Extent
    requires |image| >= 20 * 2048
  {
    var p := (if joliet then 17 else 16) * 2048 + 0x9C;
    Extent(FromLe32(image[p + 2..p + 6]), FromLe32(image[p + 10..p + 14]))
  }

  // ---------------------------------------------------------------- parsing what was packed

  lemma {:induction false} ParsePacked(buf: seq<Byte>, rs: seq<Rec>, i: nat)
    requires RecsOk(rs) && Packed(buf, rs) && i <= |rs|
    ensures Parse(buf, Free(Lens(rs), i)) == rs[i..]
    decreases |rs| - i
  {
    hide Pos, Free, Packed, Encode, RecsOk, Lens, End, RoundUp, Skip, Decode, ChunkAt, RecOk, RecLen;
    WalkStep(buf, rs, i);
    var pos := Free(Lens(rs), i);
    if i < |rs| {
      ParsePacked(buf, rs, i + 1);
      RecordHere(buf, rs, i);
      ParseStep(buf, Pos(Lens(rs), i), rs[i]);
    }
  }

  lemma ParseStep(buf: seq<Byte>, p: nat, r: Rec)
    requires RecOk(r) && ChunkAt(buf, p, Encode(r))
    ensures p < |buf| && buf[p] == RecLen(r)
    ensures Parse(buf, p) == [r] + Parse(buf, p + RecLen(r))
  {
    hide Encode, LenDr, Decode, FromLe32, FromBe32, Both32, Parse;
    DecodeEncode(r);
    RecordFields(buf, p, r);
    ParseOne(buf, p);
  }

  lemma ParseOne(buf: seq<Byte>, p: nat)
    requires p < |buf| && buf[p] >= 33 && p + buf[p] <= |buf| && 33 + buf[p + 32] as int <= buf[p]
    ensures Parse(buf, p) == [Decode(buf[p..p + buf[p]])] + Parse(buf, p + buf[p])
  {
    hide Decode;
  }

  lemma RecordHere(buf: seq<Byte>, rs: seq<Rec>, i: nat)
    requires RecsOk(rs) && Packed(buf, rs) && i < |rs|
    ensures RecOk(rs[i]) && ChunkAt(buf, Pos(Lens(rs), i), Encode(rs[i]))
    ensures Free(Lens(rs), i + 1) == Pos(Lens(rs), i) + RecLen(rs[i])
  {
    hide Pos, Laid, Encode, RoundUp, LenDr, ChunkAt, End;
    RecordAt(buf, rs, i);
  }

  lemma ParseWhole(buf: seq<Byte>, rs: seq<Rec>)
    requires RecsOk(rs) && Packed(buf, rs)
    ensures Parse(buf, 0) == rs
  {
    hide Packed, Lens, RecsOk, Pos;
    ParsePacked(buf, rs, 0);
    FreeStart(Lens(rs));
    assert rs[0..] == rs;
  }

  // ---------------------------------------------------------------- finding directories

  lemma {:induction false} FindDirIs(rs: seq<Rec>, id: seq<Byte>, m: nat)
    requires m < |rs| && IsDir(rs[m]) && rs[m].id == id
    requires forall k :: 0 <= k < m ==> rs[k].id != id
    ensures FindDir(rs, id) == Some(Extent(rs[m].start, rs[m].size))
  {
    hide IsDir;
    if m > 0 {
      FindDirIs(rs[1..], id, m - 1);
    }
  }

  // ---------------------------------------------------------------- extents of one file

  lemma {:induction false} FileDataConcat(image: seq<Byte>, a: seq<Rec>, b: seq<Rec>, id: seq<Byte>)
    ensures FileData(image, a + b, id) == FileData(image, a, id) + FileData(image, b, id)
  {
    hide IsDir, ReadExtent;
    if a == [] {
      assert a + b == b;
    } else {
      assert (a + b)[1..] == a[1..] + b;
      FileDataConcat(image, a[1..], b, id);
    }
  }

  lemma {:induction false} FileDataNone(image: seq<Byte>, rs: seq<Rec>, id: seq<Byte>)
    requires forall i :: 0 <= i < |rs| ==> IsDir(rs[i]) || rs[i].id != id
    ensures FileData(image, rs, id) == []
  {
    hide IsDir, ReadExtent;
    if rs != [] {
      FileDataNone(image, rs[1..], id);
    }
  }

  /** Bytes of a file in front of its record `i`. */
  function PartStart(size: nat, i: nat): nat {
    i * MULTIEXTENT_PART_SIZE
  }

  /**
   The records of a file cover it contiguously: record `i` starts at the sector of byte
   `i * 0xFFFFF800`, they end with the file, and only the last one lacks the multi-extent flag.
   */
  lemma PartsTile(f: File, lba: U32, joliet: bool, i: nat)
    requires i < Parts(|f.data|) && lba + Sectors(|f.data|) < 0x1_0000_0000
    ensures var r, size := FileRec(f, lba, joliet, i), |f.data|;
      && r.start * 2048 == lba * 2048 + PartStart(size, i)
      && PartStart(size, i) + r.size == (if i + 1 < Parts(size) then PartStart(size, i + 1) else size)
      && r.flags == (if i + 1 < Parts(size) then 0x80 else 0)
      && !IsDir(r) && r.id == FileId(f.name, joliet)
  {
    hide FileId;
    PartsCount(|f.data|, i);
    if 1 < i + 1 == Parts(|f.data|) {
      LastPart(|f.data|, i);
    }
  }

  lemma PartsCount(size: nat, i: nat)
    requires i < Parts(size)
    ensures i > 0 ==> i * 0x1F_FFFF <= Sectors(size)
    ensures PartStart(size, i) <= size
    ensures Parts(size) > 1 && i + 1 == Parts(size) ==> 0 < size - PartStart(size, i) <= MULTIEXTENT_PART_SIZE
    ensures i + 1 < Parts(size) ==> PartStart(size, i + 1) <= size
    ensures Parts(size) == 1 ==> size <= 0xFFFF_FFFF
  {
  }

  lemma LastPart(size: nat, i: nat)
    requires 0 <= size - i * MULTIEXTENT_PART_SIZE < 0x1_0000_0000
    ensures Wrap32(size - Wrap32(i * MULTIEXTENT_PART_SIZE)) == size - i * MULTIEXTENT_PART_SIZE
  {
  }

  lemma PartData(image: seq<Byte>, f: File, lba: U32, joliet: bool, i: nat)
    requires i < Parts(|f.data|) && lba + Sectors(|f.data|) < 0x1_0000_0000
    requires lba * 2048 + |f.data| <= |image| && image[lba * 2048..lba * 2048 + |f.data|] == f.data
    ensures var r := FileRec(f, lba, joliet, i);
      PartStart(|f.data|, i) + r.size <= |f.data|
      && ReadExtent(image, Extent(r.start, r.size)) == f.data[PartStart(|f.data|, i)..PartStart(|f.data|, i) + r.size]
  {
    hide FileRec, Parts, Sectors, PartStart;
    PartsTile(f, lba, joliet, i);
    PartsBounded(|f.data|, i);
    var r, p := FileRec(f, lba, joliet, i), PartStart(|f.data|, i);
    SliceOfSlice(image, lba * 2048, lba * 2048 + |f.data|, p, p + r.size);
  }

  lemma PartsBounded(size: nat, i: nat)
    requires i < Parts(size)
    ensures PartStart(size, i) <= size && (i + 1 < Parts(size) ==> PartStart(size, i + 1) <= size) && PartStart(size, 0) == 0
  {
    PartsCount(size, i);
  }

  /** Reading the first `n` records of a file one after the other gives a prefix of it. */
  lemma {:induction false} PartsPrefix(image: seq<Byte>, f: File, lba: U32, joliet: bool, n: nat)
    requires n <= Parts(|f.data|) && lba + Sectors(|f.data|) < 0x1_0000_0000
    requires lba * 2048 + |f.data| <= |image| && image[lba * 2048..lba * 2048 + |f.data|] == f.data
    ensures var k := if n < Parts(|f.data|) then PartStart(|f.data|, n) else |f.data|;
      k <= |f.data| && FileData(image, FileRecs(f, lba, joliet)[..n], FileId(f.name, joliet)) == f.data[..k]
  {
    hide FileRec, Parts, Sectors, PartStart, FileId, ReadExtent, IsDir, FileData;
    var rs, id := FileRecs(f, lba, joliet), FileId(f.name, joliet);
    PartsBounded(|f.data|, if n > 0 then n - 1 else 0);
    if n == 0 {
      assert FileData(image, rs[..0], id) == [] by { NoRecords(image, rs[..0], id); }
    } else {
      PartsPrefix(image, f, lba, joliet, n - 1);
      PartsTile(f, lba, joliet, n - 1);
      PartData(image, f, lba, joliet, n - 1);
      OneMoreRecord(image, rs, n - 1, id);
    }
  }

  lemma OneMoreRecord(image: seq<Byte>, rs: seq<Rec>, n: nat, id: seq<Byte>)
    requires n < |rs| && !IsDir(rs[n]) && rs[n].id == id
    ensures FileData(image, rs[..n + 1], id) == FileData(image, rs[..n], id) + ReadExtent(image, Extent(rs[n].start, rs[n].size))
  {
    hide FileData, ReadExtent, IsDir;
    assert rs[..n + 1] == rs[..n] + [rs[n]];
    FileDataConcat(image, rs[..n], [rs[n]], id);
    FileDataOne(image, rs[n], id);
  }

  lemma NoRecords(image: seq<Byte>, rs: seq<Rec>, id: seq<Byte>)
    requires rs == []
    ensures FileData(image, rs, id) == []
  {
  }

  lemma FileDataOne(image: seq<Byte>, r: Rec, id: seq<Byte>)
    requires !IsDir(r) && r.id == id
    ensures FileData(image, [r], id) == ReadExtent(image, Extent(r.start, r.size))
  {
    hide ReadExtent;
    assert [r][1..] == [];
    assert FileData(image, [r][1..], id) == [];
  }

  lemma FileWhole(image: seq<Byte>, f: File, lba: U32, joliet: bool)
    requires lba + Sectors(|f.data|) < 0x1_0000_0000
    requires lba * 2048 + |f.data| <= |image| && image[lba * 2048..lba * 2048 + |f.data|] == f.data
    ensures FileData(image, FileRecs(f, lba, joliet), FileId(f.name, joliet)) == f.data
  {
    hide FileRec, Parts, Sectors, FileId, ReadExtent;
    var rs := FileRecs(f, lba, joliet);
    PartsPrefix(image, f, lba, joliet, |rs|);
    assert rs[..|rs|] == rs && f.data[..|f.data|] == f.data;
  }

  // ---------------------------------------------------------------- one file among the others

  lemma FileRecsOther(image: seq<Byte>, g: File, lba: U32, joliet: bool, id: seq<Byte>)
    requires FileId(g.name, joliet) != id
    ensures FileData(image, FileRecs(g, lba, joliet), id) == []
  {
    hide FileRec, Parts, FileId, ReadExtent, IsDir;
    var rs := FileRecs(g, lba, joliet);
    forall i | 0 <= i < |rs| ensures rs[i].id != id {
      FileRecNamed(g, lba, joliet, i);
    }
    FileDataNone(image, rs, id);
  }

  /** Among the file records of a directory only those of file `f` answer to its identifier. */
  lemma {:induction false} FilesDataIs(image: seq<Byte>, files: seq<File>, lbas: seq<U32>, joliet: bool, n: nat, f: nat)
    requires n <= |files| == |lbas| && f < |files|
    requires forall g :: 0 <= g < |files| && g != f ==> FileId(files[g].name, joliet) != FileId(files[f].name, joliet)
    ensures FileData(image, FilesRecs(files, lbas, joliet, n), FileId(files[f].name, joliet))
         == if f < n then FileData(image, FileRecs(files[f], lbas[f], joliet), FileId(files[f].name, joliet)) else []
  {
    hide FileId, FileRecs, FileData, FilesRecs;
    var id := FileId(files[f].name, joliet);
    if n > 0 {
      FilesDataIs(image, files, lbas, joliet, n - 1, f);
      FilesRecsStep(files, lbas, joliet, n - 1);
      FileDataConcat(image, FilesRecs(files, lbas, joliet, n - 1), FileRecs(files[n - 1], lbas[n - 1], joliet), id);
      if n - 1 != f {
        FileRecsOther(image, files[n - 1], lbas[n - 1], joliet, id);
      }
    } else {
      NoFilesData(image, files, lbas, joliet, id);
    }
  }

  lemma NoFilesData(image: seq<Byte>, files: seq<File>, lbas: seq<U32>, joliet: bool, id: seq<Byte>)
    requires |files| == |lbas|
    ensures FileData(image, FilesRecs(files, lbas, joliet, 0), id) == []
  {
  }

  lemma FileIdsDistinct(dir: Dir, joliet: bool, f: nat)
    requires LevelOk(dir) && f < |dir.files|
    ensures forall g :: 0 <= g < |dir.files| && g != f ==> FileId(dir.files[g].name, joliet) != FileId(dir.files[f].name, joliet)
  {
    hide FileId, DirId, DirNameOk;
    IdsOf(dir, joliet);
    var ids := Ids(dir, joliet);
    forall g | 0 <= g < |dir.files| && g != f ensures FileId(dir.files[g].name, joliet) != FileId(dir.files[f].name, joliet) {
      assert ids[2 + g] != ids[2 + f];
    }
  }

  /** Reading a file by name from the records of its directory. */
  lemma FileOfDirectory(image: seq<Byte>, dir: Dir, upTime: Stamp, joliet: bool, self: Extent, up: Extent, lbas: seq<U32>, kids: seq<Extent>, f: nat)
    requires LevelOk(dir) && |lbas| == |dir.files| && |kids| == |dir.subdirs| && f < |dir.files|
    requires lbas[f] + Sectors(|dir.files[f].data|) < 0x1_0000_0000
    requires lbas[f] * 2048 + |dir.files[f].data| <= |image|
    requires image[lbas[f] * 2048..lbas[f] * 2048 + |dir.files[f].data|] == dir.files[f].data
    ensures FileData(image, RecList(dir, upTime, joliet, self, up, lbas, kids), FileId(dir.files[f].name, joliet)) == dir.files[f].data
  {
    hide FileId, FilesRecs, LevelOk, Sectors, FileRecs, FileData, RecList;
    var id := FileId(dir.files[f].name, joliet);
    OnlyFilesHaveData(image, dir, upTime, joliet, self, up, lbas, kids, id);
    FileIdsDistinct(dir, joliet, f);
    FilesDataIs(image, dir.files, lbas, joliet, |dir.files|, f);
    FileWhole(image, dir.files[f], lbas[f], joliet);
  }

  /** Directory records contribute nothing to the contents of a file. */
  lemma OnlyFilesHaveData(image: seq<Byte>, dir: Dir, upTime: Stamp, joliet: bool, self: Extent, up: Extent, lbas: seq<U32>,
                          kids: seq<Extent>, id: seq<Byte>)
    requires |lbas| == |dir.files| && |kids| == |dir.subdirs|
    ensures FileData(image, RecList(dir, upTime, joliet, self, up, lbas, kids), id)
         == FileData(image, FilesRecs(dir.files, lbas, joliet, |dir.files|), id)
  {
    hide FilesRecs, FileData, DirId;
    var dots := [DirRec(self, dir.time, [0]), DirRec(up, upTime, [1])];
    var fs, ks := FilesRecs(dir.files, lbas, joliet, |dir.files|), KidRecs(dir.subdirs, joliet, kids);
    assert RecList(dir, upTime, joliet, self, up, lbas, kids) == dots + fs + ks;
    FileDataConcat(image, dots + fs, ks, id);
    FileDataConcat(image, dots, fs, id);
    NoFileData(image, dots, id);
    NoFileData(image, ks, id);
  }

  lemma NoFileData(image: seq<Byte>, rs: seq<Rec>, id: seq<Byte>)
    requires forall i :: 0 <= i < |rs| ==> rs[i].flags == ISO_DIRECTORY
    ensures FileData(image, rs, id) == []
  {
    FileDataNone(image, rs, id);
  }

  // ---------------------------------------------------------------- directories of the image

  /** Where directory `e` of a volume lies, according to its own "." record. */
  function ExtentOf(v: Volume, joliet: bool, e: nat, from: Counters := FRESH): Extent
    requires LevelsOk(Dirs(v.nodes)) && e < |v.nodes|
  {
    DirExtent(Dirs(v.nodes), joliet, v.DirsBase(joliet, from), e)
  }

  function RecsOf(v: Volume, joliet: bool, e: nat, from: Counters := FRESH): seq<Rec>
    requires LevelsOk(Dirs(v.nodes)) && e < |v.nodes| && v.nodes[e].parent < |v.nodes|
  {
    NodeRecs(v.nodes, joliet, v.DirsBase(joliet, from), v.FilesBase(from), |v.nodes|, e)
  }

  lemma ContentOf(v: Volume, root: Dir, from: Counters, joliet: bool, e: nat)
    requires VolumeOk(v, root, from) && LevelsOk(Dirs(v.nodes)) && e < |v.nodes|
    ensures e < |v.Content(joliet)| && v.nodes[e].parent < |v.nodes|
    ensures RecsOk(RecsOf(v, joliet, e, from)) && Packed(v.Content(joliet)[e], RecsOf(v, joliet, e, from))
  {
    hide VolumeOk, NodeRecs, Packed, LevelsOk, RecsOk;
    VolumeTree(v, root, from, joliet);
    assert DirOk(v.nodes, v.Content(joliet)[e], joliet, v.DirsBase(joliet, from), v.FilesBase(from), |v.nodes|, e);
    NodeRecsLens(v.nodes, joliet, v.DirsBase(joliet, from), v.FilesBase(from), |v.nodes|, e);
  }

  /** No directory's extent is truncated when all sectors fit. */
  lemma ExtentExact(v: Volume, joliet: bool, e: nat)
    requires Sized(v) && LevelsOk(Dirs(v.nodes)) && SectorsFit(Dirs(v.nodes)) && e < |v.nodes|
    ensures ExtentOf(v, joliet, e).start == TreeStart(Dirs(v.nodes), joliet) + RelStart(Dirs(v.nodes), joliet, e)
    ensures e < |v.Content(joliet)| && ExtentOf(v, joliet, e).size == |v.Content(joliet)[e]|
  {
    hide Sized, LevelsOk, RelStart, TableLen, FilesBefore, Sectors, DirSize, Wrap32;
    BasesAre(v, FRESH);
    SizedAt(v, joliet, e);
    RelStartMonotone(Dirs(v.nodes), joliet, e);
    Wrap32Same(|v.Content(joliet)[e]|);
    SumWraps(v.DirsBase(joliet), RelStart(Dirs(v.nodes), joliet, e));
    Wrap32Same(TreeStart(Dirs(v.nodes), joliet) + RelStart(Dirs(v.nodes), joliet, e));
  }

  lemma {:induction false} RelStartMonotone(ds: seq<Dir>, joliet: bool, e: nat)
    requires LevelsOk(ds) && e <= |ds|
    ensures RelStart(ds, joliet, e) <= RelStart(ds, joliet, |ds|)
    decreases |ds| - e
  {
    hide LevelOk, DirSize;
    if e < |ds| {
      RelStartMonotone(ds, joliet, e + 1);
    }
  }

  lemma ReadExtentIs(v: Volume, labels: Labels, joliet: bool, e: nat)
    requires Sized(v) && Rooted(v) && SectorsFit(Dirs(v.nodes)) && e < |v.nodes|
    ensures e < |v.Content(joliet)| && ReadExtent(Image(v, labels), ExtentOf(v, joliet, e)) == v.Content(joliet)[e]
  {
    hide Sized, LevelsOk, RelStart, TreeStart, Image, ExtentOf;
    DirAt(v, labels, FRESH, joliet, e);
    ExtentExact(v, joliet, e);
  }

  /** Reading the extent of a directory from the image and parsing it gives its records. */
  lemma ReadDirIs(v: Volume, labels: Labels, root: Dir, joliet: bool, e: nat)
    requires VolumeOk(v, root) && Sized(v) && Rooted(v) && SectorsFit(Dirs(v.nodes)) && e < |v.nodes|
    ensures v.nodes[e].parent < |v.nodes|
    ensures ReadDir(Image(v, labels), ExtentOf(v, joliet, e)) == RecsOf(v, joliet, e)
  {
    hide VolumeOk, Sized, LevelsOk, Image, Packed, RecsOk, NodeRecs, Parse, ReadExtent, ExtentOf;
    ContentOf(v, root, FRESH, joliet, e);
    ReadExtentIs(v, labels, joliet, e);
    ParseWhole(v.Content(joliet)[e], RecsOf(v, joliet, e));
  }

  /** Looking up child `j` of directory `e` by identifier gives the child's own extent. */
  lemma ChildFound(v: Volume, root: Dir, joliet: bool, e: nat, j: nat)
    requires VolumeOk(v, root) && LevelsOk(Dirs(v.nodes)) && e < |v.nodes| && j < |v.nodes[e].dir.subdirs|
    requires v.nodes[e].parent < |v.nodes|
    ensures var c := ChildStart(Dirs(v.nodes), e) + j;
      && c < |v.nodes| && v.nodes[c].dir == v.nodes[e].dir.subdirs[j]
      && FindDir(RecsOf(v, joliet, e), DirId(v.nodes[e].dir.subdirs[j].name, joliet)) == Some(ExtentOf(v, joliet, c))
  {
    hide VolumeOk, ChildStart, RecList, DirExtent, DirId, FilesRecs, LevelOk, Ready, KidIndex, IsDir;
    VolumeReady(v, root, FRESH);
    ChildNode(v.nodes, root, e, j);
    KidsAllLinked(v.nodes, root, joliet, v.DirsBase(joliet), e, j);
    var ds, up, n := Dirs(v.nodes), v.nodes[e].parent, |v.nodes|;
    assert LevelOk(ds[e]);
    var self, above := ExtentOf(v, joliet, e), ExtentOf(v, joliet, up);
    var lbas, kids := Lbas(ds, e, v.FilesBase()), KidExtents(ds, joliet, v.DirsBase(joliet), n, e);
    KidFoundDir(ds[e], ds[up].time, joliet, self, above, lbas, kids, j);
  }

  lemma KidFoundDir(dir: Dir, upTime: Stamp, joliet: bool, self: Extent, up: Extent, lbas: seq<U32>, kids: seq<Extent>, j: nat)
    requires |lbas| == |dir.files| && |kids| == |dir.subdirs| && LevelOk(dir) && j < |kids|
    ensures FindDir(RecList(dir, upTime, joliet, self, up, lbas, kids), DirId(dir.subdirs[j].name, joliet)) == Some(kids[j])
  {
    hide RecList, DirId, FilesRecs, LevelOk;
    var rs, m := RecList(dir, upTime, joliet, self, up, lbas, kids), KidIndex(dir, lbas, joliet, j);
    RecListAt(dir, upTime, joliet, self, up, lbas, kids, m);
    forall k | 0 <= k <= m ensures rs[k].id == DirId(dir.subdirs[j].name, joliet) <==> k == m {
      OnlyKidMatches(dir, upTime, joliet, self, up, lbas, kids, j, k);
    }
    FindDirIs(rs, DirId(dir.subdirs[j].name, joliet), m);
  }

  // ---------------------------------------------------------------- the theorem

  /** `path` names a directory below `dir` by child positions. */
  predicate PathIn(dir: Dir, path: seq<nat>) {
    path == [] || (path[0] < |dir.subdirs| && PathIn(dir.subdirs[path[0]], path[1..]))
  }

  function DirAtPath(dir: Dir, path: seq<nat>): Dir
    requires PathIn(dir, path)
  {
    if path == [] then dir else DirAtPath(dir.subdirs[path[0]], path[1..])
  }

  /** The same path spelled with directory identifiers. */
  function PathIds(dir: Dir, path: seq<nat>, joliet: bool): seq<seq<Byte>>
    requires PathIn(dir, path)
  {
    if path == [] then []
    else [DirId(dir.subdirs[path[0]].name, joliet)] + PathIds(dir.subdirs[path[0]], path[1..], joliet)
  }

  /** Following identifiers from the extent of directory `e` ends at the directory the path names. */
  lemma {:induction false} FollowFrom(v: Volume, labels: Labels, root: Dir, joliet: bool, e: nat, path: seq<nat>) returns (t: nat)
    requires VolumeOk(v, root) && Sized(v) && Rooted(v) && SectorsFit(Dirs(v.nodes)) && e < |v.nodes|
    requires PathIn(v.nodes[e].dir, path)
    ensures t < |v.nodes| && v.nodes[t].dir == DirAtPath(v.nodes[e].dir, path)
    ensures Follow(Image(v, labels), ExtentOf(v, joliet, e), PathIds(v.nodes[e].dir, path, joliet)) == Some(ExtentOf(v, joliet, t))
    decreases |path|
  {
    hide VolumeOk, Sized, LevelsOk, Image, ExtentOf, RecsOf, ReadDir, FindDir, ChildStart, DirId;
    if path == [] {
      t := e;
    } else {
      ReadDirIs(v, labels, root, joliet, e);
      ChildFound(v, root, joliet, e, path[0]);
      t := FollowFrom(v, labels, root, joliet, ChildStart(Dirs(v.nodes), e) + path[0], path[1..]);
      var ids := PathIds(v.nodes[e].dir, path, joliet);
      assert ids[1..] == PathIds(v.nodes[e].dir.subdirs[path[0]], path[1..], joliet);
    }
  }

  lemma LbaExact(v: Volume, d: nat, f: nat)
    requires Sized(v) && LevelsOk(Dirs(v.nodes)) && SectorsFit(Dirs(v.nodes)) && d < |v.nodes| && f < |v.nodes[d].dir.files|
    ensures var ds := Dirs(v.nodes);
      Lbas(ds, d, v.FilesBase())[f] == FsSectors(ds) + FilesBefore(ds, d) + FilesSectors(ds[d].files, f)
    ensures Lbas(Dirs(v.nodes), d, v.FilesBase())[f] + Sectors(|v.nodes[d].dir.files[f].data|) < 0x1_0000_0000
  {
    hide Sized, LevelsOk, FsSectors, FilesBefore, FilesSectors, Sectors, Lbas, SectorsFit;
    var ds := Dirs(v.nodes);
    assert v.FilesBase() == FsSectors(ds) by { BasesAre(v, FRESH); }
    FilesWithin(ds, d, f);
    VolumeFits(ds);
    LbaOf(ds, d, v.FilesBase(), f);
  }

  lemma LbaOf(ds: seq<Dir>, d: nat, base: U32, f: nat)
    requires d < |ds| && f < |ds[d].files| && base + FilesBefore(ds, d) + FilesSectors(ds[d].files, f) < 0x1_0000_0000
    ensures Lbas(ds, d, base)[f] == base + FilesBefore(ds, d) + FilesSectors(ds[d].files, f)
  {
    hide FilesBefore, FilesSectors;
    assert Lbas(ds, d, base)[f] == FileLba(ds, d, base, f);
    Wrap32Same(base + FilesBefore(ds, d) + FilesSectors(ds[d].files, f));
  }

  lemma VolumeFits(ds: seq<Dir>)
    requires LevelsOk(ds) && SectorsFit(ds)
    ensures FsSectors(ds) + FilesBefore(ds, |ds|) < 0x1_0000_0000
  {
    hide LevelsOk, FsSectors, FilesBefore;
  }

  lemma FilesWithin(ds: seq<Dir>, d: nat, f: nat)
    requires d < |ds| && f < |ds[d].files|
    ensures FilesBefore(ds, d) + FilesSectors(ds[d].files, f) + Sectors(|ds[d].files[f].data|) <= FilesBefore(ds, |ds|)
  {
    hide Sectors;
    FilesSectorsMonotone(ds[d].files, f + 1);
    FilesBeforeMonotone(ds, d + 1);
  }

  lemma {:induction false} FilesSectorsMonotone(files: seq<File>, n: nat)
    requires n <= |files|
    ensures FilesSectors(files, n) <= FilesSectors(files, |files|)
    decreases |files| - n
  {
    if n < |files| {
      FilesSectorsMonotone(files, n + 1);
    }
  }

  lemma {:induction false} FilesBeforeMonotone(ds: seq<Dir>, n: nat)
    requires n <= |ds|
    ensures FilesBefore(ds, n) <= FilesBefore(ds, |ds|)
    decreases |ds| - n
  {
    if n < |ds| {
      FilesBeforeMonotone(ds, n + 1);
    }
  }

  /** The records of directory `d`, read by file name from the image, give back the source file. */
  lemma FileRead(v: Volume, labels: Labels, root: Dir, joliet: bool, d: nat, f: nat)
    requires VolumeOk(v, root) && Sized(v) && Rooted(v) && SectorsFit(Dirs(v.nodes)) && d < |v.nodes| && f < |v.nodes[d].dir.files|
    ensures FileData(Image(v, labels), ReadDir(Image(v, labels), ExtentOf(v, joliet, d)), FileId(v.nodes[d].dir.files[f].name, joliet))
         == v.nodes[d].dir.files[f].data
  {
    hide VolumeOk, Sized, FsSectors, FilesBefore, FilesSectors, Image, ExtentOf, ReadDir, FileData, FileId, RecList, Sectors, LevelOk, DirExtent, KidExtents, Lbas;
    var ds, up := Dirs(v.nodes), v.nodes[d].parent;
    ReadDirIs(v, labels, root, joliet, d);
    FileInImage(v, labels, FRESH, d, f);
    LbaExact(v, d, f);
    var data, lba := ds[d].files[f].data, Lbas(ds, d, v.FilesBase())[f];
    SliceOfSlice(Image(v, labels), lba * 2048, lba * 2048 + |Padded(data)|, 0, |data|);
    assert LevelOk(ds[d]);
    FileOfDirectory(Image(v, labels), ds[d], ds[up].time, joliet, DirExtent(ds, joliet, v.DirsBase(joliet), d),
                    DirExtent(ds, joliet, v.DirsBase(joliet), up), Lbas(ds, d, v.FilesBase()),
                    KidExtents(ds, joliet, v.DirsBase(joliet), |v.nodes|, d), f);
  }

  lemma PrefixSlice(a: seq<Byte>, z: seq<Byte>, lo: nat, hi: nat)
    requires lo <= hi <= |a|
    ensures (a + z)[lo..hi] == a[lo..hi]
  {
  }

  /** The root directory record of either descriptor carries the extent of directory 0. */
  lemma RootIs(v: Volume, labels: Labels, root: Dir, from: Counters, joliet: bool)
    requires VolumeOk(v, root, from) && Sized(v) && Rooted(v)
    ensures |Image(v, labels, from)| >= 20 * 2048
    ensures RootExtent(Image(v, labels, from), joliet) == ExtentOf(v, joliet, 0, from)
  {
    hide VolumeOk, Sized, LevelsOk, Descriptor, NodeRecs, Packed, RecsOk, FromLe32, FromBe32;
    VolumeReady(v, root, from);
    ContentOf(v, root, from, joliet, 0);
    NodeSelf(v.nodes, joliet, v.DirsBase(joliet, from), v.FilesBase(from), |v.nodes|, 0);
    var c, rs := v.Content(joliet)[0], RecsOf(v, joliet, 0, from);
    FirstRecord(c, rs);
    HeadRoot(v, labels, from, joliet);
    ImageHead(v, labels, from);
    var p := (if joliet then 17 else 16) * 2048 + 0x9C;
    PrefixSlice(Head(v, labels, from), Image(v, labels, from)[20 * 2048..], p + 2, p + 6);
    PrefixSlice(Head(v, labels, from), Image(v, labels, from)[20 * 2048..], p + 10, p + 14);
  }

  lemma ImageHead(v: Volume, labels: Labels, from: Counters)
    requires Rooted(v)
    ensures |Image(v, labels, from)| >= 20 * 2048
    ensures Image(v, labels, from) == Head(v, labels, from) + Image(v, labels, from)[20 * 2048..]
  {
    hide Head, TablesBytes, Concat, FileArea, LevelsOk, PadSectors, VolumeSectors;
  }

  lemma HeadRoot(v: Volume, labels: Labels, from: Counters, joliet: bool)
    requires Rooted(v)
    ensures var p, c := (if joliet then 17 else 16) * 2048 + 0x9C, v.Content(joliet)[0];
      Head(v, labels, from)[p + 2..p + 6] == c[2..6] && Head(v, labels, from)[p + 10..p + 14] == c[10..14]
  {
    hide Descriptor, SystemArea, TotalSectors, Wrap32, BytesToSectors, LevelsOk;
    var size := Wrap32(TotalSectors(Dirs(v.nodes), from));
    var c := v.Content(joliet)[0];
    var sys, iso, jol := SystemArea(labels, size), IsoDescriptor(v, labels.isoText, size), JolietDescriptor(v, labels.jolietText, size);
    var d := if joliet then jol else iso;
    assert d[0x9C..0xBE] == [34] + c[1..34] by { DescriptorHasRoot(v, labels, joliet, size); }
    SliceOfSlice(d, 0x9C, 0xBE, 2, 6);
    SliceOfSlice(d, 0x9C, 0xBE, 10, 14);
    TailSlice(34, c, 34, 2, 6);
    TailSlice(34, c, 34, 10, 14);
    if joliet {
      MiddleSlice(sys + iso, jol, Terminator() + Zeros(2048), 0x9E, 0xA2);
      MiddleSlice(sys + iso, jol, Terminator() + Zeros(2048), 0xA6, 0xAA);
      assert Head(v, labels, from) == (sys + iso) + jol + (Terminator() + Zeros(2048));
    } else {
      MiddleSlice(sys, iso, jol + Terminator() + Zeros(2048), 0x9E, 0xA2);
      MiddleSlice(sys, iso, jol + Terminator() + Zeros(2048), 0xA6, 0xAA);
      assert Head(v, labels, from) == sys + iso + (jol + Terminator() + Zeros(2048));
    }
  }

  lemma TailSlice(x: Byte, c: seq<Byte>, n: nat, lo: nat, hi: nat)
    requires 1 <= lo <= hi <= n <= |c|
    ensures ([x] + c[1..n])[lo..hi] == c[lo..hi]
  {
    var t := [x] + c[1..n];
    forall i | 0 <= i < hi - lo ensures t[lo..hi][i] == c[lo..hi][i] {
      assert t[lo + i] == c[1..n][lo + i - 1];
    }
  }

  lemma DescriptorHasRoot(v: Volume, labels: Labels, joliet: bool, size: U32)
    requires Rooted(v)
    ensures (if joliet then JolietDescriptor(v, labels.jolietText, size) else IsoDescriptor(v, labels.isoText, size))[0x9C..0xBE]
         == [34] + v.Content(joliet)[0][1..34]
  {
    hide Descriptor, LevelsOk, Wrap32, BytesToSectors;
    var a, b := BytesToSectors(|v.tableL|) as int, BytesToSectors(|v.tableJolietL|);
    DescriptorRoot(labels.isoText, 1, size, Wrap32(|v.tableL|), 20, Wrap32(20 + a), v.content[0]);
    DescriptorRoot(labels.jolietText, 2, size, Wrap32(|v.tableJolietL|), Wrap32(20 + 2 * a), Wrap32(20 + 2 * a + b), v.contentJoliet[0]);
  }

  /** `ids` spells the directories on the path one after the other. */
  predicate PathSpelled(dir: Dir, path: seq<nat>, joliet: bool, ids: seq<seq<Byte>>)
    requires PathIn(dir, path)
  {
    && |ids| == |path|
    && (path == [] || (SpellsDir(dir.subdirs[path[0]].name, joliet, ids[0]) && PathSpelled(dir.subdirs[path[0]], path[1..], joliet, ids[1..])))
  }

  lemma {:induction false} PathSpelling(dir: Dir, path: seq<nat>, joliet: bool, ids: seq<seq<Byte>>)
    requires PathIn(dir, path)
    ensures PathSpelled(dir, path, joliet, ids) <==> ids == PathIds(dir, path, joliet)
  {
    hide SpellsDir, DirId;
    if path != [] && |ids| == |path| {
      var sub := dir.subdirs[path[0]];
      DirSpelling(sub.name, joliet, ids[0]);
      PathSpelling(sub, path[1..], joliet, ids[1..]);
      var all := PathIds(dir, path, joliet);
      assert all[0] == DirId(sub.name, joliet) && all[1..] == PathIds(sub, path[1..], joliet);
      assert ids == [ids[0]] + ids[1..];
    } else {
      PathIdsLen(dir, path, joliet);
    }
  }

  lemma {:induction false} PathIdsLen(dir: Dir, path: seq<nat>, joliet: bool)
    requires PathIn(dir, path)
    ensures |PathIds(dir, path, joliet)| == |path|
  {
    if path != [] { PathIdsLen(dir.subdirs[path[0]], path[1..], joliet); }
  }

  /**
   Starting from the root record of a volume descriptor and following directory records by the names in `ids`,
   a reader comes to the directory at `path`, and concatenating the extents recorded there for any of its
   files, asked for by any identifier that spells its name, gives the bytes of that file.
   */
  ghost predicate Reaches(image: seq<Byte>, root: Dir, joliet: bool, path: seq<nat>, ids: seq<seq<Byte>>)
    requires PathIn(root, path)
  {
    && |image| >= 20 * 2048
    && var found := Follow(image, RootExtent(image, joliet), ids);
      var files := DirAtPath(root, path).files;
      && found.Some?
      && forall f, id :: 0 <= f < |files| && SpellsFile(files[f].name, joliet, id) ==> FileData(image, ReadDir(image, found.value), id) == files[f].data
  }

  /**
   End to end: in the ISO and in the Joliet tree alike, every path and every file of the folder the volume
   was built from is reached, however the reader comes by the spelling of the names.
   */
  lemma EndToEnd(v: Volume, labels: Labels, root: Dir, joliet: bool, path: seq<nat>, ids: seq<seq<Byte>>)
    requires VolumeOk(v, root) && LevelsOk(Dirs(v.nodes)) && SectorsFit(Dirs(v.nodes)) && PathIn(root, path)
    requires PathSpelled(root, path, joliet, ids)
    ensures Rooted(v) && Reaches(Image(v, labels), root, joliet, path, ids)
  {
    hide VolumeOk, LevelsOk, Sized, Image, Follow, RootExtent, ReadDir, FileData, PathIds, DirAtPath, FileId, SectorsFit, ExtentOf, Ready, SpellsFile, PathSpelled;
    VolumeSized(v, root, FRESH);
    SizedRoots(v);
    RootIs(v, labels, root, FRESH, joliet);
    VolumeReady(v, root, FRESH);
    RootNode(v.nodes, root);
    PathSpelling(root, path, joliet, ids);
    var t := FollowFrom(v, labels, root, joliet, 0, path);
    var files := v.nodes[t].dir.files;
    forall f, id | 0 <= f < |files| && SpellsFile(files[f].name, joliet, id)
      ensures FileData(Image(v, labels), ReadDir(Image(v, labels), ExtentOf(v, joliet, t)), id) == files[f].data
    {
      FileSpelling(files[f].name, joliet, id);
      FileRead(v, labels, root, joliet, t, f);
    }
  }

  lemma RootNode(nodes: seq<Node>, root: Dir)
    requires Ready(nodes, root) && |nodes| > 0
    ensures nodes[0].dir == root
  {
    hide LevelsOk, Listed;
    LinksMean(nodes, root, 0);
  }
}
