/**
 The volume descriptors as a reader finds them in the served image: where they send it for the path
 tables, and what they say of the volume.
 */
module IsoDescriptors {
  import opened Bytes
  import opened DirRecords
  import opened PathTables
  import opened FolderTree
  import opened Spelling
  import opened DirContent
  import opened VIsoTables
  import opened VIso
  import opened VIsoImage
  import opened IsoReader
  import opened VIsoLinks

  // ---------------------------------------------------------------- the fields

  /** The volume descriptor a reader takes: sector 16 for the ISO tree, sector 17 for the Joliet tree. */
  function DescriptorOf(image: seq<Byte>, joliet: bool): Sector
    requires |image| >= 20 * 2048
  {
    if joliet then image[17 * 2048..18 * 2048] else image[16 * 2048..17 * 2048]
  }

  /** The path table of one byte order: its first sector from the field of that order, its length. */
  function TableSector(d: Sector, msb: bool): U32 {
    if msb then FromBe32(d[0x94..0x98]) else FromLe32(d[0x8C..0x90])
  }

  function TableBytes(d: Sector): U32 {
    FromLe32(d[0x84..0x88])
  }

  lemma SpliceKeeps<T>(s: seq<T>, r: seq<T>, off: nat, len: nat, lo: nat, hi: nat)
    requires |r| == |s| && off + len <= |s| && lo <= hi <= |s| && (hi <= off || off + len <= lo)
    requires forall i :: 0 <= i < |s| && !(off <= i < off + len) ==> r[i] == s[i]
    ensures r[lo..hi] == s[lo..hi]
  {
  }

  /** The fields of a volume descriptor that locate the volume and its path tables. */
  ghost predicate Fields(d: Sector, kind: Byte, volumeSize: U32, tableSize: U32, tableL: U32, tableM: U32) {
    && d[0..7] == [kind] + CD001 + [1]
    && d[0x50..0x58] == Both32(volumeSize)
    && d[0x78..0x84] == [1, 0, 0, 1, 1, 0, 0, 1, 0, 8, 8, 0]
    && d[0x84..0x8C] == Both32(tableSize)
    && d[0x8C..0x90] == Le32(tableL)
    && d[0x94..0x98] == Be32(tableM)
  }

  lemma DescriptorFields(text: Sector, kind: Byte, volumeSize: U32, tableSize: U32, tableL: U32, tableM: U32, root: seq<Byte>)
    requires |root| >= 34
    ensures Fields(Descriptor(text, kind, volumeSize, tableSize, tableL, tableM, root), kind, volumeSize, tableSize, tableL, tableM)
  {
    hide Both32, Le32, Be32, Splice;
    var t1, t2, t3, t4 := [kind] + CD001 + [1], Both32(volumeSize), [1, 0, 0, 1, 1, 0, 0, 1, 0, 8, 8, 0], Both32(tableSize);
    var s1 := Splice(text, 0, t1);
    var s2 := Splice(s1, 0x50, t2);
    var s3 := Splice(s2, 0x78, t3);
    var s4 := Splice(s3, 0x84, t4);
    var s5 := Splice(s4, 0x8C, Le32(tableL));
    var s6 := Splice(s5, 0x94, Be32(tableM));
    var s7 := Splice(s6, 0x9C, [34] + root[1..34]);
    SpliceKeeps(s1, s2, 0x50, 8, 0, 7);
    SpliceKeeps(s2, s3, 0x78, 12, 0, 7);
    SpliceKeeps(s3, s4, 0x84, 8, 0, 7);
    SpliceKeeps(s4, s5, 0x8C, 4, 0, 7);
    SpliceKeeps(s5, s6, 0x94, 4, 0, 7);
    SpliceKeeps(s6, s7, 0x9C, 34, 0, 7);
    SpliceKeeps(s2, s3, 0x78, 12, 0x50, 0x58);
    SpliceKeeps(s3, s4, 0x84, 8, 0x50, 0x58);
    SpliceKeeps(s4, s5, 0x8C, 4, 0x50, 0x58);
    SpliceKeeps(s5, s6, 0x94, 4, 0x50, 0x58);
    SpliceKeeps(s6, s7, 0x9C, 34, 0x50, 0x58);
    SpliceKeeps(s3, s4, 0x84, 8, 0x78, 0x84);
    SpliceKeeps(s4, s5, 0x8C, 4, 0x78, 0x84);
    SpliceKeeps(s5, s6, 0x94, 4, 0x78, 0x84);
    SpliceKeeps(s6, s7, 0x9C, 34, 0x78, 0x84);
    SpliceKeeps(s4, s5, 0x8C, 4, 0x84, 0x8C);
    SpliceKeeps(s5, s6, 0x94, 4, 0x84, 0x8C);
    SpliceKeeps(s6, s7, 0x9C, 34, 0x84, 0x8C);
    SpliceKeeps(s5, s6, 0x94, 4, 0x8C, 0x90);
    SpliceKeeps(s6, s7, 0x9C, 34, 0x8C, 0x90);
    SpliceKeeps(s6, s7, 0x9C, 34, 0x94, 0x98);
  }

  // ---------------------------------------------------------------- where the tables are

  /** First sector of a path table: the two ISO tables, then the two Joliet tables, little-endian first. */
  function FirstSector(v: Volume, joliet: bool, msb: bool): nat {
    20 + (if joliet then 2 * Sectors(|v.tableL|) else 0)
    + (if msb then Sectors(if joliet then |v.tableJolietL| else |v.tableL|) else 0)
  }

  lemma TwoSizes(v: Volume)
    requires Sized(v)
    ensures |v.tableM| == |v.tableL| && |v.tableJolietM| == |v.tableJolietL|
    ensures |v.tableL| < 0x200_0000 && |v.tableJolietL| < 0x200_0000
  {
    hide Sized, TableLen;
    TableSizes(v, false, false);
    TableSizes(v, false, true);
    TableSizes(v, true, false);
    TableSizes(v, true, true);
    TableLenBound(Dirs(v.nodes), false, TableCount(v.nodes));
    TableLenBound(Dirs(v.nodes), true, TableCount(v.nodes));
  }

  /** The parts of four pieces put together. */
  lemma FourPieces<T>(a: seq<T>, b: seq<T>, c: seq<T>, d: seq<T>, k: nat, n: nat)
    requires k < 4 && n <= |[a, b, c, d][k]|
    ensures var p := (if k > 0 then |a| else 0) + (if k > 1 then |b| else 0) + (if k > 2 then |c| else 0);
      p + n <= |a + b + c + d| && (a + b + c + d)[p..p + n] == [a, b, c, d][k][..n]
  {
    var all := a + b + c + d;
    if k == 0 {
      assert all == a + (b + c + d);
    } else if k == 1 {
      assert all == a + b + (c + d);
    }
  }

  lemma TablesInImage(v: Volume, labels: Labels)
    requires Rooted(v)
    ensures var t := TablesBytes(v); 20 * 2048 + |t| <= |Image(v, labels)| && Image(v, labels)[20 * 2048..20 * 2048 + |t|] == t
  {
    hide Head, TablesBytes, Concat, VIsoImage.Rest, Image, LevelsOk;
    ImageParts(v, labels, FRESH);
    var h, t := Head(v, labels), TablesBytes(v);
    var iso, rest := Concat(v.content, |v.content|), Concat(v.contentJoliet, |v.contentJoliet|) + VIsoImage.Rest(v, FRESH);
    Regroup(h, t, iso, rest);
    MiddleSlice(h, t, iso + rest, 0, |t|);
  }

  lemma Regroup<T>(h: seq<T>, t: seq<T>, a: seq<T>, b: seq<T>)
    ensures h + t + a + b == h + t + (a + b)
  {
  }

  lemma TableInTables(v: Volume, joliet: bool, msb: bool)
    requires |v.tableM| == |v.tableL| && |v.tableJolietM| == |v.tableJolietL|
    ensures var p, t := 2048 * FirstSector(v, joliet, msb) - 20 * 2048, v.Table(joliet, msb);
      0 <= p && p + |t| <= |TablesBytes(v)| && TablesBytes(v)[p..p + |t|] == t
  {
    hide Padded, Sectors;
    SectorsOfPadded(v.tableL);
    SectorsOfPadded(v.tableJolietL);
    SectorsOfPadded(v.tableM);
    var a, b, c, d := Padded(v.tableL), Padded(v.tableM), Padded(v.tableJolietL), Padded(v.tableJolietM);
    var t, k := v.Table(joliet, msb), (if joliet then 2 else 0) + (if msb then 1 else 0);
    assert [a, b, c, d][k] == Padded(t);
    PaddedStarts(t);
    FourPieces(a, b, c, d, k, |t|);
  }

  lemma PaddedStarts(t: seq<Byte>)
    ensures |t| <= |Padded(t)| && Padded(t)[..|t|] == t
  {
  }

  /** Each path table lies in the image from its first sector on. */
  lemma TableAt(v: Volume, labels: Labels, joliet: bool, msb: bool)
    requires Sized(v) && Rooted(v)
    ensures var p, t := 2048 * FirstSector(v, joliet, msb), v.Table(joliet, msb);
      p + |t| <= |Image(v, labels)| && Image(v, labels)[p..p + |t|] == t
  {
    hide Sized, Rooted, TablesBytes, FirstSector, Image;
    TwoSizes(v);
    TableInTables(v, joliet, msb);
    TablesInImage(v, labels);
    var p, t := 2048 * FirstSector(v, joliet, msb) - 20 * 2048, v.Table(joliet, msb);
    SliceOfSlice(Image(v, labels), 20 * 2048, 20 * 2048 + |TablesBytes(v)|, p, p + |t|);
  }

  // ---------------------------------------------------------------- the descriptors

  /** What either descriptor of an image says: the whole volume, and its own two path tables. */
  ghost predicate DescriptorIs(v: Volume, image: seq<Byte>, joliet: bool) {
    && |image| >= 20 * 2048 && |image| / 2048 < 0x1_0000_0000
    && |v.Table(joliet, false)| < 0x1_0000_0000 && FirstSector(v, joliet, true) < 0x1_0000_0000
    && Fields(DescriptorOf(image, joliet), if joliet then 2 else 1, |image| / 2048, |v.Table(joliet, false)|,
              FirstSector(v, joliet, false), FirstSector(v, joliet, true))
  }

  lemma HeadDescriptors(v: Volume, labels: Labels)
    requires Rooted(v)
    ensures var size := Wrap32(TotalSectors(Dirs(v.nodes)));
      && Head(v, labels)[16 * 2048..17 * 2048] == IsoDescriptor(v, labels.isoText, size)
      && Head(v, labels)[17 * 2048..18 * 2048] == JolietDescriptor(v, labels.jolietText, size)
  {
    hide Descriptor, SystemArea, TotalSectors, Wrap32, BytesToSectors, LevelsOk;
    var size := Wrap32(TotalSectors(Dirs(v.nodes)));
    var sys, iso, jol := SystemArea(labels, size), IsoDescriptor(v, labels.isoText, size), JolietDescriptor(v, labels.jolietText, size);
    FourPieces(sys, iso, jol, Terminator() + Zeros(2048), 1, 2048);
    FourPieces(sys, iso, jol, Terminator() + Zeros(2048), 2, 2048);
    assert Head(v, labels) == sys + iso + jol + (Terminator() + Zeros(2048));
  }

  lemma ImageDescriptors(v: Volume, labels: Labels, joliet: bool)
    requires Rooted(v)
    ensures |Image(v, labels)| >= 20 * 2048
    ensures var size := Wrap32(TotalSectors(Dirs(v.nodes)));
      DescriptorOf(Image(v, labels), joliet)
        == if joliet then JolietDescriptor(v, labels.jolietText, size) else IsoDescriptor(v, labels.isoText, size)
  {
    hide Descriptor, TotalSectors, LevelsOk, Head, Image, IsoDescriptor, JolietDescriptor;
    ImageHead(v, labels, FRESH);
    HeadDescriptors(v, labels);
    PrefixSlice(Head(v, labels), Image(v, labels)[20 * 2048..], 16 * 2048, 17 * 2048);
    PrefixSlice(Head(v, labels), Image(v, labels)[20 * 2048..], 17 * 2048, 18 * 2048);
  }

  lemma TotalSmall(ds: seq<Dir>)
    requires LevelsOk(ds) && SectorsFit(ds)
    ensures TotalSectors(ds) < 0x1_0000_0000
  {
    hide LevelsOk, VolumeSectors, PadSectors;
    PadBounds(VolumeSectors(ds));
  }

  /** The length of the image in sectors is the size that `build` put into the descriptors. */
  lemma SizeOfImage(v: Volume, labels: Labels)
    requires Sized(v) && Rooted(v) && SectorsFit(Dirs(v.nodes))
    ensures |Image(v, labels)| == 2048 * TotalSectors(Dirs(v.nodes)) && Wrap32(TotalSectors(Dirs(v.nodes))) == TotalSectors(Dirs(v.nodes))
  {
    hide Sized, LevelsOk, Image, TotalSectors, SectorsFit, FsSectors, TreeStart, Head, TablesBytes, Concat, Written, FsBytes, Wrap32;
    FsLength(v, labels, FRESH);
    TotalSmall(Dirs(v.nodes));
    Wrap32Same(TotalSectors(Dirs(v.nodes)));
  }

  lemma SectorBound(n: nat)
    requires n < 0x200_0000
    ensures Sectors(n) <= 0x4000 && BytesToSectors(n) == Sectors(n) && Wrap32(n) == n
  {
  }

  lemma IsoFields(v: Volume, text: Sector, size: U32)
    requires |v.content| > 0 && |v.content[0]| >= 34 && |v.tableL| < 0x200_0000
    ensures Fields(IsoDescriptor(v, text, size), 1, size, |v.tableL|, 20, 20 + Sectors(|v.tableL|))
  {
    hide Fields, Descriptor, Sectors, BytesToSectors;
    SectorBound(|v.tableL|);
    var l := Sectors(|v.tableL|);
    Wrap32Same(20 + l);
    DescriptorFields(text, 1, size, |v.tableL|, 20, 20 + l, v.content[0]);
  }

  lemma JolietFields(v: Volume, text: Sector, size: U32)
    requires |v.contentJoliet| > 0 && |v.contentJoliet[0]| >= 34 && |v.tableL| < 0x200_0000 && |v.tableJolietL| < 0x200_0000
    ensures var l, m := Sectors(|v.tableL|), Sectors(|v.tableJolietL|);
      20 + 2 * l + m < 0x1_0000_0000 && Fields(JolietDescriptor(v, text, size), 2, size, |v.tableJolietL|, 20 + 2 * l, 20 + 2 * l + m)
  {
    hide Fields, Descriptor, Sectors, BytesToSectors;
    SectorBound(|v.tableL|);
    SectorBound(|v.tableJolietL|);
    var l, m := Sectors(|v.tableL|), Sectors(|v.tableJolietL|);
    Wrap32Same(20 + 2 * l);
    Wrap32Same(20 + 2 * l + m);
    DescriptorFields(text, 2, size, |v.tableJolietL|, 20 + 2 * l, 20 + 2 * l + m, v.contentJoliet[0]);
  }

  /** Each descriptor gives the size of the volume and of its path tables, and where these begin. */
  lemma DescriptorRead(v: Volume, labels: Labels, joliet: bool)
    requires Sized(v) && Rooted(v) && SectorsFit(Dirs(v.nodes))
    ensures |Image(v, labels)| % 2048 == 0 && DescriptorIs(v, Image(v, labels), joliet)
  {
    hide Sized, LevelsOk, Image, Fields, Sectors, TotalSectors, SectorsFit, IsoDescriptor, JolietDescriptor, DescriptorOf;
    TwoSizes(v);
    SizeOfImage(v, labels);
    ImageDescriptors(v, labels, joliet);
    SectorBound(|v.tableL|);
    SectorBound(|v.tableJolietL|);
    IsoFields(v, labels.isoText, TotalSectors(Dirs(v.nodes)));
    JolietFields(v, labels.jolietText, TotalSectors(Dirs(v.nodes)));
  }

  /** The set of descriptors ends with sector 18. */
  lemma SetEnds(v: Volume, labels: Labels)
    requires Rooted(v)
    ensures |Image(v, labels)| >= 20 * 2048 && Image(v, labels)[18 * 2048..18 * 2048 + 6] == [0xFF] + CD001
  {
    hide Descriptor, SystemArea, TotalSectors, Wrap32, BytesToSectors, LevelsOk, IsoDescriptor, JolietDescriptor, Image;
    var size := Wrap32(TotalSectors(Dirs(v.nodes)));
    var sys, iso, jol := SystemArea(labels, size), IsoDescriptor(v, labels.isoText, size), JolietDescriptor(v, labels.jolietText, size);
    var end := Terminator() + Zeros(2048);
    assert end[..6] == [0xFF] + CD001;
    FourPieces(sys, iso, jol, end, 3, 6);
    assert Head(v, labels) == sys + iso + jol + end;
    ImageHead(v, labels, FRESH);
    PrefixSlice(Head(v, labels), Image(v, labels)[20 * 2048..], 18 * 2048, 18 * 2048 + 6);
  }

  // ---------------------------------------------------------------- what a reader gets from them

  /**
   The path table a reader finds: from the descriptor of sector 16 or 17 it takes the length and the
   sector in the byte order it wants, and walks the table from there.
   */
  function TableOf(image: seq<Byte>, joliet: bool, msb: bool): seq<Entry>
    requires |image| >= 20 * 2048
  {
    var d := DescriptorOf(image, joliet);
    var p, n := 2048 * TableSector(d, msb), TableBytes(d);
    if p + n <= |image| then ParseEntries(image[p..p + n], msb) else []
  }

  /** Every number a descriptor has in two byte orders is the same in both. */
  ghost predicate OrdersAgree(d: Sector) {
    && FromLe32(d[0x50..0x54]) == FromBe32(d[0x54..0x58])
    && d[0x78] as int + 0x100 * d[0x79] as int == d[0x7B] as int + 0x100 * d[0x7A] as int
    && d[0x7C] as int + 0x100 * d[0x7D] as int == d[0x7F] as int + 0x100 * d[0x7E] as int
    && d[0x80] as int + 0x100 * d[0x81] as int == d[0x83] as int + 0x100 * d[0x82] as int
    && FromLe32(d[0x84..0x88]) == FromBe32(d[0x88..0x8C])
  }

  lemma FieldsMean(d: Sector, kind: Byte, volumeSize: U32, tableSize: U32, tableL: U32, tableM: U32)
    requires Fields(d, kind, volumeSize, tableSize, tableL, tableM)
    ensures d[0] == kind && d[1..6] == CD001 && d[6] == 1 && OrdersAgree(d)
    ensures FromLe32(d[0x50..0x54]) == volumeSize && TableBytes(d) == tableSize
    ensures d[0x80] as int + 0x100 * d[0x81] as int == 2048
    ensures TableSector(d, false) == tableL && TableSector(d, true) == tableM
  {
    hide Le32, Be32, FromLe32, FromBe32;
    WordRoundTrip(volumeSize);
    WordRoundTrip(tableSize);
    WordRoundTrip(tableL);
    WordRoundTrip(tableM);
    SliceOfSlice(d, 0x50, 0x58, 0, 4);
    SliceOfSlice(d, 0x50, 0x58, 4, 8);
    SliceOfSlice(d, 0x84, 0x8C, 0, 4);
    SliceOfSlice(d, 0x84, 0x8C, 4, 8);
    SliceOfSlice(d, 0, 7, 1, 6);
    assert d[0x78..0x84][0] == d[0x78];
  }

  /** What a descriptor says of a volume of `n` bytes, whichever byte order is read. */
  ghost predicate Describes(d: Sector, joliet: bool, n: nat) {
    && d[0] == (if joliet then 2 else 1) && d[1..6] == CD001 && d[6] == 1 && OrdersAgree(d)
    && d[0x80] as int + 0x100 * d[0x81] as int == 2048
    && FromLe32(d[0x50..0x54]) * 2048 == n
  }

  lemma DescriptorLeads(v: Volume, image: seq<Byte>, joliet: bool)
    requires DescriptorIs(v, image, joliet) && |image| % 2048 == 0
    ensures var d := DescriptorOf(image, joliet);
      && Describes(d, joliet, |image|) && TableBytes(d) == |v.Table(joliet, false)|
      && TableSector(d, false) == FirstSector(v, joliet, false) && TableSector(d, true) == FirstSector(v, joliet, true)
  {
    hide Fields, OrdersAgree, DescriptorOf, FromLe32, TableBytes, TableSector, Sectors;
    FieldsMean(DescriptorOf(image, joliet), if joliet then 2 else 1, |image| / 2048, |v.Table(joliet, false)|,
               FirstSector(v, joliet, false), FirstSector(v, joliet, true));
  }

  /** A descriptor is one of its kind, agrees with itself, and gives the length of the image in sectors of 2048 bytes. */
  lemma DescriptorMeans(v: Volume, labels: Labels, root: Dir, joliet: bool)
    requires VolumeOk(v, root) && LevelsOk(Dirs(v.nodes)) && SectorsFit(Dirs(v.nodes))
    ensures Rooted(v) && |Image(v, labels)| >= 20 * 2048 && Describes(DescriptorOf(Image(v, labels), joliet), joliet, |Image(v, labels)|)
  {
    hide VolumeOk, Sized, LevelsOk, Image, SectorsFit, DescriptorOf, Describes, Fields;
    VolumeSized(v, root, FRESH);
    SizedRoots(v);
    DescriptorRead(v, labels, joliet);
    DescriptorLeads(v, Image(v, labels), joliet);
  }

  /** Either field of either descriptor leads to the list of the directories. */
  lemma TableFound(v: Volume, labels: Labels, root: Dir, joliet: bool, msb: bool)
    requires VolumeOk(v, root) && LevelsOk(Dirs(v.nodes)) && SectorsFit(Dirs(v.nodes))
    ensures Rooted(v) && |Image(v, labels)| >= 20 * 2048
    ensures TableOf(Image(v, labels), joliet, msb) == ParseEntries(v.Table(joliet, msb), msb)
         == PathEntries(v.nodes, joliet, v.DirsBase(joliet), TableCount(v.nodes))
  {
    hide VolumeOk, Sized, LevelsOk, Image, Fields, SectorsFit, DescriptorOf, TableSector, TableBytes, ParseEntries, FirstSector, PathEntries, Describes;
    VolumeSized(v, root, FRESH);
    SizedRoots(v);
    DescriptorRead(v, labels, joliet);
    DescriptorLeads(v, Image(v, labels), joliet);
    TwoSizes(v);
    TableAt(v, labels, joliet, msb);
    TableRead(v, root, joliet, msb);
  }

  /** Entry `d` of a path table is the subdirectory that its identifier names in the directory of its parent entry. */
  ghost predicate EntryAgrees(v: Volume, image: seq<Byte>, joliet: bool, es: seq<Entry>, d: nat)
    requires LevelsOk(Dirs(v.nodes)) && 0 < d < |es| <= |v.nodes|
  {
    && 1 <= es[d].parent <= d && SpellsDir(v.nodes[d].dir.name, joliet, es[d].id)
    && var p := es[d].parent - 1;
    && ExtentOf(v, joliet, p).start == es[p].loc
    && var x := FindDir(ReadDir(image, ExtentOf(v, joliet, p)), es[d].id);
    && x.Some? && x.value.start == es[d].loc
  }

  lemma EntryFound(v: Volume, labels: Labels, root: Dir, joliet: bool, msb: bool, d: nat)
    requires VolumeOk(v, root) && LevelsOk(Dirs(v.nodes)) && SectorsFit(Dirs(v.nodes)) && d < TableCount(v.nodes)
    ensures Sized(v) && Rooted(v) && |Image(v, labels)| >= 20 * 2048
    ensures var es := TableOf(Image(v, labels), joliet, msb);
      && |es| == TableCount(v.nodes) && es[d].loc == ExtentOf(v, joliet, d).start
      && es[d].parent == (if d == 0 then 1 else v.nodes[d].parent + 1) && es[d].parent <= (if d == 0 then 1 else d)
      && es[d].id == if d == 0 then [0] else DirId(v.nodes[d].dir.name, joliet)
  {
    hide VolumeOk, Sized, LevelsOk, Image, SectorsFit, TableOf, ExtentOf, DirId, ParseEntries, PathEntries;
    VolumeSized(v, root, FRESH);
    SizedRoots(v);
    TableFound(v, labels, root, joliet, msb);
    TableEntry(v, root, joliet, msb, d);
  }

  /** Entry 0 is the root directory that the same descriptor names. */
  lemma RootEntry(v: Volume, labels: Labels, root: Dir, joliet: bool, msb: bool)
    requires VolumeOk(v, root) && LevelsOk(Dirs(v.nodes)) && SectorsFit(Dirs(v.nodes)) && 0 < TableCount(v.nodes)
    ensures Rooted(v) && |Image(v, labels)| >= 20 * 2048 && |TableOf(Image(v, labels), joliet, msb)| == TableCount(v.nodes)
    ensures TableOf(Image(v, labels), joliet, msb)[0] == Entry(RootExtent(Image(v, labels), joliet).start, 1, [0])
  {
    hide VolumeOk, Sized, LevelsOk, Image, SectorsFit, TableOf, ExtentOf, RootExtent, Rooted;
    EntryFound(v, labels, root, joliet, msb, 0);
    RootIs(v, labels, root, FRESH, joliet);
  }

  /** Path tables and directories agree: every other entry is found in the directory of its parent entry. */
  lemma TablesAgree(v: Volume, labels: Labels, root: Dir, joliet: bool, msb: bool, d: nat)
    requires VolumeOk(v, root) && LevelsOk(Dirs(v.nodes)) && SectorsFit(Dirs(v.nodes)) && 0 < d < TableCount(v.nodes)
    ensures Rooted(v) && |Image(v, labels)| >= 20 * 2048 && |TableOf(Image(v, labels), joliet, msb)| == TableCount(v.nodes)
    ensures EntryAgrees(v, Image(v, labels), joliet, TableOf(Image(v, labels), joliet, msb), d)
  {
    hide VolumeOk, Sized, LevelsOk, Image, SectorsFit, TableOf, ExtentOf, ReadDir, FindDir, DirId, SpellsDir, Rooted;
    EntryFound(v, labels, root, joliet, msb, d);
    DirSpelling(v.nodes[d].dir.name, joliet, DirId(v.nodes[d].dir.name, joliet));
    EntryInParent(v, labels, root, joliet, d);
    EntryFound(v, labels, root, joliet, msb, v.nodes[d].parent);
  }
}
