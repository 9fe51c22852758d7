/** The first two sectors of a virtual image, as the reader of encrypted images takes them. */
module DiscRanges {
  import opened Bytes
  import opened AesTables
  import opened FolderTree
  import opened DirBuild
  import opened VIso
  import opened VIsoImage
  import opened IsoReader
  import opened IsoDescriptors
  import opened EncryptedImage

  /** Bytes as the cipher has them. */
  function Raw(s: seq<Byte>): (r: seq<bv8>)
    ensures |r| == |s| && forall i :: 0 <= i < |s| ==> Ix(r[i]) == s[i]
  {
    seq(|s|, i requires 0 <= i < |s| => ByteAt(s[i]))
  }

  lemma RawWord(s: seq<Byte>, i: nat)
    requires i + 4 <= |s|
    ensures BeWord(Raw(s), i) == FromBe32(s[i..i + 4])
  {
    hide Raw, Ix;
  }

  /** In PS3 mode the header has one plain range, which is the whole volume. */
  lemma HeaderWords(labels: Labels, size: U32)
    requires labels.ps3Mode
    ensures var s := SystemArea(labels, size);
      FromBe32(s[0..4]) == 1 && FromBe32(s[8..12]) == 0 && FromBe32(s[12..16]) == Wrap32(size - 1)
  {
    hide Be32, FromBe32, Wrap32;
    var s := SystemArea(labels, size);
    WordRoundTrip(1);
    WordRoundTrip(0);
    WordRoundTrip(Wrap32(size - 1));
    assert s[0..4] == Be32(1) && s[8..12] == Be32(0) && s[12..16] == Be32(Wrap32(size - 1));
  }

  /** The header that `open` reads of an image: its first two sectors. */
  function HeaderOf(image: seq<Byte>): (h: seq<bv8>)
    requires |image| >= 20 * 2048
    ensures Header(h)
  {
    Raw(image[..4096])
  }

  lemma HeaderWord(v: Volume, labels: Labels, i: nat)
    requires Rooted(v) && i + 4 <= 4096
    ensures |Image(v, labels)| >= 20 * 2048
    ensures BeWord(HeaderOf(Image(v, labels)), i) == FromBe32(SystemArea(labels, Wrap32(TotalSectors(Dirs(v.nodes))))[i..i + 4])
  {
    hide BeWord, SystemArea, Raw, FromBe32, Image, LevelsOk, TotalSectors, Wrap32;
    ImageHead(v, labels, FRESH);
    var image, sys := Image(v, labels), SystemArea(labels, Wrap32(TotalSectors(Dirs(v.nodes))));
    assert image[..0x8000] == sys by { HeadStarts(v, labels); }
    assert image[..4096][i..i + 4] == sys[i..i + 4];
    RawWord(image[..4096], i);
  }

  lemma SystemFirst(v: Volume, labels: Labels)
    requires Rooted(v)
    ensures Head(v, labels)[..0x8000] == SystemArea(labels, Wrap32(TotalSectors(Dirs(v.nodes))))
  {
    hide SystemArea, LevelsOk, TotalSectors, Wrap32, IsoDescriptor, JolietDescriptor;
    var size := Wrap32(TotalSectors(Dirs(v.nodes)));
    var sys, iso, jol := SystemArea(labels, size), IsoDescriptor(v, labels.isoText, size), JolietDescriptor(v, labels.jolietText, size);
    FourPieces(sys, iso, jol, Terminator() + Zeros(2048), 0, 0x8000);
    assert Head(v, labels) == sys + iso + jol + (Terminator() + Zeros(2048));
  }

  lemma HeadStarts(v: Volume, labels: Labels)
    requires Rooted(v)
    ensures |Image(v, labels)| >= 20 * 2048
    ensures Image(v, labels)[..0x8000] == SystemArea(labels, Wrap32(TotalSectors(Dirs(v.nodes))))
  {
    hide SystemArea, Image, LevelsOk, TotalSectors, Wrap32, IsoDescriptor, JolietDescriptor, Head;
    ImageHead(v, labels, FRESH);
    var size := Wrap32(TotalSectors(Dirs(v.nodes)));
    var sys, h := SystemArea(labels, size), Head(v, labels);
    SystemFirst(v, labels);
    PrefixSlice(h, Image(v, labels)[20 * 2048..], 0, 0x8000);
  }

  /**
   A virtual PS3 disc is plain from end to end: its header is in order, the table made of it is one plain
   region over the whole image, and no sector is to be decrypted.
   */
  lemma PlainDisc(v: Volume, labels: Labels, root: Dir)
    requires VolumeOk(v, root) && LevelsOk(Dirs(v.nodes)) && SectorsFit(Dirs(v.nodes)) && labels.ps3Mode
    ensures Rooted(v) && |Image(v, labels)| >= 20 * 2048
    ensures var h, n := HeaderOf(Image(v, labels)), |Image(v, labels)|;
      && Sorted(h) && Count(h) == 1 && 2048 * (LastSector(h) + 1) == n
      && (forall r: seq<Region> :: EncryptedImage.TableOf(h, r, 1) ==> r == [Region(false, 0, n - 1)])
      && (forall s: nat :: !ToOpen(h, s))
  {
    hide VolumeOk, LevelsOk, SectorsFit, Image, HeaderOf, BeWord, SystemArea, FromBe32, TotalSectors, Sized, Rooted, Wrap32;
    VolumeSized(v, root, FRESH);
    SizedRoots(v);
    SizeOfImage(v, labels);
    ImageHead(v, labels, FRESH);
    var size := TotalSectors(Dirs(v.nodes));
    HeaderWords(labels, size);
    HeaderWord(v, labels, 0);
    HeaderWord(v, labels, 8);
    HeaderWord(v, labels, 12);
    Wrap32Add(size - 1, 0);
    OneRange(HeaderOf(Image(v, labels)), size);
  }

  lemma FirstRegionIs(h: seq<bv8>, r: seq<Region>, n: nat)
    requires Header(h) && 0 < n <= 62 && EncryptedImage.TableOf(h, r, n)
    ensures |r| == n && r[0] == Region(false, 0, BeWord(h, 12) * 2048 + 2047)
  {
    hide BeWord;
    var i: nat := 0;
    assert r[i].last == (BeWord(h, 12 + 4 * i) - (if i % 2 == 1 then 1 else 0)) * 2048 + 2047;
  }

  lemma OneRange(h: seq<bv8>, size: nat)
    requires Header(h) && size > 0 && BeWord(h, 0) == 1 && BeWord(h, 8) == 0 && BeWord(h, 12) == size - 1
    ensures Sorted(h) && Count(h) == 1 && LastSector(h) == size - 1
    ensures forall r: seq<Region> :: EncryptedImage.TableOf(h, r, 1) ==> r == [Region(false, 0, 2048 * size - 1)]
    ensures forall s: nat :: !ToOpen(h, s)
  {
    hide BeWord;
    assert PlainStart(h, 0) == 0 && PlainEnd(h, 0) == size - 1;
    forall r: seq<Region> | EncryptedImage.TableOf(h, r, 1) ensures r == [Region(false, 0, 2048 * size - 1)] {
      FirstRegionIs(h, r, 1);
    }
    forall s: nat ensures !ToOpen(h, s) {
      if s <= LastSector(h) { assert PlainStart(h, 0) <= s <= PlainEnd(h, 0); }
    }
  }

  /** Any other virtual image has no table at all, so `open` takes it for plain. */
  lemma NoRanges(v: Volume, labels: Labels, root: Dir)
    requires Rooted(v) && !labels.ps3Mode
    ensures |Image(v, labels)| >= 20 * 2048 && !CountOk(HeaderOf(Image(v, labels)))
  {
    hide Rooted, Image, HeaderOf, BeWord, TotalSectors;
    HeaderWord(v, labels, 0);
  }
}
