/** Bytes, fixed-width words in both byte orders, sector arithmetic, and in-place writes. */
module Bytes {

  type Byte = x: int | 0 <= x < 0x100
  type U16 = x: int | 0 <= x < 0x1_0000
  type U32 = x: int | 0 <= x < 0x1_0000_0000

  const SECTOR: nat := 2048

  /** What the program returns for a failure. */
  const FAILED: int := -1

  datatype Option<+T> = None | Some(value: T)

  function Min(a: nat, b: nat): nat {
    if a < b then a else b
  }

  lemma ProductUp(a: nat, b: nat, c: nat)
    requires a <= b
    ensures a * c <= b * c
  {
  }

  /** Conversion to `uint32_t` and to `uint16_t`. */
  function Wrap32(x: int): U32 {
    x % 0x1_0000_0000
  }

  function Wrap16(x: int): U16 {
    x % 0x1_0000
  }

  lemma Wrap32Add(a: int, b: int)
    ensures Wrap32(Wrap32(a) + b) == Wrap32(a + b)
    ensures 0 <= a < 0x1_0000_0000 ==> Wrap32(a) == a
  {
  }

  function Le32(x: U32): (s: seq<Byte>)
    ensures |s| == 4
  {
    [x % 0x100, x / 0x100 % 0x100, x / 0x100 / 0x100 % 0x100, x / 0x100 / 0x100 / 0x100]
  }

  function Be32(x: U32): (s: seq<Byte>)
    ensures |s| == 4
  {
    [x / 0x100 / 0x100 / 0x100, x / 0x100 / 0x100 % 0x100, x / 0x100 % 0x100, x % 0x100]
  }

  function FromLe32(s: seq<Byte>): U32
    requires |s| == 4
  {
    s[0] as int + 0x100 * s[1] as int + 0x1_0000 * s[2] as int + 0x100_0000 * s[3] as int
  }

  function FromBe32(s: seq<Byte>): U32
    requires |s| == 4
  {
    s[3] as int + 0x100 * s[2] as int + 0x1_0000 * s[1] as int + 0x100_0000 * s[0] as int
  }

  lemma WordRoundTrip(x: U32)
    ensures FromLe32(Le32(x)) == x
    ensures FromBe32(Be32(x)) == x
  {
  }

  /** A 16-bit number in little- or big-endian order. */
  function Word16(x: U16, msb: bool): (s: seq<Byte>)
    ensures |s| == 2
  {
    if msb then [x / 0x100, x % 0x100] else [x % 0x100, x / 0x100]
  }

  /** Little-endian order begins with the digit of least weight to base 256, big-endian order with that of most. */
  lemma ByteWeights(x: U32, y: U16)
    ensures var l := Le32(x); l[0] as int + 0x100 * l[1] as int + 0x1_0000 * l[2] as int + 0x100_0000 * l[3] as int == x
    ensures var b := Be32(x); 0x100_0000 * b[0] as int + 0x1_0000 * b[1] as int + 0x100 * b[2] as int + b[3] as int == x
    ensures var l := Word16(y, false); l[0] as int + 0x100 * l[1] as int == y
    ensures var b := Word16(y, true); 0x100 * b[0] as int + b[1] as int == y
  {
  }

  /** Any four bytes are read as the number they spell. */
  lemma BytesRoundTrip(s: seq<Byte>)
    requires |s| == 4
    ensures Le32(FromLe32(s)) == s && Be32(FromBe32(s)) == s
  {
    FourDigits(s[0], s[1], s[2], s[3]);
    FourDigits(s[3], s[2], s[1], s[0]);
  }

  lemma FourDigits(a: Byte, b: Byte, c: Byte, d: Byte)
    ensures var x := a as int + 0x100 * b as int + 0x1_0000 * c as int + 0x100_0000 * d as int;
      x % 0x100 == a && x / 0x100 % 0x100 == b && x / 0x100 / 0x100 % 0x100 == c && x / 0x100 / 0x100 / 0x100 == d
  {
    var x := a as int + 0x100 * b as int + 0x1_0000 * c as int + 0x100_0000 * d as int;
    var y := b as int + 0x100 * c as int + 0x1_0000 * d as int;
    assert x == 0x100 * y + a && x / 0x100 == y;
    var z := c as int + 0x100 * d as int;
    assert y == 0x100 * z + b && y / 0x100 == z;
  }

  function Word32(x: U32, msb: bool): (s: seq<Byte>)
    ensures |s| == 4
  {
    if msb then Be32(x) else Le32(x)
  }

  function FromWord32(s: seq<Byte>, msb: bool): U32
    requires |s| == 4
  {
    if msb then FromBe32(s) else FromLe32(s)
  }

  /** A number in both byte orders, as ECMA-119 section 7.3.3 lays it out. */
  function Both32(x: U32): (s: seq<Byte>)
    ensures |s| == 8
    ensures s[..4] == Le32(x) && s[4..] == Be32(x)
  {
    Le32(x) + Be32(x)
  }

  function Zeros(n: nat): (s: seq<Byte>)
    ensures |s| == n
    ensures forall i :: 0 <= i < n ==> s[i] == 0
  {
    seq(n, _ => 0)
  }

  /** Sectors needed for `n` bytes, without the 32-bit truncation of `BytesToSectors`. */
  function Sectors(n: nat): nat {
    (n + 2047) / 2048
  }

  function RoundUp(n: nat): (r: nat)
    ensures n <= r
  {
    Sectors(n) * 2048
  }

  /** `s` filled up with zeros to whole sectors. */
  function Padded(s: seq<Byte>): (r: seq<Byte>)
    ensures |r| == RoundUp(|s|) && r[..|s|] == s
    ensures forall k :: |s| <= k < |r| ==> r[k] == 0
  {
    s + Zeros(RoundUp(|s|) - |s|)
  }

  /** The fewest sectors that hold `n` bytes. */
  lemma SectorsAre(n: nat)
    ensures n <= 2048 * Sectors(n) < n + 2048
  {
  }

  function BytesToSectors(size: nat): U32 {
    Wrap32(Sectors(size))
  }

  /** `s` with the bytes at `off` overwritten by `t`. */
  function Splice(s: seq<Byte>, off: nat, t: seq<Byte>): (r: seq<Byte>)
    requires off + |t| <= |s|
    ensures |r| == |s|
    ensures r[off..off + |t|] == t
    ensures forall i :: 0 <= i < |s| && !(off <= i < off + |t|) ==> r[i] == s[i]
  {
    s[..off] + t + s[off + |t|..]
  }

  /** `memcpy` of `t` to offset `off` of `a`. */
  method Put(a: array<Byte>, off: nat, t: seq<Byte>)
    requires off + |t| <= a.Length
    modifies a
    ensures a[..] == Splice(old(a[..]), off, t)
  {
    var i := 0;
    while i < |t|
      invariant 0 <= i <= |t|
      invariant forall k :: 0 <= k < a.Length && !(off <= k < off + i) ==> a[k] == old(a[k])
      invariant forall k :: 0 <= k < i ==> a[off + k] == t[k]
    {
      a[off + i] := t[i];
      i := i + 1;
    }
    assert a[..] == Splice(old(a[..]), off, t);
  }

  lemma SliceOfSlice<T>(s: seq<T>, a: nat, b: nat, c: nat, d: nat)
    requires a <= b <= |s| && c <= d <= b - a
    ensures s[a..b][c..d] == s[a + c..a + d]
  {
    var t := s[a..b];
    forall i | 0 <= i < d - c ensures t[c..d][i] == s[a + c..a + d][i] {
      assert t[c..d][i] == t[c + i] == s[a + (c + i)];
    }
    assert t[c..d] == s[a + c..a + d];
  }

  /** A buffer worked on up to `at`: what comes next is still as it was. */
  lemma NextPiece<T>(now: seq<T>, run: seq<T>, was: seq<T>, at: nat, n: nat)
    requires |run| == at && at + n <= |was| && now == run + was[at..]
    ensures now[at..at + n] == was[at..at + n]
  {
  }
}
