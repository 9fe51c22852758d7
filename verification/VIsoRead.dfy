/**
 The reading half of `VIsoFile` and `VIsoFile2`: seeking, and random-access reads of an image
 that never exists as a whole.
 */
module VIsoRead {
  import opened Bytes
  import opened FolderTree
  import opened Disk

  // ---------------------------------------------------------------- what a read returns

  /** The bytes of `image` a read of `n` bytes at `ptr` asks for. */
  function Wanted(image: seq<Byte>, ptr: int, n: nat): (s: seq<Byte>)
    ensures |s| <= n
  {
    if 0 <= ptr < |image| then image[ptr..Min(ptr + n, |image|)] else []
  }

  /** As many bytes as there are, one by one from the pointer on; from the start, the whole image. */
  lemma WantedIs(image: seq<Byte>, ptr: nat, n: nat)
    ensures var s := Wanted(image, ptr, n); |s| == (if ptr + n <= |image| then n else if ptr < |image| then |image| - ptr else 0)
    ensures forall k :: 0 <= k < |Wanted(image, ptr, n)| ==> Wanted(image, ptr, n)[k] == image[ptr + k]
    ensures Wanted(image, 0, |image|) == image
  {
  }

  /** Splitting a read in two never changes the bytes, nor where the pointer ends up. */
  lemma ReadSplit(image: seq<Byte>, ptr: nat, n: nat, m: nat)
    ensures Wanted(image, ptr, n + m) == Wanted(image, ptr, n) + Wanted(image, ptr + |Wanted(image, ptr, n)|, m)
  {
    if ptr < |image| && ptr + n < |image| {
      assert image[ptr..Min(ptr + n + m, |image|)] == image[ptr..ptr + n] + image[ptr + n..Min(ptr + n + m, |image|)];
    }
  }

  /**
   How many bytes a read gets to return when no file begins in the `gap` bytes behind the metadata,
   which end at `front`: nothing is found for a position in between, and a read that gets there ends.
   */
  function Passable(front: nat, gap: nat, ptr: int, n: nat): nat {
    if gap > 0 && ptr < front + gap && ptr + n > front then if ptr < front then front - ptr else 0 else n
  }

  /** Every read returns all it asks for exactly when there is no such gap. */
  lemma GapShows(image: seq<Byte>, front: nat, gap: nat)
    requires front + gap <= |image|
    ensures gap == 0 <==> forall ptr: nat, n: nat :: Wanted(image, ptr, Passable(front, gap, ptr, n)) == Wanted(image, ptr, n)
  {
    if gap > 0 {
      assert |Wanted(image, front, Passable(front, gap, front, 1))| < |Wanted(image, front, 1)|;
    }
  }

  /** A step of a client: move the pointer, or read. */
  datatype Op = SeekSet(off: int) | SeekCur(off: int) | SeekEnd(off: int) | ReadBytes(n: nat)

  /** Pointer and bytes after one step on a healthy disk. */
  function OpStep(image: seq<Byte>, ptr: int, op: Op): (int, seq<Byte>) {
    match op
    case SeekSet(off) => (off, [])
    case SeekCur(off) => (ptr + off, [])
    case SeekEnd(off) => (|image| + off, [])
    case ReadBytes(n) => (ptr + |Wanted(image, ptr, n)|, Wanted(image, ptr, n))
  }

  function RunOps(image: seq<Byte>, ptr: int, ops: seq<Op>): seq<Byte>
    decreases |ops|
  {
    if ops == [] then [] else OpStep(image, ptr, ops[0]).1 + RunOps(image, OpStep(image, ptr, ops[0]).0, ops[1..])
  }

  /** Reading in pieces of any sizes gives the same bytes as one read of their total size. */
  lemma {:induction false} SequentialReads(image: seq<Byte>, ptr: nat, ops: seq<Op>)
    requires forall i :: 0 <= i < |ops| ==> ops[i].ReadBytes?
    ensures RunOps(image, ptr, ops) == Wanted(image, ptr, Asked(ops))
    decreases |ops|
  {
    hide Wanted;
    if ops != [] {
      SequentialReads(image, ptr + |Wanted(image, ptr, ops[0].n)|, ops[1..]);
      ReadSplit(image, ptr, ops[0].n, Asked(ops[1..]));
    }
  }

  function Asked(ops: seq<Op>): nat
    requires forall i :: 0 <= i < |ops| ==> ops[i].ReadBytes?
  {
    if ops == [] then 0 else ops[0].n + Asked(ops[1..])
  }

  lemma RunStep(image: seq<Byte>, ptr: int, ops: seq<Op>, i: nat, out: seq<Byte>)
    requires i < |ops|
    ensures var step := OpStep(image, ptr, ops[i]);
      out + RunOps(image, ptr, ops[i..]) == (out + step.1) + RunOps(image, step.0, ops[i + 1..])
  {
    hide OpStep;
    assert ops[i..][1..] == ops[i + 1..];
  }

  lemma NothingLeft(image: seq<Byte>, ptr: int, out: seq<Byte>)
    ensures out + RunOps(image, ptr, []) == out
  {
  }

  // ---------------------------------------------------------------- the image seen file by file

  /** Bytes of the first `f` files of a list, each padded to whole sectors. */
  function ListBytes(files: seq<FileNode>, f: nat): nat
    requires f <= |files|
  {
    if f == 0 then 0 else ListBytes(files, f - 1) + RoundUp(|files[f - 1].file.data|)
  }

  /** Bytes of the files of the first `d` directories. */
  function AreaBytes(dirs: seq<seq<FileNode>>, d: nat): nat
    requires d <= |dirs|
  {
    if d == 0 then 0 else AreaBytes(dirs, d - 1) + ListBytes(dirs[d - 1], |dirs[d - 1]|)
  }

  /** First byte of file `f` of directory `d` in the image. */
  function FileStart(dirs: seq<seq<FileNode>>, fsBufSize: nat, d: nat, f: nat): nat
    requires d < |dirs| && f <= |dirs[d]|
  {
    fsBufSize + AreaBytes(dirs, d) + ListBytes(dirs[d], f)
  }

  datatype Geometry = Geometry(fsBufSize: nat, padAreaStart: nat, padAreaSize: nat, totalSize: nat)

  ghost predicate FileServed(image: seq<Byte>, dirs: seq<seq<FileNode>>, fsBufSize: nat, gap: nat, d: nat, f: nat)
    requires d < |dirs| && f < |dirs[d]|
  {
    var p, s := FileStart(dirs, fsBufSize + gap, d, f), Padded(dirs[d][f].file.data);
    fsBufSize + 2048 * dirs[d][f].rlba == p && p + |s| <= |image| && image[p..p + |s|] == s
  }

  /** `image` is: metadata, a gap, the files of all lists in order, each at the sector it was given, zeros. */
  ghost predicate Serves(image: seq<Byte>, dirs: seq<seq<FileNode>>, g: Geometry, gap: nat) {
    && g.totalSize == |image| && g.padAreaStart + g.padAreaSize == g.totalSize
    && g.padAreaStart == g.fsBufSize + gap + AreaBytes(dirs, |dirs|)
    && g.fsBufSize % 2048 == 0
    && (forall d, f :: 0 <= d < |dirs| && 0 <= f < |dirs[d]| ==> FileServed(image, dirs, g.fsBufSize, gap, d, f))
    && (forall k :: g.padAreaStart <= k < |image| ==> image[k] == 0)
  }

  /** Bytes of one padded file, seen from a position inside it. */
  lemma WithinFile(image: seq<Byte>, dirs: seq<seq<FileNode>>, g: Geometry, gap: nat, d: nat, f: nat, off: nat, n: nat)
    requires Serves(image, dirs, g, gap) && d < |dirs| && f < |dirs[d]| && off + n <= RoundUp(|dirs[d][f].file.data|)
    ensures var data, p := dirs[d][f].file.data, FileStart(dirs, g.fsBufSize + gap, d, f);
      && p + off + n <= |image|
      && (off + n <= |data| ==> image[p + off..p + off + n] == data[off..off + n])
      && (off >= |data| ==> image[p + off..p + off + n] == Zeros(n))
  {
    hide FileStart, RoundUp, AreaBytes, Serves, Padded;
    var data, p := dirs[d][f].file.data, FileStart(dirs, g.fsBufSize + gap, d, f);
    ServedWhole(image, dirs, g, gap, d, f);
    SliceOfSlice(image, p, p + |Padded(data)|, off, off + n);
    WithinPadded(data, off, n);
  }

  lemma ServedWhole(image: seq<Byte>, dirs: seq<seq<FileNode>>, g: Geometry, gap: nat, d: nat, f: nat)
    requires Serves(image, dirs, g, gap) && d < |dirs| && f < |dirs[d]|
    ensures var s, p := Padded(dirs[d][f].file.data), FileStart(dirs, g.fsBufSize + gap, d, f);
      |s| == RoundUp(|dirs[d][f].file.data|) && p + |s| <= |image| && image[p..p + |s|] == s
  {
    hide FileStart, RoundUp, AreaBytes;
    assert FileServed(image, dirs, g.fsBufSize, gap, d, f);
  }

  lemma WithinPadded(data: seq<Byte>, off: nat, n: nat)
    requires off + n <= RoundUp(|data|)
    ensures off + n <= |data| ==> Padded(data)[off..off + n] == data[off..off + n]
    ensures off >= |data| ==> Padded(data)[off..off + n] == Zeros(n)
  {
    hide RoundUp;
    if off + n <= |data| {
      SliceOfSlice(Padded(data), 0, |data|, off, off + n);
    }
  }

  /** `out` is what the image holds from `ptr` on. */
  ghost predicate Got(image: seq<Byte>, ptr: int, out: seq<Byte>) {
    out == [] || (0 <= ptr && ptr + |out| <= |image| && image[ptr..ptr + |out|] == out)
  }

  lemma GotMore(image: seq<Byte>, ptr: int, a: seq<Byte>, b: seq<Byte>)
    requires Got(image, ptr, a) && Got(image, ptr + |a|, b)
    ensures Got(image, ptr, a + b)
  {
    if a == [] {
      assert a + b == b;
    } else if b == [] {
      assert a + b == a;
    } else {
      assert image[ptr..ptr + |a| + |b|] == image[ptr..ptr + |a|] + image[ptr + |a|..ptr + |a| + |b|];
    }
  }

  lemma GotFromFile(image: seq<Byte>, dirs: seq<seq<FileNode>>, g: Geometry, gap: nat, d: nat, f: nat, ptr: nat, n: nat)
    requires Serves(image, dirs, g, gap) && d < |dirs| && f < |dirs[d]|
    requires var p := FileStart(dirs, g.fsBufSize + gap, d, f); p <= ptr && ptr + n <= p + RoundUp(|dirs[d][f].file.data|)
    ensures var data, p := dirs[d][f].file.data, FileStart(dirs, g.fsBufSize + gap, d, f);
      && (ptr - p + n <= |data| ==> Got(image, ptr, data[ptr - p..ptr - p + n]))
      && (ptr - p >= |data| ==> Got(image, ptr, Zeros(n)))
  {
    hide Serves, FileStart, RoundUp;
    WithinFile(image, dirs, g, gap, d, f, ptr - FileStart(dirs, g.fsBufSize + gap, d, f), n);
  }

  lemma NextFile(image: seq<Byte>, dirs: seq<seq<FileNode>>, g: Geometry, gap: nat, d: nat, f: nat)
    requires Serves(image, dirs, g, gap) && d < |dirs| && f < |dirs[d]|
    ensures FileStart(dirs, g.fsBufSize + gap, d, f) == g.fsBufSize + 2048 * dirs[d][f].rlba
    ensures FileStart(dirs, g.fsBufSize + gap, d, f + 1) == FileStart(dirs, g.fsBufSize + gap, d, f) + RoundUp(|dirs[d][f].file.data|)
    ensures RoundUp(g.fsBufSize + 2048 * dirs[d][f].rlba + |dirs[d][f].file.data|)
         == g.fsBufSize + 2048 * dirs[d][f].rlba + RoundUp(|dirs[d][f].file.data|)
  {
    hide RoundUp, AreaBytes;
    assert FileServed(image, dirs, g.fsBufSize, gap, d, f);
    RoundUpShift(g.fsBufSize / 2048 + dirs[d][f].rlba, |dirs[d][f].file.data|);
  }

  lemma RoundUpShift(a: nat, b: nat)
    ensures RoundUp(2048 * a + b) == 2048 * a + RoundUp(b)
  {
  }

  // ---------------------------------------------------------------- the reader

  /**
   `cached` tells `VIsoFile2`, which keeps the last file open, from `VIsoFile`, which opens and
   closes a file for every piece it reads; in all else the two classes are the same.
   */
  class VIsoFile {
    const cached: bool
    const host: HostFiles
    var generated: bool
    var dirs: seq<seq<FileNode>>
    var fsBuf: array<Byte>
    var g: Geometry
    var vFilePtr: int
    var fd: int
    var lastPath: Option<(nat, nat)>
    var counts: Counters
    ghost var image: seq<Byte>
    ghost var gap: nat

    /** Something is served and `fsBuf` is its beginning, or nothing is and the pointer is at 0. */
    ghost predicate Valid()
      reads this, fsBuf, host
    {
      CacheOk() && (!generated ==> lastPath == None && vFilePtr == 0) && (generated ==> Serves(image, dirs, g, gap) && g.fsBufSize == fsBuf.Length <= |image| && fsBuf[..] == image[..fsBuf.Length])
    }

    /** A remembered path always goes with an open descriptor of that very file. */
    ghost predicate CacheOk()
      reads this, host
    {
      && (lastPath.None? ==> fd == 0)
      && (lastPath.Some? ==>
            && cached && lastPath.value.0 < |dirs| && lastPath.value.1 < |dirs[lastPath.value.0]|
            && fd >= 0 && fd in host.open && host.open[fd].file == dirs[lastPath.value.0][lastPath.value.1].file)
    }

    /** The sector counts the next `build` starts from: `open` closes what is served before it builds. */
    ghost function From(): Counters
      reads this
    {
      if generated then FRESH else counts
    }

    /** Descriptors that are not the cached one. */
    ghost function Foreign(): map<int, FileHandle>
      reads this, host
    {
      if lastPath.Some? then host.open - {fd} else host.open
    }

    /** Descriptor 0 belongs to somebody else, as it does unless the server starts with stdin closed. */
    ghost predicate ZeroTaken()
      reads this, host
    {
      0 in Foreign()
    }

    constructor (cached: bool, host: HostFiles)
      ensures Valid() && !generated && this.cached == cached && this.host == host && lastPath == None && fresh(fsBuf)
      ensures From() == FRESH
    {
      this.cached, this.host := cached, host;
      generated, dirs, fsBuf, g := false, [], new Byte[0], Geometry(0, 0, 0, 0);
      vFilePtr, fd, lastPath, counts, image, gap := 0, 0, None, FRESH, [], 0;
    }

    /** `fd_reset`: 0 is the "nothing cached" mark, so descriptor 0 itself is never closed. */
    method FdReset()
      requires fd > 0 ==> fd in host.open
      modifies this`fd, this`lastPath, host
      ensures fd == 0 && lastPath == None
      ensures host.open == (if old(fd) > 0 then old(host.open) - {old(fd)} else old(host.open)) && host.faults == old(host.faults)
    {
      if fd != 0 && fd >= 0 {
        host.CloseFile(fd);
      }
      fd := 0;
      lastPath := None;
    }

    /** `close` and `reset`: whatever was cached is closed, and nothing is served any more. */
    method Reset()
      requires CacheOk()
      modifies this, host
      ensures Valid() && !generated && lastPath == None && vFilePtr == 0 && counts == FRESH && fresh(fsBuf)
      ensures host.open == (if old(fd) == 0 then old(host.open) else old(Foreign())) && host.faults == old(host.faults)
      ensures host.open == old(Foreign()) <==> !(old(lastPath).Some? && old(fd) == 0)
      ensures host.open - {0} == old(Foreign()) - {0} && (old(ZeroTaken()) ==> host.open == old(Foreign()))
    {
      hide Serves;
      FdReset();
      generated, dirs, image, gap, vFilePtr, counts := false, [], [], 0, 0, FRESH;
      fsBuf, g := new Byte[0], Geometry(0, 0, 0, 0);
    }

    /** The first step of `open`: what is served is closed; an object that serves nothing is left as it is. */
    method CloseServed()
      requires Valid()
      modifies this, host
      ensures Valid() && !generated && lastPath == None && vFilePtr == 0 && counts == old(From())
      ensures host.open - {0} == old(Foreign()) - {0} && (old(ZeroTaken()) ==> host.open == old(Foreign()))
    {
      hide Serves;
      if generated {
        Reset();
      }
    }

    /** Takes over what `generate` has prepared. */
    method Load(dirs: seq<seq<FileNode>>, fsBuf: array<Byte>, g: Geometry, ghost image: seq<Byte>, ghost gap: nat)
      requires lastPath == None && fd == 0
      requires Serves(image, dirs, g, gap) && g.fsBufSize == fsBuf.Length <= |image| && fsBuf[..] == image[..fsBuf.Length]
      modifies this
      ensures Valid() && generated && this.image == image && this.gap == gap && this.dirs == dirs && this.g == g
      ensures lastPath == None && vFilePtr == old(vFilePtr) && counts == old(counts)
    {
      hide Serves;
      this.dirs, this.fsBuf, this.g, this.image, this.gap, generated := dirs, fsBuf, g, image, gap, true;
    }

    method Seek(op: Op) returns (pos: int)
      requires Valid() && !op.ReadBytes?
      modifies this`vFilePtr
      ensures Valid()
      ensures !generated ==> pos == -1 && vFilePtr == old(vFilePtr)
      ensures generated ==> pos == vFilePtr == OpStep(image, old(vFilePtr), op).0
    {
      if !generated {
        return -1;
      }
      match op {
        case SeekSet(off) => vFilePtr := off;
        case SeekCur(off) => vFilePtr := vFilePtr + off;
        case SeekEnd(off) => vFilePtr := g.totalSize + off;
      }
      pos := vFilePtr;
    }

    /** Open, seek, read and close, as `VIsoFile::read` does for every piece of a file. */
    method FetchOnce(file: File, off: nat, n: nat) returns (ok: bool, bytes: seq<Byte>)
      requires off + n <= |file.data| && n > 0
      modifies host
      ensures host.open == old(host.open) && host.faults >= old(host.faults)
      ensures ok ==> bytes == file.data[off..off + n]
      ensures !ok ==> bytes == [] && host.faults > old(host.faults)
    {
      var desc := host.OpenFile(file);
      if desc < 0 {
        return false, [];
      }
      host.SeekFile(desc, off);
      var ret;
      ret, bytes := host.ReadFile(desc, n);
      host.CloseFile(desc);
      assert host.open == old(host.open);
      if ret < 0 {
        return false, [];
      }
      if ret != n {
        return false, [];
      }
      ok := true;
    }

    /** Makes file `f` of directory `d` the cached one; reopens only when the path changes. */
    method OpenCached(d: nat, f: nat) returns (ok: bool)
      requires CacheOk() && cached && d < |dirs| && f < |dirs[d]|
      modifies this`fd, this`lastPath, host
      ensures CacheOk() && lastPath == if ok then Some((d, f)) else None
      ensures Foreign() - {0} == old(Foreign()) - {0} && (old(ZeroTaken()) ==> Foreign() == old(Foreign()))
      ensures ok && old(lastPath).None? ==> Foreign() == old(host.open)
      ensures if ok then host.faults == old(host.faults) else host.faults > old(host.faults)
    {
      if lastPath == Some((d, f)) {
        return true;
      }
      FdReset();
      ghost var rest := host.open;
      assert rest - {0} == old(Foreign()) - {0};
      assert old(ZeroTaken()) ==> rest == old(Foreign());
      lastPath := Some((d, f));
      fd := host.OpenFile(dirs[d][f].file);
      if fd < 0 {
        FdReset();
        return false;
      }
      assert host.open - {fd} == rest;
      ok := true;
    }

    /** One piece of a file through the cached descriptor, as `VIsoFile2::read` fetches it. */
    method FetchCached(d: nat, f: nat, off: nat, n: nat) returns (ok: bool, bytes: seq<Byte>)
      requires CacheOk() && cached && d < |dirs| && f < |dirs[d]|
      requires off + n <= |dirs[d][f].file.data| && n > 0
      modifies this`fd, this`lastPath, host
      ensures CacheOk() && host.faults >= old(host.faults)
      ensures Foreign() - {0} == old(Foreign()) - {0} && (old(ZeroTaken()) ==> Foreign() == old(Foreign()))
      ensures ok ==> bytes == dirs[d][f].file.data[off..off + n]
      ensures ok ==> lastPath.Some? && (old(lastPath).None? ==> Foreign() == old(host.open))
      ensures !ok ==> bytes == [] && host.faults > old(host.faults) && lastPath == None
    {
      ok := OpenCached(d, f);
      if !ok {
        return false, [];
      }
      ghost var rest := Foreign();
      host.SeekFile(fd, off);
      var ret;
      ret, bytes := host.ReadFile(fd, n);
      assert Foreign() == rest;
      if ret != n {
        CloseCached(rest);
        return false, [];
      }
    }

    method CloseCached(ghost rest: map<int, FileHandle>)
      requires CacheOk() && lastPath.Some? && Foreign() == rest
      modifies this`fd, this`lastPath, host
      ensures CacheOk() && lastPath == None && host.faults == old(host.faults)
      ensures Foreign() - {0} == rest - {0} && (0 in rest ==> Foreign() == rest)
    {
      assert 0 in rest ==> fd != 0;
      FdReset();
    }

    /** The fetch of either class. */
    method Fetch(d: nat, f: nat, off: nat, n: nat) returns (ok: bool, bytes: seq<Byte>)
      requires CacheOk() && d < |dirs| && f < |dirs[d]|
      requires off + n <= |dirs[d][f].file.data| && n > 0
      modifies this`fd, this`lastPath, host
      ensures CacheOk() && host.faults >= old(host.faults)
      ensures Foreign() - {0} == old(Foreign()) - {0} && (old(ZeroTaken()) ==> Foreign() == old(Foreign()))
      ensures !cached ==> host.open == old(host.open)
      ensures ok ==> bytes == dirs[d][f].file.data[off..off + n]
      ensures !ok ==> bytes == [] && host.faults > old(host.faults)
    {
      if cached {
        ok, bytes := FetchCached(d, f, off, n);
      } else {
        ok, bytes := FetchOnce(dirs[d][f].file, off, n);
      }
    }

    /**
     One piece of a file through a descriptor opened for it, then `close`. When the kernel hands out
     0 for it, 0 is open afterwards and was not before; any other descriptor is closed.
     */
    method FetchAndReset(d: nat, f: nat, off: nat, n: nat) returns (ok: bool, handedOut: int)
      requires Valid() && generated && cached && lastPath == None && d < |dirs| && f < |dirs[d]|
      requires off + n <= |dirs[d][f].file.data| && n > 0
      modifies this, host
      ensures Valid() && !generated
      ensures ok ==> handedOut !in old(host.open)
      ensures ok ==> host.open.Keys == if handedOut == 0 then old(host.open.Keys) + {0} else old(host.open.Keys)
    {
      hide Serves;
      var bytes;
      ok, bytes := FetchCached(d, f, off, n);
      handedOut := fd;
      Reset();
      assert ok && handedOut == 0 ==> host.open - {0} == old(host.open) && 0 in host.open;
    }

    /** The bytes a file has from the pointer on. */
    method ReadBody(d: nat, f: nat, fStart: nat, remaining: nat) returns (ok: bool, out: seq<Byte>)
      requires Valid() && generated && d < |dirs| && f < |dirs[d]| && remaining > 0
      requires fStart == FileStart(dirs, g.fsBufSize + gap, d, f) <= vFilePtr < fStart + |dirs[d][f].file.data|
      modifies this`fd, this`lastPath, this`vFilePtr, host
      ensures Valid() && vFilePtr == old(vFilePtr) + |out| && host.faults >= old(host.faults)
      ensures Foreign() - {0} == old(Foreign()) - {0} && (old(ZeroTaken()) ==> Foreign() == old(Foreign()))
      ensures !cached ==> host.open == old(host.open)
      ensures |out| <= remaining && Got(image, old(vFilePtr), out)
      ensures ok ==> |out| == remaining || vFilePtr == fStart + |dirs[d][f].file.data|
      ensures !ok ==> host.faults > old(host.faults)
    {
      hide Serves, FileStart, RoundUp, Got;
      var toRead := Min(|dirs[d][f].file.data| - (vFilePtr - fStart), remaining);
      GotFromFile(image, dirs, g, gap, d, f, vFilePtr, toRead);
      GotNothing(image, vFilePtr);
      ok, out := Fetch(d, f, vFilePtr - fStart, toRead);
      if ok {
        vFilePtr := vFilePtr + toRead;
      }
    }

    /** What one file contributes to a read: some of its bytes, then the zeros that fill its last sector. */
    method ReadPiece(d: nat, f: nat, remaining: nat) returns (ok: bool, out: seq<Byte>)
      requires Valid() && generated && d < |dirs| && f < |dirs[d]| && remaining > 0
      modifies this`fd, this`lastPath, this`vFilePtr, host
      ensures Valid() && vFilePtr == old(vFilePtr) + |out| && host.faults >= old(host.faults)
      ensures Foreign() - {0} == old(Foreign()) - {0} && (old(ZeroTaken()) ==> Foreign() == old(Foreign()))
      ensures !cached ==> host.open == old(host.open)
      ensures |out| <= remaining && Got(image, old(vFilePtr), out)
      ensures old(vFilePtr) < FileStart(dirs, g.fsBufSize + gap, d, f) ==> ok && out == []
      ensures ok && old(vFilePtr) >= FileStart(dirs, g.fsBufSize + gap, d, f) ==>
                |out| == remaining || vFilePtr >= FileStart(dirs, g.fsBufSize + gap, d, f + 1)
      ensures !ok ==> host.faults > old(host.faults)
    {
      hide Serves, FileStart, RoundUp, Got;
      out, ok := [], true;
      GotNothing(image, vFilePtr);
      NextFile(image, dirs, g, gap, d, f);
      var fStart := g.fsBufSize + 2048 * dirs[d][f].rlba;
      var fEnd := fStart + |dirs[d][f].file.data|;
      var fEndSector := RoundUp(fEnd);
      if vFilePtr >= fStart && vFilePtr < fEndSector {
        if vFilePtr < fEnd {
          ok, out := ReadBody(d, f, fStart, remaining);
          if !ok {
            return;
          }
        }
        if remaining - |out| > 0 && fEnd != fEndSector {
          var toRead := Min((fEndSector - fEnd) - (vFilePtr - fEnd), remaining - |out|);
          GotFromFile(image, dirs, g, gap, d, f, vFilePtr, toRead);
          GotMore(image, old(vFilePtr), out, Zeros(toRead));
          out := out + Zeros(toRead);
          vFilePtr := vFilePtr + toRead;
        }
      }
    }

    /** The two nested loops over every file list; `done` says that the read is over. No file is found for a position in the gap. */
    method ReadFiles(remaining: nat) returns (done: bool, out: seq<Byte>)
      requires Valid() && generated && remaining > 0 && g.fsBufSize <= vFilePtr
      modifies this`fd, this`lastPath, this`vFilePtr, host
      ensures Valid() && vFilePtr == old(vFilePtr) + |out| && host.faults >= old(host.faults)
      ensures Foreign() - {0} == old(Foreign()) - {0} && (old(ZeroTaken()) ==> Foreign() == old(Foreign()))
      ensures !cached ==> host.open == old(host.open)
      ensures |out| <= remaining && Got(image, old(vFilePtr), out)
      ensures done && |out| < remaining ==> host.faults > old(host.faults)
      ensures old(vFilePtr) < g.fsBufSize + gap ==> !done && out == []
      ensures !done && old(vFilePtr) >= g.fsBufSize + gap ==> |out| < remaining && vFilePtr >= g.padAreaStart
    {
      hide FileStart, Got, ListBytes, Foreign, AreaBytes, FileServed, CacheOk;
      out := [];
      done := false;
      GotNothing(image, vFilePtr);
      AreaStart(dirs);
      var d := 0;
      while d < |dirs|
        invariant d <= |dirs| && Valid() && vFilePtr == old(vFilePtr) + |out| && host.faults >= old(host.faults)
        invariant Foreign() - {0} == old(Foreign()) - {0} && (old(ZeroTaken()) ==> Foreign() == old(Foreign()))
        invariant !cached ==> host.open == old(host.open)
        invariant |out| < remaining && Got(image, old(vFilePtr), out)
        invariant if old(vFilePtr) < g.fsBufSize + gap then out == [] else vFilePtr >= g.fsBufSize + gap + AreaBytes(dirs, d)
      {
        DirStart(dirs, g.fsBufSize + gap, d);
        var f := 0;
        while f < |dirs[d]|
          invariant f <= |dirs[d]| && Valid() && vFilePtr == old(vFilePtr) + |out| && host.faults >= old(host.faults)
          invariant Foreign() - {0} == old(Foreign()) - {0} && (old(ZeroTaken()) ==> Foreign() == old(Foreign()))
          invariant !cached ==> host.open == old(host.open)
          invariant |out| < remaining && Got(image, old(vFilePtr), out)
          invariant if old(vFilePtr) < g.fsBufSize + gap then out == [] else vFilePtr >= FileStart(dirs, g.fsBufSize + gap, d, f)
        {
          FilesBehind(dirs, g.fsBufSize + gap, d, f);
          var ok, piece := ReadPiece(d, f, remaining - |out|);
          GotMore(image, old(vFilePtr), out, piece);
          out := out + piece;
          if !ok || |out| == remaining {
            return true, out;
          }
          f := f + 1;
        }
        d := d + 1;
      }
    }

    /** Metadata, from memory. */
    method ReadFront(remaining: nat) returns (out: seq<Byte>)
      requires Valid() && generated && 0 <= vFilePtr < |image|
      modifies this`vFilePtr
      ensures Valid() && vFilePtr == old(vFilePtr) + |out| && Foreign() == old(Foreign())
      ensures |out| <= remaining && Got(image, old(vFilePtr), out)
      ensures |out| == remaining || vFilePtr >= g.fsBufSize
      ensures out == [] || vFilePtr <= g.fsBufSize
    {
      hide Serves, Got;
      GotNothing(image, vFilePtr);
      out := [];
      if vFilePtr < g.fsBufSize {
        var toRead := Min(g.fsBufSize - vFilePtr, remaining);
        out := fsBuf[vFilePtr..vFilePtr + toRead];
        GotFront(image, fsBuf[..], vFilePtr, toRead);
        vFilePtr := vFilePtr + toRead;
      }
    }

    /** Zeros behind the last file. */
    method ReadPad(remaining: nat) returns (out: seq<Byte>)
      requires Valid() && generated && g.padAreaStart <= vFilePtr < g.totalSize
      modifies this`vFilePtr
      ensures Valid() && vFilePtr == old(vFilePtr) + |out| && Foreign() == old(Foreign())
      ensures |out| <= remaining && Got(image, old(vFilePtr), out)
      ensures |out| == remaining || vFilePtr >= g.totalSize
    {
      hide Serves, Got;
      ServesSizes(image, dirs, g, gap);
      GotNothing(image, vFilePtr);
      var readSize := g.padAreaSize - (vFilePtr - g.padAreaStart);
      if readSize <= 0 {
        return [];
      }
      var toRead := Min(readSize, remaining);
      GotPad(image, dirs, g, gap, vFilePtr, toRead);
      out := Zeros(toRead);
      vFilePtr := vFilePtr + toRead;
    }

    /** A read that starts inside the image: metadata, then files, then padding. */
    method ReadInside(nbyte: nat) returns (out: seq<Byte>)
      requires Valid() && generated && 0 <= vFilePtr < |image| && nbyte > 0
      modifies this`fd, this`lastPath, this`vFilePtr, host
      ensures Valid() && host.faults >= old(host.faults)
      ensures vFilePtr == old(vFilePtr) + |out| && |out| <= nbyte && Got(image, old(vFilePtr), out)
      ensures var n := Passable(g.fsBufSize, gap, old(vFilePtr), nbyte);
        |out| <= n && (host.faults == old(host.faults) ==> |out| == n || vFilePtr >= |image|)
      ensures Foreign() - {0} == old(Foreign()) - {0} && (old(ZeroTaken()) ==> Foreign() == old(Foreign()))
      ensures !cached ==> host.open == old(host.open)
    {
      hide Serves, Got, CacheOk, Foreign, Passable;
      ServesSizes(image, dirs, g, gap);
      PassableIs(g.fsBufSize, gap, vFilePtr, nbyte);
      out := ReadFront(nbyte);
      if |out| == nbyte || vFilePtr >= g.totalSize {
        return;
      }
      var rest := ReadBehind(nbyte - |out|);
      GotMore(image, old(vFilePtr), out, rest);
      out := out + rest;
    }

    /** The part of a read behind the metadata. */
    method ReadBehind(remaining: nat) returns (out: seq<Byte>)
      requires Valid() && generated && g.fsBufSize <= vFilePtr < |image| && remaining > 0
      modifies this`fd, this`lastPath, this`vFilePtr, host
      ensures Valid() && host.faults >= old(host.faults)
      ensures vFilePtr == old(vFilePtr) + |out| && |out| <= remaining && Got(image, old(vFilePtr), out)
      ensures old(vFilePtr) < g.fsBufSize + gap ==> out == []
      ensures old(vFilePtr) >= g.fsBufSize + gap && host.faults == old(host.faults) ==> |out| == remaining || vFilePtr >= |image|
      ensures Foreign() - {0} == old(Foreign()) - {0} && (old(ZeroTaken()) ==> Foreign() == old(Foreign()))
      ensures !cached ==> host.open == old(host.open)
    {
      hide Serves, Got, CacheOk, Foreign, Passable;
      ServesSizes(image, dirs, g, gap);
      GotNothing(image, vFilePtr);
      out := [];
      if vFilePtr < g.padAreaStart {
        var done;
        done, out := ReadFiles(remaining);
        if done {
          return;
        }
      }
      if vFilePtr >= g.padAreaStart && vFilePtr < g.totalSize {
        var piece := ReadPad(remaining - |out|);
        GotMore(image, old(vFilePtr), out, piece);
        out := out + piece;
      }
    }

    /**
     A read returns exactly the requested slice of the image, up to the gap if there is one, and
     moves the pointer by its length, unless the disk fails underneath; then it returns a prefix of
     that slice.
     */
    method Read(nbyte: nat) returns (ret: int, out: seq<Byte>)
      requires Valid()
      modifies this`fd, this`lastPath, this`vFilePtr, host
      ensures Valid() && host.faults >= old(host.faults)
      ensures ret == if !generated || (old(vFilePtr) < 0 && nbyte > 0) then -1 else |out|
      ensures vFilePtr == old(vFilePtr) + |out|
      ensures if generated then out <= Wanted(image, old(vFilePtr), nbyte) else out == []
      ensures generated && host.faults == old(host.faults) ==>
                out == Wanted(image, old(vFilePtr), Passable(g.fsBufSize, gap, old(vFilePtr), nbyte))
      ensures Foreign() - {0} == old(Foreign()) - {0} && (old(ZeroTaken()) ==> Foreign() == old(Foreign()))
      ensures !cached ==> host.open == old(host.open)
    {
      hide Serves, Got, Wanted, Foreign, ZeroTaken;
      if !generated {
        DropCached();
        return -1, [];
      }
      ServesSizes(image, dirs, g, gap);
      WantedNothing(image, vFilePtr, nbyte);
      WantedNothing(image, vFilePtr, Passable(g.fsBufSize, gap, vFilePtr, nbyte));
      if vFilePtr >= g.totalSize || nbyte == 0 {
        return 0, [];
      } else if vFilePtr < 0 {
        DropCached();
        return -1, [];
      }
      out := ReadInside(nbyte);
      GotWanted(image, old(vFilePtr), out, nbyte);
      GotWanted(image, old(vFilePtr), out, Passable(g.fsBufSize, gap, old(vFilePtr), nbyte));
      ret := |out|;
    }

    /** Any run of seeks and reads gives the bytes that the same run over the image gives, whichever class serves it. */
    method Session(ops: seq<Op>) returns (out: seq<Byte>)
      requires Valid() && generated && gap == 0
      modifies this`fd, this`lastPath, this`vFilePtr, host
      ensures Valid() && host.faults >= old(host.faults)
      ensures host.faults == old(host.faults) ==> out == RunOps(image, old(vFilePtr), ops)
      ensures Foreign() - {0} == old(Foreign()) - {0} && (old(ZeroTaken()) ==> Foreign() == old(Foreign()))
      ensures !cached ==> host.open == old(host.open)
    {
      hide Serves, Wanted, RunOps;
      out := [];
      ghost var all := RunOps(image, vFilePtr, ops);
      for i := 0 to |ops|
        invariant Valid() && host.faults >= old(host.faults)
        invariant host.faults == old(host.faults) ==> out + RunOps(image, vFilePtr, ops[i..]) == all
        invariant Foreign() - {0} == old(Foreign()) - {0} && (old(ZeroTaken()) ==> Foreign() == old(Foreign()))
        invariant !cached ==> host.open == old(host.open)
      {
        RunStep(image, vFilePtr, ops, i, out);
        if ops[i].ReadBytes? {
          var _, piece := Read(ops[i].n);
          out := out + piece;
        } else {
          var _ := Seek(ops[i]);
          assert out + [] == out;
        }
      }
      assert ops[|ops|..] == [];
      NothingLeft(image, vFilePtr, out);
    }

    /** The error paths of `VIsoFile2::read` drop the cached descriptor. */
    method DropCached()
      requires CacheOk()
      modifies this`fd, this`lastPath, host
      ensures CacheOk() && lastPath == None && host.faults == old(host.faults)
      ensures Foreign() - {0} == old(Foreign()) - {0} && (old(ZeroTaken()) ==> Foreign() == old(Foreign()))
      ensures !cached ==> host.open == old(host.open)
    {
      if cached {
        FdReset();
      }
    }
  }

  lemma FilesBehind(dirs: seq<seq<FileNode>>, start: nat, d: nat, f: nat)
    requires d < |dirs| && f <= |dirs[d]|
    ensures FileStart(dirs, start, d, f) >= start
  {
  }

  lemma AreaStart(dirs: seq<seq<FileNode>>)
    ensures AreaBytes(dirs, 0) == 0
  {
  }

  lemma DirStart(dirs: seq<seq<FileNode>>, fsBufSize: nat, d: nat)
    requires d < |dirs|
    ensures FileStart(dirs, fsBufSize, d, 0) == fsBufSize + AreaBytes(dirs, d)
    ensures FileStart(dirs, fsBufSize, d, |dirs[d]|) == fsBufSize + AreaBytes(dirs, d + 1)
  {
  }

  lemma WantedNothing(image: seq<Byte>, ptr: int, n: nat)
    ensures ptr < 0 || ptr >= |image| || n == 0 ==> Wanted(image, ptr, n) == []
  {
  }

  lemma PassableIs(front: nat, gap: nat, ptr: int, n: nat)
    ensures gap == 0 || ptr >= front + gap || ptr + n <= front ==> Passable(front, gap, ptr, n) == n
    ensures gap > 0 && ptr < front && ptr + n > front ==> Passable(front, gap, ptr, n) == front - ptr
    ensures gap > 0 && front <= ptr < front + gap && n > 0 ==> Passable(front, gap, ptr, n) == 0
  {
  }

  lemma ServesSizes(image: seq<Byte>, dirs: seq<seq<FileNode>>, g: Geometry, gap: nat)
    requires Serves(image, dirs, g, gap)
    ensures g.totalSize == |image| && g.padAreaStart + g.padAreaSize == g.totalSize && g.fsBufSize + gap <= g.padAreaStart
  {
    hide FileServed, AreaBytes;
  }

  lemma GotFront(image: seq<Byte>, front: seq<Byte>, ptr: nat, n: nat)
    requires ptr + n <= |front| <= |image| && front == image[..|front|]
    ensures Got(image, ptr, front[ptr..ptr + n])
  {
  }

  lemma GotPad(image: seq<Byte>, dirs: seq<seq<FileNode>>, g: Geometry, gap: nat, ptr: nat, n: nat)
    requires Serves(image, dirs, g, gap) && g.padAreaStart <= ptr && ptr + n <= |image|
    ensures Got(image, ptr, Zeros(n))
  {
    hide FileServed, AreaBytes;
    assert image[ptr..ptr + n] == Zeros(n);
  }

  /** Bytes of the image from `ptr` on, at most `n` of them, are a prefix of the wanted slice. */
  lemma GotWanted(image: seq<Byte>, ptr: int, out: seq<Byte>, n: nat)
    requires Got(image, ptr, out) && |out| <= n
    ensures out <= Wanted(image, ptr, n)
    ensures |out| == n || ptr + |out| >= |image| ==> out == Wanted(image, ptr, n)
  {
    if out != [] {
      var w := Wanted(image, ptr, n);
      assert w[..|out|] == image[ptr..ptr + |out|];
    }
  }

  lemma GotNothing(image: seq<Byte>, ptr: int)
    ensures Got(image, ptr, [])
  {
  }
}
