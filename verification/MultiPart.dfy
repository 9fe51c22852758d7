/** An image stored as parts of equal size, read as if it were one file. */
module MultiPart {
  import opened Bytes

  const MAX_PARTS: nat := 64

  function Join(parts: seq<seq<Byte>>): seq<Byte> {
    if parts == [] then [] else Join(parts[..|parts| - 1]) + parts[|parts| - 1]
  }

  /** All parts but the last have the size of the first, which is not empty; the last is not longer. */
  predicate Equal(parts: seq<seq<Byte>>, size: nat) {
    && 0 < |parts| && 0 < size && size == |parts[0]|
    && (forall i :: 0 <= i < |parts| - 1 ==> |parts[i]| == size)
    && |parts[|parts| - 1]| <= size
  }

  lemma {:induction false} JoinOfEqual(parts: seq<seq<Byte>>, size: nat, n: nat)
    requires n <= |parts| && forall i :: 0 <= i < n ==> |parts[i]| == size
    ensures |Join(parts[..n])| == n * size
  {
    if n > 0 {
      JoinOfEqual(parts, size, n - 1);
      assert parts[..n][..n - 1] == parts[..n - 1];
      assert n * size == (n - 1) * size + size;
    }
  }

  /** Where part `i` begins in the whole. */
  function Start(i: nat, size: nat): nat { i * size }

  lemma StartNext(i: nat, size: nat)
    ensures Start(0, size) == 0 && Start(i + 1, size) == Start(i, size) + size
  {
  }

  lemma {:induction false} PartInWhole(parts: seq<seq<Byte>>, size: nat, i: nat)
    requires Equal(parts, size) && i < |parts|
    ensures i * size + |parts[i]| <= |Join(parts)|
    ensures Join(parts)[i * size..i * size + |parts[i]|] == parts[i]
    ensures i == |parts| - 1 ==> i * size + |parts[i]| == |Join(parts)|
    decreases |parts|
  {
    var last := |parts| - 1;
    JoinOfEqual(parts, size, last);
    if i < last {
      var front := parts[..last];
      assert front[last - 1] == parts[last - 1];
      PartInWhole(front, size, i);
      assert Join(parts)[i * size..i * size + |parts[i]|] == Join(front)[i * size..i * size + |parts[i]|];
    }
  }

  /** The parts that open: the first file and those after it up to the first that is missing. */
  function Found(first: seq<Byte>, more: seq<Option<seq<Byte>>>): (parts: seq<seq<Byte>>)
    ensures 1 <= |parts| <= 1 + |more| && parts[0] == first
    decreases |more|
  {
    if more == [] || more[0].None? then [first]
    else [first] + Found(more[0].value, more[1..])
  }

  lemma {:induction false} FoundIs(first: seq<Byte>, more: seq<Option<seq<Byte>>>)
    ensures var parts := Found(first, more);
      && (forall i :: 1 <= i < |parts| ==> more[i - 1] == Some(parts[i]))
      && (|parts| <= |more| ==> more[|parts| - 1] == None)
    decreases |more|
  {
    if more != [] && more[0].Some? {
      var rest := Found(more[0].value, more[1..]);
      FoundIs(more[0].value, more[1..]);
      var parts := Found(first, more);
      assert parts == [first] + rest;
      forall i | 1 <= i < |parts| ensures more[i - 1] == Some(parts[i]) {
        if i > 1 { assert more[1..][i - 2] == Some(rest[i - 1]); }
      }
    }
  }

  /** Opening one more part. */
  lemma {:induction false} FoundStep(open: seq<seq<Byte>>, more: seq<Option<seq<Byte>>>, first: seq<Byte>, i: nat)
    requires 1 <= i <= |more| && |open| == i && more[i - 1].Some?
    requires Found(first, more) == open[..i - 1] + Found(open[i - 1], more[i - 1..])
    ensures Found(first, more) == open + Found(more[i - 1].value, more[i..])
  {
    assert more[i - 1..][1..] == more[i..];
    assert open == open[..i - 1] + [open[i - 1]];
  }

  /** The fields of `File` that serve a multi-part image. `parts` is what the descriptors in `fp` stand for. */
  class PartFile {
    const parts: seq<seq<Byte>>
    const partSize: nat
    var fp: seq<nat> // the position of each descriptor
    var index: nat

    ghost predicate Valid()
      reads this
    {
      Equal(parts, partSize) && |parts| <= MAX_PARTS && |fp| == |parts| && index < |parts| && fp[index] <= partSize
    }

    /** The offset in the whole image that the current part and its position stand for. */
    ghost function Offset(): nat
      requires Valid()
      reads this
    {
      Start(index, partSize) + fp[index]
    }

    ghost function Whole(): seq<Byte>
      reads this
    {
      Join(parts)
    }

    /** open: parts are opened in order until one is missing; the first gives the part size. */
    constructor (first: seq<Byte>, more: seq<Option<seq<Byte>>>)
      requires |more| == MAX_PARTS - 1
      ensures parts == Found(first, more) && partSize == |first| && fp == seq(|parts|, _ => 0) && index == 0
      ensures Equal(Found(first, more), |first|) ==> Valid() && Offset() == 0
    {
      var open := [first];
      var i := 1;
      while i < MAX_PARTS && more[i - 1].Some?
        invariant 1 <= i <= MAX_PARTS && |open| == i && open[0] == first
        invariant Found(first, more) == open[..i - 1] + Found(open[i - 1], more[i - 1..])
      {
        FoundStep(open, more, first, i);
        open := open + [more[i - 1].value];
        i := i + 1;
      }
      assert Found(open[i - 1], more[i - 1..]) == [open[i - 1]];
      assert open == open[..i - 1] + [open[i - 1]];
      parts, partSize := open, |first|;
      fp, index := seq(i, _ => 0), 0;
    }

    /** read_file on one part, from a host that returns less than asked only at the end of a file. */
    method ReadPart(i: nat, n: nat) returns (data: seq<Byte>)
      requires |fp| == |parts| && i < |parts|
      modifies this`fp
      ensures data == PartRead(parts[i], old(fp)[i], n) && fp == old(fp)[i := old(fp)[i] + |data|]
    {
      data := PartRead(parts[i], fp[i], n);
      fp := fp[i := fp[i] + |data|];
    }

    /**
     read: the bytes of the whole image from the current offset on, which moves by what is returned. A read of
     at most one part size, or in the last part, stops short only at the end of the image; a longer one in another
     part stops after one boundary at the latest.
     */
    method Read(n: nat) returns (data: seq<Byte>)
      requires Valid()
      modifies this
      ensures Valid() && Offset() == old(Offset()) + |data| && |data| <= n
      ensures Slice(data, Whole(), old(Offset()), |data|)
      ensures n <= partSize || old(index) + 1 == |parts| ==> Slice(data, Whole(), old(Offset()), n)
      ensures old(index) + 1 < |parts| ==> |data| == Min(n, partSize - old(fp[index]) + |parts[old(index) + 1]|)
      ensures n > 0 && old(Offset()) < |Whole()| ==> |data| > 0
    {
      hide Start, Join, PartRead, Slice, Holds;
      ghost var i, a := index, fp[index];
      PartAt(parts, partSize, index);
      data := ReadPart(index, n);
      if |data| < n && index + 1 < |parts| {
        PartAt(parts, partSize, index + 1);
        StartNext(index, partSize);
        AcrossBoundary(parts[i], parts[i + 1], Whole(), Start(i, partSize), a, n);
        index := index + 1;
        fp := fp[index := 0];
        var rest := ReadPart(index, n - |data|);
        data := data + rest;
      } else {
        WithinPart(parts[i], Whole(), Start(i, partSize), a, n);
      }
    }

    /** seek: an offset inside one of the parts' ranges; any other is refused and changes nothing. */
    method Seek(offset: nat) returns (ret: int)
      requires Valid()
      modifies this
      ensures Valid()
      ensures if offset < |parts| * partSize then ret == offset % partSize && Offset() == offset
              else ret == FAILED && index == old(index) && fp == old(fp)
    {
      hide Join;
      Division(offset, partSize, |parts|);
      var partIndex := offset / partSize;
      if partIndex >= |parts| { return FAILED; }
      index := partIndex;
      fp := fp[index := offset % partSize];
      ret := offset % partSize;
    }

    /** fstat: the sum of the parts' sizes. */
    method Size() returns (size: nat)
      requires Valid()
      ensures size == |Whole()|
    {
      size := 0;
      var i := 0;
      assert parts[..0] == [];
      while i < |parts|
        invariant i <= |parts| && size == |Join(parts[..i])|
      {
        assert parts[..i + 1][..i] == parts[..i];
        size := size + |parts[i]|;
        i := i + 1;
      }
      assert parts[..i] == parts;
    }
  }

  function PartRead(part: seq<Byte>, at: nat, n: nat): (data: seq<Byte>)
    ensures |data| <= n
  {
    if at >= |part| then [] else part[at..at + Min(n, |part| - at)]
  }

  lemma Division(offset: nat, size: nat, count: nat)
    requires size > 0
    ensures offset / size < count <==> offset < count * size
    ensures (offset / size) * size + offset % size == offset && offset % size < size
  {
    var q := offset / size;
    if q < count {
      ProductUp(q + 1, count, size);
      assert (q + 1) * size == q * size + size;
    } else {
      ProductUp(count, q, size);
    }
  }

  /** `part` is what the whole image holds at `base`; it ends the image unless it has the full size. */
  predicate Holds(whole: seq<Byte>, base: nat, part: seq<Byte>) {
    base + |part| <= |whole| && whole[base..base + |part|] == part
  }

  lemma PartAt(parts: seq<seq<Byte>>, size: nat, i: nat)
    requires Equal(parts, size) && i < |parts|
    ensures Holds(Join(parts), Start(i, size), parts[i])
    ensures i == |parts| - 1 ==> Start(i, size) + |parts[i]| == |Join(parts)|
    ensures if i < |parts| - 1 then |parts[i]| == size else |parts[i]| <= size
  {
    PartInWhole(parts, size, i);
  }

  /** The bytes from `off` on, as many as asked for or as there are. */
  predicate Slice(data: seq<Byte>, whole: seq<Byte>, off: nat, n: nat) {
    && |data| == (if off >= |whole| then 0 else Min(n, |whole| - off))
    && (|data| > 0 ==> data == whole[off..off + |data|])
  }

  /** A read that stays in its part. */
  lemma WithinPart(part: seq<Byte>, whole: seq<Byte>, base: nat, a: nat, n: nat)
    requires Holds(whole, base, part)
    requires |PartRead(part, a, n)| == n || base + |part| == |whole|
    ensures var data := PartRead(part, a, n);
      && Slice(data, whole, base + a, n) && Slice(data, whole, base + a, |data|)
      && (|data| > 0 ==> a + |data| <= |part|)
      && (n > 0 && base + a < |whole| ==> |data| > 0)
      && (|data| == n && a <= |part| ==> n <= |part| - a)
  {
    var data := PartRead(part, a, n);
    if |data| > 0 {
      SliceOfSlice(whole, base, base + |part|, a, a + |data|);
    }
  }

  /** A read that goes on in the next part, which ends the image unless it is as long as this one. */
  lemma AcrossBoundary(part: seq<Byte>, next: seq<Byte>, whole: seq<Byte>, base: nat, a: nat, n: nat)
    requires Holds(whole, base, part) && Holds(whole, base + |part|, next) && a <= |part| && 0 < |part|
    requires |next| == |part| || base + |part| + |next| == |whole|
    requires |PartRead(part, a, n)| < n
    ensures var data := PartRead(part, a, n);
      var rest := PartRead(next, 0, n - |data|);
      && |data + rest| == Min(n, |part| - a + |next|)
      && |rest| <= |next| && |part| + |rest| == a + |data| + |rest|
      && Slice(data + rest, whole, base + a, |data + rest|)
      && (n <= |part| ==> Slice(data + rest, whole, base + a, n))
      && (base + a < |whole| ==> |data + rest| > 0)
  {
    var data := PartRead(part, a, n);
    var rest := PartRead(next, 0, n - |data|);
    TwoParts(part, next, whole, base, a, n);
    assert data + rest == whole[base + a..base + |part| + |rest|];
    hide PartRead;
    assert |rest| == 0 ==> |next| == 0;
  }

  lemma TwoParts(part: seq<Byte>, next: seq<Byte>, whole: seq<Byte>, base: nat, a: nat, n: nat)
    requires Holds(whole, base, part) && Holds(whole, base + |part|, next) && a <= |part| && 0 < |part|
    requires |PartRead(part, a, n)| < n
    ensures var data := PartRead(part, a, n);
      var rest := PartRead(next, 0, n - |data|);
      && |data| == |part| - a && |rest| == Min(n - |data|, |next|) && base + |part| + |rest| <= |whole|
      && data + rest == whole[base + a..base + |part| + |rest|]
  {
    var data := PartRead(part, a, n);
    var rest := PartRead(next, 0, n - |data|);
    SliceOfSlice(whole, base, base + |part|, a, |part|);
    SliceOfSlice(whole, base + |part|, base + |part| + |next|, 0, |rest|);
    assert data == whole[base + a..base + |part|] && rest == whole[base + |part|..base + |part| + |rest|];
  }
}
