/** Byte strings laid out in a zero-filled buffer, in order and without overlap. */
module Chunks {
  import opened Bytes

  ghost predicate ZeroRange(buf: seq<Byte>, lo: nat, hi: nat) {
    forall k :: lo <= k < hi && k < |buf| ==> buf[k] == 0
  }

  ghost predicate ChunkAt(buf: seq<Byte>, p: nat, s: seq<Byte>) {
    p + |s| <= |buf| && buf[p..p + |s|] == s
  }

  /** Where the gap behind chunk `i` ends in a buffer of `size` bytes. */
  function GapEnd(ps: seq<nat>, i: nat, size: nat): nat
    requires i < |ps|
  {
    if i + 1 < |ps| then ps[i + 1] else size
  }

  ghost predicate Ordered(ps: seq<nat>, ss: seq<seq<Byte>>, size: nat) {
    && |ps| == |ss|
    && forall i :: 0 <= i < |ps| ==> ps[i] + |ss[i]| <= GapEnd(ps, i, size)
  }

  /** `buf` holds chunk `ss[i]` at `ps[i]`, and zeros everywhere else behind the first chunk. */
  ghost predicate LaidOut(buf: seq<Byte>, ps: seq<nat>, ss: seq<seq<Byte>>) {
    && Ordered(ps, ss, |buf|)
    && (forall i :: 0 <= i < |ps| ==> ChunkAt(buf, ps[i], ss[i]))
    && (forall i :: 0 <= i < |ps| ==> ZeroRange(buf, ps[i] + |ss[i]|, GapEnd(ps, i, |buf|)))
  }

  lemma GapBehind(buf: seq<Byte>, ps: seq<nat>, ss: seq<seq<Byte>>, i: nat)
    requires LaidOut(buf, ps, ss) && i < |ps|
    ensures |ps| == |ss| && ZeroRange(buf, ps[i] + |ss[i]|, GapEnd(ps, i, |buf|))
  {
    hide ZeroRange, ChunkAt, GapEnd;
  }

  lemma {:induction false} Disjoint(ps: seq<nat>, ss: seq<seq<Byte>>, size: nat, i: nat, j: nat)
    requires Ordered(ps, ss, size) && i < j < |ps|
    ensures ps[i] + |ss[i]| <= GapEnd(ps, i, size) <= ps[j]
    decreases j
  {
    if i + 1 < j {
      Disjoint(ps, ss, size, i, j - 1);
      assert ps[j - 1] + |ss[j - 1]| <= GapEnd(ps, j - 1, size);
    }
    assert ps[i] + |ss[i]| <= GapEnd(ps, i, size);
  }

  lemma {:induction false} WithinBuffer(ps: seq<nat>, ss: seq<seq<Byte>>, size: nat, i: nat)
    requires Ordered(ps, ss, size) && i < |ps|
    ensures ps[i] + |ss[i]| <= GapEnd(ps, i, size) <= size
  {
    if i + 1 < |ps| {
      Disjoint(ps, ss, size, i, |ps| - 1);
      assert ps[|ps| - 1] + |ss[|ps| - 1]| <= GapEnd(ps, |ps| - 1, size);
    }
    assert ps[i] + |ss[i]| <= GapEnd(ps, i, size);
  }

  lemma SliceUntouched(s: seq<Byte>, off: nat, t: seq<Byte>, lo: nat, hi: nat)
    requires off + |t| <= |s| && lo <= hi <= |s|
    requires hi <= off || off + |t| <= lo
    ensures Splice(s, off, t)[lo..hi] == s[lo..hi]
  {
  }

  lemma OnePatched(buf: seq<Byte>, ps: seq<nat>, ss: seq<seq<Byte>>, i: nat, s: seq<Byte>, j: nat)
    requires LaidOut(buf, ps, ss) && i < |ps| && j < |ps| && |s| == |ss[i]|
    requires ps[i] + |s| <= |buf|
    ensures ChunkAt(Splice(buf, ps[i], s), ps[j], ss[i := s][j])
    ensures ZeroRange(Splice(buf, ps[i], s), ps[j] + |ss[j]|, GapEnd(ps, j, |buf|))
  {
    assert ChunkAt(buf, ps[j], ss[j]);
    assert ZeroRange(buf, ps[j] + |ss[j]|, GapEnd(ps, j, |buf|));
    if j < i {
      Disjoint(ps, ss, |buf|, j, i);
      SliceUntouched(buf, ps[i], s, ps[j], ps[j] + |ss[j]|);
    } else if i < j {
      Disjoint(ps, ss, |buf|, i, j);
      SliceUntouched(buf, ps[i], s, ps[j], ps[j] + |ss[j]|);
    }
  }

  /** Overwriting one chunk with another of the same length changes that chunk alone. */
  lemma Patched(buf: seq<Byte>, ps: seq<nat>, ss: seq<seq<Byte>>, i: nat, s: seq<Byte>)
    requires LaidOut(buf, ps, ss) && i < |ps| && |s| == |ss[i]|
    ensures ps[i] + |s| <= |buf|
    ensures LaidOut(Splice(buf, ps[i], s), ps, ss[i := s])
  {
    assert ChunkAt(buf, ps[i], ss[i]);
    forall j | 0 <= j < |ps|
      ensures ChunkAt(Splice(buf, ps[i], s), ps[j], ss[i := s][j])
      ensures ZeroRange(Splice(buf, ps[i], s), ps[j] + |ss[j]|, GapEnd(ps, j, |buf|))
      ensures ps[j] + |ss[j]| <= GapEnd(ps, j, |buf|)
    {
      OnePatched(buf, ps, ss, i, s, j);
    }
  }

  lemma OneBounded(ps: seq<nat>, ss: seq<seq<Byte>>, size: nat, p: nat, j: nat)
    requires Ordered(ps, ss, size) && j < |ps| && ps[|ps| - 1] + |ss[|ps| - 1]| <= p
    ensures ps[j] + |ss[j]| <= (if j + 1 < |ps| then ps[j + 1] else p) <= p
  {
    assert ps[j] + |ss[j]| <= GapEnd(ps, j, size);
    if j + 1 < |ps| {
      Disjoint(ps, ss, size, j, |ps| - 1);
    }
  }

  lemma OneKept(buf: seq<Byte>, ps: seq<nat>, ss: seq<seq<Byte>>, p: nat, s: seq<Byte>, j: nat)
    requires LaidOut(buf, ps, ss) && j < |ps|
    requires ps[|ps| - 1] + |ss[|ps| - 1]| <= p && p + |s| <= |buf|
    ensures ps[j] + |ss[j]| <= (if j + 1 < |ps| then ps[j + 1] else p)
    ensures ChunkAt(Splice(buf, p, s), ps[j], ss[j])
    ensures ZeroRange(Splice(buf, p, s), ps[j] + |ss[j]|, if j + 1 < |ps| then ps[j + 1] else p)
  {
    OneBounded(ps, ss, |buf|, p, j);
    assert ChunkAt(buf, ps[j], ss[j]);
    assert ZeroRange(buf, ps[j] + |ss[j]|, GapEnd(ps, j, |buf|));
    SliceUntouched(buf, p, s, ps[j], ps[j] + |ss[j]|);
  }

  lemma NewLast(buf: seq<Byte>, ps: seq<nat>, ss: seq<seq<Byte>>, p: nat, s: seq<Byte>)
    requires LaidOut(buf, ps, ss) && |ps| > 0
    requires ps[|ps| - 1] + |ss[|ps| - 1]| <= p && p + |s| <= |buf|
    ensures ChunkAt(Splice(buf, p, s), p, s) && ZeroRange(Splice(buf, p, s), p + |s|, |buf|)
  {
    assert ZeroRange(buf, ps[|ps| - 1] + |ss[|ps| - 1]|, GapEnd(ps, |ps| - 1, |buf|));
  }

  /** Writing one more chunk into the zeros behind the last one. */
  lemma Appended(buf: seq<Byte>, ps: seq<nat>, ss: seq<seq<Byte>>, p: nat, s: seq<Byte>)
    requires LaidOut(buf, ps, ss) && |ps| > 0
    requires ps[|ps| - 1] + |ss[|ps| - 1]| <= p && p + |s| <= |buf|
    ensures LaidOut(Splice(buf, p, s), ps + [p], ss + [s])
  {
    hide ChunkAt, ZeroRange, Splice;
    var ps', ss' := ps + [p], ss + [s];
    NewLast(buf, ps, ss, p, s);
    forall j | 0 <= j < |ps'|
      ensures ps'[j] + |ss'[j]| <= GapEnd(ps', j, |buf|)
      ensures ChunkAt(Splice(buf, p, s), ps'[j], ss'[j])
      ensures ZeroRange(Splice(buf, p, s), ps'[j] + |ss'[j]|, GapEnd(ps', j, |buf|))
    {
      if j < |ps| {
        OneKept(buf, ps, ss, p, s, j);
      }
    }
  }

  lemma Truncated(buf: seq<Byte>, ps: seq<nat>, ss: seq<seq<Byte>>, n: nat)
    requires LaidOut(buf, ps, ss) && |ps| > 0
    requires ps[|ps| - 1] + |ss[|ps| - 1]| <= n <= |buf|
    ensures LaidOut(buf[..n], ps, ss)
  {
    forall j | 0 <= j < |ps|
      ensures ps[j] + |ss[j]| <= GapEnd(ps, j, n)
      ensures ChunkAt(buf[..n], ps[j], ss[j])
      ensures ZeroRange(buf[..n], ps[j] + |ss[j]|, GapEnd(ps, j, n))
    {
      TruncatedAt(buf, ps, ss, n, j);
    }
  }

  lemma TruncatedAt(buf: seq<Byte>, ps: seq<nat>, ss: seq<seq<Byte>>, n: nat, j: nat)
    requires LaidOut(buf, ps, ss) && j < |ps|
    requires ps[|ps| - 1] + |ss[|ps| - 1]| <= n <= |buf|
    ensures ps[j] + |ss[j]| <= GapEnd(ps, j, n) && ChunkAt(buf[..n], ps[j], ss[j])
    ensures ZeroRange(buf[..n], ps[j] + |ss[j]|, GapEnd(ps, j, n))
  {
    assert ps[j] + |ss[j]| <= GapEnd(ps, j, |buf|) && ChunkAt(buf, ps[j], ss[j]);
    assert ZeroRange(buf, ps[j] + |ss[j]|, GapEnd(ps, j, |buf|));
    hide LaidOut, Ordered, ChunkAt, ZeroRange;
    InOrder(buf, ps, ss, n, j);
    KeptChunk(buf, n, ps[j], ss[j]);
    KeptZeros(buf, n, ps[j] + |ss[j]|, GapEnd(ps, j, |buf|), GapEnd(ps, j, n));
  }

  lemma InOrder(buf: seq<Byte>, ps: seq<nat>, ss: seq<seq<Byte>>, n: nat, j: nat)
    requires LaidOut(buf, ps, ss) && j < |ps|
    requires ps[|ps| - 1] + |ss[|ps| - 1]| <= n <= |buf|
    ensures ps[j] + |ss[j]| <= GapEnd(ps, j, n) <= n && GapEnd(ps, j, n) <= GapEnd(ps, j, |buf|)
  {
    hide ChunkAt, ZeroRange;
    if j + 1 < |ps| {
      Disjoint(ps, ss, |buf|, j, |ps| - 1);
    }
  }

  lemma KeptZeros(buf: seq<Byte>, n: nat, lo: nat, hi: nat, end: nat)
    requires ZeroRange(buf, lo, hi) && end <= hi && end <= n <= |buf|
    ensures ZeroRange(buf[..n], lo, end)
  {
  }

  lemma KeptChunk(buf: seq<Byte>, n: nat, p: nat, s: seq<Byte>)
    requires ChunkAt(buf, p, s) && p + |s| <= n <= |buf|
    ensures ChunkAt(buf[..n], p, s)
  {
    assert buf[..n][p..p + |s|] == buf[p..p + |s|];
  }

  /** The layout pins the buffer down completely when its first chunk starts it. */
  lemma {:induction false} Unique(a: seq<Byte>, b: seq<Byte>, ps: seq<nat>, ss: seq<seq<Byte>>)
    requires LaidOut(a, ps, ss) && LaidOut(b, ps, ss) && |a| == |b|
    requires |ps| > 0 && ps[0] == 0
    ensures a == b
  {
    forall k | 0 <= k < |a| ensures a[k] == b[k] {
      var i := Owner(ps, k);
      WithinBuffer(ps, ss, |a|, i);
      assert ChunkAt(a, ps[i], ss[i]) && ChunkAt(b, ps[i], ss[i]);
      assert ZeroRange(a, ps[i] + |ss[i]|, GapEnd(ps, i, |a|)) && ZeroRange(b, ps[i] + |ss[i]|, GapEnd(ps, i, |a|));
      if k < ps[i] + |ss[i]| {
        assert a[k] == a[ps[i]..ps[i] + |ss[i]|][k - ps[i]];
        assert b[k] == b[ps[i]..ps[i] + |ss[i]|][k - ps[i]];
      }
    }
  }

  lemma {:induction false} Owner(ps: seq<nat>, k: nat) returns (i: nat)
    requires |ps| > 0 && ps[0] <= k
    ensures i < |ps| && ps[i] <= k && (i + 1 < |ps| ==> k < ps[i + 1])
  {
    i := 0;
    while i + 1 < |ps| && ps[i + 1] <= k
      invariant i < |ps| && ps[i] <= k
    {
      i := i + 1;
    }
  }
}
