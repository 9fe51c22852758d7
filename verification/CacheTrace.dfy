/** The simulated window cache of tools/analyse-trace.py, and why a bigger budget never misses more. */
module CacheTrace {
  import opened Bytes

  /** Where `x` is first, or the length if it is not there. */
  function IndexOf(s: seq<int>, x: int): (i: nat)
    ensures i <= |s| && (i < |s| ==> s[i] == x) && (x in s <==> i < |s|)
    ensures forall j :: 0 <= j < i ==> s[j] != x
  {
    if s == [] || s[0] == x then 0 else IndexOf(s[1..], x) + 1
  }

  function Remove(s: seq<int>, x: int): seq<int> {
    var i := IndexOf(s, x);
    if i < |s| then s[..i] + s[i + 1..] else s
  }

  /** One block is touched: to the end if it is there, or in at the end and then the oldest out. */
  function Touch(cache: seq<int>, block: int, limit: nat): seq<int>
    requires limit > 0
  {
    if block in cache then Remove(cache, block) + [block]
    else if |cache| + 1 > limit then (cache + [block])[1..]
    else cache + [block]
  }

  function CacheAfter(blocks: seq<int>, limit: nat): seq<int>
    requires limit > 0
  {
    if blocks == [] then [] else Touch(CacheAfter(blocks[..|blocks| - 1], limit), blocks[|blocks| - 1], limit)
  }

  function Misses(blocks: seq<int>, limit: nat): nat
    requires limit > 0
  {
    if blocks == [] then 0
    else
      var before := blocks[..|blocks| - 1];
      Misses(before, limit) + if blocks[|blocks| - 1] in CacheAfter(before, limit) then 0 else 1
  }

  /** All blocks touched so far, each once, in the order of their last use. */
  function LastUses(blocks: seq<int>): seq<int> {
    if blocks == [] then []
    else Remove(LastUses(blocks[..|blocks| - 1]), blocks[|blocks| - 1]) + [blocks[|blocks| - 1]]
  }

  /** The `n` last elements, or all if there are fewer. */
  function Newest(s: seq<int>, n: nat): seq<int> {
    if |s| <= n then s else s[|s| - n..]
  }

  ghost predicate Distinct(s: seq<int>) {
    forall i, j :: 0 <= i < j < |s| ==> s[i] != s[j]
  }

  lemma RemoveOnce(s: seq<int>, x: int)
    requires Distinct(s)
    ensures Distinct(Remove(s, x) + [x])
  {
    hide IndexOf;
    var i, r := IndexOf(s, x), Remove(s, x);
    assert forall k :: 0 <= k < |r| ==> r[k] == s[if k < i then k else k + 1];
  }

  lemma IndexIs(s: seq<int>, x: int, i: nat)
    requires Distinct(s) && i < |s| && s[i] == x
    ensures IndexOf(s, x) == i
  {
    hide IndexOf;
    assert forall j :: 0 <= j < i ==> s[j] != s[i];
  }

  lemma NewestIs(s: seq<int>, n: nat)
    ensures var d := if |s| <= n then 0 else |s| - n; Newest(s, n) == s[d..]
  {
  }

  /** Taking the element `k` places into the last part of `s`. */
  lemma RemoveInTail(s: seq<int>, d: nat, k: nat)
    requires d + k < |s|
    ensures s[d..][..k] + s[d..][k + 1..] == (s[..d + k] + s[d + k + 1..])[d..]
  {
    assert s[d..][k + 1..] == s[d + k + 1..];
    assert (s[..d + k] + s[d + k + 1..])[d..] == s[..d + k][d..] + s[d + k + 1..];
  }

  /** Among the newest, or too old to be, or new: either way the newest are right again after the use. */
  lemma TouchNewest(s: seq<int>, x: int, n: nat)
    requires Distinct(s) && n > 0
    ensures Touch(Newest(s, n), x, n) == Newest(Remove(s, x) + [x], n)
  {
    hide IndexOf, Newest, Distinct, Remove;
    var d := if |s| <= n then 0 else |s| - n;
    NewestIs(s, n);
    NewestIs(Remove(s, x) + [x], n);
    RemoveLength(s, x);
    if x in s[d..] {
      Hit(s, x, d);
      assert (Remove(s, x) + [x])[d..] == Remove(s, x)[d..] + [x];
    } else if x in s {
      OldOut(s, x, d);
      assert (Remove(s, x) + [x])[d..] == Remove(s, x)[d..] + [x];
      assert (s[d..] + [x])[1..] == s[d + 1..] + [x];
    } else {
      assert Remove(s, x) == s by { RemoveNothing(s, x); }
      if |s| >= n { assert (s[d..] + [x])[1..] == s[d + 1..] + [x] == (s + [x])[d + 1..]; }
    }
  }

  lemma RemoveLength(s: seq<int>, x: int)
    ensures |Remove(s, x)| == if x in s then |s| - 1 else |s|
  {
    hide IndexOf;
  }

  lemma RemoveNothing(s: seq<int>, x: int)
    requires x !in s
    ensures Remove(s, x) == s
  {
    hide IndexOf;
  }

  /** A block that was used too long ago to be in the cache. */
  lemma OldOut(s: seq<int>, x: int, d: nat)
    requires d <= |s| && x in s && x !in s[d..]
    ensures 0 < d < |s| + 1 && |Remove(s, x)| == |s| - 1 && Remove(s, x)[d - 1..] == s[d..]
    ensures d < |s| ==> Remove(s, x)[d..] == s[d + 1..]
  {
    hide IndexOf;
    TooOld(s, x, d);
    var i := IndexOf(s, x);
    assert s[..i] + s[i + 1..] == s[..i] + s[i + 1..d] + s[d..];
  }

  lemma Hit(s: seq<int>, x: int, d: nat)
    requires Distinct(s) && d <= |s| && x in s[d..]
    ensures x in s && d < |s| && d <= |Remove(s, x)| && Remove(s[d..], x) == Remove(s, x)[d..]
  {
    hide IndexOf, Distinct, Remove;
    var k := IndexOf(s[d..], x);
    IndexIs(s, x, d + k);
    RemoveInTail(s, d, k);
    RemoveAt(s, x);
    RemoveAt(s[d..], x);
  }

  lemma RemoveAt(s: seq<int>, x: int)
    requires x in s
    ensures var i := IndexOf(s, x); i < |s| && Remove(s, x) == s[..i] + s[i + 1..]
  {
    hide IndexOf;
  }

  lemma TooOld(s: seq<int>, x: int, d: nat)
    requires d <= |s| && x in s && x !in s[d..]
    ensures IndexOf(s, x) < d
  {
    hide IndexOf;
    assert forall j :: d <= j < |s| ==> s[j] in s[d..];
  }

  /** The cache is exactly the most recently used blocks, as many as fit. */
  lemma {:induction false} CacheIsNewest(blocks: seq<int>, limit: nat)
    requires limit > 0
    ensures Distinct(LastUses(blocks)) && CacheAfter(blocks, limit) == Newest(LastUses(blocks), limit)
  {
    hide Touch, Remove, Newest, Distinct;
    if blocks != [] {
      var before, x := blocks[..|blocks| - 1], blocks[|blocks| - 1];
      CacheIsNewest(before, limit);
      RemoveOnce(LastUses(before), x);
      TouchNewest(LastUses(before), x, limit);
    } else {
      Nothing(limit);
    }
  }

  /** `y` was used after the last use of `x`. */
  ghost predicate UsedLater(blocks: seq<int>, x: int, y: int) {
    exists m :: 0 <= m < |blocks| && blocks[m] == y && x !in blocks[m..]
  }

  lemma OneMoreUse(blocks: seq<int>, x: int, y: int, z: int)
    requires z != x && (z == y || UsedLater(blocks, x, y))
    ensures UsedLater(blocks + [z], x, y)
  {
    var all := blocks + [z];
    if z == y {
      assert all[|blocks|] == y && all[|blocks|..] == [z];
    } else {
      var m :| 0 <= m < |blocks| && blocks[m] == y && x !in blocks[m..];
      assert all[m] == y && all[m..] == blocks[m..] + [z];
    }
  }

  /** Two elements of `s` after `z` has gone to the end: where they were before. */
  lemma WereAt(s: seq<int>, z: int, i: nat, j: nat) returns (p: nat, q: nat)
    requires Distinct(s) && i < j < |Remove(s, z) + [z]|
    ensures var u := Remove(s, z) + [z]; u[i] != z && (u[j] == z || (p < q < |s| && s[p] == u[i] && s[q] == u[j]))
  {
    hide IndexOf;
    var at := IndexOf(s, z);
    p, q := if i < at then i else i + 1, if j < at then j else j + 1;
  }

  lemma StillThere(s: seq<int>, z: int, x: int)
    ensures x in Remove(s, z) + [z] <==> x in s || x == z
  {
    hide IndexOf;
    var at := IndexOf(s, z);
    if at < |s| { assert s == s[..at] + [z] + s[at + 1..]; }
  }

  /** `LastUses` has every block that was used, each once, and an earlier one of them was last used earlier. */
  lemma {:induction false} LastUsesAre(blocks: seq<int>)
    ensures Distinct(LastUses(blocks))
    ensures forall x :: x in LastUses(blocks) <==> x in blocks
    ensures forall i, j :: 0 <= i < j < |LastUses(blocks)| ==> UsedLater(blocks, LastUses(blocks)[i], LastUses(blocks)[j])
  {
    hide IndexOf, UsedLater, Remove;
    if blocks != [] {
      var before, z := blocks[..|blocks| - 1], blocks[|blocks| - 1];
      LastUsesAre(before);
      var was, now := LastUses(before), LastUses(blocks);
      RemoveOnce(was, z);
      assert blocks == before + [z];
      forall x ensures x in now <==> x in blocks { StillThere(was, z, x); }
      forall i, j | 0 <= i < j < |now| ensures UsedLater(blocks, now[i], now[j]) {
        var p, q := WereAt(was, z, i, j);
        OneMoreUse(before, now[i], now[j], z);
      }
    }
  }

  lemma Nothing(limit: nat)
    ensures Distinct([]) && Newest([], limit) == []
  {
  }

  /** A smaller cache is always the most recent part of a larger one. */
  lemma Inclusion(blocks: seq<int>, small: nat, large: nat)
    requires 0 < small <= large
    ensures CacheAfter(blocks, small) == Newest(CacheAfter(blocks, large), small)
  {
    hide CacheAfter, LastUses, Newest;
    CacheIsNewest(blocks, small);
    CacheIsNewest(blocks, large);
    NewestOfNewest(LastUses(blocks), small, large);
  }

  lemma NewestOfNewest(s: seq<int>, m: nat, n: nat)
    requires m <= n
    ensures Newest(Newest(s, n), m) == Newest(s, m)
  {
  }

  /** So a larger limit never misses more, on any trace. */
  lemma {:induction false} MoreNeverMissesMore(blocks: seq<int>, small: nat, large: nat)
    requires 0 < small <= large
    ensures Misses(blocks, large) <= Misses(blocks, small)
  {
    if blocks != [] {
      var before := blocks[..|blocks| - 1];
      MoreNeverMissesMore(before, small, large);
      Inclusion(before, small, large);
    }
  }

  // ---------------------------------------------------------------- the simulation

  datatype Read = Read(offset: nat, length: nat)

  /** The windows that one request touches, in order. */
  function Windows(first: int, last: int): (r: seq<int>)
    decreases last - first
  {
    if last < first then [] else Windows(first, last - 1) + [last]
  }

  function Touched(r: Read, window: nat): seq<int>
    requires window > 0
  {
    Windows(r.offset / window, (r.offset + r.length - 1) / window)
  }

  lemma {:induction false} WindowsAre(first: int, last: int)
    ensures var r := Windows(first, last); |r| == (if last < first then 0 else last - first + 1) && forall i :: 0 <= i < |r| ==> r[i] == first + i
    decreases last - first
  {
    if first <= last { WindowsAre(first, last - 1); }
  }

  lemma InWindow(k: int, window: nat, b: int)
    requires window > 0
    ensures b * window <= k < (b + 1) * window <==> b == k / window
  {
    var q := k / window;
    assert q * window <= k < (q + 1) * window;
    if b < q {
      Times(b + 1, q, window);
    } else if b > q {
      Times(q + 1, b, window);
    }
  }

  lemma Times(a: int, b: int, c: nat)
    requires a <= b
    ensures a * c <= b * c
  {
  }

  lemma WindowOrder(a: int, b: int, window: nat)
    requires window > 0 && a <= b
    ensures a / window <= b / window
  {
    InWindow(a, window, a / window);
    InWindow(b, window, b / window);
    if b / window < a / window { Times(b / window + 1, a / window, window); }
  }

  /** Byte `k` is one that the request asks for, and lies in window `b`. */
  predicate Reads(r: Read, window: nat, b: int, k: int) {
    r.offset <= k < r.offset + r.length && b * window <= k < (b + 1) * window
  }

  /**
   A request touches exactly the windows that hold one of its bytes, each once and in ascending order. A
   request for no bytes touches the window it points into, unless it points at its first byte.
   */
  lemma TouchedAre(r: Read, window: nat)
    requires window > 0
    ensures var t := Touched(r, window); forall i, j :: 0 <= i < j < |t| ==> t[i] < t[j]
    ensures r.length > 0 ==> forall b :: b in Touched(r, window) <==> exists k :: Reads(r, window, b, k)
    ensures r.length == 0 ==> Touched(r, window) == if r.offset % window == 0 then [] else [r.offset / window]
  {
    hide Windows;
    var first, last := r.offset / window, (r.offset + r.length - 1) / window;
    WindowsAre(first, last);
    if r.length > 0 {
      forall b ensures b in Touched(r, window) <==> exists k :: Reads(r, window, b, k) { TouchedIff(r, window, b); }
    } else {
      InWindow(r.offset, window, first);
      assert first * window == r.offset - r.offset % window;
      if r.offset % window == 0 {
        LastByte(r.offset, window, first);
      } else {
        InWindow(r.offset - 1, window, first);
      }
    }
  }

  lemma LastByte(k: int, window: nat, q: int)
    requires window > 0 && q * window == k
    ensures (k - 1) / window == q - 1
  {
    assert (q - 1) * window == k - window;
    InWindow(k - 1, window, q - 1);
  }

  lemma TouchedIff(r: Read, window: nat, b: int)
    requires window > 0 && r.length > 0
    ensures b in Touched(r, window) <==> exists k :: Reads(r, window, b, k)
  {
    hide Windows;
    var lo, hi := r.offset as int, r.offset + r.length - 1;
    var first, last := lo / window, hi / window;
    WindowsAre(first, last);
    if first <= b <= last {
      assert Touched(r, window)[b - first] == b;
      InWindow(lo, window, first);
      InWindow(hi, window, last);
      var k := if b == first then lo else b * window;
      if b > first {
        Times(first + 1, b, window);
        Times(b, last, window);
        assert (b + 1) * window == b * window + window;
      }
      assert Reads(r, window, b, k);
    } else if k :| Reads(r, window, b, k) {
      InWindow(k, window, b);
      WindowOrder(lo, k, window);
      WindowOrder(k, hi, window);
    }
  }

  function Trace(requests: seq<Read>, window: nat): seq<int>
    requires window > 0
  {
    if requests == [] then [] else Trace(requests[..|requests| - 1], window) + Touched(requests[|requests| - 1], window)
  }

  function Limit(budget: nat, window: nat): (n: nat)
    requires window > 0
    ensures n > 0
  {
    if budget / window > 1 then budget / window else 1
  }

  /** The cache holds as many windows as the budget pays for, and one in any case. */
  lemma LimitIs(budget: nat, window: nat)
    requires window > 0
    ensures var n := Limit(budget, window); (n == 1 || n * window <= budget) && budget < (n + 1) * window
  {
    var q := budget / window;
    InWindow(budget, window, q);
    if q == 0 { Times(1, 2, window); }
  }

  /** The cache and the misses after a trace. */
  predicate Simulated(blocks: seq<int>, limit: nat, misses: nat, cache: seq<int>)
    requires limit > 0
  {
    misses == Misses(blocks, limit) && cache == CacheAfter(blocks, limit)
  }

  lemma SimulatedNext(blocks: seq<int>, block: int, limit: nat, misses: nat, cache: seq<int>)
    requires limit > 0 && Simulated(blocks, limit, misses, cache)
    ensures Simulated(blocks + [block], limit, misses + (if block in cache then 0 else 1), Touch(cache, block, limit))
  {
    hide Touch;
    assert (blocks + [block])[..|blocks + [block]| - 1] == blocks;
  }

  /** The loops that fill one cell of the table: the cache in order of last use, and the misses. */
  method Simulate(requests: seq<Read>, window: nat, budget: nat) returns (misses: nat, cache: seq<int>)
    requires window > 0
    ensures misses == Misses(Trace(requests, window), Limit(budget, window))
    ensures cache == CacheAfter(Trace(requests, window), Limit(budget, window))
  {
    hide Touch, Remove, Misses, CacheAfter;
    misses, cache := 0, [];
    var limit := if budget / window > 1 then budget / window else 1;
    assert Simulated([], limit, 0, []) by { NothingSimulated(limit); }
    for i := 0 to |requests|
      invariant Simulated(Trace(requests[..i], window), limit, misses, cache)
    {
      misses, cache := SimulateOne(requests[i], window, limit, misses, cache, Trace(requests[..i], window));
      assert requests[..i + 1][..i] == requests[..i];
    }
    assert requests[..|requests|] == requests;
  }

  lemma NothingSimulated(limit: nat)
    requires limit > 0
    ensures Simulated([], limit, 0, [])
  {
  }

  /** The inner loop: the windows of one request. */
  method SimulateOne(request: Read, window: nat, limit: nat, misses0: nat, cache0: seq<int>, ghost done: seq<int>)
      returns (misses: nat, cache: seq<int>)
    requires window > 0 && limit > 0 && Simulated(done, limit, misses0, cache0)
    ensures Simulated(done + Touched(request, window), limit, misses, cache)
  {
    hide Touch, Remove, Simulated;
    misses, cache := misses0, cache0;
    var block: int := request.offset / window;
    var end: int := (request.offset + request.length - 1) / window + 1;
    ghost var first := block;
    assert done + Windows(first, first - 1) == done;
    while block < end
      invariant first <= block && (block <= end || block == first)
      invariant Simulated(done + Windows(first, block - 1), limit, misses, cache)
    {
      SimulatedNext(done + Windows(first, block - 1), block, limit, misses, cache);
      assert done + Windows(first, block) == done + Windows(first, block - 1) + [block];
      if block in cache {
        cache := MoveToEnd(cache, block, limit);
      } else {
        misses := misses + 1;
        cache := Insert(cache, block, limit);
      }
      block := block + 1;
    }
    EndOfRead(first, end, block);
  }

  lemma EndOfRead(first: int, end: int, block: int)
    requires first <= block && (block <= end || block == first) && block >= end
    ensures Windows(first, block - 1) == Windows(first, end - 1)
  {
  }

  /** OrderedDict.move_to_end. */
  method MoveToEnd(cache: seq<int>, block: int, limit: nat) returns (r: seq<int>)
    requires block in cache && limit > 0
    ensures r == Touch(cache, block, limit)
  {
    r := Remove(cache, block) + [block];
  }

  /** A new key at the end, and popitem(last=False) when that is one too many. */
  method Insert(cache: seq<int>, block: int, limit: nat) returns (r: seq<int>)
    requires block !in cache && limit > 0
    ensures r == Touch(cache, block, limit)
  {
    r := cache + [block];
    if |r| > limit {
      r := r[1..];
    }
  }

  /** A bigger budget never needs more disk reads, for any trace and window size. */
  lemma BudgetsCompare(requests: seq<Read>, window: nat, small: nat, large: nat)
    requires window > 0 && small <= large
    ensures Misses(Trace(requests, window), Limit(large, window)) <= Misses(Trace(requests, window), Limit(small, window))
  {
    assert small / window <= large / window by { WindowOrder(small, large, window); }
    MoreNeverMissesMore(Trace(requests, window), Limit(small, window), Limit(large, window));
  }
}
