/**
 Whole runs of the client-slot protocol: what becomes of every accepted connection, and why the
 join of an old client thread always returns.
 */
module ClientRuns {
  import opened Bytes
  import opened ClientSlots

  /** The state after a sequence of actions from `s`, if each of them is possible where it comes. */
  function After(s: ServerState, acts: seq<Action>): (n: Option<ServerState>)
    requires |s.slots| == MAX_CLIENTS
    ensures n.Some? ==> |n.value.slots| == MAX_CLIENTS
  {
    if acts == [] then Some(s)
    else
      var before := After(s, acts[..|acts| - 1]);
      if before.None? then None else Step(before.value, acts[|acts| - 1])
  }

  function Run(files: set<nat>, acts: seq<Action>): (s: Option<ServerState>)
    ensures s.Some? ==> |s.value.slots| == MAX_CLIENTS
  {
    After(Init(files), acts)
  }

  function Step(s: ServerState, a: Action): (n: Option<ServerState>)
    requires |s.slots| == MAX_CLIENTS
    ensures n.Some? ==> |n.value.slots| == MAX_CLIENTS
  {
    Next(s, a)
  }

  lemma {:induction false} RunIsSafe(files: set<nat>, acts: seq<Action>)
    requires Run(files, acts).Some?
    ensures Safe(Run(files, acts).value)
  {
    hide Safe, Next, Init;
    if acts == [] {
      SafeAtStart(files);
    } else {
      RunIsSafe(files, acts[..|acts| - 1]);
      SafeKept(Run(files, acts[..|acts| - 1]).value, acts[|acts| - 1]);
    }
  }

  /** The connections whose sockets were closed during a run, in that order. */
  ghost function Closed(files: set<nat>, acts: seq<Action>): seq<nat>
    requires Run(files, acts).Some?
  {
    if acts == [] then []
    else
      var h := ClosedBy(Run(files, acts[..|acts| - 1]).value, acts[|acts| - 1]);
      Closed(files, acts[..|acts| - 1]) + if h.Socket? then [h.conn] else []
  }

  ghost predicate StillOpen(s: ServerState, c: nat) {
    exists fd :: fd in s.fds && s.fds[fd] == Conn(c)
  }

  lemma NothingClosed(s: ServerState, a: Action)
    requires |s.slots| == MAX_CLIENTS && Next(s, a).Some? && ClosedBy(s, a) == NoSocket && !a.Accept?
    ensures var n := Next(s, a).value; n.nextConn == s.nextConn
    ensures var n := Next(s, a).value; forall fd, c :: (fd in n.fds && n.fds[fd] == Conn(c)) <==> (fd in s.fds && s.fds[fd] == Conn(c))
  {
    hide PickSlot, IoCanSucceed;
    if a.LoopStep? && s.loop.Picking? {
      hide LoopNext;
      PickKeepsNumbers(s, s.loop.cs, s.loop.ip, a.choice);
    }
  }

  lemma NextConnAfter(s: ServerState, a: Action)
    requires |s.slots| == MAX_CLIENTS && Next(s, a).Some?
    ensures Next(s, a).value.nextConn == s.nextConn + (if a.Accept? then 1 else 0)
    ensures a.Accept? ==> a.fd !in s.fds && Next(s, a).value.fds == s.fds[a.fd := Conn(s.nextConn)]
  {
    hide Reserve, Close, IoCanSucceed, FirstSame, FirstFree;
    if a.LoopStep? && s.loop.Picking? {
      hide LoopNext;
      PickKeepsNumbers(s, s.loop.cs, s.loop.ip, a.choice);
    }
  }

  lemma Basics(s: ServerState)
    requires Safe(s)
    ensures Numbered(s) && |s.slots| == MAX_CLIENTS
  {
  }

  /** A step opens what it accepts and closes what it passes to `closesocket`, nothing else. */
  lemma OpenAfter(s: ServerState, a: Action, c: nat)
    requires Safe(s) && Next(s, a).Some?
    ensures var n, h := Next(s, a).value, ClosedBy(s, a);
      && n.nextConn == s.nextConn + (if a.Accept? then 1 else 0)
      && (StillOpen(s, c) ==> c < s.nextConn)
      && (h.Socket? ==> StillOpen(s, h.conn))
      && (StillOpen(n, c) <==> (StillOpen(s, c) && !(h.Socket? && h.conn == c)) || (a.Accept? && c == s.nextConn))
  {
    hide Safe, LoopNext, ThreadNext, Next;
    Basics(s);
    NextConnAfter(s, a);
    var n, h := Next(s, a).value, ClosedBy(s, a);
    if a.Accept? {
      assert n.fds[a.fd] == Conn(s.nextConn);
      assert forall fd :: fd in s.fds ==> fd in n.fds && n.fds[fd] == s.fds[fd];
    } else if h == NoSocket {
      NothingClosed(s, a);
    } else {
      ClosesItsOwn(s, a);
      OneFewer(s, n, h, c);
    }
  }

  lemma OneFewer(s: ServerState, n: ServerState, h: Handle, c: nat)
    requires Numbered(s) && h.Socket? && h.fd in s.fds && s.fds[h.fd] == Conn(h.conn) && n.fds == s.fds - {h.fd}
    ensures StillOpen(s, h.conn) && (StillOpen(n, c) <==> StillOpen(s, c) && h.conn != c)
  {
    if fd :| fd in s.fds && s.fds[fd] == Conn(c) && h.conn != c {
      assert fd in n.fds && n.fds[fd] == Conn(c);
    }
  }

  /**
   Every accepted connection is, at any point of any run, closed exactly once or still open, and
   never both; what was not accepted is neither.
   */
  lemma {:induction false} ClosedOnceOrOpen(files: set<nat>, acts: seq<Action>, c: nat)
    requires Run(files, acts).Some?
    ensures var s := Run(files, acts).value;
      multiset(Closed(files, acts))[c] + (if StillOpen(s, c) then 1 else 0) == if c < s.nextConn then 1 else 0
  {
    hide StillOpen, Safe, Next, ClosedBy;
    if acts == [] {
      assert !StillOpen(Run(files, acts).value, c) by { NoneOpen(files, c); }
    } else {
      var before, a := acts[..|acts| - 1], acts[|acts| - 1];
      var s := Run(files, before).value;
      ClosedOnceOrOpen(files, before, c);
      RunIsSafe(files, before);
      assert Next(s, a) == Run(files, acts);
      OpenAfter(s, a, c);
    }
  }

  lemma NoneOpen(files: set<nat>, c: nat)
    ensures !StillOpen(Init(files), c)
  {
  }

  /** An open connection is in one place only: a slot, the accept loop, or a finalizing thread. */
  lemma OpenMeansHeldOnce(files: set<nat>, acts: seq<Action>, fd: nat) returns (p: SocketPlace)
    requires Run(files, acts).Some?
    requires var s := Run(files, acts).value; fd in s.fds && s.fds[fd].Conn?
    ensures var s := Run(files, acts).value;
      Held(s, p) == Socket(fd, s.fds[fd].conn) && forall q :: Held(s, q).Socket? && Held(s, q).fd == fd ==> q == p
  {
    hide Run, Placed, MutexOk, DistinctAddresses, Numbered;
    RunIsSafe(files, acts);
    var s := Run(files, acts).value;
    var own :| Owned(s, own);
    p := own[fd];
  }

  // ---------------------------------------------------------------- progress

  /**
   A thread that can move without its peer: it is not over, a mutex it waits for is free, and the
   system call it is in cannot succeed, so it returns with an error.
   */
  predicate CanMove(s: ServerState, t: nat) {
    t in s.threads && match s.threads[t].pc
      case InIo(h) => !IoCanSucceed(s, h)
      case InReply(h) => !IoCanSucceed(s, h)
      case WantTake => s.mutex == Nobody
      case WantRelease => s.mutex == Nobody
      case Done => false
      case _ => true
  }

  function StepsLeft(pc: Pc): nat {
    match pc
    case AtLoop => 11 case InIo(_) => 10 case AtReply => 9 case InReply(_) => 8 case WantTake => 7 case Taking => 6 case Closing(_) => 5 case Freeing => 4
    case WantRelease => 3 case Releasing => 2 case Returning => 1 case Done => 0
  }

  /**
   While the accept loop waits for thread `t` it does not hold the mutex, and `t` is over, or `t`
   can move, or the thread that holds the mutex can: a join never deadlocks.
   */
  lemma JoinNotStuck(s: ServerState, t: nat)
    requires Safe(s) && s.loop.Joining? && s.loop.join == Some(t)
    ensures s.mutex != Loop && t in s.threads
    ensures LoopNext(s, true).Some? || CanMove(s, t) || (s.mutex.ThreadOf? && CanMove(s, s.mutex.t))
  {
    hide DistinctAddresses, Numbered, Owned;
    assert ThreadOk(s, t);
  }

  /** Each step of the joined thread brings its end nearer; it makes at most eleven of them. */
  lemma JoinComesNearer(s: ServerState, t: nat, out: Outcome)
    requires Safe(s) && s.loop.Joining? && s.loop.join == Some(t) && ThreadNext(s, t, out).Some?
    ensures var n := ThreadNext(s, t, out).value;
      t in n.threads && StepsLeft(n.threads[t].pc) < StepsLeft(s.threads[t].pc) <= 11 && n.loop == s.loop
  {
    hide DistinctAddresses, Numbered, Owned, MutexOk, LoopOk;
    assert ThreadOk(s, t);
  }

  /** No step of anything else sets it back. */
  lemma JoinNotSetBack(s: ServerState, t: nat, a: Action)
    requires Safe(s) && s.loop.Joining? && s.loop.join == Some(t) && Next(s, a).Some?
    requires !a.LoopStep? && !(a.ThreadStep? && a.t == t)
    ensures var n := Next(s, a).value; n.loop == s.loop && t in n.threads && n.threads[t].pc == s.threads[t].pc
  {
    hide DistinctAddresses, Numbered, Owned, MutexOk;
  }

  /** How many of the actions are steps of thread `t`. */
  function StepsOf(t: nat, acts: seq<Action>): nat {
    if acts == [] then 0
    else
      var a := acts[|acts| - 1];
      StepsOf(t, acts[..|acts| - 1]) + if a.ThreadStep? && a.t == t then 1 else 0
  }

  /**
   The join returns. Whatever else happens while the accept loop waits for thread `t`, in any order,
   the thread makes at most eleven steps; when it has made those that were left, the accept loop goes
   on. Until then the thread can move, or the one that holds the mutex can.
   */
  lemma {:induction false} JoinReturns(s: ServerState, t: nat, acts: seq<Action>)
    requires Safe(s) && s.loop.Joining? && s.loop.join == Some(t) && |s.slots| == MAX_CLIENTS
    requires After(s, acts).Some? && forall i :: 0 <= i < |acts| ==> !acts[i].LoopStep?
    ensures var n := After(s, acts).value;
      && Safe(n) && n.loop == s.loop && t in s.threads && t in n.threads
      && StepsOf(t, acts) + StepsLeft(n.threads[t].pc) <= StepsLeft(s.threads[t].pc) <= 11
      && (LoopNext(n, true).Some? <==> StepsLeft(n.threads[t].pc) == 0)
      && (LoopNext(n, true).Some? || CanMove(n, t) || (n.mutex.ThreadOf? && CanMove(n, n.mutex.t)))
  {
    hide Safe, Next, LoopNext, ThreadNext, CanMove, StepsLeft;
    var n := After(s, acts).value;
    if acts == [] {
      JoinWaits(s, t);
    } else {
      var before, a := acts[..|acts| - 1], acts[|acts| - 1];
      JoinReturns(s, t, before);
      var m := After(s, before).value;
      SafeKept(m, a);
      if a.ThreadStep? && a.t == t {
        assert Next(m, a) == ThreadNext(m, t, a.out) by { StepIs(m, t, a.out); }
        JoinComesNearer(m, t, a.out);
      } else {
        JoinNotSetBack(m, t, a);
      }
      JoinWaits(n, t);
    }
  }

  lemma StepIs(s: ServerState, t: nat, out: Outcome)
    requires |s.slots| == MAX_CLIENTS
    ensures Next(s, ThreadStep(t, out)) == ThreadNext(s, t, out)
  {
  }

  lemma JoinWaits(s: ServerState, t: nat)
    requires Safe(s) && s.loop.Joining? && s.loop.join == Some(t)
    ensures |s.slots| == MAX_CLIENTS && t in s.threads && StepsLeft(s.threads[t].pc) <= 11
    ensures LoopNext(s, true).Some? <==> StepsLeft(s.threads[t].pc) == 0
    ensures LoopNext(s, true).Some? || CanMove(s, t) || (s.mutex.ThreadOf? && CanMove(s, s.mutex.t))
  {
    hide DistinctAddresses, Numbered, Owned, CanMove, MutexOk, ThreadOk;
    JoinNotStuck(s, t);
  }

  /**
   No reachable state is stuck: the accept loop is waiting for a connection, or it can step, or
   some thread can move without its peer.
   */
  lemma NoDeadlock(s: ServerState)
    requires Safe(s)
    ensures s.loop.Accepting? || LoopNext(s, true).Some? || exists t :: CanMove(s, t)
  {
    hide DistinctAddresses, Numbered, Owned;
    if s.loop.Joining? && s.loop.join.Some? {
      JoinNotStuck(s, s.loop.join.value);
    } else if s.mutex.ThreadOf? {
      assert CanMove(s, s.mutex.t);
    }
  }
}
