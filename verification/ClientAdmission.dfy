/**
 Which clients get in, and what they get: what the accept loop decides about a new connection, and
 how a connection that is let in comes to be served by a thread of its own.
 */
module ClientAdmission {
  import opened Bytes
  import opened ClientSlots
  import opened ClientRuns

  // ---------------------------------------------------------------- who gets a slot

  /** Slot `i` already serves the address of the new connection. */
  predicate Serving(s: ServerState, i: nat)
    requires |s.slots| == MAX_CLIENTS && s.loop.Picking?
  {
    i < MAX_CLIENTS && s.slots[i].connected && s.slots[i].ip == s.loop.ip
  }

  /** Slot `i` is the first one that nobody uses. */
  predicate IsFirstFree(s: ServerState, i: nat)
    requires |s.slots| == MAX_CLIENTS
  {
    i < MAX_CLIENTS && !s.slots[i].connected && forall k: nat :: k < i ==> s.slots[k].connected
  }

  /** Slot `i` is taken for the new connection, and `prev` and its thread are taken away from it. */
  predicate TakenOver(s: ServerState, n: ServerState, i: nat, prev: Handle)
    requires |s.slots| == MAX_CLIENTS && s.loop.Picking? && i < MAX_CLIENTS
  {
    && n.loop == Reserved(s.loop.cs, s.loop.ip, i, prev, if s.slots[i].hasThread then Some(s.slots[i].thread) else None)
    && |n.slots| == MAX_CLIENTS && n.slots[i].connected && !n.slots[i].hasThread && !n.slots[i].s.Socket?
    && (forall k: nat :: k < MAX_CLIENTS && k != i ==> n.slots[k] == s.slots[k])
  }

  lemma FirstSameIs(s: ServerState, i: nat)
    requires |s.slots| == MAX_CLIENTS && s.loop.Picking? && DistinctAddresses(s) && Serving(s, i)
    ensures FirstSame(s.slots, s.loop.ip, 0) == i
  {
    var j := FirstSame(s.slots, s.loop.ip, 0);
    assert Address(s, i) == Some(s.loop.ip);
    assert j < MAX_CLIENTS ==> Address(s, j) == Some(s.loop.ip);
  }

  lemma FirstFreeIs(s: ServerState, i: nat)
    requires |s.slots| == MAX_CLIENTS && IsFirstFree(s, i)
    ensures FirstFree(s.slots, 0) == i
  {
  }

  /** What the slot table says while the accept loop looks for a slot. */
  lemma BeforePick(s: ServerState, i: nat)
    requires Safe(s) && s.loop.Picking? && i < |s.slots|
    ensures |s.slots| == MAX_CLIENTS && DistinctAddresses(s)
    ensures s.slots[i].connected ==> s.slots[i].hasThread && s.slots[i].s != Zeroed
    ensures !s.slots[i].connected ==> !s.slots[i].s.Socket?
  {
    hide Numbered, Owned, MutexOk, DistinctAddresses;
    assert SlotOk(s, i);
    if s.slots[i].hasThread { assert ThreadOk(s, s.slots[i].thread); }
  }

  lemma ServedAddress(s: ServerState, choice: bool, i: nat)
    requires Safe(s) && s.loop.Picking? && |s.slots| == MAX_CLIENTS && Serving(s, i)
    ensures var n := PickSlot(s, s.loop.cs, s.loop.ip, choice);
      s.slots[i].hasThread && s.slots[i].s != Zeroed && TakenOver(s, n, i, s.slots[i].s)
  {
    hide Safe, FirstSame, FirstFree;
    BeforePick(s, i);
    FirstSameIs(s, i);
  }

  lemma NotConnected(s: ServerState, i: nat)
    requires |s.slots| == MAX_CLIENTS && IsFirstFree(s, i)
    ensures i < MAX_CLIENTS && !s.slots[i].connected
  {
  }

  lemma NewAddress(s: ServerState, i: nat)
    requires Safe(s) && s.loop.Picking? && |s.slots| == MAX_CLIENTS && IsFirstFree(s, i)
    requires forall k: nat :: !Serving(s, k)
    ensures TakenOver(s, PickSlot(s, s.loop.cs, s.loop.ip, true), i, NoSocket)
  {
    hide Safe, FirstFree, IsFirstFree;
    NotConnected(s, i);
    BeforePick(s, i);
    var same := FirstSame(s.slots, s.loop.ip, 0);
    assert !Serving(s, same);
    FirstFreeIs(s, i);
  }

  lemma TurnedAway(s: ServerState, choice: bool)
    requires |s.slots| == MAX_CLIENTS && s.loop.Picking?
    ensures var n := PickSlot(s, s.loop.cs, s.loop.ip, choice);
      && n == s.(mutex := Nobody, loop := n.loop, slots := n.slots)
      && (n.loop.Rejecting? <==> (forall k: nat :: !Serving(s, k)) && (!choice || forall i: nat :: !IsFirstFree(s, i)))
      && (n.loop.Rejecting? ==> n.loop.cs == s.loop.cs && n.slots == s.slots)
  {
    var same, free := FirstSame(s.slots, s.loop.ip, 0), FirstFree(s.slots, 0);
    if same < MAX_CLIENTS {
      assert Serving(s, same);
    } else if free < MAX_CLIENTS {
      assert IsFirstFree(s, free);
    }
  }

  /**
   The decision about a new connection. The one slot that serves its address is taken, its old
   socket with it; a client with a new address gets the first slot that is free, if it is allowed;
   it is turned away if and only if it is not allowed or every slot is in use. Nothing else changes.
   */
  lemma Admission(s: ServerState, choice: bool)
    requires Safe(s) && s.loop.Picking?
    ensures |s.slots| == MAX_CLIENTS && Next(s, LoopStep(choice)).Some?
    ensures var n := Next(s, LoopStep(choice)).value;
      && n == s.(mutex := Nobody, loop := n.loop, slots := n.slots)
      && (forall i: nat :: Serving(s, i) ==> s.slots[i].hasThread && s.slots[i].s != Zeroed && TakenOver(s, n, i, s.slots[i].s))
      && (forall i: nat :: choice && (forall k: nat :: !Serving(s, k)) && IsFirstFree(s, i) ==> TakenOver(s, n, i, NoSocket))
      && (n.loop.Rejecting? <==> (forall k: nat :: !Serving(s, k)) && (!choice || forall i: nat :: !IsFirstFree(s, i)))
      && (n.loop.Rejecting? ==> n.loop.cs == s.loop.cs && n.slots == s.slots)
  {
    hide Safe, PickSlot, Serving, IsFirstFree, TakenOver;
    Basics(s);
    var n := Next(s, LoopStep(choice)).value;
    TurnedAway(s, choice);
    forall i: nat | Serving(s, i) ensures i < MAX_CLIENTS && s.slots[i].hasThread && s.slots[i].s != Zeroed && TakenOver(s, n, i, s.slots[i].s) {
      InRange(s, i);
      ServedAddress(s, choice, i);
    }
    forall i: nat | choice && (forall k: nat :: !Serving(s, k)) && IsFirstFree(s, i) ensures i < MAX_CLIENTS && TakenOver(s, n, i, NoSocket) {
      InRange(s, i);
      NewAddress(s, i);
    }
  }

  lemma InRange(s: ServerState, i: nat)
    requires |s.slots| == MAX_CLIENTS
    ensures s.loop.Picking? && Serving(s, i) ==> i < MAX_CLIENTS
    ensures IsFirstFree(s, i) ==> i < MAX_CLIENTS
  {
  }

  // ---------------------------------------------------------------- from a slot to a thread

  /** Steps of the accept loop from a reserved slot to the next connection, when all of them succeed. */
  function StepsToServe(l: LoopPc): nat {
    match l
    case Reserved(_, _, _, _, _) => 6 case Joining(_, _, _, _) => 5 case Initing(_, _, _) => 4
    case Installing(_, _, _) => 3 case Spawning(_) => 2 case Marking(_, _) => 1 case _ => 0
  }

  /**
   Thread `t` is there for connection `cs` in slot `i`: the slot names it, and is connected and holds the
   socket, which is open, for as long as the thread uses it. `idle`: it waits for its first command.
   */
  predicate Serves(s: ServerState, i: nat, t: nat, cs: Handle, ip: int, idle: bool) {
    && cs.Socket? && i < |s.slots| && t in s.threads
    && s.slots[i].thread == t && s.slots[i].ip == ip && s.threads[t].slot == i && s.threads[t].conn == cs.conn
    && (UsesSocket(s.threads[t].pc) ==> s.slots[i].connected && s.slots[i].s == cs && cs.fd in s.fds && s.fds[cs.fd] == Conn(cs.conn))
    && (idle ==> s.threads[t].pc.AtLoop?)
  }

  /** The accept loop is on its way to have thread `t` serve connection `cs` in slot `i`, or it is done. */
  predicate Admitting(s: ServerState, i: nat, t: nat, cs: Handle, ip: int, idle: bool) {
    match s.loop
    case Reserved(c, a, k, _, _) => (c, a, k) == (cs, ip, i) && s.nextThread == t
    case Joining(c, a, k, _) => (c, a, k) == (cs, ip, i) && s.nextThread == t
    case Initing(c, a, k) => (c, a, k) == (cs, ip, i) && s.nextThread == t
    case Installing(c, a, k) => (c, a, k) == (cs, ip, i) && s.nextThread == t
    case Spawning(k) => k == i && s.nextThread == t && i < |s.slots| && s.slots[i].s == cs && s.slots[i].ip == ip
    case Marking(k, u) => (k, u) == (i, t) && Serves(s, i, t, cs, ip, idle)
    case Accepting => Serves(s, i, t, cs, ip, idle) && s.slots[i].hasThread
    case _ => false
  }

  /** How many of the actions are steps of the accept loop. */
  function LoopSteps(acts: seq<Action>): nat {
    if acts == [] then 0 else LoopSteps(acts[..|acts| - 1]) + if acts[|acts| - 1].LoopStep? then 1 else 0
  }

  /** Every step of the accept loop is possible, except that a join waits for its thread to end. */
  lemma AdmissionMoves(s: ServerState)
    requires Safe(s) && |s.slots| == MAX_CLIENTS && StepsToServe(s.loop) > 0
    ensures LoopNext(s, true).Some? <==>
      !(s.loop.Joining? && s.loop.join.Some? && s.loop.join.value in s.threads && s.threads[s.loop.join.value].pc != Done)
  {
    hide DistinctAddresses, Numbered, Owned, MutexOk;
  }

  /** A socket that a slot holds is open and stands for its own connection. */
  lemma SlotSocketOpen(s: ServerState, i: nat)
    requires Safe(s) && i < |s.slots| && s.slots[i].s.Socket?
    ensures var cs := s.slots[i].s; cs.fd in s.fds && s.fds[cs.fd] == Conn(cs.conn)
  {
    hide Placed, DistinctAddresses, Numbered, MutexOk;
    var own :| Owned(s, own);
    assert Held(s, InSlot(i)) == s.slots[i].s;
  }

  lemma SpawnServes(s: ServerState, i: nat, t: nat, cs: Handle, ip: int, idle: bool)
    requires Safe(s) && |s.slots| == MAX_CLIENTS && s.loop.Spawning? && Admitting(s, i, t, cs, ip, idle) && cs.Socket?
    ensures LoopNext(s, true).Some? && var n := LoopNext(s, true).value; n.loop == Marking(i, t) && Serves(n, i, t, cs, ip, idle)
  {
    hide DistinctAddresses, Numbered, MutexOk, Owned;
    SlotSocketOpen(s, i);
  }

  lemma MarkServes(s: ServerState, i: nat, t: nat, cs: Handle, ip: int, idle: bool)
    requires |s.slots| == MAX_CLIENTS && s.loop.Marking? && Admitting(s, i, t, cs, ip, idle)
    ensures LoopNext(s, true).Some?
    ensures var n := LoopNext(s, true).value; n.loop == Accepting && Serves(n, i, t, cs, ip, idle) && n.slots[i].hasThread
  {
  }

  lemma AdmittingByLoop(s: ServerState, i: nat, t: nat, cs: Handle, ip: int, idle: bool)
    requires Safe(s) && |s.slots| == MAX_CLIENTS && StepsToServe(s.loop) > 0 && Admitting(s, i, t, cs, ip, idle) && LoopNext(s, true).Some?
    requires cs.Socket?
    ensures var n := LoopNext(s, true).value; Admitting(n, i, t, cs, ip, idle) && StepsToServe(n.loop) + 1 == StepsToServe(s.loop)
  {
    hide Safe, PickSlot, Close, Serves;
    if s.loop.Spawning? {
      SpawnServes(s, i, t, cs, ip, idle);
    } else if s.loop.Marking? {
      MarkServes(s, i, t, cs, ip, idle);
    }
  }

  /** The threads of other slots do not come near slot `i`. */
  lemma OtherThread(s: ServerState, u: nat, out: Outcome, i: nat)
    requires |s.slots| == MAX_CLIENTS && u in s.threads && s.threads[u].slot != i < MAX_CLIENTS && ThreadNext(s, u, out).Some?
    ensures var n := ThreadNext(s, u, out).value;
      n.loop == s.loop && n.nextThread == s.nextThread && |n.slots| == MAX_CLIENTS && n.slots[i] == s.slots[i] && n.threads == s.threads[u := n.threads[u]]
  {
    hide IoCanSucceed, Close;
  }

  lemma SlotOfThread(s: ServerState, t: nat, u: nat)
    requires Safe(s) && t in s.threads && u in s.threads && t != u
    ensures s.threads[t].slot != s.threads[u].slot
  {
    hide LoopOk, ThreadOk, SlotOk, DistinctAddresses, Numbered, Owned, MutexOk;
    if s.threads[t].slot == s.threads[u].slot { OneThreadPerSlot(s, t, u); }
  }

  /** A step of any thread leaves a slot that is being served as it is, or gives it up. */
  lemma ServesByThread(s: ServerState, i: nat, t: nat, cs: Handle, ip: int, idle: bool, u: nat, out: Outcome)
    requires Safe(s) && |s.slots| == MAX_CLIENTS && Serves(s, i, t, cs, ip, idle) && ThreadNext(s, u, out).Some?
    requires Safe(ThreadNext(s, u, out).value)
    ensures Serves(ThreadNext(s, u, out).value, i, t, cs, ip, idle && u != t)
  {
    hide Safe, ThreadNext;
    var n := ThreadNext(s, u, out).value;
    InThreads(s, u, out);
    if u != t {
      SlotOfThread(s, t, u);
      OtherThread(s, u, out, i);
    } else {
      OwnThread(s, t, out);
    }
    if n.slots[i].s.Socket? { SlotSocketOpen(n, i); }
  }

  lemma OwnThread(s: ServerState, t: nat, out: Outcome)
    requires |s.slots| == MAX_CLIENTS && t in s.threads && ThreadNext(s, t, out).Some?
    ensures var n, i, pc := ThreadNext(s, t, out).value, s.threads[t].slot, s.threads[t].pc;
      && i < MAX_CLIENTS == |n.slots| && n.loop == s.loop && n.nextThread == s.nextThread
      && t in n.threads && n.threads[t] == s.threads[t].(pc := n.threads[t].pc)
      && n.slots[i].thread == s.slots[i].thread && n.slots[i].ip == s.slots[i].ip && n.slots[i].hasThread == s.slots[i].hasThread
      && (UsesSocket(n.threads[t].pc) ==> UsesSocket(pc) && n.slots[i] == s.slots[i])
  {
    hide IoCanSucceed, Close;
  }

  lemma AdmittingByThread(s: ServerState, i: nat, t: nat, cs: Handle, ip: int, idle: bool, u: nat, out: Outcome)
    requires Safe(s) && |s.slots| == MAX_CLIENTS && Admitting(s, i, t, cs, ip, idle) && ThreadNext(s, u, out).Some?
    requires Safe(ThreadNext(s, u, out).value)
    ensures var n := ThreadNext(s, u, out).value; Admitting(n, i, t, cs, ip, idle && u != t) && n.loop == s.loop
  {
    hide Safe, ThreadNext, Serves;
    InThreads(s, u, out);
    OwnThread(s, u, out);
    if s.loop.Marking? || s.loop.Accepting? {
      ServesByThread(s, i, t, cs, ip, idle, u, out);
      ServedInRange(s, i, t, cs, ip, idle);
      KeepsHasThread(s, u, out, i);
    } else if s.loop.Spawning? {
      InitOnFreeSlot(s, i);
      OtherThread(s, u, out, i);
    }
  }

  lemma ServedInRange(s: ServerState, i: nat, t: nat, cs: Handle, ip: int, idle: bool)
    requires Serves(s, i, t, cs, ip, idle)
    ensures i < |s.slots|
  {
  }

  lemma KeepsHasThread(s: ServerState, u: nat, out: Outcome, i: nat)
    requires |s.slots| == MAX_CLIENTS && ThreadNext(s, u, out).Some? && i < MAX_CLIENTS
    ensures var n := ThreadNext(s, u, out).value; |n.slots| == MAX_CLIENTS && n.slots[i].hasThread == s.slots[i].hasThread
  {
    hide IoCanSucceed, Close;
  }

  lemma AdmittingByOther(s: ServerState, i: nat, t: nat, cs: Handle, ip: int, idle: bool, a: Action)
    requires |s.slots| == MAX_CLIENTS && Admitting(s, i, t, cs, ip, idle) && Next(s, a).Some?
    requires a.OpenOther? || a.CloseOther?
    ensures var n := Next(s, a).value; Admitting(n, i, t, cs, ip, idle) && n.loop == s.loop
  {
  }

  lemma AdmittingKept(s: ServerState, i: nat, t: nat, cs: Handle, ip: int, idle: bool, a: Action)
    requires Safe(s) && |s.slots| == MAX_CLIENTS && cs.Socket? && Admitting(s, i, t, cs, ip, idle) && Next(s, a).Some?
    requires !a.Accept? && (a.LoopStep? ==> a.choice)
    ensures var n := Next(s, a).value;
      && Safe(n) && Admitting(n, i, t, cs, ip, idle && !(a.ThreadStep? && a.t == t))
      && StepsToServe(n.loop) + (if a.LoopStep? then 1 else 0) == StepsToServe(s.loop)
  {
    hide Safe, Admitting, LoopNext, ThreadNext, StepsToServe;
    SafeKept(s, a);
    match a
    case LoopStep(_) =>
      assert StepsToServe(s.loop) > 0 by { StillToServe(s, i, t, cs, ip, idle); }
      AdmittingByLoop(s, i, t, cs, ip, idle);
    case ThreadStep(u, out) => AdmittingByThread(s, i, t, cs, ip, idle, u, out);
    case _ => AdmittingByOther(s, i, t, cs, ip, idle, a);
  }

  lemma StillToServe(s: ServerState, i: nat, t: nat, cs: Handle, ip: int, idle: bool)
    requires |s.slots| == MAX_CLIENTS && Admitting(s, i, t, cs, ip, idle) && LoopNext(s, true).Some?
    ensures StepsToServe(s.loop) > 0
  {
    hide PickSlot;
  }

  /**
   A client that was given a slot is served. Whatever else happens in between, in any order: after six
   successful steps of the accept loop the slot holds the new connection, open and under its own
   address, and a new thread of its own serves it, which waits for the first command until it moves.
   */
  lemma {:induction false} ReservedIsServed(s: ServerState, acts: seq<Action>)
    requires Safe(s) && |s.slots| == MAX_CLIENTS && s.loop.Reserved?
    requires After(s, acts).Some? && forall j :: 0 <= j < |acts| ==> !acts[j].Accept? && (acts[j].LoopStep? ==> acts[j].choice)
    ensures var n, t, idle := After(s, acts).value, s.nextThread, StepsOf(s.nextThread, acts) == 0;
      && Safe(n) && LoopSteps(acts) + StepsToServe(n.loop) == 6
      && Admitting(n, s.loop.i, t, s.loop.cs, s.loop.ip, idle)
      && (LoopSteps(acts) == 6 <==> n.loop == Accepting)
      && (n.loop == Accepting ==> Serves(n, s.loop.i, t, s.loop.cs, s.loop.ip, idle) && n.slots[s.loop.i].hasThread)
  {
    hide Safe, Next, Admitting, Serves;
    var t, cs, ip, i := s.nextThread, s.loop.cs, s.loop.ip, s.loop.i;
    if acts == [] {
      AdmittingAtFirst(s);
    } else {
      var before, a := acts[..|acts| - 1], acts[|acts| - 1];
      ReservedIsServed(s, before);
      SocketReserved(s);
      AdmittingKept(After(s, before).value, i, t, cs, ip, StepsOf(t, before) == 0, a);
    }
    AdmittedAtLast(After(s, acts).value, i, t, cs, ip, StepsOf(t, acts) == 0);
  }

  lemma AdmittingAtFirst(s: ServerState)
    requires s.loop.Reserved?
    ensures Admitting(s, s.loop.i, s.nextThread, s.loop.cs, s.loop.ip, true)
  {
  }

  lemma AdmittedAtLast(s: ServerState, i: nat, t: nat, cs: Handle, ip: int, idle: bool)
    requires Admitting(s, i, t, cs, ip, idle)
    ensures StepsToServe(s.loop) == 0 <==> s.loop == Accepting
    ensures s.loop == Accepting ==> Serves(s, i, t, cs, ip, idle) && s.slots[i].hasThread
  {
  }

  lemma SocketReserved(s: ServerState)
    requires Safe(s) && s.loop.Reserved?
    ensures s.loop.cs.Socket?
  {
    hide DistinctAddresses, Numbered, Owned, MutexOk;
  }

  // ---------------------------------------------------------------- what a served client gets

  /**
   A thread that the accept loop has not come for reads its own open socket for the next command, and again for
   the result of one that failed; when the calls of a command succeed it is back for another one, and else it leaves.
   */
  lemma CommandGoesOn(s: ServerState, t: nat, out: Outcome)
    requires Safe(s) && |s.slots| == MAX_CLIENTS && t in s.threads && JoinTarget(s.loop) != Some(t)
    requires s.threads[t].pc.AtLoop? || s.threads[t].pc.AtReply? || InCall(s.threads[t].pc)
    ensures ThreadNext(s, t, out).Some?
    ensures var n, pc := ThreadNext(s, t, out).value, s.threads[t].pc;
      && t in n.threads
      && var m := n.threads[t].pc;
      && ((pc.AtLoop? && out.Fine?) || pc.AtReply? ==>
            InCall(m) && m.h.Socket? && m.h.fd in n.fds && n.fds[m.h.fd] == Conn(s.threads[t].conn) && (m.InReply? <==> pc.AtReply?))
      && ((pc.AtLoop? && !out.Fine?) || pc.InReply? ==> m == WantTake)
      && (pc.InIo? ==> m == match out case Fine => AtLoop case More => pc case Bad => WantTake case BadWithResult => AtReply)
  {
    hide DistinctAddresses, Numbered, Owned, MutexOk, LoopOk;
    assert ThreadOk(s, t);
    SlotSocketOpen(s, s.threads[t].slot);
  }

  /** A thread that leaves goes through the seven steps of the teardown and no others. */
  lemma LeavesInSeven(s: ServerState, t: nat, out: Outcome)
    requires |s.slots| == MAX_CLIENTS && t in s.threads && StepsLeft(s.threads[t].pc) <= 7 && ThreadNext(s, t, out).Some?
    ensures var n := ThreadNext(s, t, out).value; t in n.threads && StepsLeft(n.threads[t].pc) + 1 == StepsLeft(s.threads[t].pc)
  {
    hide Close, IoCanSucceed;
  }

  /** A connection that comes in while the accept loop waits is looked at as soon as the mutex is free. */
  lemma AcceptReachesPick(s: ServerState, fd: nat, ip: int, choice: bool)
    requires Safe(s) && |s.slots| == MAX_CLIENTS && s.loop == Accepting && fd !in s.fds
    ensures var n := Next(s, Accept(fd, ip)); n.Some? && |n.value.slots| == MAX_CLIENTS
    ensures var n, cs := Next(s, Accept(fd, ip)).value, Socket(fd, s.nextConn);
      && n.fds == s.fds[fd := Conn(s.nextConn)] && n.slots == s.slots && n.threads == s.threads && n.nextThread == s.nextThread
      && var p := Next(n, LoopStep(choice));
      && (p.Some? <==> s.mutex == Nobody)
      && (p.Some? ==> p == Some(n.(mutex := Loop, loop := Picking(cs, ip))))
  {
  }

  lemma AfterOne(s: ServerState, acts: seq<Action>, a: Action)
    requires |s.slots| == MAX_CLIENTS && After(s, acts).Some?
    ensures After(s, acts + [a]) == Step(After(s, acts).value, a)
  {
    assert (acts + [a])[..|acts|] == acts;
  }

  lemma AfterNone(s: ServerState)
    requires |s.slots| == MAX_CLIENTS
    ensures After(s, []) == Some(s)
  {
  }

  lemma FirstPick(files: set<nat>, fd: nat, ip: int)
    requires fd !in files
    ensures var ok := LoopStep(true); var n := Run(files, [Accept(fd, ip), ok, ok]);
      n.Some? && n.value.loop == Reserved(Socket(fd, 0), ip, 0, NoSocket, None) && n.value.nextThread == 0
  {
    hide Safe, After, Next;
    var s, ok, a := Init(files), LoopStep(true), Accept(fd, ip);
    SafeAtStart(files);
    AcceptReachesPick(s, fd, ip, true);
    var heard := Next(s, a).value;
    SafeKept(s, a);
    SafeKept(heard, ok);
    FirstTaken(Next(heard, ok).value, ip);
    AfterNone(s);
    assert [] + [a] == [a] && [a] + [ok] == [a, ok] && [a, ok] + [ok] == [a, ok, ok];
    AfterOne(s, [], a);
    AfterOne(s, [a], ok);
    AfterOne(s, [a, ok], ok);
  }

  /** When no slot is in use and none has a thread, a new client gets slot 0. */
  lemma FirstTaken(s: ServerState, ip: int)
    requires Safe(s) && s.loop.Picking? && s.loop.ip == ip && s.slots == Init({}).slots
    ensures var n := Next(s, LoopStep(true));
      n.Some? && n.value.loop == Reserved(s.loop.cs, ip, 0, NoSocket, None) && n.value.nextThread == s.nextThread
  {
    hide Safe, Next;
    assert IsFirstFree(s, 0);
    Admission(s, true);
  }

  lemma NextStep(s: ServerState)
    requires Safe(s) && |s.slots| == MAX_CLIENTS && StepsToServe(s.loop) > 0 && (s.loop.Reserved? || s.loop.Joining? ==> s.loop.join.None?)
    ensures var n := Next(s, LoopStep(true)); n.Some? && (n.value.loop.Joining? ==> n.value.loop.join.None?) && !n.value.loop.Reserved?
  {
    hide Safe;
    AdmissionMoves(s);
  }

  lemma {:induction false} OnlyLoopSteps(t: nat, k: nat)
    ensures var acts := seq(k, _ => LoopStep(true)); LoopSteps(acts) == k && StepsOf(t, acts) == 0
  {
    if k > 0 {
      OnlyLoopSteps(t, k - 1);
      assert seq(k, _ => LoopStep(true))[..k - 1] == seq(k - 1, _ => LoopStep(true));
    }
  }

  /** When no old thread is to be joined, the steps of the accept loop are possible one after the other. */
  lemma {:induction false} StepsPossible(s: ServerState, k: nat)
    requires Safe(s) && |s.slots| == MAX_CLIENTS && s.loop.Reserved? && s.loop.join.None? && k <= 6
    ensures var n := After(s, seq(k, _ => LoopStep(true)));
      n.Some? && StepsToServe(n.value.loop) == 6 - k && (n.value.loop.Joining? || n.value.loop.Reserved? ==> n.value.loop.join.None?)
  {
    hide Safe, Next, After, StepsToServe, LoopSteps, StepsOf;
    if k == 0 {
      AfterNone(s);
      assert seq(0, _ => LoopStep(true)) == [];
      ReservedIsServed(s, []);
      OnlyLoopSteps(0, 0);
    } else {
      var before := seq(k - 1, _ => LoopStep(true));
      StepsPossible(s, k - 1);
      ReservedIsServed(s, before);
      NextStep(After(s, before).value);
      AfterOne(s, before, LoopStep(true));
      assert seq(k, _ => LoopStep(true)) == before + [LoopStep(true)];
      ReservedIsServed(s, before + [LoopStep(true)]);
      OnlyLoopSteps(0, k);
    }
  }

  lemma {:induction false} AfterBoth(s: ServerState, a: seq<Action>, b: seq<Action>)
    requires |s.slots| == MAX_CLIENTS && After(s, a).Some?
    ensures After(s, a + b) == After(After(s, a).value, b)
  {
    hide Next;
    if b == [] {
      assert a + b == a;
    } else {
      AfterBoth(s, a, b[..|b| - 1]);
      assert (a + b)[..|a + b| - 1] == a + b[..|b| - 1];
    }
  }

  /** On a server that has just started, the first client that is allowed in is served by thread 0 in slot 0. */
  lemma FirstClient(files: set<nat>, fd: nat, ip: int)
    requires fd !in files
    ensures var n := Run(files, [Accept(fd, ip)] + seq(8, _ => LoopStep(true)));
      n.Some? && n.value.loop == Accepting && Serves(n.value, 0, 0, Socket(fd, 0), ip, true)
  {
    hide Safe, After, Serves;
    var first, rest := [Accept(fd, ip), LoopStep(true), LoopStep(true)], seq(6, _ => LoopStep(true));
    FirstPick(files, fd, ip);
    RunIsSafe(files, first);
    var s := Run(files, first).value;
    StepsPossible(s, 6);
    ReservedIsServed(s, rest);
    OnlyLoopSteps(0, 6);
    AfterBoth(Init(files), first, rest);
    assert [Accept(fd, ip)] + seq(8, _ => LoopStep(true)) == first + rest;
  }

  // ---------------------------------------------------------------- when something fails

  /** Steps of the accept loop from a failure to the next connection. */
  function StepsToGiveUp(l: LoopPc): nat {
    match l
    case WantDrop(_) => 5 case Dropping(_) => 4 case DropClosing(_, _) => 3 case WantForget(_) => 2 case Forgetting(_) => 1
    case WantUndo(_, _) => 3 case Undoing(_, _) => 2 case Rejecting(_) => 1 case _ => 0
  }

  /**
   Whether memory or a thread cannot be had, each step of the accept loop is possible as soon as the mutex is free,
   and after at most five of them it waits for the next connection.
   */
  lemma GivingUp(s: ServerState, choice: bool)
    requires Safe(s) && |s.slots| == MAX_CLIENTS && StepsToGiveUp(s.loop) > 0
    ensures var n := LoopNext(s, choice);
      && (n.Some? <==> (s.loop.WantUndo? || s.loop.WantDrop? || s.loop.WantForget? ==> s.mutex == Nobody))
      && (n.Some? ==> StepsToGiveUp(n.value.loop) + 1 == StepsToGiveUp(s.loop) && (StepsToGiveUp(s.loop) == 1 ==> n.value.loop == Accepting))
  {
    hide DistinctAddresses, Numbered, Owned, MutexOk, PickSlot, Close;
  }

  /** The two ways in: the slot cannot be initialised, or the thread cannot be created. */
  lemma Fails(s: ServerState)
    requires Safe(s) && |s.slots| == MAX_CLIENTS && (s.loop.Initing? || s.loop.Spawning?)
    ensures LoopNext(s, false).Some? && StepsToGiveUp(LoopNext(s, false).value.loop) == if s.loop.Initing? then 3 else 5
  {
    hide DistinctAddresses, Numbered, Owned, MutexOk;
  }
}
