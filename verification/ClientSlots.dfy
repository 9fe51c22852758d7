/**
 The client-slot protocol: one accept loop and its client threads share `clients[]` under one
 mutex. Every step between two points where another thread can be scheduled is one action.
 */
module ClientSlots {
  import opened Bytes

  const MAX_CLIENTS: nat := 5

  /**
   What the program keeps in a socket variable: `NO_SOCKET`, the 0 that zeroed memory leaves there
   (a usable descriptor number that nobody stored), or a stored number. `conn` is the accepted
   connection the number stood for when it was stored; the program never sees it.
   */
  datatype Handle = NoSocket | Zeroed | Socket(fd: nat, conn: nat)

  /** What a descriptor number currently stands for in the kernel. */
  datatype Obj = Conn(conn: nat) | Other

  datatype Slot = Slot(connected: bool, s: Handle, ip: int, hasThread: bool, thread: nat)

  /** Control points of `client_thread`, with `finalize_client` inlined. */
  datatype Pc =
    | AtLoop               // about to read `client->s` for the next command, reply or payload
    | InIo(h: Handle)      // `client->s` is read, system calls on that number come next
    | AtReply              // a receive failed, and the command still sends its result
    | InReply(h: Handle)   // `client->s` is read again for that result
    | WantTake | Taking    // finalize: waiting for the mutex; holding it
    | Closing(h: Handle)   // the socket taken from the slot, not closed yet
    | Freeing              // releasing files and the buffer of the slot
    | WantRelease | Releasing
    | Returning            // only the return is left
    | Done

  datatype Thread = Thread(slot: nat, conn: nat, pc: Pc)

  /** Control points of the accept loop. */
  datatype LoopPc =
    | Accepting
    | WantPick(cs: Handle, ip: int) | Picking(cs: Handle, ip: int)
    | Rejecting(cs: Handle)
    | Reserved(cs: Handle, ip: int, i: nat, prev: Handle, join: Option<nat>)
    | Joining(cs: Handle, ip: int, i: nat, join: Option<nat>)
    | Initing(cs: Handle, ip: int, i: nat)
    | WantUndo(cs: Handle, i: nat) | Undoing(cs: Handle, i: nat)
    | Installing(cs: Handle, ip: int, i: nat)
    | Spawning(i: nat)
    | Marking(i: nat, t: nat)
    | WantDrop(i: nat) | Dropping(i: nat) | DropClosing(i: nat, h: Handle)
    | WantForget(i: nat) | Forgetting(i: nat)

  datatype Holder = Nobody | Loop | ThreadOf(t: nat)

  datatype ServerState = ServerState(slots: seq<Slot>, threads: map<nat, Thread>, loop: LoopPc, mutex: Holder,
                         fds: map<nat, Obj>, nextConn: nat, nextThread: nat)

  /**
   How a step of a client thread turns out: the command goes on or is over, `recv_all` needs one
   more call on the same number, the command fails, or it fails and sends its result all the same.
   */
  datatype Outcome = Fine | More | Bad | BadWithResult

  datatype Action =
    | Accept(fd: nat, ip: int)
    | LoopStep(choice: bool)            // `choice`: whitelisted, allocation or thread creation succeeded
    | ThreadStep(t: nat, out: Outcome)
    | OpenOther(fd: nat) | CloseOther(fd: nat)

  /** A slot as `memset` leaves it, and the same with its socket marked as missing. */
  const ZEROED := Slot(false, Zeroed, 0, false, 0)
  const EMPTY := ZEROED.(s := NoSocket)

  /** At start nothing is connected; descriptors 0 and up may already be in use. */
  function Init(files: set<nat>): ServerState {
    ServerState([ZEROED, ZEROED, ZEROED, ZEROED, ZEROED], map[], Accepting, Nobody, map fd | fd in files :: Other, 0, 0)
  }

  function FirstSame(slots: seq<Slot>, ip: int, i: nat): (r: nat)
    requires i <= |slots|
    ensures i <= r <= |slots|
    ensures r < |slots| ==> slots[r].connected && slots[r].ip == ip
    ensures forall k :: i <= k < r ==> !(slots[k].connected && slots[k].ip == ip)
    decreases |slots| - i
  {
    if i == |slots| || (slots[i].connected && slots[i].ip == ip) then i else FirstSame(slots, ip, i + 1)
  }

  function FirstFree(slots: seq<Slot>, i: nat): (r: nat)
    requires i <= |slots|
    ensures i <= r <= |slots|
    ensures r < |slots| ==> !slots[r].connected
    ensures forall k :: i <= k < r ==> slots[k].connected
    decreases |slots| - i
  {
    if i == |slots| || !slots[i].connected then i else FirstFree(slots, i + 1)
  }

  /** Closing a number removes whatever it stands for at that moment. */
  function Close(fds: map<nat, Obj>, h: Handle): map<nat, Obj> {
    match h case NoSocket => fds case Zeroed => fds - {0} case Socket(fd, _) => fds - {fd}
  }

  /** The slot is handed over: reserved, its socket and its thread handle taken from it. */
  function Reserve(s: ServerState, cs: Handle, ip: int, i: nat, takeSocket: bool): ServerState
    requires i < |s.slots|
  {
    var slot := s.slots[i];
    s.(slots := s.slots[i := slot.(connected := true, hasThread := false, s := if takeSocket then NoSocket else slot.s)],
       mutex := Nobody,
       loop := Reserved(cs, ip, i, if takeSocket then slot.s else NoSocket, if slot.hasThread then Some(slot.thread) else None))
  }

  function PickSlot(s: ServerState, cs: Handle, ip: int, allowed: bool): ServerState {
    var same := FirstSame(s.slots, ip, 0);
    if same < |s.slots| then Reserve(s, cs, ip, same, true)
    else if !allowed then s.(mutex := Nobody, loop := Rejecting(cs))
    else
      var free := FirstFree(s.slots, 0);
      if free < |s.slots| then Reserve(s, cs, ip, free, false)
      else s.(mutex := Nobody, loop := Rejecting(cs))
  }

  /** One step of the accept loop; `None` where it has to wait. */
  function LoopNext(s: ServerState, choice: bool): Option<ServerState>
    requires |s.slots| == MAX_CLIENTS
  {
    match s.loop
    case Accepting => None
    case WantPick(cs, ip) => if s.mutex == Nobody then Some(s.(mutex := Loop, loop := Picking(cs, ip))) else None
    case Picking(cs, ip) => Some(PickSlot(s, cs, ip, choice))
    case Rejecting(cs) => Some(s.(fds := Close(s.fds, cs), loop := Accepting))
    case Reserved(cs, ip, i, prev, join) => Some(s.(fds := Close(s.fds, prev), loop := Joining(cs, ip, i, join)))
    case Joining(cs, ip, i, join) =>
      if join.None? then Some(s.(loop := Initing(cs, ip, i)))
      else if join.value in s.threads && s.threads[join.value].pc == Done then
        Some(s.(threads := s.threads - {join.value}, loop := Initing(cs, ip, i)))
      else None
    case Initing(cs, ip, i) =>
      if i >= |s.slots| then None
      else if choice then Some(s.(slots := s.slots[i := EMPTY.(connected := true)], loop := Installing(cs, ip, i)))
      else Some(s.(slots := s.slots[i := EMPTY], loop := WantUndo(cs, i)))
    case WantUndo(cs, i) => if s.mutex == Nobody then Some(s.(mutex := Loop, loop := Undoing(cs, i))) else None
    case Undoing(cs, i) =>
      if i >= |s.slots| then None
      else Some(s.(slots := s.slots[i := s.slots[i].(connected := false)], mutex := Nobody, loop := Rejecting(cs)))
    case Installing(cs, ip, i) =>
      if i >= |s.slots| then None
      else Some(s.(slots := s.slots[i := s.slots[i].(s := cs, ip := ip)], loop := Spawning(i)))
    case Spawning(i) =>
      if i >= |s.slots| || !s.slots[i].s.Socket? then None
      else if choice then
        Some(s.(threads := s.threads[s.nextThread := Thread(i, s.slots[i].s.conn, AtLoop)], nextThread := s.nextThread + 1,
                slots := s.slots[i := s.slots[i].(thread := s.nextThread)], loop := Marking(i, s.nextThread)))
      else Some(s.(loop := WantDrop(i)))
    case Marking(i, t) =>
      if i >= |s.slots| then None
      else Some(s.(slots := s.slots[i := s.slots[i].(hasThread := true)], loop := Accepting))
    case WantDrop(i) => if s.mutex == Nobody then Some(s.(mutex := Loop, loop := Dropping(i))) else None
    case Dropping(i) =>
      if i >= |s.slots| then None
      else Some(s.(slots := s.slots[i := s.slots[i].(s := NoSocket)], mutex := Nobody, loop := DropClosing(i, s.slots[i].s)))
    case DropClosing(i, h) => Some(s.(fds := Close(s.fds, h), loop := WantForget(i)))
    case WantForget(i) => if s.mutex == Nobody then Some(s.(mutex := Loop, loop := Forgetting(i))) else None
    case Forgetting(i) =>
      if i >= |s.slots| then None
      else Some(s.(slots := s.slots[i := s.slots[i].(connected := false)], mutex := Nobody, loop := Accepting))
  }

  /** A call on a number succeeds only if the number stands for an open connection. */
  predicate IoCanSucceed(s: ServerState, h: Handle) {
    h.Socket? && h.fd in s.fds && s.fds[h.fd].Conn?
  }

  function Goto(s: ServerState, t: nat, pc: Pc): ServerState
    requires t in s.threads
  {
    s.(threads := s.threads[t := s.threads[t].(pc := pc)])
  }

  function ThreadNext(s: ServerState, t: nat, out: Outcome): Option<ServerState>
    requires |s.slots| == MAX_CLIENTS
  {
    if t !in s.threads || s.threads[t].slot >= |s.slots| then None
    else
      var th := s.threads[t];
      var slot := s.slots[th.slot];
      match th.pc
      case AtLoop => Some(Goto(s, t, if out.Fine? then InIo(slot.s) else WantTake))
      case InIo(h) =>
        Some(if IoCanSucceed(s, h) && out.More? then s
             else Goto(s, t, if IoCanSucceed(s, h) && out.Fine? then AtLoop else if out.BadWithResult? then AtReply else WantTake))
      case AtReply => Some(Goto(s, t, InReply(slot.s)))
      case InReply(h) => Some(Goto(s, t, WantTake))
      case WantTake => if s.mutex == Nobody then Some(Goto(s.(mutex := ThreadOf(t)), t, Taking)) else None
      case Taking =>
        Some(Goto(s.(slots := s.slots[th.slot := slot.(s := NoSocket)], mutex := Nobody), t, Closing(slot.s)))
      case Closing(h) => Some(Goto(s.(fds := Close(s.fds, h)), t, Freeing))
      case Freeing => Some(Goto(s, t, WantRelease))
      case WantRelease => if s.mutex == Nobody then Some(Goto(s.(mutex := ThreadOf(t)), t, Releasing)) else None
      case Releasing =>
        Some(Goto(s.(slots := s.slots[th.slot := slot.(connected := false)], mutex := Nobody), t, Returning))
      case Returning => Some(Goto(s, t, Done))
      case Done => None
  }

  /** Any interleaving of the accept loop, the client threads, and the rest of the process. */
  function Next(s: ServerState, a: Action): Option<ServerState>
    requires |s.slots| == MAX_CLIENTS
  {
    match a
    case Accept(fd, ip) =>
      if s.loop == Accepting && fd !in s.fds then
        Some(s.(fds := s.fds[fd := Conn(s.nextConn)], nextConn := s.nextConn + 1, loop := WantPick(Socket(fd, s.nextConn), ip)))
      else None
    case LoopStep(choice) => LoopNext(s, choice)
    case ThreadStep(t, out) => ThreadNext(s, t, out)
    case OpenOther(fd) => if fd !in s.fds then Some(s.(fds := s.fds[fd := Other])) else None
    case CloseOther(fd) => if fd in s.fds && s.fds[fd] == Other then Some(s.(fds := s.fds - {fd})) else None
  }

  // ---------------------------------------------------------------- who holds what

  /** Places where a socket can be kept. */
  datatype SocketPlace = InSlot(i: nat) | NewOfLoop | PrevOfLoop | InThread(t: nat)

  function NewOf(l: LoopPc): Handle {
    match l
    case WantPick(cs, _) => cs case Picking(cs, _) => cs case Rejecting(cs) => cs
    case Reserved(cs, _, _, _, _) => cs case Joining(cs, _, _, _) => cs case Initing(cs, _, _) => cs
    case WantUndo(cs, _) => cs case Undoing(cs, _) => cs case Installing(cs, _, _) => cs
    case _ => NoSocket
  }

  function PrevOf(l: LoopPc): Handle {
    match l case Reserved(_, _, _, prev, _) => prev case DropClosing(_, h) => h case _ => NoSocket
  }

  function Held(s: ServerState, p: SocketPlace): Handle {
    match p
    case InSlot(i) => if i < |s.slots| then s.slots[i].s else NoSocket
    case NewOfLoop => NewOf(s.loop)
    case PrevOfLoop => PrevOf(s.loop)
    case InThread(t) => if t in s.threads && s.threads[t].pc.Closing? then s.threads[t].pc.h else NoSocket
  }

  /**
   `own` gives, for every open connection, the one place that holds its socket; every socket
   held anywhere is open, still stands for its own connection, and is held there alone.
   */
  ghost predicate Owned(s: ServerState, own: map<nat, SocketPlace>) {
    && (forall fd :: fd in own <==> fd in s.fds && s.fds[fd].Conn?)
    && (forall fd :: fd in own ==> Held(s, own[fd]) == Socket(fd, s.fds[fd].conn))
    && (forall p :: Held(s, p).Socket? ==> Held(s, p).fd in own && own[Held(s, p).fd] == p)
  }

  /** Connections are numbered as they are accepted; each has at most one descriptor. */
  ghost predicate Numbered(s: ServerState) {
    && (forall fd :: fd in s.fds && s.fds[fd].Conn? ==> s.fds[fd].conn < s.nextConn)
    && (forall fd, gd :: fd in s.fds && gd in s.fds && s.fds[fd].Conn? && s.fds[fd] == s.fds[gd] ==> fd == gd)
    && (forall t :: t in s.threads ==> t < s.nextThread)
  }

  /** The slot the accept loop is working on. */
  function Worked(l: LoopPc): Option<nat> {
    match l
    case Reserved(_, _, i, _, _) => Some(i) case Joining(_, _, i, _) => Some(i) case Initing(_, _, i) => Some(i)
    case WantUndo(_, i) => Some(i) case Undoing(_, i) => Some(i) case Installing(_, _, i) => Some(i)
    case Spawning(i) => Some(i) case Marking(i, _) => Some(i) case WantDrop(i) => Some(i) case Dropping(i) => Some(i)
    case DropClosing(i, _) => Some(i) case WantForget(i) => Some(i) case Forgetting(i) => Some(i)
    case _ => None
  }

  /** The thread the accept loop is about to join. */
  function JoinTarget(l: LoopPc): Option<nat> {
    match l case Reserved(_, _, _, _, join) => join case Joining(_, _, _, join) => join case _ => None
  }

  // ---------------------------------------------------------------- the invariant

  predicate Locking(l: LoopPc) { l.Picking? || l.Undoing? || l.Dropping? || l.Forgetting? }

  predicate Leaving(pc: Pc) { pc.Returning? || pc.Done? }

  /** About to call the system with a number read before. */
  predicate InCall(pc: Pc) { pc.InIo? || pc.InReply? }

  predicate UsesSocket(pc: Pc) { pc.AtLoop? || pc.AtReply? || InCall(pc) || pc.WantTake? || pc.Taking? }

  /** The mutex is held by exactly the one that is inside a critical section. */
  ghost predicate MutexOk(s: ServerState) {
    && (s.mutex == Loop <==> Locking(s.loop))
    && (forall t :: s.mutex == ThreadOf(t) <==> t in s.threads && (s.threads[t].pc.Taking? || s.threads[t].pc.Releasing?))
  }

  /** A slot and the thread that serves it. */
  predicate Attached(slot: Slot, t: nat, th: Thread) {
    && slot.thread == t
    && (slot.connected <==> !Leaving(th.pc))
    && (if UsesSocket(th.pc) then slot.s.Socket? && slot.s.conn == th.conn else slot.s == NoSocket)
    && (InCall(th.pc) ==> th.pc.h == slot.s)
  }

  /** A thread whose slot the accept loop has taken away. */
  predicate Evicted(s: ServerState, th: Thread)
    requires th.slot < |s.slots|
  {
    && s.slots[th.slot].s == NoSocket
    && Worked(s.loop) == Some(th.slot)
    && (PrevOf(s.loop).Socket? ==> PrevOf(s.loop).conn == th.conn)
    && (InCall(th.pc) ==> if s.loop.Reserved? then th.pc.h in {NoSocket, PrevOf(s.loop)} else !IoCanSucceed(s, th.pc.h))
  }

  predicate ThreadOk(s: ServerState, t: nat)
    requires t in s.threads
  {
    var th := s.threads[t];
    && th.slot < |s.slots|
    && (th.pc.Closing? && th.pc.h != NoSocket ==> th.pc.h.Socket? && th.pc.h.conn == th.conn)
    && (if JoinTarget(s.loop) == Some(t) then Evicted(s, th)
        else Attached(s.slots[th.slot], t, th) &&
             if s.slots[th.slot].hasThread then Worked(s.loop) != Some(th.slot) else s.loop == Marking(th.slot, t))
  }

  predicate SlotOk(s: ServerState, i: nat)
    requires i < |s.slots|
  {
    var slot := s.slots[i];
    if slot.hasThread then
      slot.thread in s.threads && s.threads[slot.thread].slot == i && Worked(s.loop) != Some(i)
    else
      Worked(s.loop) != Some(i) ==> !slot.connected && !slot.s.Socket?
  }

  predicate JoinOk(s: ServerState, i: nat, join: Option<nat>)
    requires i < |s.slots|
  {
    !s.slots[i].s.Socket? && (join.Some? ==> join.value in s.threads && s.threads[join.value].slot == i)
  }

  predicate LoopOk(s: ServerState) {
    && (Worked(s.loop).Some? ==> Worked(s.loop).value < |s.slots|)
    && match s.loop
       case Accepting => true
       case WantPick(cs, _) => cs.Socket?
       case Picking(cs, _) => cs.Socket?
       case Rejecting(cs) => cs.Socket?
       case Reserved(cs, _, i, prev, join) => cs.Socket? && prev != Zeroed && (prev.Socket? ==> join.Some?) && JoinOk(s, i, join)
       case Joining(cs, _, i, join) => cs.Socket? && JoinOk(s, i, join)
       case Initing(cs, _, i) => cs.Socket? && !s.slots[i].s.Socket?
       case WantUndo(cs, i) => cs.Socket? && s.slots[i] == EMPTY
       case Undoing(cs, i) => cs.Socket? && s.slots[i] == EMPTY
       case Installing(cs, _, i) => cs.Socket? && s.slots[i] == EMPTY.(connected := true)
       case Spawning(i) => s.slots[i].s.Socket? && s.slots[i].connected
       case Marking(i, t) => t in s.threads && s.threads[t].slot == i && s.slots[i].thread == t
       case WantDrop(i) => s.slots[i].s.Socket?
       case Dropping(i) => s.slots[i].s.Socket?
       case DropClosing(i, h) => h.Socket? && s.slots[i].s == NoSocket
       case WantForget(i) => s.slots[i].s == NoSocket
       case Forgetting(i) => s.slots[i].s == NoSocket
  }

  ghost predicate Placed(s: ServerState) {
    && |s.slots| == MAX_CLIENTS
    && LoopOk(s)
    && (forall i: nat :: i < |s.slots| ==> SlotOk(s, i))
    && (forall t :: t in s.threads ==> ThreadOk(s, t))
  }

  /** The address a slot is serving or about to serve. */
  function Address(s: ServerState, i: nat): Option<int>
    requires i < |s.slots|
  {
    if Worked(s.loop) == Some(i) && (s.loop.Reserved? || s.loop.Joining? || s.loop.Initing? || s.loop.Installing?) then
      Some(s.loop.ip)
    else if s.slots[i].connected then Some(s.slots[i].ip)
    else None
  }

  ghost predicate DistinctAddresses(s: ServerState) {
    forall i: nat, j: nat :: i < |s.slots| && j < |s.slots| && Address(s, i).Some? && Address(s, i) == Address(s, j) ==> i == j
  }

  ghost predicate Safe(s: ServerState) {
    && Placed(s) && MutexOk(s) && DistinctAddresses(s) && Numbered(s)
    && exists own :: Owned(s, own)
  }

  // ---------------------------------------------------------------- what every step keeps

  /** No two threads are ever on the same slot. */
  lemma OneThreadPerSlot(s: ServerState, t: nat, u: nat)
    requires t in s.threads && ThreadOk(s, t) && u in s.threads && ThreadOk(s, u)
    requires s.threads[t].slot == s.threads[u].slot
    ensures t == u
  {
  }

  lemma ThreadKeepsSelf(s: ServerState, t: nat, out: Outcome)
    requires |s.slots| == MAX_CLIENTS
    requires t in s.threads && ThreadOk(s, t)
    requires ThreadNext(s, t, out).Some?
    ensures var n := ThreadNext(s, t, out).value; t in n.threads && ThreadOk(n, t)
  {
    hide ThreadNext, Attached, Evicted;
    if JoinTarget(s.loop) == Some(t) { EvictedKeepsSelf(s, t, out); } else { AttachedKeepsSelf(s, t, out); }
  }

  lemma EvictedKeepsSelf(s: ServerState, t: nat, out: Outcome)
    requires |s.slots| == MAX_CLIENTS
    requires t in s.threads && ThreadOk(s, t) && JoinTarget(s.loop) == Some(t)
    requires ThreadNext(s, t, out).Some?
    ensures var n := ThreadNext(s, t, out).value; t in n.threads && ThreadOk(n, t)
  {
  }

  lemma AttachedKeepsSelf(s: ServerState, t: nat, out: Outcome)
    requires |s.slots| == MAX_CLIENTS
    requires t in s.threads && ThreadOk(s, t) && JoinTarget(s.loop) != Some(t)
    requires ThreadNext(s, t, out).Some?
    ensures var n := ThreadNext(s, t, out).value; t in n.threads && ThreadOk(n, t)
  {
    hide Evicted, Close, IoCanSucceed;
  }

  lemma ThreadKeepsOther(s: ServerState, t: nat, out: Outcome, u: nat)
    requires |s.slots| == MAX_CLIENTS
    requires t in s.threads && u in s.threads && t != u && ThreadOk(s, u) && s.threads[t].slot != s.threads[u].slot
    requires ThreadNext(s, t, out).Some?
    ensures var n := ThreadNext(s, t, out).value; u in n.threads && ThreadOk(n, u)
  {
    hide Attached;
    var n := ThreadNext(s, t, out).value;
    assert n.threads[u] == s.threads[u] && n.slots[s.threads[u].slot] == s.slots[s.threads[u].slot] && n.loop == s.loop;
    assert n.fds.Keys <= s.fds.Keys && forall fd :: fd in n.fds ==> n.fds[fd] == s.fds[fd];
  }

  lemma ThreadKeepsSlot(s: ServerState, t: nat, out: Outcome, i: nat)
    requires |s.slots| == MAX_CLIENTS && i < MAX_CLIENTS
    requires t in s.threads && ThreadOk(s, t) && SlotOk(s, i)
    requires ThreadNext(s, t, out).Some?
    ensures SlotOk(ThreadNext(s, t, out).value, i)
  {
  }

  lemma ThreadKeepsLoop(s: ServerState, t: nat, out: Outcome)
    requires |s.slots| == MAX_CLIENTS && LoopOk(s)
    requires t in s.threads && ThreadOk(s, t)
    requires ThreadNext(s, t, out).Some?
    ensures LoopOk(ThreadNext(s, t, out).value)
  {
  }

  lemma PlacedByThread(s: ServerState, t: nat, out: Outcome)
    requires Placed(s) && ThreadNext(s, t, out).Some?
    ensures Placed(ThreadNext(s, t, out).value)
  {
    hide LoopOk, ThreadOk, SlotOk, Close, IoCanSucceed;
    var n := ThreadNext(s, t, out).value;
    ThreadKeepsLoop(s, t, out);
    forall i: nat | i < MAX_CLIENTS ensures SlotOk(n, i) { ThreadKeepsSlot(s, t, out, i); }
    assert n.threads.Keys == s.threads.Keys;
    forall u | u in n.threads ensures ThreadOk(n, u) {
      if u == t {
        ThreadKeepsSelf(s, t, out);
      } else {
        if s.threads[t].slot == s.threads[u].slot { OneThreadPerSlot(s, t, u); }
        ThreadKeepsOther(s, t, out, u);
      }
    }
  }

  /** What handing slot `i` over to the connection `cs` needs to know. */
  predicate Takes(s: ServerState, i: nat, takeSocket: bool) {
    && s.loop.Picking? && s.loop.cs.Socket?
    && i < |s.slots| && SlotOk(s, i)
    && (s.slots[i].hasThread ==> ThreadOk(s, s.slots[i].thread))
    && takeSocket == s.slots[i].connected
  }

  lemma ReserveKeepsThread(s: ServerState, ip: int, i: nat, takeSocket: bool, u: nat)
    requires Takes(s, i, takeSocket)
    requires u in s.threads && ThreadOk(s, u)
    ensures ThreadOk(Reserve(s, s.loop.cs, ip, i, takeSocket), u)
  {
  }

  lemma ReserveKeepsSlot(s: ServerState, ip: int, i: nat, takeSocket: bool, k: nat)
    requires Takes(s, i, takeSocket)
    requires k < |s.slots| && SlotOk(s, k)
    ensures SlotOk(Reserve(s, s.loop.cs, ip, i, takeSocket), k)
  {
  }

  lemma ReserveKeepsLoop(s: ServerState, ip: int, i: nat, takeSocket: bool)
    requires Takes(s, i, takeSocket)
    ensures LoopOk(Reserve(s, s.loop.cs, ip, i, takeSocket))
  {
  }

  lemma PlacedByReserve(s: ServerState, ip: int, i: nat, takeSocket: bool)
    requires Placed(s) && Takes(s, i, takeSocket)
    ensures Placed(Reserve(s, s.loop.cs, ip, i, takeSocket))
  {
    hide LoopOk, ThreadOk, SlotOk;
    var n := Reserve(s, s.loop.cs, ip, i, takeSocket);
    ReserveKeepsLoop(s, ip, i, takeSocket);
    forall k: nat | k < MAX_CLIENTS ensures SlotOk(n, k) { ReserveKeepsSlot(s, ip, i, takeSocket, k); }
    forall u | u in n.threads ensures ThreadOk(n, u) { ReserveKeepsThread(s, ip, i, takeSocket, u); }
  }

  lemma LoopKeepsThread(s: ServerState, choice: bool, u: nat)
    requires |s.slots| == MAX_CLIENTS && LoopOk(s) && !s.loop.Picking?
    requires LoopNext(s, choice).Some?
    requires u in s.threads && ThreadOk(s, u) && s.threads[u].slot < MAX_CLIENTS && SlotOk(s, s.threads[u].slot)
    requires u in LoopNext(s, choice).value.threads && u < s.nextThread
    ensures ThreadOk(LoopNext(s, choice).value, u)
  {
    hide PickSlot;
  }

  lemma LoopKeepsSlot(s: ServerState, choice: bool, i: nat)
    requires |s.slots| == MAX_CLIENTS && LoopOk(s) && !s.loop.Picking?
    requires LoopNext(s, choice).Some?
    requires i < MAX_CLIENTS && SlotOk(s, i)
    requires forall t :: t in s.threads ==> t < s.nextThread
    ensures SlotOk(LoopNext(s, choice).value, i)
  {
  }

  lemma LoopKeepsLoop(s: ServerState, choice: bool)
    requires |s.slots| == MAX_CLIENTS && LoopOk(s) && !s.loop.Picking?
    requires LoopNext(s, choice).Some?
    ensures LoopOk(LoopNext(s, choice).value)
  {
  }

  lemma ThreadStarted(s: ServerState)
    requires |s.slots| == MAX_CLIENTS && LoopOk(s) && s.loop.Spawning? && SlotOk(s, s.loop.i)
    ensures var n := LoopNext(s, true).value; s.nextThread in n.threads && ThreadOk(n, s.nextThread)
  {
  }

  lemma RejectKeepsThread(s: ServerState, u: nat)
    requires s.loop.Picking? && u in s.threads && ThreadOk(s, u)
    ensures ThreadOk(s.(mutex := Nobody, loop := Rejecting(s.loop.cs)), u)
  {
  }

  lemma PlacedByReject(s: ServerState)
    requires Placed(s) && s.loop.Picking?
    ensures Placed(s.(mutex := Nobody, loop := Rejecting(s.loop.cs)))
  {
    hide ThreadOk;
    var n := s.(mutex := Nobody, loop := Rejecting(s.loop.cs));
    forall i: nat | i < MAX_CLIENTS ensures SlotOk(n, i) { assert SlotOk(s, i); }
    forall u | u in n.threads ensures ThreadOk(n, u) { RejectKeepsThread(s, u); }
  }

  lemma PlacedByPick(s: ServerState, choice: bool)
    requires Placed(s) && s.loop.Picking?
    ensures Placed(PickSlot(s, s.loop.cs, s.loop.ip, choice))
  {
    hide ThreadOk, Reserve;
    var same, free := FirstSame(s.slots, s.loop.ip, 0), FirstFree(s.slots, 0);
    if same < |s.slots| {
      assert SlotOk(s, same);
      PlacedByReserve(s, s.loop.ip, same, true);
    } else if choice && free < |s.slots| {
      assert SlotOk(s, free);
      PlacedByReserve(s, s.loop.ip, free, false);
    } else {
      PlacedByReject(s);
    }
  }

  lemma PlacedByLoop(s: ServerState, choice: bool)
    requires Placed(s) && Numbered(s) && LoopNext(s, choice).Some?
    ensures Placed(LoopNext(s, choice).value)
  {
    hide ThreadOk, SlotOk, PickSlot;
    var n := LoopNext(s, choice).value;
    if s.loop.Picking? {
      PlacedByPick(s, choice);
    } else {
      LoopKeepsLoop(s, choice);
      forall i: nat | i < MAX_CLIENTS ensures SlotOk(n, i) { LoopKeepsSlot(s, choice, i); }
      forall u | u in n.threads ensures ThreadOk(n, u) {
        if u in s.threads {
          assert s.threads[u].slot < MAX_CLIENTS by { SlotInRange(s, u); }
          LoopKeepsThread(s, choice, u);
        } else {
          ThreadStarted(s);
        }
      }
    }
  }

  lemma SlotInRange(s: ServerState, t: nat)
    requires t in s.threads && ThreadOk(s, t)
    ensures s.threads[t].slot < |s.slots|
  {
  }

  lemma OtherKeepsThread(s: ServerState, n: ServerState, u: nat)
    requires u in s.threads && ThreadOk(s, u)
    requires n.slots == s.slots && n.threads == s.threads
    requires n.loop == s.loop || (s.loop.Accepting? && n.loop.WantPick?)
    requires s.loop != Accepting ==> forall fd :: fd in n.fds && n.fds[fd].Conn? ==> fd in s.fds && s.fds[fd] == n.fds[fd]
    ensures ThreadOk(n, u)
  {
  }

  lemma PlacedByOther(s: ServerState, a: Action)
    requires Placed(s) && Next(s, a).Some? && !a.LoopStep? && !a.ThreadStep?
    ensures Placed(Next(s, a).value)
  {
    hide ThreadOk;
    var n := Next(s, a).value;
    forall i: nat | i < MAX_CLIENTS ensures SlotOk(n, i) { assert SlotOk(s, i); }
    forall u | u in n.threads ensures ThreadOk(n, u) { OtherKeepsThread(s, n, u); }
  }

  lemma PlacedKept(s: ServerState, a: Action)
    requires Placed(s) && Numbered(s) && Next(s, a).Some?
    ensures Placed(Next(s, a).value)
  {
    hide LoopOk, ThreadOk, SlotOk, LoopNext, ThreadNext;
    match a
    case LoopStep(choice) => PlacedByLoop(s, choice);
    case ThreadStep(t, out) => PlacedByThread(s, t, out);
    case _ => PlacedByOther(s, a);
  }

  // ---------------------------------------------------------------- mutex, numbers, addresses

  lemma MutexByLoop(s: ServerState, choice: bool)
    requires |s.slots| == MAX_CLIENTS && MutexOk(s) && LoopNext(s, choice).Some?
    requires forall t :: t in s.threads ==> t < s.nextThread
    ensures MutexOk(LoopNext(s, choice).value)
  {
    hide Close, PickSlot;
    if s.loop.Picking? { PickFreesMutex(s, s.loop.cs, s.loop.ip, choice); }
  }

  lemma PickFreesMutex(s: ServerState, cs: Handle, ip: int, allowed: bool)
    ensures var n := PickSlot(s, cs, ip, allowed); n.mutex == Nobody && !Locking(n.loop) && n.threads == s.threads
  {
    hide FirstSame, FirstFree;
  }

  lemma MutexByThread(s: ServerState, t: nat, out: Outcome)
    requires |s.slots| == MAX_CLIENTS && MutexOk(s) && ThreadNext(s, t, out).Some?
    ensures MutexOk(ThreadNext(s, t, out).value)
  {
    hide Close, IoCanSucceed, Locking;
  }

  lemma MutexKept(s: ServerState, a: Action)
    requires |s.slots| == MAX_CLIENTS && MutexOk(s) && Numbered(s) && Next(s, a).Some?
    ensures MutexOk(Next(s, a).value)
  {
    hide LoopNext, ThreadNext;
    match a
    case LoopStep(choice) => MutexByLoop(s, choice);
    case ThreadStep(t, out) => MutexByThread(s, t, out);
    case _ =>
  }

  lemma FewerNumbered(s: ServerState, n: ServerState)
    requires Numbered(s) && n.nextConn == s.nextConn
    requires forall fd :: fd in n.fds && n.fds[fd].Conn? ==> fd in s.fds && s.fds[fd] == n.fds[fd]
    requires s.nextThread <= n.nextThread && forall t :: t in n.threads ==> t in s.threads || t < n.nextThread
    ensures Numbered(n)
  {
  }

  lemma PickKeepsNumbers(s: ServerState, cs: Handle, ip: int, allowed: bool)
    ensures var n := PickSlot(s, cs, ip, allowed); n.fds == s.fds && n.nextConn == s.nextConn && n.threads == s.threads && n.nextThread == s.nextThread
  {
    hide FirstSame, FirstFree;
  }

  lemma NumberedByLoop(s: ServerState, choice: bool)
    requires |s.slots| == MAX_CLIENTS && Numbered(s) && LoopNext(s, choice).Some?
    ensures Numbered(LoopNext(s, choice).value)
  {
    hide Numbered, PickSlot;
    if s.loop.Picking? { PickKeepsNumbers(s, s.loop.cs, s.loop.ip, choice); }
    assert (forall t :: t in s.threads ==> t < s.nextThread) by { ThreadsNumbered(s); }
    FewerNumbered(s, LoopNext(s, choice).value);
  }

  lemma ThreadsNumbered(s: ServerState)
    requires Numbered(s)
    ensures forall t :: t in s.threads ==> t < s.nextThread
  {
  }

  lemma NumberedByThread(s: ServerState, t: nat, out: Outcome)
    requires |s.slots| == MAX_CLIENTS && Numbered(s) && ThreadNext(s, t, out).Some?
    ensures Numbered(ThreadNext(s, t, out).value)
  {
    hide Numbered, IoCanSucceed;
    FewerNumbered(s, ThreadNext(s, t, out).value);
  }

  lemma NumberedKept(s: ServerState, a: Action)
    requires |s.slots| == MAX_CLIENTS && Numbered(s) && Next(s, a).Some?
    ensures Numbered(Next(s, a).value)
  {
    hide LoopNext, ThreadNext;
    match a
    case LoopStep(choice) => NumberedByLoop(s, choice);
    case ThreadStep(t, out) => NumberedByThread(s, t, out);
    case _ =>
  }

  lemma ReserveAddress(s: ServerState, i: nat, takeSocket: bool)
    requires |s.slots| == MAX_CLIENTS && DistinctAddresses(s) && s.loop.Picking? && i < |s.slots|
    requires forall k: nat :: k < |s.slots| && s.slots[k].connected && s.slots[k].ip == s.loop.ip ==> k == i
    ensures DistinctAddresses(Reserve(s, s.loop.cs, s.loop.ip, i, takeSocket))
  {
    var n := Reserve(s, s.loop.cs, s.loop.ip, i, takeSocket);
    assert forall k: nat :: k < |s.slots| ==> Address(n, k) == if k == i then Some(s.loop.ip) else Address(s, k);
  }

  lemma PickAddress(s: ServerState, choice: bool)
    requires |s.slots| == MAX_CLIENTS && DistinctAddresses(s) && s.loop.Picking?
    ensures DistinctAddresses(PickSlot(s, s.loop.cs, s.loop.ip, choice))
  {
    hide Reserve;
    var same, free := FirstSame(s.slots, s.loop.ip, 0), FirstFree(s.slots, 0);
    if same < |s.slots| {
      forall k: nat | k < |s.slots| && s.slots[k].connected && s.slots[k].ip == s.loop.ip ensures k == same {
        assert Address(s, k) == Address(s, same) == Some(s.loop.ip);
      }
      ReserveAddress(s, same, true);
    } else if choice && free < |s.slots| {
      ReserveAddress(s, free, false);
    } else {
      var n := PickSlot(s, s.loop.cs, s.loop.ip, choice);
      assert forall k: nat :: k < |s.slots| ==> Address(n, k) == Address(s, k);
    }
  }

  lemma AddressByLoop(s: ServerState, choice: bool, k: nat)
    requires |s.slots| == MAX_CLIENTS && LoopOk(s) && LoopNext(s, choice).Some? && !s.loop.Picking? && k < MAX_CLIENTS
    ensures var n := LoopNext(s, choice).value; |n.slots| == MAX_CLIENTS && Address(n, k) in {None, Address(s, k)}
  {
    hide PickSlot, Close;
  }

  lemma AddressByThread(s: ServerState, t: nat, out: Outcome, k: nat)
    requires |s.slots| == MAX_CLIENTS && ThreadNext(s, t, out).Some? && k < MAX_CLIENTS
    ensures var n := ThreadNext(s, t, out).value; |n.slots| == MAX_CLIENTS && Address(n, k) in {None, Address(s, k)}
  {
    hide Close, IoCanSucceed;
  }

  lemma SlotCount(s: ServerState, a: Action)
    requires |s.slots| == MAX_CLIENTS && Next(s, a).Some?
    ensures |Next(s, a).value.slots| == MAX_CLIENTS
  {
    hide FirstSame, FirstFree, Close, IoCanSucceed;
  }

  lemma AddressesKept(s: ServerState, a: Action)
    requires |s.slots| == MAX_CLIENTS && LoopOk(s) && DistinctAddresses(s) && Next(s, a).Some?
    ensures DistinctAddresses(Next(s, a).value)
  {
    hide PickSlot, DistinctAddresses, ThreadNext;
    var n := Next(s, a).value;
    if a.LoopStep? && s.loop.Picking? {
      PickAddress(s, a.choice);
    } else {
      hide LoopNext, LoopOk;
      SlotCount(s, a);
      forall k: nat | k < MAX_CLIENTS ensures Address(n, k) in {None, Address(s, k)} {
        match a
        case LoopStep(choice) => AddressByLoop(s, choice, k);
        case ThreadStep(t, out) => AddressByThread(s, t, out, k);
        case _ =>
      }
      FewerAddresses(s, n);
    }
  }

  lemma FewerAddresses(s: ServerState, n: ServerState)
    requires |s.slots| == |n.slots| == MAX_CLIENTS && DistinctAddresses(s)
    requires forall k: nat :: k < |s.slots| ==> Address(n, k) in {None, Address(s, k)}
    ensures DistinctAddresses(n)
  {
  }

  // ---------------------------------------------------------------- ownership

  lemma SameOwner(s: ServerState, n: ServerState, own: map<nat, SocketPlace>)
    requires Owned(s, own)
    requires forall p :: Held(n, p) == Held(s, p) || (!Held(n, p).Socket? && !Held(s, p).Socket?)
    requires forall fd :: fd in n.fds && n.fds[fd].Conn? ==> fd in s.fds && s.fds[fd] == n.fds[fd]
    requires forall fd :: fd in s.fds && s.fds[fd].Conn? ==> fd in n.fds && s.fds[fd] == n.fds[fd]
    ensures Owned(n, own)
  {
  }

  /** A socket changes hands: what was at `p` is now at `q`. */
  lemma MovedOwner(s: ServerState, n: ServerState, own: map<nat, SocketPlace>, p: SocketPlace, q: SocketPlace) returns (owner: map<nat, SocketPlace>)
    requires Owned(s, own) && n.fds == s.fds && p != q
    requires Held(n, q) == Held(s, p) && !Held(n, p).Socket? && !Held(s, q).Socket?
    requires forall r :: r != p && r != q ==> Held(n, r) == Held(s, r)
    ensures Owned(n, owner)
  {
    owner := if Held(s, p).Socket? then own[Held(s, p).fd := q] else own;
  }

  /** The holder closes its socket. */
  lemma ClosedOwner(s: ServerState, n: ServerState, own: map<nat, SocketPlace>, p: SocketPlace) returns (owner: map<nat, SocketPlace>)
    requires Owned(s, own) && n.fds == Close(s.fds, Held(s, p)) && Held(s, p) != Zeroed
    requires !Held(n, p).Socket?
    requires forall r :: r != p ==> Held(n, r) == Held(s, r)
    ensures Owned(n, owner)
  {
    owner := if Held(s, p).Socket? then own - {Held(s, p).fd} else own;
  }

  lemma OwnedByPick(s: ServerState, choice: bool, own: map<nat, SocketPlace>) returns (owner: map<nat, SocketPlace>)
    requires |s.slots| == MAX_CLIENTS && Owned(s, own) && s.loop.Picking?
    requires forall i: nat :: i < MAX_CLIENTS && !s.slots[i].connected ==> !s.slots[i].s.Socket?
    ensures Owned(PickSlot(s, s.loop.cs, s.loop.ip, choice), owner)
  {
    hide Owned;
    var n := PickSlot(s, s.loop.cs, s.loop.ip, choice);
    if FirstSame(s.slots, s.loop.ip, 0) < |s.slots| {
      owner := MovedOwner(s, n, own, InSlot(n.loop.i), PrevOfLoop);
    } else {
      owner := own;
      SameOwner(s, n, own);
    }
  }

  /** The steps of the accept loop that close a socket or hand one over. */
  predicate Transfers(l: LoopPc) {
    l.Picking? || l.Rejecting? || l.Reserved? || l.DropClosing? || l.Installing? || l.Dropping?
  }

  lemma OwnedByTransfer(s: ServerState, choice: bool, own: map<nat, SocketPlace>) returns (owner: map<nat, SocketPlace>)
    requires |s.slots| == MAX_CLIENTS && LoopOk(s) && Owned(s, own) && Transfers(s.loop) && !s.loop.Picking?
    ensures LoopNext(s, choice).Some? && Owned(LoopNext(s, choice).value, owner)
  {
    hide Owned, PickSlot, Close;
    var n := LoopNext(s, choice).value;
    match s.loop
    case Rejecting(_) => owner := ClosedOwner(s, n, own, NewOfLoop);
    case Reserved(_, _, _, _, _) => owner := ClosedOwner(s, n, own, PrevOfLoop);
    case DropClosing(_, _) => owner := ClosedOwner(s, n, own, PrevOfLoop);
    case Installing(_, _, i) => owner := MovedOwner(s, n, own, NewOfLoop, InSlot(i));
    case Dropping(i) => owner := MovedOwner(s, n, own, InSlot(i), PrevOfLoop);
  }

  lemma HandsKept(s: ServerState, choice: bool)
    requires |s.slots| == MAX_CLIENTS && LoopNext(s, choice).Some? && !Transfers(s.loop)
    ensures var n := LoopNext(s, choice).value;
      NewOf(n.loop) == NewOf(s.loop) && PrevOf(s.loop) == PrevOf(n.loop) == NoSocket && n.fds == s.fds && |n.slots| == MAX_CLIENTS
  {
    hide PickSlot, Close;
  }

  lemma SlotSocketKept(s: ServerState, choice: bool, i: nat)
    requires |s.slots| == MAX_CLIENTS && LoopOk(s) && LoopNext(s, choice).Some? && !Transfers(s.loop)
    ensures var n, p := LoopNext(s, choice).value, InSlot(i); Held(n, p) == Held(s, p) || (!Held(n, p).Socket? && !Held(s, p).Socket?)
  {
    hide PickSlot, Close;
  }

  lemma ThreadSocketKept(s: ServerState, choice: bool, t: nat)
    requires |s.slots| == MAX_CLIENTS && LoopNext(s, choice).Some? && !Transfers(s.loop)
    requires forall t :: t in s.threads ==> t < s.nextThread
    ensures var n, p := LoopNext(s, choice).value, InThread(t); Held(n, p) == Held(s, p) || (!Held(n, p).Socket? && !Held(s, p).Socket?)
  {
    hide PickSlot, Close;
  }

  lemma OwnedByLoop(s: ServerState, choice: bool, own: map<nat, SocketPlace>)
    requires |s.slots| == MAX_CLIENTS && LoopOk(s) && Owned(s, own) && LoopNext(s, choice).Some? && !Transfers(s.loop)
    requires forall t :: t in s.threads ==> t < s.nextThread
    ensures Owned(LoopNext(s, choice).value, own)
  {
    hide Owned, LoopNext, LoopOk, Transfers;
    var n := LoopNext(s, choice).value;
    HandsKept(s, choice);
    forall p ensures Held(n, p) == Held(s, p) || (!Held(n, p).Socket? && !Held(s, p).Socket?) {
      match p
      case InSlot(i) => SlotSocketKept(s, choice, i);
      case InThread(t) => ThreadSocketKept(s, choice, t);
      case _ =>
    }
    SameOwner(s, n, own);
  }

  lemma OwnedByThread(s: ServerState, t: nat, out: Outcome, own: map<nat, SocketPlace>) returns (owner: map<nat, SocketPlace>)
    requires |s.slots| == MAX_CLIENTS && t in s.threads && ThreadOk(s, t)
    requires Owned(s, own) && ThreadNext(s, t, out).Some?
    ensures Owned(ThreadNext(s, t, out).value, owner)
  {
    hide Owned, Close, IoCanSucceed, Attached, Evicted, Worked, JoinTarget;
    var n := ThreadNext(s, t, out).value;
    match s.threads[t].pc
    case Taking => owner := MovedOwner(s, n, own, InSlot(s.threads[t].slot), InThread(t));
    case Closing(_) => owner := ClosedOwner(s, n, own, InThread(t));
    case _ =>
      owner := own;
      SameOwner(s, n, own);
  }

  lemma OwnedByOther(s: ServerState, a: Action, own: map<nat, SocketPlace>) returns (owner: map<nat, SocketPlace>)
    requires |s.slots| == MAX_CLIENTS && Owned(s, own) && Next(s, a).Some? && !a.LoopStep? && !a.ThreadStep?
    ensures Owned(Next(s, a).value, owner)
  {
    var n := Next(s, a).value;
    if a.Accept? {
      assert forall p :: p != NewOfLoop ==> Held(n, p) == Held(s, p);
      owner := own[a.fd := NewOfLoop];
    } else {
      owner := own;
      SameOwner(s, n, own);
    }
  }

  lemma OwnedKept(s: ServerState, a: Action, own: map<nat, SocketPlace>) returns (owner: map<nat, SocketPlace>)
    requires Placed(s) && Numbered(s) && Owned(s, own) && Next(s, a).Some?
    ensures Owned(Next(s, a).value, owner)
  {
    hide ThreadNext, Owned, PickSlot, ThreadOk, LoopOk;
    match a
    case LoopStep(choice) =>
      if s.loop.Picking? {
        forall i: nat | i < MAX_CLIENTS && !s.slots[i].connected ensures !s.slots[i].s.Socket? { FreeSlot(s, i); }
        owner := OwnedByPick(s, choice, own);
      } else if Transfers(s.loop) {
        owner := OwnedByTransfer(s, choice, own);
      } else {
        owner := own;
        OwnedByLoop(s, choice, own);
      }
    case ThreadStep(t, out) =>
      assert t in s.threads by { InThreads(s, t, out); }
      owner := OwnedByThread(s, t, out, own);
    case _ => owner := OwnedByOther(s, a, own);
  }

  lemma InThreads(s: ServerState, t: nat, out: Outcome)
    requires |s.slots| == MAX_CLIENTS && ThreadNext(s, t, out).Some?
    ensures t in s.threads
  {
  }

  /** A slot that is not connected and not being worked on holds no socket. */
  lemma FreeSlot(s: ServerState, i: nat)
    requires Placed(s) && i < MAX_CLIENTS && !s.slots[i].connected && Worked(s.loop) != Some(i)
    ensures !s.slots[i].s.Socket?
  {
    hide LoopOk;
    assert SlotOk(s, i);
    if s.slots[i].hasThread { assert ThreadOk(s, s.slots[i].thread); }
  }

  lemma InPlace(s: ServerState)
    requires Placed(s)
    ensures |s.slots| == MAX_CLIENTS && LoopOk(s)
  {
  }

  /** Every step of every part keeps the whole invariant. */
  lemma SafeKept(s: ServerState, a: Action)
    requires Safe(s) && Next(s, a).Some?
    ensures Safe(Next(s, a).value)
  {
    hide Next, Placed, DistinctAddresses, Numbered, Owned, MutexOk;
    var own :| Owned(s, own);
    assert |s.slots| == MAX_CLIENTS && LoopOk(s) by { InPlace(s); }
    PlacedKept(s, a);
    MutexKept(s, a);
    NumberedKept(s, a);
    AddressesKept(s, a);
    var owner := OwnedKept(s, a, own);
  }

  lemma SafeAtStart(files: set<nat>)
    ensures Safe(Init(files))
  {
    assert Owned(Init(files), map[]);
  }

  // ---------------------------------------------------------------- what a safe state promises

  /**
   When `initialize_client` runs on a slot, no thread that is still there has anything to do with
   that slot; and a slot never has two threads.
   */
  lemma InitOnFreeSlot(s: ServerState, i: nat)
    requires Safe(s) && Worked(s.loop) == Some(i) && !s.loop.Reserved? && !s.loop.Joining? && !s.loop.Marking?
    ensures forall t :: t in s.threads ==> s.threads[t].slot != i
  {
    hide DistinctAddresses, Numbered, Owned, MutexOk;
    forall t | t in s.threads ensures s.threads[t].slot != i { assert ThreadOk(s, t); }
  }

  /** Between two connections the slot table means what it says. */
  lemma AtLoopHead(s: ServerState, i: nat, j: nat)
    requires Safe(s) && s.loop.Accepting? && i < MAX_CLIENTS && j < MAX_CLIENTS
    ensures s.slots[i].connected ==> s.slots[i].hasThread
    ensures s.slots[i].hasThread ==>
      s.slots[i].thread in s.threads && (s.slots[i].connected <==> !Leaving(s.threads[s.slots[i].thread].pc))
    ensures !s.slots[i].connected ==> !s.slots[i].s.Socket?
    ensures i != j && s.slots[i].connected && s.slots[j].connected ==> s.slots[i].ip != s.slots[j].ip
  {
    hide Numbered, Owned, MutexOk;
    assert SlotOk(s, i);
    if s.slots[i].hasThread { assert ThreadOk(s, s.slots[i].thread); }
    assert Address(s, i) == Address(s, j) && Address(s, i).Some? ==> i == j;
  }

  /**
   A client thread that goes into a system call with a number it read before does it on its own
   connection or the call fails: never on the socket of another connection, however numbers are reused.
   */
  lemma NoForeignIo(s: ServerState, t: nat)
    requires Safe(s) && t in s.threads && InCall(s.threads[t].pc) && IoCanSucceed(s, s.threads[t].pc.h)
    ensures s.fds[s.threads[t].pc.h.fd] == Conn(s.threads[t].conn)
  {
    hide DistinctAddresses, Numbered, MutexOk, LoopOk;
    assert ThreadOk(s, t);
    var h, own :| h == s.threads[t].pc.h && Owned(s, own);
    assert Held(s, InSlot(s.threads[t].slot)) == h || Held(s, PrevOfLoop) == h;
  }

  /** The handle that a step passes to `closesocket`. */
  function ClosedBy(s: ServerState, a: Action): Handle {
    match a
    case LoopStep(_) =>
      (match s.loop case Rejecting(cs) => cs case Reserved(_, _, _, prev, _) => prev case DropClosing(_, h) => h case _ => NoSocket)
    case ThreadStep(t, _) => if t in s.threads && s.threads[t].pc.Closing? then s.threads[t].pc.h else NoSocket
    case _ => NoSocket
  }

  /** Whoever closes a number closes the connection it was given for that number, never a recycled one. */
  lemma ClosesItsOwn(s: ServerState, a: Action)
    requires Safe(s) && Next(s, a).Some? && ClosedBy(s, a) != NoSocket
    ensures var h := ClosedBy(s, a);
      h.Socket? && h.fd in s.fds && s.fds[h.fd] == Conn(h.conn) && Next(s, a).value.fds == s.fds - {h.fd}
  {
    hide DistinctAddresses, Numbered, MutexOk;
    var own :| Owned(s, own);
    match a
    case LoopStep(_) =>
      assert Held(s, NewOfLoop) == ClosedBy(s, a) || Held(s, PrevOfLoop) == ClosedBy(s, a);
    case ThreadStep(t, _) =>
      assert ThreadOk(s, t);
      assert Held(s, InThread(t)) == ClosedBy(s, a);
    case _ =>
  }
}
