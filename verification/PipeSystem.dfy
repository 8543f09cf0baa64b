// Any number of threads writing to and reading from one kernel pipe, interleaved at every point where
// shared state is touched. The pipe is a ring of bytes guarded by a mutex and by two semaphores, and each
// semaphore is guarded by a mutex of its own.
module PipeSystem {
  import opened Wrappers
  import opened WaitTable
  import opened Counting
  import M = Mutex
  import S = Semaphore
  import R = PipeRing

  datatype Role = Writer | Reader

  /** Where a thread is in writePipe or readPipe. A is the semaphore it waits on, B the one it signals. */
  datatype Pc =
    | LoopTop   // about to test whether bytes are left
    | WantA     // about to take A's mutex
    | QueueA    // waiting for A's mutex
    | HoldA     // about to decrement A
    | DecA      // decremented; about to test the value
    | PassA     // got a permit; about to release A's mutex
    | ParkA     // in A's waiter table; about to release A's mutex
    | Blocked   // waiting to be woken by a signal
    | WantP     // about to take the pipe's mutex
    | QueueP    // waiting for it
    | HoldP     // about to copy a byte
    | CopiedP   // copied; about to advance the index
    | DoneP     // about to release the pipe's mutex
    | WantB     // about to take B's mutex
    | QueueB    // waiting for it
    | HoldB     // about to wake a waiter of B
    | WokenB    // about to increment B
    | DoneB     // about to release B's mutex

  /** `todo` are the bytes a writer still has to write; `wanted` is how many a reader still asks for. */
  datatype Thread = Thread(role: Role, pc: Pc, todo: seq<bv8>, wanted: nat, byte: bv8)

  /** Mutexes 0 and 1 belong to the write and read semaphores, mutex 2 to the pipe. The sequences
      `written` and `read` record every byte that ever went in and out. */
  datatype State = State(
    mutexes: seq<M.MutexState>,
    sems: seq<S.SemState>,
    ring: R.Ring,
    threads: seq<Thread>,
    written: seq<bv8>,
    read: seq<bv8>)

  const PIPE: nat := 2

  function SemA(th: Thread): nat { if th.role == Writer then 0 else 1 }

  function SemB(th: Thread): nat { 1 - SemA(th) }

  // --- What a thread is doing, as seen by each mutex and each semaphore -----------------------------

  function PhaseOf(th: Thread, k: nat): M.Phase {
    match th.pc
    case QueueA => if k == SemA(th) then M.Waiting else M.Outside
    case HoldA | DecA | PassA | ParkA => if k == SemA(th) then M.Inside else M.Outside
    case QueueP => if k == PIPE then M.Waiting else M.Outside
    case HoldP | CopiedP | DoneP => if k == PIPE then M.Inside else M.Outside
    case QueueB => if k == SemB(th) then M.Waiting else M.Outside
    case HoldB | WokenB | DoneB => if k == SemB(th) then M.Inside else M.Outside
    case _ => M.Outside
  }

  function Phases(ts: seq<Thread>, k: nat): (p: seq<M.Phase>)
    ensures |p| == |ts|
  {
    if ts == [] then [] else Phases(ts[..|ts| - 1], k) + [PhaseOf(ts[|ts| - 1], k)]
  }

  /** A thread's standing with the semaphores: parked on one, between its decrement and the test, holding
      a permit not yet used, owing a signal, or between waking a waiter and the increment. */
  datatype Standing = Neutral | Parked(s: nat) | Deciding(s: nat) | Permitted(s: nat) | Owing(s: nat) | Waking(s: nat)

  function StandingOf(th: Thread): Standing {
    match th.pc
    case ParkA | Blocked => Parked(SemA(th))
    case DecA => Deciding(SemA(th))
    case PassA | WantP | QueueP | HoldP | CopiedP => Permitted(SemA(th))
    case DoneP | WantB | QueueB | HoldB => Owing(SemB(th))
    case WokenB => Waking(SemB(th))
    case _ => Neutral
  }

  function Standings(ts: seq<Thread>): (p: seq<Standing>)
    ensures |p| == |ts|
  {
    if ts == [] then [] else Standings(ts[..|ts| - 1]) + [StandingOf(ts[|ts| - 1])]
  }

  // --- The steps of one thread -------------------------------------------------------------------------

  predicate Formed(s: State) { |s.mutexes| == 3 && |s.sems| == 2 && |s.ring.cells| > 0 }

  predicate SameShape(s: State, s': State) {
    |s'.mutexes| == |s.mutexes| && |s'.sems| == |s.sems| && |s'.ring.cells| == |s.ring.cells|
  }

  function SetPc(s: State, t: nat, pc: Pc): (s': State)
    requires t < |s.threads|
    ensures SameShape(s, s')
  {
    s.(threads := s.threads[t := s.threads[t].(pc := pc)])
  }

  /** Thread t calls mutexDown on mutex k. */
  function TakeMutex(s: State, t: nat, k: nat, inside: Pc, queued: Pc): (s': State)
    requires Formed(s) && t < |s.threads| && k < 3
    ensures SameShape(s, s')
  {
    var r := M.Down(s.mutexes[k], t);
    match r.outcome
    case Refused => s
    case Acquired => SetPc(s.(mutexes := s.mutexes[k := r.m]), t, inside)
    case Queued => SetPc(s.(mutexes := s.mutexes[k := r.m]), t, queued)
  }

  /** Thread t calls mutexUp on mutex k; a thread that was queued for it now holds it. */
  function GiveMutex(s: State, t: nat, k: nat, next: Pc): (s': State)
    requires Formed(s) && t < |s.threads| && k < 3
    ensures SameShape(s, s')
  {
    var r := M.Up(s.mutexes[k], t);
    var s1 := SetPc(s.(mutexes := s.mutexes[k := r.m]), t, next);
    if r.woken.Some? && r.woken.value < |s.threads| then
      SetPc(s1, r.woken.value, HandedOver(s.threads[r.woken.value].pc))
    else s1
  }

  /** Where a queued thread continues once it has been given the mutex. */
  function HandedOver(pc: Pc): Pc {
    match pc
    case QueueA => HoldA
    case QueueP => HoldP
    case QueueB => HoldB
    case _ => pc
  }

  /** One step of thread t. A thread that is queued or blocked does not move by itself; one whose waiter
      table is full does not move either, since the kernel would kill it there. */
  function Next(s: State, t: nat): (s': State)
    requires Formed(s) && t < |s.threads|
    ensures SameShape(s, s')
  {
    var th := s.threads[t];
    var a, b := SemA(th), SemB(th);
    match th.pc
    case LoopTop => if (if th.role == Writer then th.todo != [] else th.wanted != 0) then SetPc(s, t, WantA) else s
    case WantA => TakeMutex(s, t, a, HoldA, QueueA)
    case HoldA => SetPc(s.(sems := s.sems[a := S.Decrement(s.sems[a])]), t, DecA)
    case DecA =>
      var r := S.Admit(s.sems[a], t);
      (match r.outcome
       case Passed => SetPc(s, t, PassA)
       case Parked => SetPc(s.(sems := s.sems[a := r.s]), t, ParkA)
       case Refused => s)
    case PassA => GiveMutex(s, t, a, WantP)
    case ParkA => GiveMutex(s, t, a, Blocked)
    case WantP => TakeMutex(s, t, PIPE, HoldP, QueueP)
    case HoldP => Copy(s, t)
    case CopiedP => Advance(s, t)
    case DoneP => GiveMutex(s, t, PIPE, WantB)
    case WantB => TakeMutex(s, t, b, HoldB, QueueB)
    case HoldB =>
      var r := S.Wake(s.sems[b]);
      var s1 := SetPc(s.(sems := s.sems[b := r.s]), t, WokenB);
      if r.woken.Some? && r.woken.value < |s.threads| then SetPc(s1, r.woken.value, WantP) else s1
    case WokenB => SetPc(s.(sems := s.sems[b := S.Increment(s.sems[b])]), t, DoneB)
    case DoneB => GiveMutex(s, t, b, LoopTop)
    case QueueA | QueueP | QueueB | Blocked => s
  }

  /** The byte moves between the thread's buffer and the ring. */
  function Copy(s: State, t: nat): (s': State)
    requires Formed(s) && t < |s.threads|
    ensures SameShape(s, s')
  {
    var th := s.threads[t];
    match th.role
    case Writer =>
      if th.todo == [] then s
      else
        var th' := th.(pc := CopiedP, byte := th.todo[0], todo := th.todo[1..]);
        s.(ring := R.Store(s.ring, th.todo[0]), threads := s.threads[t := th'])
    case Reader =>
      var th' := th.(pc := CopiedP, byte := R.Load(s.ring), wanted := if th.wanted == 0 then 0 else th.wanted - 1);
      s.(threads := s.threads[t := th'])
  }

  function Advance(s: State, t: nat): (s': State)
    requires Formed(s) && t < |s.threads|
    ensures SameShape(s, s')
  {
    var s1 := SetPc(s, t, DoneP);
    match s.threads[t].role
    case Writer => s1.(ring := R.AdvanceWrite(s.ring), written := s.written + [s.threads[t].byte])
    case Reader => s1.(ring := R.AdvanceRead(s.ring), read := s.read + [s.threads[t].byte])
  }

  // --- Invariants ----------------------------------------------------------------------------------------

  /** A semaphore agrees with the threads: its table holds the parked ones; its value is the room that no
      thread has claimed; and it holds a waiter for each unit below zero, up to a change under way. */
  ghost predicate SemOk(sem: S.SemState, st: seq<Standing>, a: nat, room: int) {
    && sem.blockedQuantity == Occupied(sem.blocked) == Count(st, Parked(a)) && Distinct(sem.blocked)
    && (forall t: nat | t < |st| :: st[t] == Parked(a) <==> Some(t) in sem.blocked)
    && (forall w | Some(w) in sem.blocked :: w < |st|)
    && sem.value == room - Count(st, Parked(a)) - Count(st, Deciding(a)) - Count(st, Permitted(a))
                    - Count(st, Owing(a)) - Count(st, Waking(a))
    && var deficit := -sem.value - Count(st, Deciding(a)) - Count(st, Waking(a));
       Occupied(sem.blocked) == if deficit > 0 then deficit else 0
  }

  /** Cells the write semaphore hands out are the free ones; those of the read semaphore are the unread bytes. */
  function Room(s: State, a: nat): int
    requires Formed(s)
  {
    var unread := |s.written| - |s.read|;
    if a == 0 then |s.ring.cells| - 1 - unread else unread
  }

  ghost predicate MutexesOk(s: State)
    requires Formed(s)
  {
    forall k | 0 <= k < 3 :: M.Agrees(s.mutexes[k], Phases(s.threads, k))
  }

  ghost predicate SemsOk(s: State)
    requires Formed(s)
  {
    forall a | 0 <= a < 2 :: SemOk(s.sems[a], Standings(s.threads), a, Room(s, a))
  }

  ghost predicate RingOk(s: State) {
    && R.Holds(s.ring, s.written, s.read)
    && forall t | 0 <= t < |s.threads| && s.threads[t].pc == CopiedP ::
         s.threads[t].byte == match s.threads[t].role
                              case Writer => s.ring.cells[s.ring.writeIndex]
                              case Reader => R.Load(s.ring)
  }

  ghost predicate Inv(s: State) {
    Formed(s) && MutexesOk(s) && SemsOk(s) && RingOk(s)
  }

  // --- Semaphore steps, on standings -----------------------------------------------------------------------

  predicate Concerns(x: Standing, a: nat) { x != Neutral && x.s == a }

  lemma CountsUpdate(st: seq<Standing>, t: nat, x: Standing, a: nat)
    requires t < |st|
    ensures forall c | c in {Parked(a), Deciding(a), Permitted(a), Owing(a), Waking(a)} ::
              Count(st[t := x], c) == Count(st, c) - (if st[t] == c then 1 else 0) + (if x == c then 1 else 0)
  {
    CountUpdate(st, t, x, Parked(a));
    CountUpdate(st, t, x, Deciding(a));
    CountUpdate(st, t, x, Permitted(a));
    CountUpdate(st, t, x, Owing(a));
    CountUpdate(st, t, x, Waking(a));
  }

  /** A change that does not concern a semaphore leaves it in order. */
  lemma UnconcernedOk(sem: S.SemState, st: seq<Standing>, a: nat, room: int, t: nat, x: Standing)
    requires SemOk(sem, st, a, room) && t < |st| && !Concerns(st[t], a) && !Concerns(x, a)
    ensures SemOk(sem, st[t := x], a, room)
  {
    CountsUpdate(st, t, x, a);
  }

  /** Nobody else is changing semaphore a. */
  ghost predicate Exclusive(st: seq<Standing>, a: nat, t: nat) {
    forall j | 0 <= j < |st| && j != t :: st[j] != Deciding(a) && st[j] != Waking(a)
  }

  lemma ExclusiveCounts(st: seq<Standing>, a: nat, t: nat)
    requires t < |st| && Exclusive(st, a, t)
    ensures Count(st, Deciding(a)) == if st[t] == Deciding(a) then 1 else 0
    ensures Count(st, Waking(a)) == if st[t] == Waking(a) then 1 else 0
  {
    CountOnly(st, t, Deciding(a));
    CountOnly(st, t, Waking(a));
  }

  lemma DecrementOk(sem: S.SemState, st: seq<Standing>, a: nat, room: int, t: nat)
    requires SemOk(sem, st, a, room) && t < |st| && st[t] == Neutral
    ensures SemOk(S.Decrement(sem), st[t := Deciding(a)], a, room)
  {
    CountsUpdate(st, t, Deciding(a), a);
  }

  lemma AdmitOk(sem: S.SemState, st: seq<Standing>, a: nat, room: int, t: nat)
    requires SemOk(sem, st, a, room) && t < |st| && st[t] == Deciding(a) && Exclusive(st, a, t)
    ensures var r := S.Admit(sem, t);
      match r.outcome
      case Passed => SemOk(sem, st[t := Permitted(a)], a, room)
      case Parked => SemOk(r.s, st[t := Parked(a)], a, room)
      case Refused => true
  {
    ExclusiveCounts(st, a, t);
    CountsUpdate(st, t, Permitted(a), a);
    CountsUpdate(st, t, Parked(a), a);
    var k := FirstUnused(sem.blocked, 0);
    if k < |sem.blocked| {
      FillSlot(sem.blocked, k, t);
    }
  }

  /** The waker owes one signal less and is about to increment; the woken thread now holds a permit. */
  lemma WakeOk(sem: S.SemState, st: seq<Standing>, a: nat, room: int, t: nat)
    requires SemOk(sem, st, a, room) && t < |st| && st[t] == Owing(a) && Exclusive(st, a, t)
    ensures var r := S.Wake(sem);
      match r.woken
      case None => SemOk(r.s, st[t := Waking(a)], a, room)
      case Some(w) =>
        w < |st| && w != t && st[w] == Parked(a) && SemOk(r.s, st[t := Waking(a)][w := Permitted(a)], a, room)
  {
    OccupiedZero(sem.blocked);
    ExclusiveCounts(st, a, t);
    var st1 := st[t := Waking(a)];
    CountsUpdate(st, t, Waking(a), a);
    var k := FirstUsed(sem.blocked, 0);
    if k < |sem.blocked| {
      assert sem.blocked[k] in sem.blocked;
      var w := sem.blocked[k].value;
      ClearSlot(sem.blocked, k);
      CountsUpdate(st1, w, Permitted(a), a);
    }
  }

  lemma IncrementOk(sem: S.SemState, st: seq<Standing>, a: nat, room: int, t: nat)
    requires SemOk(sem, st, a, room) && t < |st| && st[t] == Waking(a)
    ensures SemOk(S.Increment(sem), st[t := Neutral], a, room)
  {
    CountsUpdate(st, t, Neutral, a);
  }

  /** Using a permit takes one unit of room; the other semaphore's room grows by what is now owed to it. */
  lemma UseOk(sem: S.SemState, other: S.SemState, st: seq<Standing>, a: nat, room: int, otherRoom: int, t: nat)
    requires a < 2 && SemOk(sem, st, a, room) && SemOk(other, st, 1 - a, otherRoom)
    requires t < |st| && st[t] == Permitted(a)
    ensures SemOk(sem, st[t := Owing(1 - a)], a, room - 1) && SemOk(other, st[t := Owing(1 - a)], 1 - a, otherRoom + 1)
  {
    CountsUpdate(st, t, Owing(1 - a), a);
    CountsUpdate(st, t, Owing(1 - a), 1 - a);
  }

  /** A thread that holds a permit of semaphore a is sure of room. */
  lemma PermitMeansRoom(sem: S.SemState, st: seq<Standing>, a: nat, room: int, t: nat)
    requires SemOk(sem, st, a, room) && t < |st| && st[t] == Permitted(a)
    ensures room >= 1
  {
    CountSome(st, t, Permitted(a));
  }

  // --- Every step keeps the invariant -------------------------------------------------------------------------

  lemma {:induction false} PhaseAt(ts: seq<Thread>, k: nat, t: nat)
    requires t < |ts|
    ensures Phases(ts, k)[t] == PhaseOf(ts[t], k)
  {
    if t < |ts| - 1 {
      PhaseAt(ts[..|ts| - 1], k, t);
    }
  }

  lemma {:induction false} StandingAt(ts: seq<Thread>, t: nat)
    requires t < |ts|
    ensures Standings(ts)[t] == StandingOf(ts[t])
  {
    if t < |ts| - 1 {
      StandingAt(ts[..|ts| - 1], t);
    }
  }

  lemma {:induction false} PhaseUpdate(ts: seq<Thread>, k: nat, t: nat, th: Thread)
    requires t < |ts|
    ensures Phases(ts[t := th], k) == Phases(ts, k)[t := PhaseOf(th, k)]
    ensures PhaseOf(th, k) == PhaseOf(ts[t], k) ==> Phases(ts[t := th], k) == Phases(ts, k)
  {
    var n := |ts| - 1;
    PhaseAt(ts, k, t);
    if t == n {
      assert ts[t := th][..n] == ts[..n];
    } else {
      assert ts[t := th][..n] == ts[..n][t := th];
      PhaseUpdate(ts[..n], k, t, th);
    }
  }

  lemma {:induction false} StandingUpdate(ts: seq<Thread>, t: nat, th: Thread)
    requires t < |ts|
    ensures Standings(ts[t := th]) == Standings(ts)[t := StandingOf(th)]
    ensures StandingOf(th) == StandingOf(ts[t]) ==> Standings(ts[t := th]) == Standings(ts)
  {
    var n := |ts| - 1;
    StandingAt(ts, t);
    if t == n {
      assert ts[t := th][..n] == ts[..n];
    } else {
      assert ts[t := th][..n] == ts[..n][t := th];
      StandingUpdate(ts[..n], t, th);
    }
  }

  /** Only one thread is inside a mutex. */
  lemma InsideIsUnique(s: State, k: nat, i: nat, j: nat)
    requires Formed(s) && MutexesOk(s) && k < 3 && i < |s.threads| && j < |s.threads|
    requires PhaseOf(s.threads[i], k) == PhaseOf(s.threads[j], k) == M.Inside
    ensures i == j
  {
    var p := Phases(s.threads, k);
    PhaseAt(s.threads, k, i);
    PhaseAt(s.threads, k, j);
    assert M.Agrees(s.mutexes[k], p) && p[i] == p[j] == M.Inside;
  }

  lemma InsideIsExclusive(s: State, a: nat, t: nat)
    requires Formed(s) && MutexesOk(s) && a < 2 && t < |s.threads| && PhaseOf(s.threads[t], a) == M.Inside
    ensures Exclusive(Standings(s.threads), a, t)
  {
    var st := Standings(s.threads);
    forall j | 0 <= j < |st| && j != t ensures st[j] != Deciding(a) && st[j] != Waking(a) {
      StandingAt(s.threads, j);
      if st[j] == Deciding(a) || st[j] == Waking(a) {
        InsideIsUnique(s, a, t, j);
      }
    }
  }

  lemma UpdatePhasesOk(s: State, s': State, t: nat, th: Thread)
    requires Formed(s) && Formed(s') && MutexesOk(s) && t < |s.threads|
    requires s'.mutexes == s.mutexes && s'.threads == s.threads[t := th]
    requires forall k | 0 <= k < 3 :: PhaseOf(th, k) == PhaseOf(s.threads[t], k)
    ensures MutexesOk(s')
  {
    forall k | 0 <= k < 3 ensures M.Agrees(s'.mutexes[k], Phases(s'.threads, k)) {
      PhaseUpdate(s.threads, k, t, th);
      assert M.Agrees(s.mutexes[k], Phases(s.threads, k));
    }
  }

  lemma SameSemsOk(s: State, s': State)
    requires Formed(s) && Formed(s') && SemsOk(s) && s'.sems == s.sems && Standings(s'.threads) == Standings(s.threads)
    requires |s'.ring.cells| == |s.ring.cells| && |s'.written| == |s.written| && |s'.read| == |s.read|
    ensures SemsOk(s')
  {
    forall a | 0 <= a < 2 ensures SemOk(s'.sems[a], Standings(s'.threads), a, Room(s', a)) {
      assert SemOk(s.sems[a], Standings(s.threads), a, Room(s, a));
    }
  }

  lemma TwoSemsOk(s: State, a: nat)
    requires Formed(s) && a < 2
    requires SemOk(s.sems[a], Standings(s.threads), a, Room(s, a))
    requires SemOk(s.sems[1 - a], Standings(s.threads), 1 - a, Room(s, 1 - a))
    ensures SemsOk(s)
  {
    forall b | 0 <= b < 2 ensures SemOk(s.sems[b], Standings(s.threads), b, Room(s, b)) {
      assert b == a || b == 1 - a;
    }
  }

  lemma SameRingOk(s: State, s': State)
    requires RingOk(s) && s'.ring == s.ring && s'.written == s.written && s'.read == s.read
    requires |s'.threads| == |s.threads|
    requires forall t | 0 <= t < |s.threads| :: s'.threads[t] == s.threads[t] || s'.threads[t].pc != CopiedP
    ensures RingOk(s')
  {}

  // Steps that take or give a mutex.

  lemma TakeMutexMutexes(s: State, t: nat, k: nat, inside: Pc, queued: Pc)
    requires Formed(s) && MutexesOk(s) && t < |s.threads| && k < 3
    requires var th := s.threads[t];
      && PhaseOf(th, k) == M.Outside
      && PhaseOf(th.(pc := inside), k) == M.Inside && PhaseOf(th.(pc := queued), k) == M.Waiting
      && forall j | 0 <= j < 3 && j != k ::
           PhaseOf(th, j) == PhaseOf(th.(pc := inside), j) == PhaseOf(th.(pc := queued), j)
    ensures MutexesOk(TakeMutex(s, t, k, inside, queued))
  {
    hide M.Agrees;
    var th, s' := s.threads[t], TakeMutex(s, t, k, inside, queued);
    forall j | 0 <= j < 3 ensures M.Agrees(s'.mutexes[j], Phases(s'.threads, j)) {
      assert M.Agrees(s.mutexes[j], Phases(s.threads, j));
      PhaseAt(s.threads, j, t);
      PhaseUpdate(s.threads, j, t, th.(pc := inside));
      PhaseUpdate(s.threads, j, t, th.(pc := queued));
      if j == k {
        M.DownKeeps(s.mutexes[k], Phases(s.threads, k), t);
      }
    }
  }

  lemma TakeMutexKeeps(s: State, t: nat, k: nat, inside: Pc, queued: Pc)
    requires Inv(s) && t < |s.threads| && k < 3 && inside != CopiedP && queued != CopiedP
    requires var th := s.threads[t];
      && PhaseOf(th, k) == M.Outside
      && PhaseOf(th.(pc := inside), k) == M.Inside && PhaseOf(th.(pc := queued), k) == M.Waiting
      && (forall j | 0 <= j < 3 && j != k ::
            PhaseOf(th, j) == PhaseOf(th.(pc := inside), j) == PhaseOf(th.(pc := queued), j))
      && StandingOf(th) == StandingOf(th.(pc := inside)) == StandingOf(th.(pc := queued))
    ensures Inv(TakeMutex(s, t, k, inside, queued))
  {
    hide MutexesOk, SemsOk, RingOk;
    var th, s' := s.threads[t], TakeMutex(s, t, k, inside, queued);
    TakeMutexMutexes(s, t, k, inside, queued);
    StandingUpdate(s.threads, t, th.(pc := inside));
    StandingUpdate(s.threads, t, th.(pc := queued));
    SameSemsOk(s, s');
    SameRingOk(s, s');
  }

  /** A queued thread that is handed the mutex continues inside it. */
  lemma HandOver(s: State, k: nat, w: nat)
    requires w < |s.threads| && k < 3 && PhaseOf(s.threads[w], k) == M.Waiting
    ensures var th := s.threads[w]; var th' := th.(pc := HandedOver(th.pc));
      && PhaseOf(th', k) == M.Inside && StandingOf(th') == StandingOf(th) && th'.pc != CopiedP
      && forall j | 0 <= j < 3 && j != k :: PhaseOf(th', j) == PhaseOf(th, j)
  {}

  lemma GiveMutexMutexes(s: State, t: nat, k: nat, next: Pc)
    requires Formed(s) && MutexesOk(s) && t < |s.threads| && k < 3
    requires var th := s.threads[t];
      && PhaseOf(th, k) == M.Inside && PhaseOf(th.(pc := next), k) == M.Outside
      && forall j | 0 <= j < 3 && j != k :: PhaseOf(th, j) == PhaseOf(th.(pc := next), j)
    ensures MutexesOk(GiveMutex(s, t, k, next))
    ensures var w := M.Up(s.mutexes[k], t).woken;
      w.Some? ==> w.value < |s.threads| && w.value != t && PhaseOf(s.threads[w.value], k) == M.Waiting
  {
    hide M.Agrees;
    var th, s', r := s.threads[t], GiveMutex(s, t, k, next), M.Up(s.mutexes[k], t);
    PhaseAt(s.threads, k, t);
    M.UpKeeps(s.mutexes[k], Phases(s.threads, k), t);
    var ts1 := s.threads[t := th.(pc := next)];
    if r.woken.Some? {
      PhaseAt(s.threads, k, r.woken.value);
      HandOver(s, k, r.woken.value);
    }
    forall j | 0 <= j < 3 ensures M.Agrees(s'.mutexes[j], Phases(s'.threads, j)) {
      assert M.Agrees(s.mutexes[j], Phases(s.threads, j));
      PhaseUpdate(s.threads, j, t, th.(pc := next));
      if r.woken.Some? {
        PhaseUpdate(ts1, j, r.woken.value, s'.threads[r.woken.value]);
        assert s'.threads == ts1[r.woken.value := s'.threads[r.woken.value]];
      }
    }
  }

  lemma GiveMutexKeeps(s: State, t: nat, k: nat, next: Pc)
    requires Inv(s) && t < |s.threads| && k < 3 && next != CopiedP
    requires var th := s.threads[t];
      && PhaseOf(th, k) == M.Inside && PhaseOf(th.(pc := next), k) == M.Outside
      && (forall j | 0 <= j < 3 && j != k :: PhaseOf(th, j) == PhaseOf(th.(pc := next), j))
      && StandingOf(th) == StandingOf(th.(pc := next))
    ensures Inv(GiveMutex(s, t, k, next))
  {
    hide MutexesOk, SemsOk, RingOk;
    var th, s', r := s.threads[t], GiveMutex(s, t, k, next), M.Up(s.mutexes[k], t);
    GiveMutexMutexes(s, t, k, next);
    var ts1 := s.threads[t := th.(pc := next)];
    StandingUpdate(s.threads, t, th.(pc := next));
    if r.woken.Some? {
      HandOver(s, k, r.woken.value);
      StandingUpdate(ts1, r.woken.value, s'.threads[r.woken.value]);
      assert s'.threads == ts1[r.woken.value := s'.threads[r.woken.value]];
    }
    SameSemsOk(s, s');
    SameRingOk(s, s');
  }

  // Steps on a semaphore, by the thread inside its mutex.

  lemma DecrementKeeps(s: State, t: nat)
    requires Inv(s) && t < |s.threads| && s.threads[t].pc == HoldA
    ensures Inv(Next(s, t))
  {
    hide SemOk, MutexesOk, RingOk;
    var th, s', st := s.threads[t], Next(s, t), Standings(s.threads);
    var a := SemA(th);
    UpdatePhasesOk(s, s', t, th.(pc := DecA));
    StandingAt(s.threads, t);
    StandingUpdate(s.threads, t, th.(pc := DecA));
    DecrementOk(s.sems[a], st, a, Room(s, a), t);
    UnconcernedOk(s.sems[1 - a], st, 1 - a, Room(s, 1 - a), t, Deciding(a));
    TwoSemsOk(s', a);
    SameRingOk(s, s');
  }

  lemma AdmitKeeps(s: State, t: nat)
    requires Inv(s) && t < |s.threads| && s.threads[t].pc == DecA
    ensures Inv(Next(s, t))
  {
    hide SemOk, MutexesOk, RingOk;
    var th, s', st := s.threads[t], Next(s, t), Standings(s.threads);
    var a := SemA(th);
    InsideIsExclusive(s, a, t);
    StandingAt(s.threads, t);
    AdmitOk(s.sems[a], st, a, Room(s, a), t);
    if S.Admit(s.sems[a], t).outcome != S.Refused {
      var x := s'.threads[t];
      UpdatePhasesOk(s, s', t, x);
      StandingUpdate(s.threads, t, x);
      UnconcernedOk(s.sems[1 - a], st, 1 - a, Room(s, 1 - a), t, StandingOf(x));
      TwoSemsOk(s', a);
      SameRingOk(s, s');
    }
  }

  lemma IncrementKeeps(s: State, t: nat)
    requires Inv(s) && t < |s.threads| && s.threads[t].pc == WokenB
    ensures Inv(Next(s, t))
  {
    hide SemOk, MutexesOk, RingOk;
    var th, s', st := s.threads[t], Next(s, t), Standings(s.threads);
    var a := SemB(th);
    UpdatePhasesOk(s, s', t, th.(pc := DoneB));
    StandingAt(s.threads, t);
    StandingUpdate(s.threads, t, th.(pc := DoneB));
    IncrementOk(s.sems[a], st, a, Room(s, a), t);
    UnconcernedOk(s.sems[1 - a], st, 1 - a, Room(s, 1 - a), t, Neutral);
    TwoSemsOk(s', a);
    SameRingOk(s, s');
  }

  /** The waker's own half of the step. */
  function Waked(s: State, t: nat): State
    requires Formed(s) && t < |s.threads|
  {
    var b := SemB(s.threads[t]);
    SetPc(s.(sems := s.sems[b := S.Wake(s.sems[b]).s]), t, WokenB)
  }

  lemma WakeKeeps(s: State, t: nat)
    requires Inv(s) && t < |s.threads| && s.threads[t].pc == HoldB
    ensures Inv(Next(s, t))
  {
    hide SemOk, MutexesOk, RingOk;
    var th, s1, st := s.threads[t], Waked(s, t), Standings(s.threads);
    var a := SemB(th);
    InsideIsExclusive(s, a, t);
    StandingAt(s.threads, t);
    WakeOk(s.sems[a], st, a, Room(s, a), t);
    UpdatePhasesOk(s, s1, t, th.(pc := WokenB));
    StandingUpdate(s.threads, t, th.(pc := WokenB));
    UnconcernedOk(s.sems[1 - a], st, 1 - a, Room(s, 1 - a), t, Waking(a));
    SameRingOk(s, s1);
    var woken := S.Wake(s.sems[a]).woken;
    if woken.None? {
      TwoSemsOk(s1, a);
    } else {
      WokenIsBlocked(s, a, t, woken.value);
      ReadyKeeps(s1, a, woken.value);
    }
  }

  /** The woken thread's half: it was blocked on a and now holds the permit it waited for. */
  lemma ReadyKeeps(s: State, a: nat, w: nat)
    requires Formed(s) && MutexesOk(s) && RingOk(s) && a < 2 && w < |s.threads|
    requires s.threads[w].pc == Blocked && SemA(s.threads[w]) == a
    requires SemOk(s.sems[a], Standings(s.threads)[w := Permitted(a)], a, Room(s, a))
    requires SemOk(s.sems[1 - a], Standings(s.threads), 1 - a, Room(s, 1 - a))
    ensures Inv(SetPc(s, w, WantP))
  {
    hide SemOk, MutexesOk, RingOk;
    var s', thw := SetPc(s, w, WantP), s.threads[w].(pc := WantP);
    UpdatePhasesOk(s, s', w, thw);
    StandingAt(s.threads, w);
    StandingUpdate(s.threads, w, thw);
    UnconcernedOk(s.sems[1 - a], Standings(s.threads), 1 - a, Room(s, 1 - a), w, Permitted(a));
    TwoSemsOk(s', a);
    SameRingOk(s, s');
  }

  /** A parked thread that another thread can wake has already let go of the semaphore's mutex. */
  lemma WokenIsBlocked(s: State, a: nat, t: nat, w: nat)
    requires Formed(s) && MutexesOk(s) && a < 2 && t < |s.threads| && w < |s.threads| && w != t
    requires PhaseOf(s.threads[t], a) == M.Inside && Standings(s.threads)[w] == Parked(a)
    ensures s.threads[w].pc == Blocked && SemA(s.threads[w]) == a
  {
    StandingAt(s.threads, w);
    if s.threads[w].pc == ParkA {
      InsideIsUnique(s, a, t, w);
    }
  }

  // Steps in the pipe's critical section.

  lemma NobodyElseCopied(s: State, t: nat)
    requires Formed(s) && MutexesOk(s) && t < |s.threads| && PhaseOf(s.threads[t], PIPE) == M.Inside
    ensures forall j | 0 <= j < |s.threads| && j != t :: s.threads[j].pc != CopiedP
  {
    forall j | 0 <= j < |s.threads| && j != t ensures s.threads[j].pc != CopiedP {
      if s.threads[j].pc == CopiedP {
        InsideIsUnique(s, PIPE, j, t);
      }
    }
  }

  lemma CopyKeeps(s: State, t: nat)
    requires Inv(s) && t < |s.threads| && s.threads[t].pc == HoldP
    ensures Inv(Next(s, t))
  {
    var th, s' := s.threads[t], Next(s, t);
    NobodyElseCopied(s, t);
    if th.role == Reader || th.todo != [] {
      UpdatePhasesOk(s, s', t, s'.threads[t]);
      StandingUpdate(s.threads, t, s'.threads[t]);
      SameSemsOk(s, s');
      if th.role == Writer {
        R.StoreKeeps(s.ring, s.written, s.read, th.todo[0]);
      }
    }
  }

  lemma AdvanceKeeps(s: State, t: nat)
    requires Inv(s) && t < |s.threads| && s.threads[t].pc == CopiedP
    ensures Inv(Next(s, t))
    ensures s.threads[t].role == Writer ==> |s.written| - |s.read| < |s.ring.cells| - 1
    ensures s.threads[t].role == Reader ==> |s.read| < |s.written| && s.threads[t].byte == s.written[|s.read|]
    ensures |s.read| <= |s.written|
  {
    hide SemOk, MutexesOk;
    var th, s', st := s.threads[t], Next(s, t), Standings(s.threads);
    var a := SemA(th);
    NobodyElseCopied(s, t);
    StandingAt(s.threads, t);
    PermitMeansRoom(s.sems[a], st, a, Room(s, a), t);
    UseOk(s.sems[a], s.sems[1 - a], st, a, Room(s, a), Room(s, 1 - a), t);
    UpdatePhasesOk(s, s', t, th.(pc := DoneP));
    StandingUpdate(s.threads, t, th.(pc := DoneP));
    TwoSemsOk(s', a);
    match th.role {
      case Writer => R.AdvanceWriteKeeps(s.ring, s.written, s.read);
      case Reader => R.AdvanceReadKeeps(s.ring, s.written, s.read);
    }
  }

  lemma TestLoopKeeps(s: State, t: nat)
    requires Inv(s) && t < |s.threads| && s.threads[t].pc == LoopTop
    ensures Inv(Next(s, t))
  {
    hide MutexesOk, SemsOk, RingOk;
    var s' := SetPc(s, t, WantA);
    UpdatePhasesOk(s, s', t, s'.threads[t]);
    StandingUpdate(s.threads, t, s'.threads[t]);
    SameSemsOk(s, s');
    SameRingOk(s, s');
  }

  lemma MutexStepKeeps(s: State, t: nat)
    requires Inv(s) && t < |s.threads| && s.threads[t].pc in {WantA, PassA, ParkA, WantP, DoneP, WantB, DoneB}
    ensures Inv(Next(s, t))
  {
    hide Inv;
    var th := s.threads[t];
    match th.pc {
      case WantA => TakeMutexKeeps(s, t, SemA(th), HoldA, QueueA);
      case PassA => GiveMutexKeeps(s, t, SemA(th), WantP);
      case ParkA => GiveMutexKeeps(s, t, SemA(th), Blocked);
      case WantP => TakeMutexKeeps(s, t, PIPE, HoldP, QueueP);
      case DoneP => GiveMutexKeeps(s, t, PIPE, WantB);
      case WantB => TakeMutexKeeps(s, t, SemB(th), HoldB, QueueB);
      case DoneB => GiveMutexKeeps(s, t, SemB(th), LoopTop);
    }
  }

  lemma NextKeeps(s: State, t: nat)
    requires Inv(s) && t < |s.threads|
    ensures Inv(Next(s, t)) && |Next(s, t).threads| == |s.threads|
  {
    hide Inv;
    match s.threads[t].pc {
      case LoopTop => TestLoopKeeps(s, t);
      case HoldA => DecrementKeeps(s, t);
      case DecA => AdmitKeeps(s, t);
      case HoldP => CopyKeeps(s, t);
      case CopiedP => AdvanceKeeps(s, t);
      case HoldB => WakeKeeps(s, t);
      case WokenB => IncrementKeeps(s, t);
      case WantA | PassA | ParkA | WantP | DoneP | WantB | DoneB => MutexStepKeeps(s, t);
      case QueueA | QueueP | QueueB | Blocked =>
    }
  }

  // --- Runs, and the queue they implement --------------------------------------------------------------------

  /** Thread t moves, or, between calls, starts a new write of some bytes or read of some count. */
  datatype Event = Move(t: nat) | Call(t: nat, bytes: seq<bv8>, count: nat)

  function Apply(s: State, e: Event): (s': State)
    requires Formed(s)
    ensures SameShape(s, s')
  {
    if e.t >= |s.threads| then s
    else match e
      case Move(t) => Next(s, t)
      case Call(t, bytes, count) =>
        var th := s.threads[t];
        if th.pc == LoopTop && th.todo == [] && th.wanted == 0 then
          s.(threads := s.threads[t := if th.role == Writer then th.(todo := bytes) else th.(wanted := count)])
        else s
  }

  /** A freshly created pipe with room for `capacity` bytes, and threads that have not called it yet. */
  function Created(capacity: nat, slots: nat, roles: seq<Role>): State {
    State([M.Fresh(slots), M.Fresh(slots), M.Fresh(slots)], [S.Fresh(slots, capacity), S.Fresh(slots, 0)],
          R.Ring(seq(capacity + 1, _ => 0), 0, 0), Idle(roles), [], [])
  }

  function Idle(roles: seq<Role>): (ts: seq<Thread>)
    ensures |ts| == |roles| && forall t | 0 <= t < |ts| :: ts[t] == Thread(roles[t], LoopTop, [], 0, 0)
  {
    seq(|roles|, t requires 0 <= t < |roles| => Thread(roles[t], LoopTop, [], 0, 0))
  }

  function After(capacity: nat, slots: nat, roles: seq<Role>, events: seq<Event>): (s: State)
    ensures Formed(s)
  {
    if events == [] then Created(capacity, slots, roles)
    else
      var s := After(capacity, slots, roles, events[..|events| - 1]);
      Apply(s, events[|events| - 1])
  }

  lemma CreatedOk(capacity: nat, slots: nat, roles: seq<Role>)
    ensures Inv(Created(capacity, slots, roles))
  {
    var s := Created(capacity, slots, roles);
    OccupiedZero(M.Fresh(slots).blocked);
    forall k | 0 <= k < 3 ensures M.Agrees(s.mutexes[k], Phases(s.threads, k)) {
      forall t | 0 <= t < |s.threads| ensures Phases(s.threads, k)[t] == M.Outside {
        PhaseAt(s.threads, k, t);
      }
    }
    var st := Standings(s.threads);
    forall t | 0 <= t < |st| ensures st[t] == Neutral {
      StandingAt(s.threads, t);
    }
    forall a | 0 <= a < 2 ensures SemOk(s.sems[a], st, a, Room(s, a)) {
      CountNone(st, Parked(a));
      CountNone(st, Deciding(a));
      CountNone(st, Permitted(a));
      CountNone(st, Owing(a));
      CountNone(st, Waking(a));
    }
  }

  lemma ApplyKeeps(s: State, e: Event)
    requires Inv(s)
    ensures Inv(Apply(s, e))
  {
    hide MutexesOk, SemsOk, RingOk;
    if e.t < |s.threads| {
      match e {
        case Move(t) => NextKeeps(s, t);
        case Call(t, bytes, count) =>
          if s.threads[t].pc == LoopTop {
            var s' := Apply(s, e);
            UpdatePhasesOk(s, s', t, s'.threads[t]);
            StandingUpdate(s.threads, t, s'.threads[t]);
            SameSemsOk(s, s');
            SameRingOk(s, s');
          }
      }
    }
  }

  lemma {:induction false} RunKeeps(capacity: nat, slots: nat, roles: seq<Role>, events: seq<Event>)
    ensures var s := After(capacity, slots, roles, events); Inv(s) && |s.ring.cells| == capacity + 1
  {
    hide Inv;
    if events == [] {
      CreatedOk(capacity, slots, roles);
    } else {
      RunKeeps(capacity, slots, roles, events[..|events| - 1]);
      var s := After(capacity, slots, roles, events[..|events| - 1]);
      ApplyKeeps(s, events[|events| - 1]);
    }
  }

  /** The bytes in the pipe: written and not yet read. */
  function Queue(s: State): seq<bv8> {
    if |s.read| <= |s.written| then s.written[|s.read|..] else []
  }

  /** Every run: what was read is a prefix of what was written, the rest fits the pipe, and each unread byte
      sits untouched in its own cell of the ring. */
  lemma RunIsFifo(capacity: nat, slots: nat, roles: seq<Role>, events: seq<Event>)
    ensures var s := After(capacity, slots, roles, events);
      && s.written == s.read + Queue(s)
      && |Queue(s)| <= capacity
      && forall i | 0 <= i < |Queue(s)| :: R.Ahead(s.ring, i) == Queue(s)[i]
  {
    hide Inv, After, Queue;
    RunKeeps(capacity, slots, roles, events);
    QueueInPlace(After(capacity, slots, roles, events));
  }

  lemma QueueInPlace(s: State)
    requires Inv(s)
    ensures s.written == s.read + Queue(s) && |Queue(s)| < |s.ring.cells|
    ensures forall i | 0 <= i < |Queue(s)| :: R.Ahead(s.ring, i) == Queue(s)[i]
  {
    hide MutexesOk, SemsOk;
    forall i | 0 <= i < |Queue(s)| ensures R.Ahead(s.ring, i) == Queue(s)[i] {
      R.UnreadInPlace(s.ring, s.written, s.read, i);
    }
  }

  /** Refinement: each step of each thread leaves the queue alone, appends one byte to a queue that is not
      full, or takes the first byte of a queue that is not empty. */
  lemma StepIsQueueStep(s: State, e: Event)
    requires Inv(s)
    ensures var q, q' := Queue(s), Queue(Apply(s, e));
      || q' == q
      || (|q| < |s.ring.cells| - 1 && e.t < |s.threads| && s.threads[e.t].role == Writer
          && q' == q + [s.threads[e.t].byte])
      || (e.t < |s.threads| && s.threads[e.t].role == Reader && q == [s.threads[e.t].byte] + q')
  {
    assert Formed(s);
    hide Inv, R.Holds;
    if e.Move? && e.t < |s.threads| && s.threads[e.t].pc == CopiedP {
      AdvanceKeeps(s, e.t);
      AdvanceMovesQueue(s, e.t);
    } else {
      QuietStep(s, e);
    }
  }

  lemma AdvanceMovesQueue(s: State, t: nat)
    requires Formed(s) && t < |s.threads| && s.threads[t].pc == CopiedP && |s.read| <= |s.written|
    requires s.threads[t].role == Reader ==> |s.read| < |s.written| && s.threads[t].byte == s.written[|s.read|]
    ensures s.threads[t].role == Writer ==> Queue(Next(s, t)) == Queue(s) + [s.threads[t].byte]
    ensures s.threads[t].role == Reader ==> Queue(s) == [s.threads[t].byte] + Queue(Next(s, t))
  {}

  lemma QuietStep(s: State, e: Event)
    requires Formed(s) && (e.Move? && e.t < |s.threads| ==> s.threads[e.t].pc != CopiedP)
    ensures Apply(s, e).written == s.written && Apply(s, e).read == s.read
  {}

  /** No lost wake-up: while a thread is parked on a semaphore, all the room there is has been claimed, by
      threads on their way with a permit and by signals still owed. */
  lemma ParkedMeansClaimed(s: State, a: nat)
    requires Inv(s) && a < 2 && Count(Standings(s.threads), Parked(a)) > 0
    ensures Room(s, a) == Count(Standings(s.threads), Permitted(a)) + Count(Standings(s.threads), Owing(a))
  {
    assert SemOk(s.sems[a], Standings(s.threads), a, Room(s, a));
  }
}
