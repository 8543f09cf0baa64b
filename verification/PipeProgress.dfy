// What each writer gets out of the pipe: its bytes once each, in its order; and that the pipe never locks up.
module PipeProgress {
  import opened Wrappers
  import opened WaitTable
  import opened Counting
  import opened PipeSystem
  import M = Mutex
  import S = Semaphore

  // --- What one step does to the threads ----------------------------------------------------------------------

  predicate HasWork(th: Thread) { if th.role == Writer then th.todo != [] else th.wanted != 0 }

  /** A thread that another one hands a mutex, or wakes. */
  predicate Handed(x: Thread, y: Thread) {
    y == x.(pc := y.pc) &&
    ((x.pc == QueueA && y.pc == HoldA) || (x.pc == QueueP && y.pc == HoldP) || (x.pc == QueueB && y.pc == HoldB)
     || (x.pc == Blocked && y.pc == WantP))
  }

  /** A thread that makes a step of its own. */
  predicate Advances(x: Thread, y: Thread) {
    match x.pc
    case LoopTop => HasWork(x) && y == x.(pc := WantA)
    case WantA => y == x.(pc := HoldA) || y == x.(pc := QueueA)
    case HoldA => y == x.(pc := DecA)
    case DecA => y == x.(pc := PassA) || y == x.(pc := ParkA)
    case PassA => y == x.(pc := WantP)
    case ParkA => y == x.(pc := Blocked)
    case WantP => y == x.(pc := HoldP) || y == x.(pc := QueueP)
    case HoldP =>
      y.pc == CopiedP && y.role == x.role
      && (x.role == Writer ==> x.todo != [] && y == x.(pc := CopiedP, byte := x.todo[0], todo := x.todo[1..]))
      && (x.role == Reader ==>
            y == x.(pc := CopiedP, byte := y.byte, wanted := if x.wanted == 0 then 0 else x.wanted - 1))
    case CopiedP => y == x.(pc := DoneP)
    case DoneP => y == x.(pc := WantB)
    case WantB => y == x.(pc := HoldB) || y == x.(pc := QueueB)
    case HoldB => y == x.(pc := WokenB)
    case WokenB => y == x.(pc := DoneB)
    case DoneB => y == x.(pc := LoopTop)
    case QueueA | QueueP | QueueB | Blocked => false
  }

  ghost predicate OthersFollow(s: State, s': State, t: nat) {
    |s'.threads| == |s.threads|
    && forall u | 0 <= u < |s.threads| && u != t :: s'.threads[u] == s.threads[u] || Handed(s.threads[u], s'.threads[u])
  }

  lemma GiveFrame(s: State, t: nat, k: nat, next: Pc)
    requires Inv(s) && t < |s.threads| && k < 3
    requires var th := s.threads[t];
      && PhaseOf(th, k) == M.Inside && PhaseOf(th.(pc := next), k) == M.Outside
      && forall j | 0 <= j < 3 && j != k :: PhaseOf(th, j) == PhaseOf(th.(pc := next), j)
    ensures var s' := GiveMutex(s, t, k, next);
      OthersFollow(s, s', t) && s'.threads[t] == s.threads[t].(pc := next)
  {
    hide MutexesOk, SemsOk, RingOk;
    GiveMutexMutexes(s, t, k, next);
  }

  lemma WakeFrame(s: State, t: nat)
    requires Inv(s) && t < |s.threads| && s.threads[t].pc == HoldB
    ensures OthersFollow(s, Next(s, t), t) && Next(s, t).threads[t] == s.threads[t].(pc := WokenB)
  {
    hide SemOk, MutexesOk, RingOk;
    var a, st := SemB(s.threads[t]), Standings(s.threads);
    InsideIsExclusive(s, a, t);
    StandingAt(s.threads, t);
    WakeOk(s.sems[a], st, a, Room(s, a), t);
    var woken := S.Wake(s.sems[a]).woken;
    if woken.Some? {
      WokenIsBlocked(s, a, t, woken.value);
    }
  }

  /** A step changes nothing, or advances its own thread and hands mutexes and permits to others. */
  lemma MoveFrame(s: State, t: nat)
    requires Inv(s) && t < |s.threads|
    ensures var s' := Next(s, t);
      OthersFollow(s, s', t) && (s' == s || Advances(s.threads[t], s'.threads[t]))
  {
    hide Inv, M.Down, M.Up, S.Admit, S.Wake;
    var th := s.threads[t];
    match th.pc {
      case PassA => GiveFrame(s, t, SemA(th), WantP);
      case ParkA => GiveFrame(s, t, SemA(th), Blocked);
      case DoneP => GiveFrame(s, t, PIPE, WantB);
      case DoneB => GiveFrame(s, t, SemB(th), LoopTop);
      case HoldB => WakeFrame(s, t);
      case _ =>
    }
  }

  // --- Each writer's bytes, once each and in order --------------------------------------------------------------

  /** All the bytes each thread ever handed to a write call, and the writer of each byte in the pipe's record. */
  datatype History = History(given: seq<seq<bv8>>, authors: seq<nat>)

  function Record(s: State, h: History, e: Event): (h': History)
    requires |h.given| == |s.threads|
    ensures |h'.given| == |h.given|
  {
    if e.t >= |s.threads| then h
    else
      var th := s.threads[e.t];
      match e
      case Move(t) => if th.pc == CopiedP && th.role == Writer then h.(authors := h.authors + [t]) else h
      case Call(t, bytes, count) =>
        if th.pc == LoopTop && th.todo == [] && th.wanted == 0 && th.role == Writer then
          h.(given := h.given[t := h.given[t] + bytes])
        else h
  }

  /** The bytes of a record that one writer put there, in order. */
  function By(written: seq<bv8>, authors: seq<nat>, t: nat): seq<bv8>
    requires |authors| == |written|
  {
    if written == [] then []
    else
      var n := |written| - 1;
      By(written[..n], authors[..n], t) + if authors[n] == t then [written[n]] else []
  }

  lemma ByAppend(written: seq<bv8>, authors: seq<nat>, b: bv8, u: nat, t: nat)
    requires |authors| == |written|
    ensures By(written + [b], authors + [u], t) == By(written, authors, t) + if u == t then [b] else []
  {
    assert (written + [b])[..|written|] == written && (authors + [u])[..|written|] == authors;
  }

  /** Copied into the ring, but not yet part of the record. */
  function InFlight(th: Thread): seq<bv8> { if th.pc == CopiedP then [th.byte] else [] }

  /** A writer that is on its way to the ring has a byte to write. */
  predicate Equipped(th: Thread) {
    th.pc in {WantA, QueueA, HoldA, DecA, PassA, ParkA, Blocked, WantP, QueueP, HoldP} && th.role == Writer ==>
        th.todo != []
  }

  /** What a writer handed over is what it put into the record, in order, what is in flight, and what is left. */
  ghost predicate Accounted(s: State, h: History, t: nat)
    requires |h.given| == |s.threads| && |h.authors| == |s.written| && t < |s.threads|
  {
    var th := s.threads[t];
    Equipped(th) && (th.role == Writer ==> h.given[t] == By(s.written, h.authors, t) + InFlight(th) + th.todo)
  }

  ghost predicate HistoryOk(s: State, h: History) {
    && |h.given| == |s.threads| && |h.authors| == |s.written|
    && (forall t | 0 <= t < |s.threads| :: Accounted(s, h, t))
    && forall i | 0 <= i < |h.authors| :: h.authors[i] < |s.threads| && s.threads[h.authors[i]].role == Writer
  }

  /** What a step writes: the byte of a writer that advances, and nothing else. */
  lemma MoveWrites(s: State, t: nat)
    requires Formed(s) && t < |s.threads|
    ensures var th := s.threads[t];
      Next(s, t).written == s.written + if th.pc == CopiedP && th.role == Writer then [th.byte] else []
  {
    hide M.Down, M.Up, S.Admit, S.Wake;
  }

  lemma CopiedMoves(s: State, t: nat)
    requires Formed(s) && t < |s.threads| && s.threads[t].pc == CopiedP
    ensures Next(s, t) != s
  {
    assert Next(s, t).threads[t].pc == DoneP;
  }

  lemma HandedKeeps(x: Thread, y: Thread)
    requires Handed(x, y)
    ensures y.role == x.role && y.todo == x.todo && InFlight(y) == InFlight(x) && (Equipped(x) ==> Equipped(y))
  {}

  /** What a writer has in flight and left changes by the byte it adds to the record. */
  lemma AdvancesKeeps(x: Thread, y: Thread)
    requires Advances(x, y) && Equipped(x)
    ensures y.role == x.role && Equipped(y)
    ensures x.role == Writer ==>
              InFlight(x) + x.todo == (if x.pc == CopiedP then [x.byte] else []) + InFlight(y) + y.todo
  {
    if x.pc == HoldP && x.role == Writer {
      assert x.todo == [x.todo[0]] + x.todo[1..];
    }
  }

  lemma MoveKeepsAccount(s: State, h: History, t: nat, u: nat)
    requires Inv(s) && HistoryOk(s, h) && t < |s.threads| && u < |s.threads|
    ensures var s', h' := Next(s, t), Record(s, h, Move(t));
      && |s'.threads| == |s.threads| && |h'.authors| == |s'.written| && Accounted(s', h', u)
      && s'.threads[u].role == s.threads[u].role
  {
    hide MutexesOk, SemsOk, RingOk, Next, By, Handed, Advances, Equipped, InFlight;
    MoveFrame(s, t);
    MoveWrites(s, t);
    var th, x, y := s.threads[t], s.threads[u], Next(s, t).threads[u];
    assert Accounted(s, h, u);
    if th.pc == CopiedP {
      CopiedMoves(s, t);
    }
    if Next(s, t) != s {
      if u == t {
        AdvancesKeeps(x, y);
        var added := if x.pc == CopiedP then [x.byte] else [];
        Regroup(By(s.written, h.authors, u), added, InFlight(x), x.todo, InFlight(y), y.todo);
      } else if y != x {
        HandedKeeps(x, y);
      }
    }
    if th.pc == CopiedP && th.role == Writer {
      ByAppend(s.written, h.authors, th.byte, t, u);
    }
    assert s.written + [] == s.written;
  }

  lemma Regroup(done: seq<bv8>, added: seq<bv8>, flight: seq<bv8>, todo: seq<bv8>,
                flight': seq<bv8>, todo': seq<bv8>)
    ensures flight + todo == added + flight' + todo' ==> done + flight + todo == done + added + flight' + todo'
    ensures done + [] == done
  {
    if flight + todo == added + flight' + todo' {
      assert done + flight + todo == done + (flight + todo);
      assert done + added + flight' + todo' == done + (added + flight' + todo');
    }
  }

  lemma EventKeepsHistory(s: State, h: History, e: Event)
    requires Inv(s) && HistoryOk(s, h)
    ensures HistoryOk(Apply(s, e), Record(s, h, e))
  {
    hide MutexesOk, SemsOk, RingOk, Next, By;
    var s', h' := Apply(s, e), Record(s, h, e);
    if e.t < |s.threads| {
      match e {
        case Move(t) =>
          forall u | 0 <= u < |s.threads| ensures |s'.threads| == |s.threads| && |h'.authors| == |s'.written|
            && Accounted(s', h', u) && s'.threads[u].role == s.threads[u].role
          {
            MoveKeepsAccount(s, h, t, u);
          }
          MoveKeepsAccount(s, h, t, t);
        case Call(t, bytes, count) =>
          forall u | 0 <= u < |s.threads| ensures Accounted(s', h', u) {
            assert Accounted(s, h, u);
          }
      }
    }
  }

  function HistoryAfter(capacity: nat, slots: nat, roles: seq<Role>, events: seq<Event>): (h: History)
    ensures |h.given| == |roles|
  {
    if events == [] then History(seq(|roles|, _ => []), [])
    else
      var n := |events| - 1;
      ThreadCount(capacity, slots, roles, events[..n]);
      Record(After(capacity, slots, roles, events[..n]), HistoryAfter(capacity, slots, roles, events[..n]), events[n])
  }

  lemma {:induction false} ThreadCount(capacity: nat, slots: nat, roles: seq<Role>, events: seq<Event>)
    ensures |After(capacity, slots, roles, events).threads| == |roles|
  {
    if events != [] {
      var s := After(capacity, slots, roles, events[..|events| - 1]);
      ThreadCount(capacity, slots, roles, events[..|events| - 1]);
      RunKeeps(capacity, slots, roles, events[..|events| - 1]);
      var e := events[|events| - 1];
      if e.Move? && e.t < |s.threads| {
        MoveFrame(s, e.t);
      }
      hide Next;
    }
  }

  /** In every run: each byte in the pipe's record was put there by one writer, and each writer's bytes are there
      in the order in which it handed them over, none twice, none left out but those it still has to write. */
  lemma {:induction false} WritersInOrder(capacity: nat, slots: nat, roles: seq<Role>, events: seq<Event>)
    ensures HistoryOk(After(capacity, slots, roles, events), HistoryAfter(capacity, slots, roles, events))
  {
    hide Inv, HistoryOk, Record, Apply;
    if events == [] {
      CreatedHistoryOk(capacity, slots, roles);
    } else {
      var front := events[..|events| - 1];
      WritersInOrder(capacity, slots, roles, front);
      RunKeeps(capacity, slots, roles, front);
      EventKeepsHistory(After(capacity, slots, roles, front), HistoryAfter(capacity, slots, roles, front),
          events[|events| - 1]);
    }
  }

  lemma CreatedHistoryOk(capacity: nat, slots: nat, roles: seq<Role>)
    ensures HistoryOk(Created(capacity, slots, roles), History(seq(|roles|, _ => []), []))
  {}

  // --- The pipe never locks up ------------------------------------------------------------------------------------

  /** Every waiter table has a slot for each thread. */
  ghost predicate Spacious(s: State)
    requires Formed(s)
  {
    && (forall k | 0 <= k < 3 :: |s.threads| <= |s.mutexes[k].blocked|)
    && forall a | 0 <= a < 2 :: |s.threads| <= |s.sems[a].blocked|
  }

  function Values(b: Slots): set<nat> {
    if b == [] then {} else Values(b[..|b| - 1]) + if b[|b| - 1].Some? then {b[|b| - 1].value} else {}
  }

  lemma {:induction false} ValuesAre(b: Slots)
    requires Distinct(b)
    ensures |Values(b)| == Occupied(b) && forall x: nat :: x in Values(b) <==> Some(x) in b
  {
    if b != [] {
      var front := b[..|b| - 1];
      ValuesAre(front);
      assert b == front + [b[|b| - 1]];
      assert b[|b| - 1].Some? ==> b[|b| - 1] !in front;
    }
  }

  /** A table of distinct waiters that leaves a thread out is not full. */
  lemma RoomForOne(b: Slots, n: nat, t: nat)
    requires Distinct(b) && t < n <= |b| && Some(t) !in b && forall w | Some(w) in b :: w < n
    ensures FirstUnused(b, 0) < |b|
  {
    ValuesAre(b);
    RangeCount(n);
    SubsetCount(Values(b) + {t}, Range(n));
    assert t !in Values(b);
    OccupiedZero(b);
  }

  /** A thread that neither waits nor is between two calls can always move. */
  lemma CanMove(s: State, t: nat)
    requires Inv(s) && Spacious(s) && t < |s.threads| && Equipped(s.threads[t])
    requires s.threads[t].pc !in {QueueA, QueueP, QueueB, Blocked}
    requires s.threads[t].pc == LoopTop ==> HasWork(s.threads[t])
    ensures Next(s, t) != s
  {
    hide SemsOk, RingOk;
    var th := s.threads[t];
    match th.pc {
      case WantA => MutexHasSlot(s, t, SemA(th));
      case WantP => MutexHasSlot(s, t, PIPE);
      case WantB => MutexHasSlot(s, t, SemB(th));
      case DecA => SemHasSlot(s, t);
      case PassA => GiveFrame(s, t, SemA(th), WantP);
      case ParkA => GiveFrame(s, t, SemA(th), Blocked);
      case DoneP => GiveFrame(s, t, PIPE, WantB);
      case DoneB => GiveFrame(s, t, SemB(th), LoopTop);
      case HoldB => WakeFrame(s, t);
      case LoopTop => assert Next(s, t).threads[t].pc == WantA;
      case HoldA => assert Next(s, t).threads[t].pc == DecA;
      case HoldP => assert Next(s, t).threads[t].pc == CopiedP;
      case CopiedP => CopiedMoves(s, t);
      case WokenB => assert Next(s, t).threads[t].pc == DoneB;
    }
  }

  lemma MutexHasSlot(s: State, t: nat, k: nat)
    requires Formed(s) && MutexesOk(s) && Spacious(s) && t < |s.threads| && k < 3
    requires PhaseOf(s.threads[t], k) == M.Outside
    ensures M.Down(s.mutexes[k], t).outcome != M.Refused
  {
    PhaseAt(s.threads, k, t);
    assert M.Agrees(s.mutexes[k], Phases(s.threads, k));
    assert Some(t) !in s.mutexes[k].blocked;
    RoomForOne(s.mutexes[k].blocked, |s.threads|, t);
  }

  lemma SemHasSlot(s: State, t: nat)
    requires Inv(s) && Spacious(s) && t < |s.threads| && s.threads[t].pc == DecA
    ensures S.Admit(s.sems[SemA(s.threads[t])], t).outcome != S.Refused
  {
    hide MutexesOk, RingOk;
    var a := SemA(s.threads[t]);
    StandingAt(s.threads, t);
    assert SemOk(s.sems[a], Standings(s.threads), a, Room(s, a));
    assert Some(t) !in s.sems[a].blocked;
    RoomForOne(s.sems[a].blocked, |s.threads|, t);
  }

  /** Whoever is queued for a mutex waits for a thread inside it. */
  lemma SomeoneInside(s: State, t: nat, k: nat) returns (u: nat)
    requires Formed(s) && MutexesOk(s) && t < |s.threads| && k < 3 && PhaseOf(s.threads[t], k) == M.Waiting
    ensures u < |s.threads| && PhaseOf(s.threads[u], k) == M.Inside
  {
    hide PhaseOf;
    PhaseAt(s.threads, k, t);
    assert M.Agrees(s.mutexes[k], Phases(s.threads, k));
    M.AgreementIsSafe(s.mutexes[k], Phases(s.threads, k));
    u :| 0 <= u < |s.threads| && Phases(s.threads, k)[u] == M.Inside;
    PhaseAt(s.threads, k, u);
  }

  lemma QueueMoves(s: State, t: nat) returns (u: nat)
    requires Inv(s) && Spacious(s) && t < |s.threads| && s.threads[t].pc in {QueueA, QueueP, QueueB}
    requires forall v | 0 <= v < |s.threads| :: Equipped(s.threads[v])
    ensures u < |s.threads| && Next(s, u) != s
  {
    hide MutexesOk, SemsOk, RingOk, Next, Spacious, Equipped;
    var th := s.threads[t];
    u := SomeoneInside(s, t, if th.pc == QueueA then SemA(th) else if th.pc == QueueP then PIPE else SemB(th));
    CanMove(s, u);
  }

  /** When no thread can move, every thread is between two calls or blocked for want of room or data. */
  lemma StuckMeansBlocked(s: State, t: nat)
    requires Inv(s) && Spacious(s) && t < |s.threads| && forall v | 0 <= v < |s.threads| :: Equipped(s.threads[v])
    requires forall u | 0 <= u < |s.threads| :: Next(s, u) == s
    ensures (s.threads[t].pc == LoopTop && !HasWork(s.threads[t]))
         || (s.threads[t].pc == Blocked && Room(s, SemA(s.threads[t])) == 0)
  {
    hide SemOk, MutexesOk, RingOk, Next, Spacious;
    forall u | 0 <= u < |s.threads|
      ensures s.threads[u].pc == Blocked || (s.threads[u].pc == LoopTop && !HasWork(s.threads[u]))
    {
      if s.threads[u].pc in {QueueA, QueueP, QueueB} {
        var v := QueueMoves(s, u);
        assert false;
      } else if s.threads[u].pc != Blocked && (s.threads[u].pc == LoopTop ==> HasWork(s.threads[u])) {
        CanMove(s, u);
        assert false;
      }
    }
    if s.threads[t].pc == Blocked {
      var a, st := SemA(s.threads[t]), Standings(s.threads);
      forall u | 0 <= u < |st| ensures st[u] == StandingOf(s.threads[u]) {
        StandingAt(s.threads, u);
      }
      CountSome(st, t, Parked(a));
      ParkedMeansClaimed(s, a);
      CountNone(st, Permitted(a));
      CountNone(st, Owing(a));
    }
  }

  /** No deadlock: while some thread has work and there is room or data for it, some thread can move. */
  lemma NoDeadlock(s: State, t: nat)
    requires Inv(s) && Spacious(s) && t < |s.threads| && forall v | 0 <= v < |s.threads| :: Equipped(s.threads[v])
    requires s.threads[t].pc != LoopTop || HasWork(s.threads[t])
    requires s.threads[t].pc == Blocked ==> Room(s, SemA(s.threads[t])) > 0
    ensures exists u :: 0 <= u < |s.threads| && Next(s, u) != s
  {
    hide MutexesOk, SemsOk, RingOk, Next, Spacious, Equipped;
    if forall u | 0 <= u < |s.threads| :: Next(s, u) == s {
      StuckMeansBlocked(s, t);
    }
  }

  predicate Sizes(s: State, slots: nat) {
    (forall k | 0 <= k < |s.mutexes| :: |s.mutexes[k].blocked| == slots)
    && forall a | 0 <= a < |s.sems| :: |s.sems[a].blocked| == slots
  }

  lemma MutexKeepsSize(m: M.MutexState, t: nat)
    ensures |M.Down(m, t).m.blocked| == |M.Up(m, t).m.blocked| == |m.blocked|
  {}

  lemma SemKeepsSize(m: S.SemState, t: nat)
    ensures |S.Admit(m, t).s.blocked| == |S.Wake(m).s.blocked| == |m.blocked|
  {}

  lemma MutexMovesKeepSizes(s: State, t: nat, k: nat, slots: nat, p: Pc, q: Pc)
    requires Formed(s) && t < |s.threads| && k < 3 && Sizes(s, slots)
    ensures Sizes(TakeMutex(s, t, k, p, q), slots) && Sizes(GiveMutex(s, t, k, p), slots)
  {
    hide M.Down, M.Up;
    MutexKeepsSize(s.mutexes[k], t);
  }

  lemma MoveKeepsSizes(s: State, t: nat, slots: nat)
    requires Formed(s) && t < |s.threads| && Sizes(s, slots)
    ensures Sizes(Next(s, t), slots)
  {
    hide S.Admit, S.Wake, TakeMutex, GiveMutex;
    var th := s.threads[t];
    SemKeepsSize(s.sems[SemA(th)], t);
    SemKeepsSize(s.sems[SemB(th)], t);
    match th.pc {
      case WantA => MutexMovesKeepSizes(s, t, SemA(th), slots, HoldA, QueueA);
      case WantP => MutexMovesKeepSizes(s, t, PIPE, slots, HoldP, QueueP);
      case WantB => MutexMovesKeepSizes(s, t, SemB(th), slots, HoldB, QueueB);
      case PassA => MutexMovesKeepSizes(s, t, SemA(th), slots, WantP, WantP);
      case ParkA => MutexMovesKeepSizes(s, t, SemA(th), slots, Blocked, Blocked);
      case DoneP => MutexMovesKeepSizes(s, t, PIPE, slots, WantB, WantB);
      case DoneB => MutexMovesKeepSizes(s, t, SemB(th), slots, LoopTop, LoopTop);
      case _ =>
    }
  }

  lemma {:induction false} RunKeepsSizes(capacity: nat, slots: nat, roles: seq<Role>, events: seq<Event>)
    ensures Sizes(After(capacity, slots, roles, events), slots)
  {
    if events != [] {
      var front, e := events[..|events| - 1], events[|events| - 1];
      RunKeepsSizes(capacity, slots, roles, front);
      var s := After(capacity, slots, roles, front);
      hide Next, After;
      if e.Move? && e.t < |s.threads| {
        MoveKeepsSizes(s, e.t, slots);
      }
    }
  }

  /** In every run of at most as many threads as the waiter tables have slots: while some thread has work and
      there is room or data for it, some thread can move. */
  lemma RunNeverLocks(capacity: nat, slots: nat, roles: seq<Role>, events: seq<Event>, t: nat)
    requires |roles| <= slots && t < |After(capacity, slots, roles, events).threads|
    requires var s := After(capacity, slots, roles, events);
      && (s.threads[t].pc != LoopTop || HasWork(s.threads[t]))
      && (s.threads[t].pc == Blocked ==> Room(s, SemA(s.threads[t])) > 0)
    ensures var s := After(capacity, slots, roles, events); exists u :: 0 <= u < |s.threads| && Next(s, u) != s
  {
    hide After, Inv, Next, Equipped;
    var s, h := After(capacity, slots, roles, events), HistoryAfter(capacity, slots, roles, events);
    ThreadCount(capacity, slots, roles, events);
    RunKeeps(capacity, slots, roles, events);
    RunKeepsSizes(capacity, slots, roles, events);
    WritersInOrder(capacity, slots, roles, events);
    forall v | 0 <= v < |s.threads| ensures Equipped(s.threads[v]) {
      assert Accounted(s, h, v);
    }
    NoDeadlock(s, t);
  }
}
