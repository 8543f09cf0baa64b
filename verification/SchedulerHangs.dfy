// When a run of the scheduler hangs.
module SchedulerHangs {
  import opened Wrappers
  import opened RoundRobin
  import opened Scheduler
  import opened SchedulerRuns

  /** The state in which the command searches for the next process, if it does. */
  function Searched(k: Kernel, c: Command): Option<Sched>
    requires k.Live?
  {
    if k.s.order != [] && ((c == Yield && !k.locked) || (c == Unlock && k.due)) then Some(k.s)
    else if c.Remove? && !k.locked && SlotOf(k.s.table, c.pid, 0) == Some(k.s.current) && |k.s.order| > 1 then
      Some(Removed(k.s, k.s.current))
    else None
  }

  /** The first process in ring order that is runnable or stuck is stuck, or there is none of either kind and the
      current process has left. */
  predicate NeverEnds(s: Sched) {
    var k := FirstDecided(s, 0);
    if k < |s.order| then IsStuck(s, s.order[k]) else !Linked(s)
  }

  lemma NeverEndsIff(s: Sched)
    requires SchedOk(s) && s.order != []
    ensures NeverEnds(Demote(s)) <==> !SwitchReady(s)
  {
    DemoteOk(s);
    ShapeOk(s);
    hide SchedOk, Demote, HasReady, Linked;
  }

  /** A command hangs if and only if it makes a search that never ends (`Scheduler.SearchEndsIff`). */
  lemma HangsIff(k: Kernel, c: Command)
    requires KernelOk(k) && k.Live?
    ensures Perform(k, c) == Hung <==> Searched(k, c).Some? && NeverEnds(Demote(Searched(k, c).value))
  {
    hide SchedOk, PidsDistinct, PidsBelow, Switch, SwitchReady, NeverEnds, Inserted, ApplyStep, Demote;
    if k.s.order != [] {
      NeverEndsIff(k.s);
    }
    if c.Remove? && SlotOf(k.s.table, c.pid, 0) == Some(k.s.current) && |k.s.order| > 1 {
      OccupiedInOrder(k.s, k.s.current);
      RemovedOk(k.s, k.s.current);
      NeverEndsIff(Removed(k.s, k.s.current));
    }
  }

  /** On the table itself: the command hangs if and only if the loop that follows the links stops after no number
      of rounds. */
  lemma {:induction false} HangsIffLoopsForEver(k: Kernel, c: Command, nodes: seq<Node>)
    requires KernelOk(k) && k.Live? && Searched(k, c).Some?
    requires var d := Demote(Searched(k, c).value); Linkage(d.order, Links(nodes), d.current) && d.table == Table(nodes)
    ensures var d := Demote(Searched(k, c).value);
      && d.current < |nodes|
      && (Perform(k, c) == Hung <==>
            forall rounds :: SearchAfter(nodes, d.current, nodes[d.current].next, rounds).None?)
  {
    HangsIff(k, c);
    SearchedOk(k, c);
    var s := Searched(k, c).value;
    DemoteOk(s);
    NeverEndsIff(s);
    SearchEndsIff(Demote(s), nodes);
    ShapeOk(s);
    hide KernelOk, Perform, Searched, SchedOk, Demote, NeverEnds, SearchEnds, Linkage;
  }

  lemma SearchedOk(k: Kernel, c: Command)
    requires KernelOk(k) && k.Live? && Searched(k, c).Some?
    ensures SchedOk(Searched(k, c).value) && Searched(k, c).value.order != []
  {
    hide SchedOk, PidsDistinct, PidsBelow;
    if c.Remove? {
      OccupiedInOrder(k.s, k.s.current);
      RemovedOk(k.s, k.s.current);
    }
  }

  ghost predicate HangsAt(slots: nat, run: seq<Command>, i: nat)
    requires i < |run|
  {
    var k := After(slots, run[..i]);
    k.Live? && Searched(k, run[i]).Some? && NeverEnds(Demote(Searched(k, run[i]).value))
  }

  lemma HangsAtFront(slots: nat, run: seq<Command>, i: nat)
    requires i < |run| - 1
    ensures HangsAt(slots, run, i) <==> HangsAt(slots, run[..|run| - 1], i)
  {
    hide After, Searched, NeverEnds;
    assert run[..|run| - 1][..i] == run[..i];
  }

  /** A run hangs if and only if one of its commands makes a search that never ends. */
  lemma {:induction false} RunHangsIff(slots: nat, run: seq<Command>)
    ensures After(slots, run) == Hung <==> exists i: nat :: i < |run| && HangsAt(slots, run, i)
  {
    if run != [] {
      var n := |run| - 1;
      RunHangsIff(slots, run[..n]);
      HangsLast(slots, run);
      hide After, HangsAt;
      forall i: nat | i < n ensures HangsAt(slots, run, i) <==> HangsAt(slots, run[..n], i) {
        HangsAtFront(slots, run, i);
      }
      if i: nat :| i < n && HangsAt(slots, run[..n], i) {
        assert HangsAt(slots, run, i);
      }
    }
  }

  /** The last command hangs, or the run hung before. */
  lemma HangsLast(slots: nat, run: seq<Command>)
    requires run != []
    ensures var n := |run| - 1;
      After(slots, run) == Hung <==> After(slots, run[..n]) == Hung || HangsAt(slots, run, n)
  {
    var k := After(slots, run[..|run| - 1]);
    RunOk(slots, run[..|run| - 1]);
    hide KernelOk, NeverEnds, Searched, PerformCreate, PerformRemove, PerformYield;
    if k.Live? {
      HangsIff(k, run[|run| - 1]);
    }
  }

  // --- A run that hangs with a thread ready ------------------------------------------------------------------------

  /** Two processes. The one in slot 0 starts a thread, which ends while the main thread is blocked; then the one
      in slot 1 has its turn. */
  function ThreadEnds(): seq<Command> {
    [Create(2), Create(1), Yield, Yield, Other(Spawned(0, 1)), Yield, Yield,
     Other(Happens(Changed(0, 0, Blocked))), Other(Happens(Ended(0, 1))), Yield]
  }

  /** A full table of two processes, one of them current. */
  function Two(current: nat, own: Proc, other: Proc): Sched
    requires current < 2
  {
    Sched(current, [1 - current, current],
          if current == 0 then [Some(own), Some(other)] else [Some(other), Some(own)])
  }

  function InTurn(s: Sched): Kernel { Live(s, PROCESS_LIMIT_REACHED, 3, false, false, false) }

  function SteppedBack(p: Proc): Proc {
    if StateOf(p, p.current) == Some(Running) then SetState(p, p.current, Ready) else p
  }

  lemma DemoteTwo(current: nat, own: Proc, other: Proc)
    requires current < 2
    ensures Demote(Two(current, own, other)) == Two(current, SteppedBack(own), other)
  {}

  lemma TakesTurn(current: nat, own: Proc, other: Proc)
    requires current < 2 && HasReady(other)
    ensures Perform(InTurn(Two(current, own, other)), Yield) ==
            InTurn(Two(1 - current, Promote(other), SteppedBack(own)))
  {
    DemoteTwo(current, own, other);
    hide Demote, HasReady, Promote, SteppedBack;
    var s, d := Two(current, own, other), Two(current, SteppedBack(own), other);
    assert FirstDecided(d, 0) == 0;
    assert Rotate(d.order, 0) == [current, 1 - current];
    assert Switch(s) == Two(1 - current, Promote(other), SteppedBack(own));
  }

  lemma StuckInTurn(current: nat, own: Proc, other: Proc)
    requires current < 2 && Stuck(other)
    ensures Perform(InTurn(Two(current, own, other)), Yield) == Hung
  {
    DemoteTwo(current, own, other);
    hide Demote, HasReady, SteppedBack, Attached;
    assert FirstDecided(Two(current, SteppedBack(own), other), 0) == 0;
  }

  lemma PromoteFirst(p: Proc)
    requires p.order != [] && IsReady(p.threads, p.order[0])
    ensures HasReady(p)
    ensures Promote(p) == p.(current := p.order[0], order := p.order[1..] + [p.order[0]],
                             threads := p.threads[p.order[0] := Some(p.threads[p.order[0]].value.(state := Running))])
  {
    assert FirstReady(p, 0) == 0;
    assert p.order[..1] == [p.order[0]];
  }

  function In(state: RunState): Option<Thread> { Some(Thread(state, NOT_WAITING)) }

  function First(current: nat, order: seq<nat>, main: Option<Thread>, spawned: Option<Thread>): Proc {
    Proc(1, current, order, [main, spawned])
  }

  function Second(state: RunState): Proc { Proc(2, 0, [0], [In(state)]) }

  lemma AfterNext(slots: nat, run: seq<Command>, n: nat)
    requires n < |run|
    ensures After(slots, run[..n + 1]) == Perform(After(slots, run[..n]), run[n])
  {
    assert run[..n + 1][..n] == run[..n];
  }

  lemma BothCreated()
    ensures After(2, ThreadEnds()[..2]) == InTurn(Two(0, First(0, [0], In(Ready), None), Second(Ready)))
  {
    var a := First(0, [0], In(Ready), None);
    assert NewProc(1, 2, MainThread()) == a && NewProc(2, 1, MainThread()) == Second(Ready);
    AfterNext(2, ThreadEnds(), 0);
    AfterNext(2, ThreadEnds(), 1);
    assert Initial(2).s.table[0 := Some(a)] == [Some(a), None];
    assert FirstFree([Some(a), None], 0) == 1 && FirstFree([Some(a), Some(Second(Ready))], 0) == PROCESS_LIMIT_REACHED;
    assert After(2, ThreadEnds()[..1]) == Live(Sched(0, [0], [Some(a), None]), 1, 2, false, false, false);
  }

  lemma SecondTakesTurns()
    ensures HasReady(Second(Ready)) && Promote(Second(Ready)) == Second(Running)
    ensures SteppedBack(Second(Running)) == Second(Ready)
  {
    PromoteFirst(Second(Ready));
  }

  lemma FirstTakesTurns()
    ensures var a := First(0, [0], In(Ready), None);
      SteppedBack(a) == a && HasReady(a) && Promote(a) == First(0, [0], In(Running), None)
    ensures var d := First(0, [1, 0], In(Ready), In(Ready));
      && SteppedBack(First(0, [1, 0], In(Running), In(Ready))) == d
      && HasReady(d) && Promote(d) == First(1, [0, 1], In(Ready), In(Running))
  {
    hide Promote, HasReady;
    PromoteFirst(First(0, [0], In(Ready), None));
    PromoteFirst(First(0, [1, 0], In(Ready), In(Ready)));
  }

  lemma FirstSpawns()
    ensures ApplyStep(Two(0, First(0, [0], In(Running), None), Second(Ready)), Spawned(0, 1)) ==
            Two(0, First(0, [1, 0], In(Running), In(Ready)), Second(Ready))
  {
    assert AddThread(First(0, [0], In(Running), None), 1, MainThread()) == First(0, [1, 0], In(Running), In(Ready));
  }

  lemma FirstBlocks()
    ensures ApplyStep(Two(0, First(1, [0, 1], In(Ready), In(Running)), Second(Ready)), Happens(Changed(0, 0, Blocked)))
            == Two(0, First(1, [0, 1], In(Blocked), In(Running)), Second(Ready))
  {
    assert SetState(First(1, [0, 1], In(Ready), In(Running)), 0, Blocked) == First(1, [0, 1], In(Blocked), In(Running));
  }

  lemma FirstThreadEnds()
    ensures ApplyStep(Two(0, First(1, [0, 1], In(Blocked), In(Running)), Second(Ready)), Happens(Ended(0, 1))) ==
            Two(0, First(1, [0], In(Blocked), None), Second(Ready))
    ensures Stuck(First(1, [0], In(Blocked), None))
    ensures SteppedBack(First(1, [0], In(Blocked), None)) == First(1, [0], In(Blocked), None)
  {
    var p := First(1, [0, 1], In(Blocked), In(Running));
    assert Without([0, 1], 1) == [0] by {
      assert [0, 1][1..] == [1];
    }
    assert WakeJoiners(p.threads[1 := None], 1) == [In(Blocked), None];
    assert EndThread(p, 1) == First(1, [0], In(Blocked), None);
  }

  /** The two take turns until the spawned thread has its first one. */
  lemma SpawnedInTurn()
    ensures After(2, ThreadEnds()[..7]) == InTurn(Two(0, First(1, [0, 1], In(Ready), In(Running)), Second(Ready)))
  {
    hide Promote, HasReady, PerformYield, After, Two, First, Second, SteppedBack, ApplyStep, In;
    BothCreated();
    FirstTakesTurns();
    SecondTakesTurns();
    FirstSpawns();
    AfterNext(2, ThreadEnds(), 2);
    TakesTurn(0, First(0, [0], In(Ready), None), Second(Ready));
    AfterNext(2, ThreadEnds(), 3);
    TakesTurn(1, Second(Running), First(0, [0], In(Ready), None));
    AfterNext(2, ThreadEnds(), 4);
    AfterNext(2, ThreadEnds(), 5);
    TakesTurn(0, First(0, [1, 0], In(Running), In(Ready)), Second(Ready));
    AfterNext(2, ThreadEnds(), 6);
    TakesTurn(1, Second(Running), First(0, [1, 0], In(Ready), In(Ready)));
  }

  /** The spawned thread ends, and the kernel hangs at the end of the other process's turn, whose thread is ready. */
  lemma HangsWithReadyThread()
    ensures var k := After(2, ThreadEnds()); k.Live? && Runnable(Demote(k.s).table, 1)
    ensures After(2, ThreadEnds() + [Yield]) == Hung
  {
    hide Promote, HasReady, PerformYield, After, First, Second, SteppedBack, ApplyStep, In, Stuck, Demote;
    SpawnedInTurn();
    FirstBlocks();
    FirstThreadEnds();
    SecondTakesTurns();
    AfterNext(2, ThreadEnds(), 7);
    AfterNext(2, ThreadEnds(), 8);
    AfterNext(2, ThreadEnds(), 9);
    assert ThreadEnds()[..10] == ThreadEnds();
    AfterAppend(2, ThreadEnds(), Yield);
    TakesTurn(0, First(1, [0], In(Blocked), None), Second(Ready));
    StuckInTurn(1, Second(Running), First(1, [0], In(Blocked), None));
    DemoteTwo(1, Second(Running), First(1, [0], In(Blocked), None));
  }
}
