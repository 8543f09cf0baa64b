// Whole runs of the scheduler: processes created and removed, switches, and whatever their threads do meanwhile.
module SchedulerRuns {
  import opened Wrappers
  import opened RoundRobin
  import opened Scheduler
  import opened ThreadStates

  /** The scheduler with what it remembers: a free slot, the next pid, whether switching is locked out and whether
      a switch fell due meanwhile. `damaged` says that a process was removed from a full table and others have
      been in it ever since. A kernel that has gone astray wrote in front of the table, went on with the stack of
      a process that is gone, or looked for a thread of no process; one that hangs searches for a ready thread for
      ever. */
  datatype Kernel =
    | Live(s: Sched, space: int, nextPid: int, damaged: bool, locked: bool, due: bool)
    | Astray
    | Hung

  datatype Command = Create(maxThreads: nat) | Remove(pid: int) | Yield | Lock | Unlock | Other(step: Step)

  /** Processes come, go and take turns by commands of their own. */
  predicate Plain(step: Step) { !step.Joined? && (step.Happens? ==> !step.e.Left? && !step.e.Switched?) }

  function SlotOf(table: seq<Option<Proc>>, pid: int, i: nat): (slot: Option<nat>)
    requires i <= |table|
    ensures slot.Some? ==> i <= slot.value < |table| && table[slot.value].Some? && table[slot.value].value.pid == pid
    ensures slot.None? ==> forall x | i <= x < |table| && table[x].Some? :: table[x].value.pid != pid
    decreases |table| - i
  {
    if i == |table| then None
    else if table[i].Some? && table[i].value.pid == pid then Some(i)
    else SlotOf(table, pid, i + 1)
  }

  function MainThread(): Thread { Thread(Ready, NOT_WAITING) }

  function PerformCreate(k: Kernel, maxThreads: nat): Kernel
    requires k.Live? && maxThreads >= 1
  {
    var s, p := k.s, NewProc(k.nextPid, maxThreads, MainThread());
    if |s.order| == |s.table| then k.(nextPid := k.nextPid + 1)
    else if s.order == [] && |s.table| > 0 then Placed(k, 0, p).(damaged := false)
    else if 0 <= k.space < |s.table| then Placed(k, k.space, p)
    else Astray
  }

  function Placed(k: Kernel, slot: nat, p: Proc): (r: Kernel)
    requires k.Live? && slot < |k.s.table|
    ensures r.Live?
  {
    var s := Inserted(k.s, slot, p);
    k.(s := s, space := FirstFree(s.table, 0), nextPid := k.nextPid + 1)
  }

  /** Removing the current process switches at once; under the lock nothing is left to go on with. */
  function PerformRemove(k: Kernel, x: nat): Kernel
    requires k.Live? && x < |k.s.table|
  {
    var r := Removed(k.s, x);
    if |k.s.order| == 1 then k.(s := r, damaged := false)
    else
      var k' := k.(s := r, space := LowerSpace(k.space, x), damaged := k.damaged || |k.s.order| == |k.s.table|);
      if x != k.s.current then k' else if k.locked then Astray else PerformYield(k')
  }

  function PerformYield(k: Kernel): Kernel
    requires k.Live?
  {
    if k.locked then k.(due := true)
    else if k.s.order == [] then Astray
    else if SwitchReady(k.s) then k.(s := Switch(k.s))
    else Hung
  }

  function Unlocked(k: Kernel): (r: Kernel)
    requires k.Live?
    ensures r.Live?
  {
    k.(locked := false, due := false)
  }

  function Perform(k: Kernel, c: Command): Kernel {
    if !k.Live? then k
    else match c
      case Create(maxThreads) => if maxThreads == 0 then k else PerformCreate(k, maxThreads)
      case Remove(pid) =>
        var x := SlotOf(k.s.table, pid, 0);
        if x.None? then k else PerformRemove(k, x.value)
      case Yield => PerformYield(k)
      case Lock => k.(locked := true)
      case Unlock => if k.due then PerformYield(Unlocked(k)) else Unlocked(k)
      case Other(step) => if Plain(step) then k.(s := ApplyStep(k.s, step)) else k
  }

  function Initial(slots: nat): Kernel { Live(Sched(0, [], seq(slots, _ => None)), 0, 1, false, false, false) }

  function After(slots: nat, run: seq<Command>): Kernel {
    if run == [] then Initial(slots) else Perform(After(slots, run[..|run| - 1]), run[|run| - 1])
  }

  // --- The invariant -------------------------------------------------------------------------------------------

  /** While processes remain, the remembered slot is the lowest free one, or, after damage, none. */
  predicate SpaceOk(k: Kernel)
    requires k.Live?
  {
    if k.s.order == [] then !k.damaged
    else if k.damaged then k.space == PROCESS_LIMIT_REACHED && |k.s.order| < |k.s.table|
    else k.space == FirstFree(k.s.table, 0)
  }

  /** The invariant, but for the current process, which may have just left. */
  ghost predicate CoreOk(k: Kernel)
    requires k.Live?
  {
    SchedOk(k.s) && PidsDistinct(k.s.table) && PidsBelow(k.s.table, k.nextPid) && SpaceOk(k) && (k.due ==> k.locked)
  }

  ghost predicate KernelOk(k: Kernel) {
    k.Live? ==> CoreOk(k) && if k.s.order == [] then k.s.current == 0 else Linked(k.s)
  }

  lemma {:induction false} SameFree(a: seq<Option<Proc>>, b: seq<Option<Proc>>, i: nat)
    requires |a| == |b| && i <= |a| && forall x | 0 <= x < |a| :: a[x].Some? <==> b[x].Some?
    ensures FirstFree(a, i) == FirstFree(b, i)
    decreases |a| - i
  {
    if i < |a| {
      SameFree(a, b, i + 1);
    }
  }

  /** The same processes, by slot and pid. */
  ghost predicate SameProcesses(a: seq<Option<Proc>>, b: seq<Option<Proc>>) {
    |a| == |b| && forall x | 0 <= x < |a| ::
      (a[x].Some? <==> b[x].Some?) && (a[x].Some? ==> a[x].value.pid == b[x].value.pid)
  }

  /** A switch moves no process: slots, pids and the lowest free slot stay. */
  lemma SwitchKeepsProcesses(s: Sched)
    requires SchedOk(s) && SwitchReady(s)
    ensures SameProcesses(s.table, Switch(s).table) && FirstFree(Switch(s).table, 0) == FirstFree(s.table, 0)
  {
    DemoteKeepsProcesses(s);
    hide Switch, Demote, SwitchReady, SchedOk, Promote, FirstFree;
    var x := SwitchTable(s);
    SameFree(Switch(s).table, s.table, 0);
  }

  lemma DemoteKeepsProcesses(s: Sched)
    ensures SameProcesses(s.table, Demote(s).table)
  {}

  /** A switch rewrites one slot, with the same process. */
  lemma SwitchTable(s: Sched) returns (x: nat)
    requires SchedOk(s) && SwitchReady(s)
    ensures var d := Demote(s);
      && x < |d.table| && d.table[x].Some? && d.table[x].value.order != []
      && Promote(d.table[x].value).pid == d.table[x].value.pid
      && Switch(s).table == d.table[x := Some(Promote(d.table[x].value))]
  {
    DemoteOk(s);
    var d := Demote(s);
    hide Demote, Rotate;
    x := Switch(s).current;
  }

  lemma PlainKeepsProcesses(s: Sched, step: Step)
    requires SchedOk(s) && Plain(step)
    ensures SameProcesses(s.table, ApplyStep(s, step).table)
    ensures FirstFree(ApplyStep(s, step).table, 0) == FirstFree(s.table, 0)
    ensures ApplyStep(s, step).order == s.order && ApplyStep(s, step).current == s.current
    ensures Linked(ApplyStep(s, step)) <==> Linked(s)
  {
    hide FirstFree, SchedOk;
    SameFree(ApplyStep(s, step).table, s.table, 0);
  }

  lemma SamePids(a: seq<Option<Proc>>, b: seq<Option<Proc>>, next: int)
    requires SameProcesses(a, b) && PidsDistinct(a) && PidsBelow(a, next)
    ensures PidsDistinct(b) && PidsBelow(b, next)
  {}

  lemma OtherOk(k: Kernel, step: Step)
    requires KernelOk(k) && k.Live?
    ensures KernelOk(Perform(k, Other(step))) && |Perform(k, Other(step)).s.table| == |k.s.table|
  {
    hide ApplyStep, SchedOk, PidsDistinct, PidsBelow, SameProcesses, FirstFree;
    if Plain(step) {
      StepOk(k.s, step);
      PlainKeepsProcesses(k.s, step);
      SamePids(k.s.table, ApplyStep(k.s, step).table, k.nextPid);
    }
  }

  /** A switch, when its search ends, puts the current process back on the ring and changes nothing else. */
  lemma YieldOk(k: Kernel)
    requires k.Live? && CoreOk(k) && !k.locked
    ensures KernelOk(PerformYield(k))
    ensures var k' := PerformYield(k); k'.Live? ==>
              && |k'.s.table| == |k.s.table| && |k'.s.order| == |k.s.order| && k.s.order != []
              && k' == k.(s := k'.s)
  {
    hide SchedOk, PidsDistinct, PidsBelow, SameProcesses, FirstFree, Switch, SwitchReady, Linked;
    if k.s.order != [] && SwitchReady(k.s) {
      SwitchOk(k.s);
      SwitchKeepsProcesses(k.s);
      SamePids(k.s.table, Switch(k.s).table, k.nextPid);
    }
  }

  lemma CreateOk(k: Kernel, maxThreads: nat)
    requires KernelOk(k) && k.Live? && maxThreads >= 1
    ensures KernelOk(PerformCreate(k, maxThreads))
    ensures PerformCreate(k, maxThreads) == Astray <==> k.s.order != [] && k.damaged
    ensures PerformCreate(k, maxThreads).Live? ==> |PerformCreate(k, maxThreads).s.table| == |k.s.table|
  {
    var s, p := k.s, NewProc(k.nextPid, maxThreads, MainThread());
    var slot: nat := if s.order == [] || k.damaged || k.space < 0 then 0 else k.space;
    NewProcOk(k.nextPid, maxThreads, MainThread());
    BelowIsFresh(s.table, k.nextPid);
    QuantityIsOccupancy(s);
    InsertedBelow(s, p);
    if |s.order| < |s.table| && s.table[slot].None? {
      InsertedOk(s, slot, p);
      QuantityIsOccupancy(Inserted(s, slot, p));
    }
    hide SchedOk, PidsDistinct, PidsBelow, ProcOk;
  }

  lemma RemovedBelow(s: Sched, x: nat, next: int)
    requires x < |s.table| && PidsBelow(s.table, next)
    ensures PidsBelow(Removed(s, x).table, next)
  {}

  lemma RemovedLinked(s: Sched, x: nat)
    requires SchedOk(s) && Linked(s) && x in s.order && x != s.current
    ensures |s.order| > 1 && Linked(Removed(s, x))
  {
    assert s.order[|s.order| - 1] == s.current;
  }

  lemma OccupiedInOrder(s: Sched, x: nat)
    requires SchedOk(s) && x < |s.table| && s.table[x].Some?
    ensures x in s.order
  {}

  lemma RemoveOk(k: Kernel, x: nat)
    requires KernelOk(k) && k.Live? && x < |k.s.table| && k.s.table[x].Some?
    ensures KernelOk(PerformRemove(k, x))
    ensures PerformRemove(k, x).Live? ==> |PerformRemove(k, x).s.table| == |k.s.table|
  {
    hide SchedOk, PidsDistinct, PidsBelow, FirstFree, LowerSpace, Linked, PerformYield;
    var s := k.s;
    OccupiedInOrder(s, x);
    RemovedOk(s, x);
    RemovedBelow(s, x, k.nextPid);
    RemovalKeepsSpace(s, x, k.space);
    QuantityIsOccupancy(s);
    if x != s.current {
      RemovedLinked(s, x);
    } else if |s.order| > 1 && !k.locked {
      YieldOk(k.(s := Removed(s, x), space := LowerSpace(k.space, x), damaged := k.damaged || |s.order| == |s.table|));
    }
  }

  lemma PerformOk(k: Kernel, c: Command)
    requires KernelOk(k)
    ensures KernelOk(Perform(k, c))
    ensures k.Live? && Perform(k, c).Live? ==> |Perform(k, c).s.table| == |k.s.table|
  {
    hide CoreOk, PerformCreate, PerformRemove, PerformYield, ApplyStep;
    if k.Live? {
      match c {
        case Create(maxThreads) =>
          if maxThreads >= 1 {
            CreateOk(k, maxThreads);
          }
        case Remove(pid) =>
          var x := SlotOf(k.s.table, pid, 0);
          if x.Some? {
            RemoveOk(k, x.value);
          }
        case Yield => LockedOrNot(k);
        case Lock => LockOk(k);
        case Unlock => LockOk(k);
        case Other(step) => OtherOk(k, step);
      }
    }
  }

  lemma LockedOrNot(k: Kernel)
    requires KernelOk(k) && k.Live?
    ensures KernelOk(PerformYield(k))
    ensures PerformYield(k).Live? ==> |PerformYield(k).s.table| == |k.s.table|
  {
    hide SchedOk, PidsDistinct, PidsBelow, Switch, SwitchReady, Linked;
    if !k.locked {
      YieldOk(k);
    }
  }

  lemma LockOk(k: Kernel)
    requires KernelOk(k) && k.Live?
    ensures KernelOk(k.(locked := true)) && KernelOk(Unlocked(k)) && KernelOk(PerformYield(Unlocked(k)))
    ensures PerformYield(Unlocked(k)).Live? ==> |PerformYield(Unlocked(k)).s.table| == |k.s.table|
  {
    hide SchedOk, PidsDistinct, PidsBelow, PerformYield, Linked;
    YieldOk(Unlocked(k));
  }

  /** The table is one well-formed ring of rings with distinct pids after every run, as long as it goes on. */
  lemma {:induction false} RunOk(slots: nat, run: seq<Command>)
    ensures KernelOk(After(slots, run)) && (After(slots, run).Live? ==> |After(slots, run).s.table| == slots)
  {
    hide KernelOk, Perform;
    if run == [] {
      InitialOk(slots);
    } else {
      RunOk(slots, run[..|run| - 1]);
      PerformOk(After(slots, run[..|run| - 1]), run[|run| - 1]);
      LiveBefore(After(slots, run[..|run| - 1]), run[|run| - 1]);
    }
  }

  lemma LiveBefore(k: Kernel, c: Command)
    ensures Perform(k, c).Live? ==> k.Live?
  {}

  lemma InitialOk(slots: nat)
    ensures KernelOk(Initial(slots)) && |Initial(slots).s.table| == slots
  {}

  // --- What the remembered slot is worth -------------------------------------------------------------------------

  ghost predicate InUse(slots: nat, run: seq<Command>) {
    After(slots, run).Live? && After(slots, run).s.order != []
  }

  predicate FullRemoval(k: Kernel, c: Command) {
    k.Live? && c.Remove? && SlotOf(k.s.table, c.pid, 0).Some? && |k.s.order| == |k.s.table|
  }

  /** Command i of the run removed a process from a full table, and the table was never empty since. */
  ghost predicate Damaging(slots: nat, run: seq<Command>, i: nat)
    requires i < |run|
  {
    FullRemoval(After(slots, run[..i]), run[i]) && forall j | i < j <= |run| :: InUse(slots, run[..j])
  }

  /** The mark of damage means just that. */
  lemma {:induction false} DamagedIff(slots: nat, run: seq<Command>)
    requires InUse(slots, run)
    ensures After(slots, run).damaged <==> exists i: nat | i < |run| :: Damaging(slots, run, i)
  {
    if run != [] {
      var n := |run| - 1;
      var front := run[..n];
      var k := After(slots, front);
      LiveBefore(k, run[n]);
      RunOk(slots, front);
      DamagingLast(slots, run);
      DamageStep(k, run[n]);
      hide KernelOk, After, Perform, FullRemoval;
      forall i: nat | i < n ensures Damaging(slots, run, i) <==> InUse(slots, front) && Damaging(slots, front, i) {
        DamagingFront(slots, run, i);
      }
      if k.s.order != [] {
        DamagedIff(slots, front);
      }
    }
  }

  lemma DamageStep(k: Kernel, c: Command)
    requires KernelOk(k) && k.Live? && Perform(k, c).Live? && Perform(k, c).s.order != []
    ensures Perform(k, c).damaged <==> k.s.order != [] && (k.damaged || FullRemoval(k, c))
  {
    hide ApplyStep, SchedOk, PidsDistinct, PidsBelow, PerformYield, Linked;
    match c {
      case Create(maxThreads) =>
      case Remove(pid) =>
        var x := SlotOf(k.s.table, pid, 0);
        if x.Some? {
          RemovalDamages(k, x.value);
        }
      case Yield => YieldKeepsDamage(k);
      case Lock =>
      case Unlock => YieldKeepsDamage(Unlocked(k));
      case Other(step) =>
        if Plain(step) {
          PlainKeepsProcesses(k.s, step);
        }
    }
  }

  lemma YieldKeepsDamage(k: Kernel)
    requires k.Live? && CoreOk(k)
    ensures var k' := PerformYield(k); k'.Live? ==>
              k'.damaged == k.damaged && |k'.s.order| == |k.s.order|
  {
    hide SchedOk, PidsDistinct, PidsBelow, Switch, SwitchReady;
    if !k.locked {
      YieldOk(k);
    }
  }

  lemma RemovalDamages(k: Kernel, x: nat)
    requires KernelOk(k) && k.Live? && x < |k.s.table| && k.s.table[x].Some?
    requires PerformRemove(k, x).Live? && PerformRemove(k, x).s.order != []
    ensures PerformRemove(k, x).damaged <==> k.damaged || |k.s.order| == |k.s.table|
    ensures k.s.order != []
  {
    hide SchedOk, PidsDistinct, PidsBelow, PerformYield, Linked, FirstFree, LowerSpace;
    var s := k.s;
    OccupiedInOrder(s, x);
    RemovedOk(s, x);
    RemovedBelow(s, x, k.nextPid);
    RemovalKeepsSpace(s, x, k.space);
    QuantityIsOccupancy(s);
    if x == s.current && |s.order| > 1 && !k.locked {
      YieldOk(k.(s := Removed(s, x), space := LowerSpace(k.space, x), damaged := k.damaged || |s.order| == |s.table|));
    }
  }

  lemma DamagingLast(slots: nat, run: seq<Command>)
    requires run != [] && InUse(slots, run)
    ensures var n := |run| - 1; Damaging(slots, run, n) <==> FullRemoval(After(slots, run[..n]), run[n])
  {
    assert run[..|run|] == run;
  }

  lemma DamagingFront(slots: nat, run: seq<Command>, i: nat)
    requires i < |run| - 1 && InUse(slots, run)
    ensures var front := run[..|run| - 1];
      Damaging(slots, run, i) <==> InUse(slots, front) && Damaging(slots, front, i)
  {
    hide After;
    var front := run[..|run| - 1];
    assert run[..|run|] == run && front[..|front|] == front;
    forall j | 0 <= j < |run| ensures front[..j] == run[..j] {}
    assert InUse(slots, run[..|run| - 1]) <==> InUse(slots, front);
  }

  /** In every run, while processes remain: the remembered slot is the lowest free one if and only if no process
      was removed from a full table since the table was last empty. Otherwise no slot is remembered although one
      is free, and the next process to be created goes astray. */
  lemma SpaceIsLowestIff(slots: nat, run: seq<Command>, maxThreads: nat)
    requires InUse(slots, run) && maxThreads >= 1
    ensures var k := After(slots, run);
      && (k.space == FirstFree(k.s.table, 0) <==> !exists i: nat | i < |run| :: Damaging(slots, run, i))
      && (k.space != FirstFree(k.s.table, 0) <==> Perform(k, Create(maxThreads)) == Astray)
      && SpaceKnown(k.s, k.space)
  {
    var k := After(slots, run);
    RunOk(slots, run);
    DamagedIff(slots, run);
    CreateOk(k, maxThreads);
    QuantityIsOccupancy(k.s);
    hide After, Damaging, SchedOk, PidsDistinct, PidsBelow, PerformCreate;
  }

  // --- The failing inputs ------------------------------------------------------------------------------------------

  function Creates(n: nat): (run: seq<Command>)
    ensures |run| == n && (n > 0 ==> run[n - 1] == Create(1) && run[..n - 1] == Creates(n - 1))
  {
    if n == 0 then [] else Creates(n - 1) + [Create(1)]
  }

  /** A table being filled: process 1 is current in slot 0, and process 2 is there once two have been created. */
  ghost predicate Filling(k: Kernel, slots: nat, n: nat) {
    && k.Live? && |k.s.order| == n && k.s.current == 0 && k.nextPid == n + 1 && !k.damaged && |k.s.table| == slots
    && 0 < slots && k.s.table[0].Some? && k.s.table[0].value.pid == 1
    && (n >= 2 ==> exists x :: 0 <= x < slots && k.s.table[x].Some? && k.s.table[x].value.pid == 2)
  }

  lemma FillMore(k: Kernel, slots: nat, n: nat)
    requires KernelOk(k) && Filling(k, slots, n) && 1 <= n < slots
    ensures Filling(Perform(k, Create(1)), slots, n + 1)
  {
    QuantityIsOccupancy(k.s);
    var k', p := Perform(k, Create(1)), NewProc(n + 1, 1, MainThread());
    hide SchedOk, PidsDistinct, PidsBelow;
    assert k'.s == Inserted(k.s, k.space, p);
    if n == 1 {
      assert k'.s.table[k.space].value.pid == 2;
    } else {
      var x :| 0 <= x < slots && k.s.table[x].Some? && k.s.table[x].value.pid == 2;
      assert k'.s.table[x] == k.s.table[x];
    }
  }

  lemma FirstCreated(slots: nat)
    requires slots >= 1
    ensures Filling(After(slots, Creates(1)), slots, 1)
  {
    assert After(slots, Creates(0)) == Initial(slots);
    assert After(slots, Creates(1)) == PerformCreate(Initial(slots), 1);
    hide FirstFree;
  }

  lemma {:induction false} CreatesFill(slots: nat, n: nat)
    requires 1 <= n <= slots
    ensures Filling(After(slots, Creates(n)), slots, n) && KernelOk(After(slots, Creates(n)))
  {
    hide KernelOk, Filling, Perform, After;
    RunOk(slots, Creates(n));
    if n == 1 {
      FirstCreated(slots);
    } else {
      CreatesFill(slots, n - 1);
      FillMore(After(slots, Creates(n - 1)), slots, n - 1);
      AfterAppend(slots, Creates(n - 1), Create(1));
    }
  }

  /** For every table of at least two slots: fill it, remove a process, and create one. */
  lemma FullThenRemove(slots: nat)
    requires slots >= 2
    ensures var k := After(slots, Creates(slots) + [Remove(2)]);
      && k.Live? && |k.s.order| == slots - 1
      && k.space == PROCESS_LIMIT_REACHED && FirstFree(k.s.table, 0) != PROCESS_LIMIT_REACHED
      && Perform(k, Create(1)) == Astray
  {
    hide After, KernelOk, Filling, Perform;
    CreatesFill(slots, slots);
    var run := Creates(slots) + [Remove(2)];
    assert run[..slots] == Creates(slots);
    RemoveFromFull(After(slots, Creates(slots)), slots);
    AfterAppend(slots, Creates(slots), Remove(2));
  }

  lemma AfterAppend(slots: nat, run: seq<Command>, c: Command)
    ensures After(slots, run + [c]) == Perform(After(slots, run), c)
  {
    assert (run + [c])[..|run|] == run;
  }

  lemma RemoveFromFull(k: Kernel, slots: nat)
    requires slots >= 2 && KernelOk(k) && Filling(k, slots, slots)
    ensures var k' := Perform(k, Remove(2));
      && k'.Live? && |k'.s.order| == slots - 1
      && k'.space == PROCESS_LIMIT_REACHED && FirstFree(k'.s.table, 0) != PROCESS_LIMIT_REACHED
      && Perform(k', Create(1)) == Astray
  {
    var x := SlotOf(k.s.table, 2, 0);
    OccupiedInOrder(k.s, x.value);
    RemovedOk(k.s, x.value);
    RemovalKeepsSpace(k.s, x.value, k.space);
    RemoveOk(k, x.value);
    CreateOk(Perform(k, Remove(2)), 1);
    hide SchedOk, PidsDistinct, PidsBelow, FirstFree, PerformCreate;
  }

  // --- What a command does to the table ------------------------------------------------------------------------------

  /** A creation with room, in a kernel that remembers it, puts the new process in the lowest free slot and touches no
      other. */
  lemma CreationTakesLowest(k: Kernel, maxThreads: nat)
    requires KernelOk(k) && k.Live? && maxThreads >= 1 && !k.damaged && |k.s.order| < |k.s.table|
    ensures var f, k' := FirstFree(k.s.table, 0), Perform(k, Create(maxThreads));
      && 0 <= f < |k.s.table| && k'.Live?
      && k'.s.table == k.s.table[f := Some(NewProc(k.nextPid, maxThreads, MainThread()))]
  {
    QuantityIsOccupancy(k.s);
    if k.s.order == [] {
      EmptyTable(k.s);
    }
    hide SchedOk, PidsDistinct, PidsBelow, NewProc;
  }

  /** The next switch picks it, and its main thread runs. */
  lemma CreationRunsNext(k: Kernel, maxThreads: nat)
    requires KernelOk(k) && k.Live? && maxThreads >= 1 && !k.damaged && |k.s.order| < |k.s.table| && !k.locked
    ensures var f, k' := FirstFree(k.s.table, 0), Perform(Perform(k, Create(maxThreads)), Yield);
      0 <= f < |k.s.table| && k'.Live? && IsCurrent(k'.s, f, 0) && Has(Shown(k'.s, f, 0), Running)
  {
    hide KernelOk, SchedOk, Switch, SwitchReady, Inserted, NewProc, ProcOk, Promote, HasReady;
    CreationTakesLowest(k, maxThreads);
    CreationInserts(k, maxThreads);
    var c, f := Perform(k, Create(maxThreads)), FirstFree(k.s.table, 0);
    var p := NewProc(k.nextPid, maxThreads, MainThread());
    NewProcOk(k.nextPid, maxThreads, MainThread());
    NewProcReady(k.nextPid, maxThreads);
    NewProcessFirst(k.s, f, p);
    SwitchRunsFirst(c.s, f);
  }

  lemma CreationInserts(k: Kernel, maxThreads: nat)
    requires KernelOk(k) && k.Live? && maxThreads >= 1 && !k.damaged && |k.s.order| < |k.s.table|
    ensures var f, p, c := FirstFree(k.s.table, 0), NewProc(k.nextPid, maxThreads, MainThread()),
                           Perform(k, Create(maxThreads));
      && 0 <= f < |k.s.table| && k.s.table[f].None? && c.Live? && c.s == Inserted(k.s, f, p)
      && SchedOk(k.s) && SchedOk(c.s) && c.s.order != [] && c.s.table[f] == Some(p)
      && (k.s.order != [] ==> Linked(k.s)) && c.locked == k.locked
  {
    CreationTakesLowest(k, maxThreads);
    CreateOk(k, maxThreads);
    if k.s.order == [] {
      EmptyTable(k.s);
    }
    hide SchedOk, PidsDistinct, PidsBelow, NewProc;
  }

  lemma NewProcReady(pid: int, maxThreads: nat)
    requires maxThreads >= 1
    ensures var p := NewProc(pid, maxThreads, MainThread());
      HasReady(p) && StateOf(p, p.current) == StateOf(p, 0) == Some(Ready) && p.order == [0]
  {
    assert FirstReady(NewProc(pid, maxThreads, MainThread()), 0) == 0;
  }

  /** A switch to a process that has one thread, which is ready. */
  lemma SwitchRunsFirst(s: Sched, f: nat)
    requires SchedOk(s) && SwitchReady(s) && Switch(s).current == f < |s.table| && s.table[f].Some?
    requires var p := s.table[f].value; p.order == [0] && StateOf(p, 0) == Some(Ready)
    ensures IsCurrent(Switch(s), f, 0) && Has(Shown(Switch(s), f, 0), Running)
  {
    SwitchOk(s);
    SwitchPicksReady(s);
    SwitchShows(s, f, 0);
    OnlyThread(s, f);
    hide Switch, SwitchReady, Demote;
  }

  lemma OnlyThread(s: Sched, f: nat)
    requires SchedOk(s) && SwitchReady(s) && Switch(s).current == f < |s.table| && s.table[f].Some?
    requires var p := s.table[f].value; p.order == [0] && StateOf(p, 0) == Some(Ready)
    ensures Linked(Switch(s)) && Switch(s).table[f].value.current == 0
  {
    hide Switch, SwitchReady, Demote, Promote, SchedOk, ProcOk, HasReady, Target;
    SwitchOk(s);
    var y := SwitchSets(s);
    DemoteKeepsReady(s, f, 0);
    PromoteSingle(Demote(s).table[f].value);
  }

  lemma PromoteSingle(p: Proc)
    requires ProcOk(p) && p.order == [0] && HasReady(p)
    ensures Promote(p).current == 0
  {}

  /** A removal takes out the process with the pid and leaves all others in their slots. */
  lemma RemovalTakesOne(k: Kernel, pid: int)
    requires KernelOk(k) && k.Live? && Perform(k, Remove(pid)).Live?
    ensures var s, s' := k.s, Perform(k, Remove(pid)).s;
      |s'.table| == |s.table| && forall y | 0 <= y < |s.table| ::
        (s'.table[y].Some? <==> s.table[y].Some? && s.table[y].value.pid != pid)
        && (s'.table[y].Some? ==> s'.table[y].value.pid == s.table[y].value.pid)
  {
    hide SchedOk, PidsBelow, Switch, SwitchReady, LowerSpace;
    var x := SlotOf(k.s.table, pid, 0);
    if x.Some? {
      OccupiedInOrder(k.s, x.value);
      RemovedOk(k.s, x.value);
      var r := Removed(k.s, x.value);
      if x.value == k.s.current && |k.s.order| > 1 {
        assert SwitchReady(r);
        SwitchKeepsProcesses(r);
      }
    }
  }

  function Creations(run: seq<Command>): nat {
    if run == [] then 0
    else
      var n := |run| - 1;
      Creations(run[..n]) + if run[n].Create? && run[n].maxThreads >= 1 then 1 else 0
  }

  /** No pid is ever given twice: the next one counts the creations, served or not. */
  lemma {:induction false} PidsCount(slots: nat, run: seq<Command>)
    requires After(slots, run).Live?
    ensures After(slots, run).nextPid == 1 + Creations(run)
  {
    if run != [] {
      var front, c := run[..|run| - 1], run[|run| - 1];
      LiveBefore(After(slots, front), c);
      PidsCount(slots, front);
      hide After, Switch, SwitchReady, ApplyStep, Removed, Inserted, NewProc, FirstFree, LowerSpace;
    }
  }

  // --- Switching under the lock ---------------------------------------------------------------------------------

  function PerformAll(k: Kernel, run: seq<Command>): Kernel
    decreases |run|
  {
    if run == [] then k else PerformAll(Perform(k, run[0]), run[1..])
  }

  lemma {:induction false} AfterAll(slots: nat, front: seq<Command>, run: seq<Command>)
    ensures After(slots, front + run) == PerformAll(After(slots, front), run)
    decreases |run|
  {
    if run == [] {
      assert front + run == front;
    } else {
      AfterAppend(slots, front, run[0]);
      AfterAll(slots, front + [run[0]], run[1..]);
      assert front + run == front + [run[0]] + run[1..];
    }
  }

  function WithoutYields(run: seq<Command>): seq<Command> {
    if run == [] then [] else (if run[0] == Yield then [] else [run[0]]) + WithoutYields(run[1..])
  }

  /** Under the lock nothing but the unlocking looks at the note that a switch is due. */
  lemma NoteIsInert(k: Kernel, c: Command, due: bool)
    requires k.Live? && k.locked && c != Yield && c != Unlock
    ensures var r, r' := Perform(k, c), Perform(k.(due := due), c);
      if r.Live? then r.locked && r.due == k.due && r' == r.(due := due) else r' == r
  {
    hide Inserted, Removed, ApplyStep, LowerSpace, FirstFree, NewProc;
  }

  lemma {:induction false} NoteIsKept(k: Kernel, run: seq<Command>, due: bool)
    requires k.Live? && k.locked && Unlock !in run
    ensures var r, r' := PerformAll(k, WithoutYields(run)), PerformAll(k.(due := due), run);
      if r.Live? then r.locked && r.due == k.due && r' == r.(due := due || Yield in run) else r' == r
    decreases |run|
  {
    if run != [] {
      var c, rest := run[0], run[1..];
      assert run == [c] + rest;
      if c == Yield {
        assert WithoutYields(run) == WithoutYields(rest);
        assert Perform(k.(due := due), Yield) == k.(due := true);
        NoteIsKept(k, rest, true);
      } else {
        NoteIsInert(k, c, due);
        assert WithoutYields(run)[1..] == WithoutYields(rest);
        hide Perform;
        if Perform(k, c).Live? {
          NoteIsKept(Perform(k, c), rest, due);
        } else {
          DeadStays(Perform(k, c), rest);
          DeadStays(Perform(k, c), WithoutYields(rest));
        }
      }
    }
  }

  lemma {:induction false} DeadStays(k: Kernel, run: seq<Command>)
    requires !k.Live?
    ensures PerformAll(k, run) == k
    decreases |run|
  {
    if run != [] {
      DeadStays(Perform(k, run[0]), run[1..]);
    }
  }

  /** However often switches fall due under the lock, none happens before the unlocking, and just one after it. */
  lemma LockDefersSwitch(k: Kernel, run: seq<Command>)
    requires k.Live? && k.locked && !k.due && Unlock !in run
    ensures PerformAll(k, run + [Unlock]) ==
            PerformAll(k, WithoutYields(run) + [Unlock] + if Yield in run then [Yield] else [])
  {
    NoteIsKept(k, run, false);
    PerformAllAppend(k, run, [Unlock]);
    PerformAllAppend(k, WithoutYields(run) + [Unlock], if Yield in run then [Yield] else []);
    PerformAllAppend(k, WithoutYields(run), [Unlock]);
    hide PerformYield;
    var r := PerformAll(k, WithoutYields(run));
    assert k.(due := false) == k;
    assert forall j: Kernel, c: Command :: PerformAll(j, [c]) == Perform(j, c) by {
      forall j: Kernel, c: Command ensures PerformAll(j, [c]) == Perform(j, c) {
        assert [c][1..] == [];
      }
    }
  }

  lemma {:induction false} PerformAllAppend(k: Kernel, a: seq<Command>, b: seq<Command>)
    ensures PerformAll(k, a + b) == PerformAll(PerformAll(k, a), b)
    decreases |a|
  {
    if a == [] {
      assert a + b == b;
    } else {
      assert (a + b)[1..] == a[1..] + b;
      PerformAllAppend(Perform(k, a[0]), a[1..], b);
    }
  }

  // --- The same runs on the kernel's own table -----------------------------------------------------------------------

  ghost predicate Mirrors(k: KernelScheduler, g: Kernel)
    reads k, k.nodes
  {
    && k.Valid() && g.Live? && k.State() == g.s
    && k.firstAvailableSpace == g.space && k.nextPid == g.nextPid
    && k.changeLock == (if g.locked then 1 else 0) && k.lockQuantumExceeded == if g.due then 1 else 0
  }

  /** What a live kernel meets of the scheduler's demands on its callers. */
  lemma LiveFacts(g: Kernel)
    requires KernelOk(g) && g.Live?
    ensures SchedOk(g.s) && PidsBelow(g.s.table, g.nextPid) && (g.s.order == [] || Linked(g.s))
    ensures SpaceKnown(g.s, g.space)
  {
    QuantityIsOccupancy(g.s);
  }

  method DoCreate(k: KernelScheduler, maxThreads: nat, ghost g: Kernel) returns (fine: bool)
    requires Mirrors(k, g) && KernelOk(g) && maxThreads >= 1
    modifies k, k.nodes
    ensures fine <==> PerformCreate(g, maxThreads).Live?
    ensures fine ==> Mirrors(k, PerformCreate(g, maxThreads))
  {
    hide SchedOk, PidsBelow, PidsDistinct, KernelOk, FirstFree, Inserted, Linkage, Linked, NewProc;
    LiveFacts(g);
    QuantityIsOccupancy(g.s);
    var p, added, stray := k.CreateProcess(maxThreads, MainThread());
    fine := !stray;
  }

  method DoRemove(k: KernelScheduler, pid: int, ghost g: Kernel) returns (fine: bool)
    requires Mirrors(k, g) && KernelOk(g) && Perform(g, Remove(pid)) != Hung
    modifies k, k.nodes
    ensures fine <==> Perform(g, Remove(pid)).Live?
    ensures fine ==> Mirrors(k, Perform(g, Remove(pid)))
  {
    hide SchedOk, PidsBelow, PidsDistinct, CoreOk, Switch, SwitchReady, Linkage, SlotOf, Linked;
    LiveFacts(g);
    var slot, switch := k.RemoveProcess(pid);
    RemovedSlot(g, pid, slot);
    fine := !(switch && k.changeLock == 1);
    if switch && fine {
      k.NextProcess();
    }
  }

  /** Which process a removal takes out, and when it switches. */
  lemma RemovedSlot(g: Kernel, pid: int, slot: int)
    requires KernelOk(g) && g.Live? && Perform(g, Remove(pid)) != Hung
    requires slot == -1 ==> forall x | 0 <= x < |g.s.table| && g.s.table[x].Some? :: g.s.table[x].value.pid != pid
    requires slot != -1 ==> 0 <= slot < |g.s.table| && g.s.table[slot].Some? && g.s.table[slot].value.pid == pid
    ensures slot == -1 ==> Perform(g, Remove(pid)) == g
    ensures slot != -1 ==> Perform(g, Remove(pid)) == PerformRemove(g, slot)
    ensures slot != -1 && slot == g.s.current && |g.s.order| > 1 && !g.locked ==>
              Removed(g.s, slot).order != [] && SwitchReady(Removed(g.s, slot))
  {
    hide SchedOk, PidsBelow, Switch, SwitchReady;
    var x := SlotOf(g.s.table, pid, 0);
    if x.Some? {
      OccupiedInOrder(g.s, x.value);
      RemovedOk(g.s, x.value);
    }
  }

  method DoYield(k: KernelScheduler, ghost g: Kernel) returns (fine: bool)
    requires Mirrors(k, g) && KernelOk(g) && PerformYield(g) != Hung
    modifies k, k.nodes
    ensures fine <==> PerformYield(g).Live?
    ensures fine ==> Mirrors(k, PerformYield(g))
  {
    hide SchedOk, PidsBelow, PidsDistinct, CoreOk, Switch, Linkage;
    LiveFacts(g);
    fine := k.changeLock == 1 || k.processQuantity > 0;
    if fine {
      k.NextProcess();
    }
  }

  method DoUnlock(k: KernelScheduler, ghost g: Kernel) returns (fine: bool)
    requires Mirrors(k, g) && KernelOk(g) && Perform(g, Unlock) != Hung
    modifies k, k.nodes
    ensures fine <==> Perform(g, Unlock).Live?
    ensures fine ==> Mirrors(k, Perform(g, Unlock))
  {
    hide SchedOk, PidsBelow, PidsDistinct, CoreOk, Switch, Linkage;
    LiveFacts(g);
    fine := k.lockQuantumExceeded == 0 || k.processQuantity > 0;
    if fine {
      k.Unlock();
    }
  }

  method DoOther(k: KernelScheduler, step: Step, ghost g: Kernel)
    requires Mirrors(k, g) && KernelOk(g) && Plain(step)
    modifies k, k.nodes
    ensures Mirrors(k, Perform(g, Other(step)))
  {
    hide KernelOk, Mirrors;
    match step {
      case Happens(Changed(x, t, state)) => DoChange(k, x, t, state, g);
      case Happens(Joining(x, t, other)) => DoJoin(k, x, t, other, g);
      case Happens(Ended(x, t)) => DoEnd(k, x, t, g);
      case Spawned(x, t) => DoSpawn(k, x, t, g);
    }
  }

  method DoChange(k: KernelScheduler, x: nat, t: nat, state: RunState, ghost g: Kernel)
    requires Mirrors(k, g) && KernelOk(g)
    modifies k, k.nodes
    ensures Mirrors(k, Perform(g, Other(Happens(Changed(x, t, state)))))
  {
    hide Ring, PidsBelow, PidsDistinct, Linkage;
    if state != Running && x < k.nodes.Length && k.nodes[x].process.Some? {
      var p := k.nodes[x].process.value;
      SetStateOk(p, t, state);
      k.SetProcess(x, SetState(p, t, state));
    }
  }

  method DoJoin(k: KernelScheduler, x: nat, t: nat, other: nat, ghost g: Kernel)
    requires Mirrors(k, g) && KernelOk(g)
    modifies k, k.nodes
    ensures Mirrors(k, Perform(g, Other(Happens(Joining(x, t, other)))))
  {
    hide Ring, PidsBelow, PidsDistinct, Linkage, Join;
    if x < k.nodes.Length && k.nodes[x].process.Some? {
      var p := k.nodes[x].process.value;
      JoinOk(p, t, other);
      k.SetProcess(x, Join(p, t, other));
    }
  }

  method DoEnd(k: KernelScheduler, x: nat, t: nat, ghost g: Kernel)
    requires Mirrors(k, g) && KernelOk(g)
    modifies k, k.nodes
    ensures Mirrors(k, Perform(g, Other(Happens(Ended(x, t)))))
  {
    hide Ring, PidsBelow, PidsDistinct, Linkage;
    if x < k.nodes.Length && k.nodes[x].process.Some? {
      var p := k.nodes[x].process.value;
      EndThreadOk(p, t);
      k.SetProcess(x, EndThread(p, t));
    }
  }

  method DoSpawn(k: KernelScheduler, x: nat, t: nat, ghost g: Kernel)
    requires Mirrors(k, g) && KernelOk(g)
    modifies k, k.nodes
    ensures Mirrors(k, Perform(g, Other(Spawned(x, t))))
  {
    hide Ring, PidsBelow, PidsDistinct, Linkage;
    if x < k.nodes.Length && k.nodes[x].process.Some? {
      var p := k.nodes[x].process.value;
      if CanAdd(p, t) {
        AddThreadOk(p, t, MainThread());
        k.SetProcess(x, AddThread(p, t, MainThread()));
      }
    }
  }

  method Do(k: KernelScheduler, c: Command, ghost g: Kernel) returns (fine: bool)
    requires Mirrors(k, g) && KernelOk(g) && Perform(g, c) != Hung
    modifies k, k.nodes
    ensures fine <==> Perform(g, c).Live?
    ensures fine ==> Mirrors(k, Perform(g, c))
  {
    hide CoreOk, PerformCreate, PerformRemove, PerformYield, ApplyStep, KernelScheduler.Valid;
    fine := true;
    match c {
      case Create(maxThreads) =>
        if maxThreads >= 1 {
          fine := DoCreate(k, maxThreads, g);
        }
      case Remove(pid) => fine := DoRemove(k, pid, g);
      case Yield => fine := DoYield(k, g);
      case Lock => k.Lock();
      case Unlock => fine := DoUnlock(k, g);
      case Other(step) =>
        if Plain(step) {
          DoOther(k, step, g);
        }
    }
  }

  /** Runs a list of commands from an empty table. As long as it does not go astray, the table's links, slots,
      count, remembered slot and next pid are those of the run, and its invariant holds. */
  method Execute(slots: nat, run: seq<Command>) returns (k: KernelScheduler, fine: bool)
    requires slots >= 1 && After(slots, run) != Hung
    ensures fine <==> After(slots, run).Live?
    ensures fine ==> Mirrors(k, After(slots, run))
  {
    hide KernelOk, Perform;
    k := new KernelScheduler(slots);
    fine := true;
    assert run[..|run|] == run;
    for i := 0 to |run|
      invariant fresh(k) && fresh(k.nodes)
      invariant fine <==> After(slots, run[..i]).Live?
      invariant fine ==> Mirrors(k, After(slots, run[..i]))
    {
      var front := run[..i];
      assert run[..i + 1] == front + [run[i]];
      AfterAppend(slots, front, run[i]);
      RunOk(slots, front);
      LiveBefore(After(slots, front), run[i]);
      NotHung(slots, run, i + 1);
      if fine {
        fine := Do(k, run[i], After(slots, front));
      }
    }
  }

  /** A run that does not hang has not hung before. */
  lemma {:induction false} NotHung(slots: nat, run: seq<Command>, i: nat)
    requires After(slots, run) != Hung && i <= |run|
    ensures After(slots, run[..i]) != Hung
  {
    if i == |run| {
      assert run[..i] == run;
    } else {
      var front := run[..|run| - 1];
      assert front[..i] == run[..i];
      NotHung(slots, front, i);
    }
  }
}
