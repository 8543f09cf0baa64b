// The scheduler: a fixed table of processes chained into a ring by index.
module Scheduler {
  import opened Counting
  import opened Wrappers
  import opened RoundRobin

  datatype Node = Node(next: nat, process: Option<Proc>)

  const PROCESS_LIMIT_REACHED := -1
  const PID_NOT_FOUND := -1

  /** The links of the table: the current slot leads to the first of the order, each slot to the next. */
  ghost predicate Linkage(order: seq<nat>, next: seq<nat>, current: nat) {
    && (forall i | 0 <= i < |order| :: order[i] < |next|)
    && (forall i | 0 <= i < |order| - 1 :: next[order[i]] == order[i + 1])
    && (order != [] ==> current < |next| && next[order[|order| - 1]] == order[0] && next[current] == order[0])
  }

  function Links(nodes: seq<Node>): (next: seq<nat>)
    ensures |next| == |nodes| && forall i | 0 <= i < |next| :: next[i] == nodes[i].next
  {
    seq(|nodes|, i requires 0 <= i < |nodes| => nodes[i].next)
  }

  function Table(nodes: seq<Node>): (table: seq<Option<Proc>>)
    ensures |table| == |nodes| && forall i | 0 <= i < |table| :: table[i] == nodes[i].process
  {
    seq(|nodes|, i requires 0 <= i < |nodes| => nodes[i].process)
  }

  ghost predicate PidsDistinct(table: seq<Option<Proc>>) {
    forall x, y | 0 <= x < y < |table| && table[x].Some? && table[y].Some? :: table[x].value.pid != table[y].value.pid
  }

  /** The lowest free slot from i on, or the limit marker. */
  function FirstFree<T>(slots: seq<Option<T>>, i: nat): (k: int)
    requires i <= |slots|
    ensures k == PROCESS_LIMIT_REACHED || i <= k < |slots|
    ensures k != PROCESS_LIMIT_REACHED ==> slots[k].None? && forall j | i <= j < k :: slots[j].Some?
    ensures k == PROCESS_LIMIT_REACHED ==> forall j | i <= j < |slots| :: slots[j].Some?
    decreases |slots| - i
  {
    if i == |slots| then PROCESS_LIMIT_REACHED else if slots[i].None? then i else FirstFree(slots, i + 1)
  }

  class KernelScheduler {
    const nodes: array<Node>
    var current: nat
    var processQuantity: nat
    var firstAvailableSpace: int
    var changeLock: nat
    var lockQuantumExceeded: nat
    var nextPid: int
    ghost var order: seq<nat>

    ghost function State(): Sched
      reads this`current, this`order, nodes
    {
      Sched(current, order, Table(nodes[..]))
    }

    ghost predicate Valid()
      reads this`current, this`order, this`processQuantity, nodes
    {
      && SchedOk(State()) && PidsDistinct(Table(nodes[..]))
      && Linkage(order, Links(nodes[..]), current)
      && processQuantity == |order|
    }

    constructor (maxProcesses: nat)
      requires maxProcesses >= 1
      ensures Valid() && fresh(nodes) && nodes.Length == maxProcesses
      ensures processQuantity == 0 && firstAvailableSpace == 0
      ensures State() == Sched(0, [], seq(maxProcesses, _ => None)) && changeLock == lockQuantumExceeded == 0
      ensures PidsBelow(State().table, nextPid) && nextPid == 1
    {
      nodes := new Node[maxProcesses](_ => Node(0, None));
      current, processQuantity, firstAvailableSpace := 0, 0, 0;
      changeLock, lockQuantumExceeded, nextPid := 0, 0, 1;
      order := [];
    }

    /** Writes a process back to its slot. */
    method SetProcess(x: nat, p: Proc)
      requires Valid() && x < nodes.Length && nodes[x].process.Some?
      requires ProcOk(p) && p.pid == nodes[x].process.value.pid
      modifies nodes
      ensures Valid() && State() == SetProc(old(State()), x, p)
    {
      ghost var s, was := State(), nodes[..];
      SetProcOk(s, x, p);
      nodes[x] := nodes[x].(process := Some(p));
      assert Table(nodes[..]) == s.table[x := Some(p)];
      assert Links(nodes[..]) == Links(was);
    }

    /** Asks one process for its next ready thread. Asked of a process that is stuck, the source does not come back. */
    method TryProcess(x: nat) returns (thread: int)
      requires Valid() && x < nodes.Length && nodes[x].process.Some? && !Stuck(nodes[x].process.value)
      modifies nodes
      ensures Valid()
      ensures var s := old(State()); var p := s.table[x].value;
        if HasReady(p) then thread != -1 && State() == SetProc(s, x, Rotated(p)) else thread == -1 && State() == s
    {
      var p := nodes[x].process.value;
      if !HasReady(p) {
        return -1;
      }
      PickedOk(p);
      SetProcess(x, Rotated(p));
      return Rotated(p).current;
    }

    /** A running current thread steps back to ready. */
    method DemoteCurrent()
      requires Valid() && current < nodes.Length
      modifies nodes
      ensures Valid() && State() == Demote(old(State()))
    {
      if nodes[current].process.Some? {
        var p := nodes[current].process.value;
        var thread := p.threads[p.current];
        if thread.Some? && thread.value.state == Running {
          SetStateOk(p, p.current, Ready);
          SetProcess(current, SetState(p, p.current, Ready));
        }
      }
    }

    /** The slot a link leads to. */
    method Follow(x: nat, ghost k: int) returns (next: nat)
      requires Valid() && order != [] && -1 <= k < |order| - 1
      requires x == if k == -1 then current else order[k]
      ensures next == order[k + 1] && next < nodes.Length && nodes[next].process.Some?
    {
      FirstSlot(State(), nodes[..]);
      if k >= 0 {
        NextSlot(State(), nodes[..], k);
      }
      next := nodes[x].next;
    }

    lemma SearchHere()
      requires Valid() && order != [] && SearchEnds(State())
      ensures var d := State();
        forall i | 0 <= i <= Target(d) ::
             && d.order[i] < |d.table| && d.table[d.order[i]].Some? && !Stuck(d.table[d.order[i]].value)
             && (i < Target(d) ==> d.order[i] != d.current && !HasReady(d.table[d.order[i]].value))
             && (i == Target(d) ==> HasReady(d.table[d.order[i]].value) || d.order[i] == d.current)
    {
      SearchStart(State());
    }

    /** Walks the ring from the current slot to the first process that has a ready thread, or, failing that,
        back to the current one. */
    method Search() returns (next: nat, ghost k: nat)
      requires Valid() && order != [] && SearchEnds(State())
      modifies nodes
      ensures Valid()
      ensures var d := old(State());
        && k == Target(d) && next == d.order[k] < |d.table| && d.table[next].Some?
        && State() == if HasReady(d.table[next].value) then SetProc(d, next, Rotated(d.table[next].value)) else d
    {
      hide Valid, Rotated, Ring, ProcOk, SchedOk, Target, SearchEnds, Linked, HasReady, Stuck, SetProc, Linkage;
      ghost var d, f := State(), Target(State());
      var first := current;
      SearchHere();
      k := 0;
      next := Follow(current, -1);
      var thread := TryProcess(next);
      while thread == -1 && first != next
        invariant Valid() && order == d.order && k <= f && next == order[k] < |d.table| && d.table[next].Some?
        invariant thread == -1 <==> !HasReady(d.table[next].value)
        invariant State() == if thread == -1 then d else SetProc(d, next, Rotated(d.table[next].value))
        decreases |order| - k
      {
        next := Follow(next, k);
        k := k + 1;
        thread := TryProcess(next);
      }
    }

    /** One switch, where its search ends; while switching is locked out, only a note that one is due. */
    method NextProcess()
      requires Valid() && (changeLock == 1 || SwitchReady(State()))
      modifies this`current, this`order, this`lockQuantumExceeded, nodes
      ensures Valid()
      ensures changeLock == 1 ==> State() == old(State()) && lockQuantumExceeded == 1
      ensures changeLock != 1 ==> State() == Switch(old(State())) && lockQuantumExceeded == old(lockQuantumExceeded)
    {
      if changeLock == 1 {
        lockQuantumExceeded := 1;
        return;
      }
      SwitchNow();
    }

    method SwitchNow()
      requires Valid() && SwitchReady(State())
      modifies this`current, this`order, nodes
      ensures Valid() && State() == Switch(old(State()))
    {
      ghost var s := State();
      DemoteOk(s);
      FirstSlot(s, nodes[..]);
      assert SearchEnds(Demote(s));
      hide Valid, SchedOk, SwitchReady, SearchEnds, Demote, Switch, Target, HasReady, Rotated, RunCurrent, SetProc;
      DemoteCurrent();
      var next, k := Search();
      StoppedIsSwitch(s, State());
      MakeCurrent(next, k);
      RunCurrentThread();
    }

    /** Moves the current mark to position k of the ring. */
    method MakeCurrent(next: nat, ghost k: nat)
      requires Valid() && k < |order| && next == order[k]
      modifies this`current, this`order
      ensures Valid() && Linked(State())
      ensures State() == old(State()).(current := next, order := Rotate(old(order), k))
    {
      TurnOk(State(), k);
      RotateLinkage(order, k, Links(nodes[..]), current);
      hide SchedOk, Ring, Rotate, PidsDistinct, Linkage, Links, Table, Linked;
      current := next;
      order := Rotate(order, k);
    }

    method RunCurrentThread()
      requires Valid() && Linked(State())
      modifies nodes
      ensures Valid() && State() == RunCurrent(old(State()))
    {
      var p := nodes[current].process.value;
      SetStateOk(p, p.current, Running);
      SetProcess(current, SetState(p, p.current, Running));
    }

    /** Stops and resumes switching. Resuming performs the switch that fell due meanwhile. */
    method Lock()
      modifies this`changeLock
      ensures changeLock == 1
    {
      changeLock := 1;
    }

    method Unlock()
      requires Valid() && (lockQuantumExceeded != 0 ==> SwitchReady(State()))
      modifies this`changeLock, this`lockQuantumExceeded, this`current, this`order, nodes
      ensures Valid() && changeLock == 0 && lockQuantumExceeded == 0
      ensures State() == if old(lockQuantumExceeded) != 0 then Switch(old(State())) else old(State())
    {
      changeLock := 0;
      var due := lockQuantumExceeded;
      lockQuantumExceeded := 0;
      if due != 0 {
        NextProcess();
      }
    }

    method FindFirstAvailableSpace() returns (index: int)
      ensures index == FirstFree(Table(nodes[..]), 0)
    {
      var i := 0;
      while i < nodes.Length
        invariant i <= nodes.Length && FirstFree(Table(nodes[..]), 0) == FirstFree(Table(nodes[..]), i)
      {
        if nodes[i].process.None? {
          return i;
        }
        i := i + 1;
      }
      return PROCESS_LIMIT_REACHED;
    }

    /** Puts a process right after the current one; -1 when the table is full. With room but no free slot
        remembered the source goes astray: it links and fills slot -1, in front of the table. The model stops there. */
    method AddProcess(p: Proc) returns (pid: int, stray: bool)
      requires Valid() && (order == [] || Linked(State())) && SpaceKnown(State(), firstAvailableSpace)
      requires ProcOk(p) && p.pid != -1
      requires forall x | 0 <= x < nodes.Length && nodes[x].process.Some? :: nodes[x].process.value.pid != p.pid
      modifies this`current, this`order, this`processQuantity, this`firstAvailableSpace, nodes
      ensures Valid()
      ensures stray <==> 0 < old(processQuantity) < nodes.Length && old(firstAvailableSpace) == PROCESS_LIMIT_REACHED
      ensures pid == -1 <==> stray || old(processQuantity) == nodes.Length
      ensures pid == -1 ==> State() == old(State()) && firstAvailableSpace == old(firstAvailableSpace)
      ensures pid != -1 ==> var slot := if old(processQuantity) == 0 then 0 else old(firstAvailableSpace);
        && pid == p.pid && 0 <= slot < nodes.Length && State() == Inserted(old(State()), slot, p)
        && processQuantity == old(processQuantity) + 1 && firstAvailableSpace == FirstFree(Table(nodes[..]), 0)
    {
      QuantityIsOccupancy(State());
      hide Valid, SchedOk;
      if processQuantity == nodes.Length {
        return -1, false;
      }
      if processQuantity == 0 {
        AddFirst(p);
      } else if firstAvailableSpace == PROCESS_LIMIT_REACHED {
        return -1, true;
      } else {
        AddAfterCurrent(firstAvailableSpace, p);
      }
      firstAvailableSpace := FindFirstAvailableSpace();
      return p.pid, false;
    }

    /** A new process with one thread gets the next pid and joins the ring if there is room. */
    method CreateProcess(maxThreads: nat, mainThread: Thread) returns (p: Proc, added: bool, stray: bool)
      requires Valid() && maxThreads >= 1 && (order == [] || Linked(State()))
      requires SpaceKnown(State(), firstAvailableSpace) && PidsBelow(Table(nodes[..]), nextPid)
      modifies this, nodes
      ensures Valid() && PidsBelow(Table(nodes[..]), nextPid)
      ensures changeLock == old(changeLock) && lockQuantumExceeded == old(lockQuantumExceeded)
      ensures p == NewProc(old(nextPid), maxThreads, mainThread) && nextPid == old(nextPid) + 1
      ensures stray <==> 0 < old(processQuantity) < nodes.Length && old(firstAvailableSpace) == PROCESS_LIMIT_REACHED
      ensures added <==> !stray && old(processQuantity) != nodes.Length
      ensures !added ==> State() == old(State()) && firstAvailableSpace == old(firstAvailableSpace)
      ensures added ==> var slot := if old(processQuantity) == 0 then 0 else old(firstAvailableSpace);
        && 0 <= slot < nodes.Length && State() == Inserted(old(State()), slot, p)
        && firstAvailableSpace == FirstFree(Table(nodes[..]), 0)
    {
      hide SchedOk, ProcOk, Linkage, PidsDistinct, PidsBelow;
      ghost var s := State();
      p := NewProc(nextPid, maxThreads, mainThread);
      nextPid := nextPid + 1;
      NewProcOk(p.pid, maxThreads, mainThread);
      BelowIsFresh(s.table, p.pid);
      var pid;
      pid, stray := AddProcess(p);
      added := pid != -1;
      InsertedBelow(s, p);
    }

    /** Slot of the process with the given pid, or a marker when there is none. */
    method GetProcessIndex(pid: int) returns (index: int)
      requires Valid() && (order == [] || Linked(State()))
      ensures index == PID_NOT_FOUND ==> forall x | 0 <= x < nodes.Length && nodes[x].process.Some? ::
              nodes[x].process.value.pid != pid
      ensures index != PID_NOT_FOUND ==>
                0 <= index < nodes.Length && nodes[index].process.Some? && nodes[index].process.value.pid == pid
    {
      var i, next := 0, current;
      while i < processQuantity
        invariant i <= |order|
        invariant i < |order| ==> next == if i == 0 then current else order[i - 1]
        invariant i < |order| ==> next < nodes.Length && nodes[next].process.Some?
        invariant i > 0 ==> nodes[current].process.value.pid != pid
        invariant forall j | 0 <= j < i - 1 :: nodes[order[j]].process.value.pid != pid
      {
        if nodes[next].process.value.pid == pid {
          return next;
        }
        FirstSlot(State(), nodes[..]);
        if i > 0 && i < |order| - 1 {
          NextSlot(State(), nodes[..], i - 1);
        }
        next := nodes[next].next;
        i := i + 1;
      }
      return PID_NOT_FOUND;
    }

    /** Takes the process with the given pid out of the table; -1 when there is none. The caller must switch
        when the current process has gone and others remain. */
    method RemoveProcess(pid: int) returns (slot: int, switch: bool)
      requires Valid() && (order == [] || Linked(State()))
      modifies this`current, this`order, this`processQuantity, this`firstAvailableSpace, nodes
      ensures Valid()
      ensures slot == -1 ==> State() == old(State()) && !switch
      ensures slot == -1 ==> forall x | 0 <= x < nodes.Length && nodes[x].process.Some? ::
              nodes[x].process.value.pid != pid
      ensures slot != -1 ==>
                && 0 <= slot < nodes.Length
                && old(nodes[slot].process).Some? && old(nodes[slot].process).value.pid == pid
                && State() == Removed(old(State()), slot)
                && processQuantity == old(processQuantity) - 1
                && switch == (slot == old(current) && old(processQuantity) > 1)
                && firstAvailableSpace == if old(processQuantity) > 1 then LowerSpace(old(firstAvailableSpace), slot)
                                          else old(firstAvailableSpace)
      ensures slot == -1 ==> firstAvailableSpace == old(firstAvailableSpace)
    {
      slot, switch := -1, false;
      if processQuantity == 0 {
        EmptyTable(State());
        return;
      }
      RingOfCurrent(State(), nodes[..]);
      var previous, toRemove := current, nodes[current].next;
      if previous == toRemove && nodes[current].process.value.pid == pid {
        slot := current;
        RemoveOnly();
        return;
      }
      hide Valid, SchedOk, Linkage, PidsDistinct, Linked, Removed;
      var found;
      ghost var k;
      found, previous, toRemove, k := FindLink(pid);
      if !found {
        return;
      }
      slot, switch := toRemove, toRemove == current;
      Unlink(previous, toRemove, k);
      firstAvailableSpace := if firstAvailableSpace > toRemove then toRemove else firstAvailableSpace;
    }

    /** Walks the ring to the process with the given pid and to the slot before it. */
    method FindLink(pid: int) returns (found: bool, previous: nat, toRemove: nat, ghost k: nat)
      requires Valid() && order != [] && Linked(State())
      ensures found ==>
                && k < |order| && order[k] == toRemove < nodes.Length
                && previous == (if k == 0 then current else order[k - 1])
                && nodes[toRemove].process.Some? && nodes[toRemove].process.value.pid == pid
      ensures !found ==> forall x | 0 <= x < nodes.Length && nodes[x].process.Some? :: nodes[x].process.value.pid != pid
    {
      RingOfCurrent(State(), nodes[..]);
      hide Valid, SchedOk, Linkage, PidsDistinct;
      previous, toRemove := current, nodes[current].next;
      var first := toRemove;
      k := 0;
      while nodes[toRemove].process.value.pid != pid
        invariant k < |order| && toRemove == order[k]
        invariant previous == if k == 0 then current else order[k - 1]
        invariant forall j | 0 <= j < k :: nodes[order[j]].process.value.pid != pid
        decreases |order| - k
      {
        NextInRing(k);
        previous, toRemove := toRemove, nodes[toRemove].next;
        if toRemove == first {
          return false, previous, toRemove, k;
        }
        k := k + 1;
      }
      found := true;
    }

    lemma NextInRing(k: nat)
      requires Valid() && k < |order|
      ensures order[k] < nodes.Length && nodes[order[k]].next == if k < |order| - 1 then order[k + 1] else order[0]
      ensures k < |order| - 1 ==> order[k + 1] != order[0]
    {
      NextOrFirst(State(), nodes[..], k);
    }

    /** Removes the only process. */
    method RemoveOnly()
      requires Valid() && |order| == 1 && Linked(State())
      modifies this`current, this`order, this`processQuantity, nodes
      ensures Valid() && State() == Removed(old(State()), old(current)) && processQuantity == 0
    {
      ghost var s := State();
      RemovedOk(s, current);
      nodes[current] := nodes[current].(process := None);
      assert Table(nodes[..]) == s.table[current := None];
      order := Without(order, current);
      current := 0;
      processQuantity := processQuantity - 1;
    }

    /** Takes slot x, at position k, out of the ring. */
    method Unlink(previous: nat, x: nat, ghost k: nat)
      requires Valid() && Linked(State()) && |order| > 1 && k < |order| && order[k] == x
      requires previous == if k == 0 then current else order[k - 1]
      modifies this`order, this`processQuantity, nodes
      ensures Valid() && State() == Removed(old(State()), x) && processQuantity == old(processQuantity) - 1
    {
      ghost var s, was := State(), nodes[..];
      UnlinkedNodes(s, was, x, k);
      hide SchedOk, Ring, PidsDistinct, Linkage, Without, Linked, Removed, Links, Table;
      nodes[previous] := nodes[previous].(next := nodes[x].next);
      nodes[x] := nodes[x].(process := None);
      assert nodes[..] == Unlinked(was, previous, x);
      order := Without(order, x);
      processQuantity := processQuantity - 1;
    }

    method AddFirst(p: Proc)
      requires Valid() && nodes.Length >= 1 && order == [] && ProcOk(p)
      modifies this`current, this`order, this`processQuantity, nodes
      ensures Valid() && State() == Inserted(old(State()), 0, p) && processQuantity == 1
    {
      ghost var s, was := State(), nodes[..];
      QuantityIsOccupancy(s);
      EmptyTable(s);
      InsertedOk(s, 0, p);
      current := 0;
      nodes[0] := Node(0, Some(p));
      order := [0];
      processQuantity := 1;
      assert Table(nodes[..]) == s.table[0 := Some(p)];
    }

    method AddAfterCurrent(f: nat, p: Proc)
      requires Valid() && Linked(State()) && f < nodes.Length && nodes[f].process.None? && ProcOk(p)
      requires forall x | 0 <= x < nodes.Length && nodes[x].process.Some? :: nodes[x].process.value.pid != p.pid
      modifies this`current, this`order, this`processQuantity, nodes
      ensures Valid() && State() == Inserted(old(State()), f, p) && processQuantity == old(processQuantity) + 1
    {
      ghost var s, was := State(), nodes[..];
      FirstSlot(s, was);
      FreeSlotOutside(s, f);
      InsertedOk(s, f, p);
      hide SchedOk, Ring, ProcOk, PidsDistinct, Linkage;
      var next := nodes[current].next;
      nodes[current] := nodes[current].(next := f);
      nodes[f] := Node(next, Some(p));
      InsertedLinks(order, f, current, Links(was), Links(nodes[..]));
      order := [f] + order;
      processQuantity := processQuantity + 1;
      assert Table(nodes[..]) == s.table[f := Some(p)];
    }
  }

  /** Every pid in use was handed out before `next`. */
  ghost predicate PidsBelow(table: seq<Option<Proc>>, next: int) {
    1 <= next && forall x | 0 <= x < |table| && table[x].Some? :: 1 <= table[x].value.pid < next
  }

  lemma BelowIsFresh(table: seq<Option<Proc>>, next: int)
    requires PidsBelow(table, next)
    ensures next != -1
    ensures forall x | 0 <= x < |table| && table[x].Some? :: table[x].value.pid != next
  {}

  lemma InsertedBelow(s: Sched, p: Proc)
    requires PidsBelow(s.table, p.pid)
    ensures PidsBelow(s.table, p.pid + 1)
    ensures forall slot | 0 <= slot < |s.table| :: PidsBelow(Inserted(s, slot, p).table, p.pid + 1)
  {}

  /** The scheduler with the process in slot x gone. When it was the current one, the current mark stays on
      its slot until the next switch; when it was the only one, the mark goes back to 0. */
  function Removed(s: Sched, x: nat): Sched
    requires x < |s.table|
  {
    Sched(if |s.order| == 1 then 0 else s.current, Without(s.order, x), s.table[x := None])
  }

  /** A removal lowers the remembered free slot to the one it frees. */
  function LowerSpace(firstAvailable: int, removed: nat): int {
    if firstAvailable > removed then removed else firstAvailable
  }

  /** That keeps it the lowest free slot exactly when the table was not full. */
  lemma LowerSpaceIsLowest(table: seq<Option<Proc>>, x: nat)
    requires x < |table| && table[x].Some?
    ensures LowerSpace(FirstFree(table, 0), x) == FirstFree(table[x := None], 0) <==>
            exists y :: 0 <= y < |table| && table[y].None?
  {
    var a, b := FirstFree(table, 0), FirstFree(table[x := None], 0);
    assert table[x := None][x].None?;
    if a != PROCESS_LIMIT_REACHED {
      assert table[x := None][a].None?;
      assert table[a].None?;
      if b < x {
        assert table[b].None?;
      }
    }
  }

  /** What the scheduler remembers while processes remain and the table is not full: a free slot or none. */
  predicate SpaceKnown(s: Sched, space: int) {
    0 < |s.order| < |s.table| ==>
      space == PROCESS_LIMIT_REACHED || (0 <= space < |s.table| && s.table[space].None?)
  }

  /** So when the remembered slot is the lowest free one or none, a removal leaves the lowest free slot remembered
      if and only if one was remembered before it, and none otherwise. */
  lemma RemovalKeepsSpace(s: Sched, x: nat, space: int)
    requires SchedOk(s) && x in s.order && (space == PROCESS_LIMIT_REACHED || space == FirstFree(s.table, 0))
    ensures x < |s.table|
    ensures LowerSpace(space, x) == FirstFree(Removed(s, x).table, 0) <==> space != PROCESS_LIMIT_REACHED
    ensures LowerSpace(space, x) == PROCESS_LIMIT_REACHED <==> space == PROCESS_LIMIT_REACHED
    ensures FirstFree(s.table, 0) == PROCESS_LIMIT_REACHED <==> |s.order| == |s.table|
  {
    QuantityIsOccupancy(s);
    var i := IndexOf(s.order, x);
    RemovedHasRoom(s.table, x);
    hide FirstFree, Without;
    LowerSpaceIsLowest(s.table, x);
  }

  lemma RemovedHasRoom(table: seq<Option<Proc>>, x: nat)
    requires x < |table|
    ensures FirstFree(table[x := None], 0) != PROCESS_LIMIT_REACHED
  {
    assert table[x := None][x].None?;
  }

  lemma RemovedOk(s: Sched, x: nat)
    requires SchedOk(s) && PidsDistinct(s.table) && Linked(s) && x in s.order
    ensures var r := Removed(s, x);
      && SchedOk(r) && PidsDistinct(r.table) && |r.order| == |s.order| - 1 && (|s.order| == 1 ==> r.order == [])
  {
    LeftOk(s, x);
    var k := IndexOf(s.order, x);
    WithoutIsSplice(s.order, k);
  }

  /** Pointing the predecessor of position k at its successor takes it out of the ring. */
  lemma RemovedLinks(order: seq<nat>, k: nat, current: nat, was: seq<nat>, now: seq<nat>)
    requires Linkage(order, was, current) && NoRepeats(order) && |order| > 1 && k < |order| && |now| == |was|
    requires order[|order| - 1] == current
    requires var prev := if k == 0 then current else order[k - 1];
      now[prev] == was[order[k]] && forall x | 0 <= x < |was| && x != prev :: now[x] == was[x]
    ensures Linkage(Without(order, order[k]), now, current)
  {
    WithoutIsSplice(order, k);
    var r, n := order[..k] + order[k + 1..], |order|;
    forall i | 0 <= i < |r| - 1 ensures now[r[i]] == r[i + 1] {
      var j := if i < k then i else i + 1;
      assert r[i] == order[j];
      assert i != k - 1 ==> j != (if k == 0 then n - 1 else k - 1);
    }
  }

  /** The table after pointing the predecessor of slot x past it and emptying slot x. */
  function Unlinked(nodes: seq<Node>, previous: nat, x: nat): (r: seq<Node>)
    requires previous < |nodes| && x < |nodes|
    ensures |r| == |nodes|
  {
    var relinked := nodes[previous := nodes[previous].(next := nodes[x].next)];
    relinked[x := relinked[x].(process := None)]
  }

  lemma UnlinkedNodes(s: Sched, nodes: seq<Node>, x: nat, k: nat)
    requires SchedOk(s) && PidsDistinct(s.table) && Linked(s) && s.table == Table(nodes)
    requires Linkage(s.order, Links(nodes), s.current) && |s.order| > 1 && k < |s.order| && s.order[k] == x
    ensures var previous := if k == 0 then s.current else s.order[k - 1];
      && x < |nodes| && previous < |nodes|
      && var now := Unlinked(nodes, previous, x);
      && Removed(s, x) == Sched(s.current, Without(s.order, x), Table(now))
      && SchedOk(Removed(s, x)) && PidsDistinct(Table(now)) && |Without(s.order, x)| == |s.order| - 1
      && Linkage(Without(s.order, x), Links(now), s.current)
  {
    RemovedOk(s, x);
    UnlinkedShape(s, nodes, x, k);
    hide *;
  }

  lemma UnlinkedShape(s: Sched, nodes: seq<Node>, x: nat, k: nat)
    requires SchedOk(s) && Linked(s) && s.table == Table(nodes)
    requires Linkage(s.order, Links(nodes), s.current) && |s.order| > 1 && k < |s.order| && s.order[k] == x
    ensures var previous := if k == 0 then s.current else s.order[k - 1];
      && x < |nodes| && previous < |nodes|
      && var now := Unlinked(nodes, previous, x);
      && Removed(s, x) == Sched(s.current, Without(s.order, x), Table(now))
      && Linkage(Without(s.order, x), Links(now), s.current)
  {
    RingOfCurrent(s, nodes);
    hide SchedOk, Without, NoRepeats, Linked;
    var previous := if k == 0 then s.current else s.order[k - 1];
    var now := Unlinked(nodes, previous, x);
    RemovedLinks(s.order, k, s.current, Links(nodes), Links(now));
    assert Table(now) == s.table[x := None];
  }

  lemma RingOfCurrent(s: Sched, nodes: seq<Node>)
    requires SchedOk(s) && Linked(s) && Linkage(s.order, Links(nodes), s.current) && s.table == Table(nodes)
    ensures s.order != [] && s.order[|s.order| - 1] == s.current && NoRepeats(s.order)
    ensures s.current < |nodes| && nodes[s.current].next == s.order[0] && nodes[s.current].process.Some?
    ensures s.order[0] == s.current <==> |s.order| == 1
    ensures forall i | 0 <= i < |s.order| :: s.order[i] < |nodes| && nodes[s.order[i]].process.Some?
    ensures forall x | 0 <= x < |nodes| && nodes[x].process.Some? :: x in s.order
  {}

  lemma NextOrFirst(s: Sched, nodes: seq<Node>, k: nat)
    requires SchedOk(s) && Linkage(s.order, Links(nodes), s.current) && s.table == Table(nodes) && k < |s.order|
    ensures s.order[k] < |nodes| && nodes[s.order[k]].next == if k < |s.order| - 1 then s.order[k + 1] else s.order[0]
    ensures k < |s.order| - 1 ==> s.order[k + 1] != s.order[0]
    ensures k < |s.order| - 1 ==> s.order[k + 1] < |nodes| && nodes[s.order[k + 1]].process.Some?
  {
    if k < |s.order| - 1 {
      NextSlot(s, nodes, k);
    }
  }

  lemma EmptyTable(s: Sched)
    requires SchedOk(s) && s.order == []
    ensures forall x | 0 <= x < |s.table| :: s.table[x].None?
  {}

  /** The order has as many slots as the table has processes, so it is full only when no slot is free. */
  lemma QuantityIsOccupancy(s: Sched)
    requires SchedOk(s)
    ensures |s.order| <= |s.table|
    ensures |s.order| == |s.table| <==> forall x | 0 <= x < |s.table| :: s.table[x].Some?
  {
    var inOrder := set i | 0 <= i < |s.order| :: s.order[i];
    DistinctCount(s.order);
    RangeCount(|s.table|);
    SubsetCount(inOrder, Range(|s.table|));
    forall x: nat ensures x in inOrder <==> x < |s.table| && s.table[x].Some? {
      if x < |s.table| && s.table[x].Some? {
        assert x in s.order;
      }
    }
  }

  lemma {:induction false} DistinctCount(order: seq<nat>)
    requires NoRepeats(order)
    ensures |set i | 0 <= i < |order| :: order[i]| == |order|
  {
    if order != [] {
      var n := |order| - 1;
      DistinctCount(order[..n]);
      var a, b := (set i | 0 <= i < n :: order[..n][i]), set i | 0 <= i < |order| :: order[i];
      assert order[n] !in a;
      forall x ensures x in b <==> x in a + {order[n]} {
        if x in a {
          var i :| 0 <= i < n && order[..n][i] == x;
          assert order[i] == x;
        }
        if x in b && x != order[n] {
          var i :| 0 <= i < |order| && order[i] == x;
          assert order[..n][i] == x;
        }
      }
      assert b == a + {order[n]};
    }
  }

  lemma InsertedOk(s: Sched, slot: nat, p: Proc)
    requires SchedOk(s) && PidsDistinct(s.table) && (s.order != [] ==> Linked(s))
    requires ProcOk(p) && slot < |s.table| && s.table[slot].None?
    requires forall x | 0 <= x < |s.table| && s.table[x].Some? :: s.table[x].value.pid != p.pid
    ensures var r := Inserted(s, slot, p); SchedOk(r) && PidsDistinct(r.table)
  {
    InsertedSched(s, slot, p);
  }

  lemma InsertedLinks(order: seq<nat>, slot: nat, current: nat, was: seq<nat>, now: seq<nat>)
    requires Linkage(order, was, current) && NoRepeats(order) && slot !in order && slot < |was| == |now|
    requires order != [] ==> order[|order| - 1] == current
    requires if order == [] then now[slot] == slot
             else now[current] == slot && now[slot] == was[current] &&
                  forall x | 0 <= x < |was| && x != slot && x != current :: now[x] == was[x]
    ensures Linkage([slot] + order, now, if order == [] then slot else current)
  {
    var r := [slot] + order;
    forall i | 0 <= i < |r| - 1 ensures now[r[i]] == r[i + 1] {
      if i > 0 {
        assert was[order[i - 1]] == order[i];
        assert order[i - 1] != current;
      }
    }
  }

  lemma FreeSlotOutside(s: Sched, slot: nat)
    requires SchedOk(s) && slot < |s.table| && s.table[slot].None?
    ensures slot !in s.order && NoRepeats(s.order)
    ensures s.order != [] && Linked(s) ==> s.order[|s.order| - 1] == s.current
  {}

  /** Following the links from the current slot gives the order. */
  lemma FirstSlot(s: Sched, nodes: seq<Node>)
    requires SchedOk(s) && Linkage(s.order, Links(nodes), s.current) && s.table == Table(nodes) && s.order != []
    ensures s.current < |nodes| && nodes[s.current].next == s.order[0] < |nodes| && nodes[s.order[0]].process.Some?
  {}

  lemma NextSlot(s: Sched, nodes: seq<Node>, k: nat)
    requires SchedOk(s) && Linkage(s.order, Links(nodes), s.current) && s.table == Table(nodes) && k < |s.order| - 1
    ensures s.order[k] < |nodes| && nodes[s.order[k]].next == s.order[k + 1] < |nodes|
            && nodes[s.order[k + 1]].process.Some?
  {
    assert Links(nodes)[s.order[k]] == s.order[k + 1];
  }

  lemma SearchStart(d: Sched)
    requires SchedOk(d) && d.order != [] && SearchEnds(d)
    ensures forall i | 0 <= i <= Target(d) ::
              && d.order[i] < |d.table| && d.table[d.order[i]].Some? && !Stuck(d.table[d.order[i]].value)
              && (i < Target(d) ==> d.order[i] != d.current && !HasReady(d.table[d.order[i]].value))
              && (i == Target(d) ==> HasReady(d.table[d.order[i]].value) || d.order[i] == d.current)
  {
    ShapeOk(d);
    TargetOk(d);
    LastIsCurrent(d);
    hide SchedOk, HasReady, Stuck, Linked;
    assert forall i | 0 <= i < Target(d) :: !Decides(d.table, d.order[i]);
  }

  lemma LastIsCurrent(d: Sched)
    requires SchedOk(d)
    ensures forall i | 0 <= i < |d.order| - 1 :: d.order[i] != d.current
  {}

  /** Setting the current thread running. */
  function RunCurrent(s: Sched): Sched {
    if Linked(s) then
      SetProc(s, s.current, SetState(s.table[s.current].value, s.table[s.current].value.current, Running))
    else s
  }

  /** Moving the mark to where the search stopped and running the thread found there completes the switch. */
  lemma StoppedIsSwitch(s: Sched, u: Sched)
    requires SchedOk(s) && SwitchReady(s)
    requires var d := Demote(s);
      && d.order != [] && d.order[Target(d)] < |d.table| && d.table[d.order[Target(d)]].Some?
      && var x := d.order[Target(d)];
         u == if HasReady(d.table[x].value) then SetProc(d, x, Rotated(d.table[x].value)) else d
    ensures var d := Demote(s);
      && d.order == s.order && Target(d) < |u.order|
      && RunCurrent(u.(current := u.order[Target(d)], order := Rotate(u.order, Target(d)))) == Switch(s)
  {
    DemoteOk(s);
    hide Demote, SchedOk, HasReady, FirstDecided, Rotate;
  }

  lemma RotateLinkage(order: seq<nat>, k: nat, next: seq<nat>, current: nat)
    requires Linkage(order, next, current) && k < |order|
    ensures Linkage(Rotate(order, k), next, order[k])
  {}

  // --- Where the search of nextProcess stops -------------------------------------------------------------------------

  /** The slot at which the loop stops within so many more rounds, from slot x of a search that began at slot
      `first`. Asked for its next thread, a stuck process never answers. */
  function SearchAfter(nodes: seq<Node>, first: nat, x: nat, rounds: nat): Option<nat>
    decreases rounds
  {
    if x >= |nodes| || nodes[x].process.None? || Stuck(nodes[x].process.value) then None
    else if HasReady(nodes[x].process.value) || x == first then Some(x)
    else if rounds == 0 then None
    else SearchAfter(nodes, first, nodes[x].next, rounds - 1)
  }

  /** Following the links, the search ends at all if and only if the first process in ring order that is runnable or
      stuck is runnable, or there is none of either kind and the current process is linked. */
  lemma {:induction false} SearchEndsIff(d: Sched, nodes: seq<Node>)
    requires SchedOk(d) && d.order != [] && Linkage(d.order, Links(nodes), d.current) && d.table == Table(nodes)
    ensures d.current < |nodes|
    ensures (exists rounds :: SearchAfter(nodes, d.current, nodes[d.current].next, rounds).Some?) <==> SearchEnds(d)
  {
    FirstSlot(d, nodes);
    hide SchedOk, SearchEnds, Linkage, Target;
    if SearchEnds(d) {
      SearchStops(d, nodes, 0);
    } else {
      forall rounds: nat ensures SearchAfter(nodes, d.current, nodes[d.current].next, rounds).None? {
        SearchesForEver(d, nodes, 0, rounds);
      }
    }
  }

  lemma {:induction false} SearchStops(d: Sched, nodes: seq<Node>, k: nat)
    requires SchedOk(d) && d.order != [] && Linkage(d.order, Links(nodes), d.current) && d.table == Table(nodes)
    requires SearchEnds(d) && k <= Target(d)
    ensures SearchAfter(nodes, d.current, d.order[k], |d.order| - 1 - k) == Some(d.order[Target(d)])
    decreases |d.order| - k
  {
    SearchStart(d);
    NextOrFirst(d, nodes, k);
    hide SchedOk, SearchEnds, Linkage, Target, HasReady, Stuck;
    if k < Target(d) {
      SearchStops(d, nodes, k + 1);
    }
  }

  lemma {:induction false} SearchesForEver(d: Sched, nodes: seq<Node>, k: nat, rounds: nat)
    requires SchedOk(d) && d.order != [] && Linkage(d.order, Links(nodes), d.current) && d.table == Table(nodes)
    requires !SearchEnds(d) && k < |d.order| && k <= FirstDecided(d, 0)
    ensures SearchAfter(nodes, d.current, d.order[k], rounds).None?
    decreases rounds
  {
    NextOrFirst(d, nodes, k);
    ShapeOk(d);
    LastIsCurrent(d);
    hide SchedOk, Linkage, HasReady, Attached;
    if k < FirstDecided(d, 0) && rounds > 0 {
      assert !Decides(d.table, d.order[k]);
      SearchesForEver(d, nodes, if k < |d.order| - 1 then k + 1 else 0, rounds - 1);
    }
  }
}
