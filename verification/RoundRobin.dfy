// The two-level round robin: a ring of processes, each with a ring of threads.
// A ring is given by the order in which its slots come up: the successor of the current slot first, the
// current slot itself last. A process that was just unlinked while current is in no slot of the order, and
// neither is a thread that has just ended while current; the mark of the current one then stays on an empty slot.
module RoundRobin {
  import opened Wrappers

  datatype RunState = Running | Ready | Blocked | Sleeping

  datatype Thread = Thread(state: RunState, waitingThread: int)

  datatype Proc = Proc(pid: int, current: nat, order: seq<nat>, threads: seq<Option<Thread>>)

  datatype Sched = Sched(current: nat, order: seq<nat>, table: seq<Option<Proc>>)

  const NOT_WAITING := -1

  // --- Rings --------------------------------------------------------------------------------------------

  ghost predicate NoRepeats(order: seq<nat>) {
    forall i, j | 0 <= i < j < |order| :: order[i] != order[j]
  }

  /** The slots of the order are exactly the occupied ones. */
  ghost predicate Ring<T>(order: seq<nat>, slots: seq<Option<T>>) {
    && NoRepeats(order)
    && (forall i | 0 <= i < |order| :: order[i] < |slots| && slots[order[i]].Some?)
    && (forall x | 0 <= x < |slots| && slots[x].Some? :: x in order)
  }

  /** The order once the slot at position k has become current. */
  function Rotate(order: seq<nat>, k: nat): (r: seq<nat>)
    requires k < |order|
    ensures |r| == |order| && r[|r| - 1] == order[k]
  {
    order[k + 1..] + order[..k + 1]
  }

  function IndexOf(order: seq<nat>, x: nat): (k: nat)
    requires x in order
    ensures k < |order| && order[k] == x
  {
    if order[0] == x then 0 else 1 + IndexOf(order[1..], x)
  }

  function Without(order: seq<nat>, x: nat): seq<nat> {
    if order == [] then [] else (if order[0] == x then [] else [order[0]]) + Without(order[1..], x)
  }

  // --- Choosing ------------------------------------------------------------------------------------------

  predicate IsReady(threads: seq<Option<Thread>>, t: nat) {
    t < |threads| && threads[t].Some? && threads[t].value.state == Ready
  }

  /** Position from i on of the first slot whose thread is ready, or the length of the order. */
  function FirstReady(p: Proc, i: nat): (k: nat)
    requires i <= |p.order|
    ensures i <= k <= |p.order| && (k < |p.order| ==> IsReady(p.threads, p.order[k]))
    ensures forall j | i <= j < k :: !IsReady(p.threads, p.order[j])
    decreases |p.order| - i
  {
    if i == |p.order| || IsReady(p.threads, p.order[i]) then i else FirstReady(p, i + 1)
  }

  predicate HasReady(p: Proc) { FirstReady(p, 0) < |p.order| }

  predicate Runnable(table: seq<Option<Proc>>, x: nat) {
    x < |table| && table[x].Some? && HasReady(table[x].value)
  }

  /** The current thread is there. */
  predicate Attached(p: Proc) { p.current < |p.threads| && p.threads[p.current].Some? }

  /** The current thread has ended and no other is ready. The walk for the next thread starts at its empty slot,
      which leads into the ring and to which nothing leads back. */
  predicate Stuck(p: Proc) { !Attached(p) && !HasReady(p) }

  /** The search for a process goes no further than slot x: it has a ready thread, or its threads are walked
      for ever. */
  predicate Decides(table: seq<Option<Proc>>, x: nat) {
    x < |table| && table[x].Some? && (HasReady(table[x].value) || Stuck(table[x].value))
  }

  function FirstDecided(s: Sched, i: nat): (k: nat)
    requires i <= |s.order|
    ensures i <= k <= |s.order| && (k < |s.order| ==> Decides(s.table, s.order[k]))
    ensures forall j | i <= j < k :: !Decides(s.table, s.order[j])
    decreases |s.order| - i
  {
    if i == |s.order| || Decides(s.table, s.order[i]) then i else FirstDecided(s, i + 1)
  }

  /** The first process in ring order that is runnable or stuck is runnable, or there is none of either kind and
      the current process is linked. */
  predicate SearchEnds(s: Sched) {
    var k := FirstDecided(s, 0);
    if k < |s.order| then Runnable(s.table, s.order[k]) else Linked(s)
  }

  // --- Well-formed schedulers ------------------------------------------------------------------------------

  /** The main thread is there. The current thread is last in the ring, or has just ended. */
  ghost predicate ProcOk(p: Proc) {
    && p.order != [] && Ring(p.order, p.threads)
    && p.current < |p.threads| && p.threads[0].Some?
    && (Attached(p) ==> p.order[|p.order| - 1] == p.current)
  }

  predicate Linked(s: Sched) { s.current < |s.table| && s.table[s.current].Some? }

  ghost predicate SchedOk(s: Sched) {
    && Ring(s.order, s.table)
    && (forall x | 0 <= x < |s.table| && s.table[x].Some? :: ProcOk(s.table[x].value))
    && (Linked(s) ==> s.order != [] && s.order[|s.order| - 1] == s.current)
  }

  function SetState(p: Proc, t: nat, state: RunState): Proc {
    if t < |p.threads| && p.threads[t].Some? then
      p.(threads := p.threads[t := Some(p.threads[t].value.(state := state))])
    else p
  }

  function StateOf(p: Proc, t: nat): Option<RunState> {
    if t < |p.threads| && p.threads[t].Some? then Some(p.threads[t].value.state) else None
  }

  function SetProc(s: Sched, x: nat, p: Proc): Sched
    requires x < |s.table|
  {
    s.(table := s.table[x := Some(p)])
  }

  // --- Switching -------------------------------------------------------------------------------------------

  /** The running thread of the current process steps back to ready. A thread that has just ended does not. */
  function Demote(s: Sched): Sched {
    if Linked(s) && StateOf(s.table[s.current].value, s.table[s.current].value.current) == Some(Running) then
      SetProc(s, s.current, SetState(s.table[s.current].value, s.table[s.current].value.current, Ready))
    else s
  }

  /** A process that has picked its first ready thread in ring order. */
  function Rotated(p: Proc): Proc
    requires HasReady(p)
  {
    var k := FirstReady(p, 0);
    p.(current := p.order[k], order := Rotate(p.order, k))
  }

  /** The first ready thread in ring order, or, failing that, the current one, running. */
  function Promote(p: Proc): Proc {
    var q := if HasReady(p) then Rotated(p) else p;
    SetState(q, q.current, Running)
  }

  /** One call of nextProcess. With nothing ready anywhere it goes on with the current process. */
  function Switch(s: Sched): Sched
    requires SwitchReady(s)
  {
    var d := Demote(s);
    var k := Target(d);
    var x := d.order[k];
    SetProc(d, x, Promote(d.table[x].value)).(current := x, order := Rotate(d.order, k))
  }

  /** Where the search ends: at the first runnable process, or back at the current one. */
  function Target(d: Sched): (k: nat)
    requires d.order != []
    ensures k < |d.order|
  {
    if FirstDecided(d, 0) < |d.order| then FirstDecided(d, 0) else |d.order| - 1
  }

  /** There are processes and the search of a switch ends. */
  predicate SwitchReady(s: Sched) {
    && s.order != []
    && (forall i | 0 <= i < |s.order| :: s.order[i] < |s.table| && s.table[s.order[i]].Some?)
    && SearchEnds(Demote(s))
  }

  // --- Rotation and distance ---------------------------------------------------------------------------------

  lemma {:induction false} IndexIsUnique(order: seq<nat>, x: nat, i: nat)
    requires NoRepeats(order) && i < |order| && order[i] == x
    ensures IndexOf(order, x) == i
  {
    if i > 0 {
      assert order[0] != x;
      IndexIsUnique(order[1..], x, i - 1);
    }
  }

  /** Making position k current brings every slot behind it k + 1 places closer; the slot itself becomes last. */
  lemma RotateBringsCloser(order: seq<nat>, k: nat, x: nat)
    requires NoRepeats(order) && k < |order| && x in order
    ensures NoRepeats(Rotate(order, k)) && x in Rotate(order, k)
    ensures IndexOf(order, x) > k ==> IndexOf(Rotate(order, k), x) == IndexOf(order, x) - k - 1
    ensures IndexOf(order, x) == k ==> IndexOf(Rotate(order, k), x) == |order| - 1
  {
    var r := Rotate(order, k);
    var i := IndexOf(order, x);
    RotateDistinct(order, k);
    if i > k {
      assert r[i - k - 1] == x;
      IndexIsUnique(r, x, i - k - 1);
    } else {
      assert r[|order| - k - 1 + i] == x;
      IndexIsUnique(r, x, |order| - k - 1 + i);
    }
  }

  lemma RotateDistinct(order: seq<nat>, k: nat)
    requires NoRepeats(order) && k < |order|
    ensures NoRepeats(Rotate(order, k))
    ensures forall x :: x in Rotate(order, k) <==> x in order
  {
    var r, n := Rotate(order, k), |order|;
    forall i, j | 0 <= i < j < |r| ensures r[i] != r[j] {
      assert r[i] == order[if i < n - k - 1 then i + k + 1 else i - (n - k - 1)];
      assert r[j] == order[if j < n - k - 1 then j + k + 1 else j - (n - k - 1)];
    }
    assert order == order[..k + 1] + order[k + 1..];
  }

  lemma RotateRing<T>(order: seq<nat>, k: nat, slots: seq<Option<T>>)
    requires Ring(order, slots) && k < |order|
    ensures Ring(Rotate(order, k), slots)
  {
    RotateDistinct(order, k);
    var r := Rotate(order, k);
    forall i | 0 <= i < |r| ensures r[i] < |slots| && slots[r[i]].Some? {
      assert r[i] in r;
      assert r[i] in order;
    }
  }

  // --- Every switch keeps the scheduler well formed --------------------------------------------------------------

  lemma SetStateOk(p: Proc, t: nat, state: RunState)
    requires ProcOk(p)
    ensures ProcOk(SetState(p, t, state))
    ensures var q := SetState(p, t, state); q.order == p.order && q.current == p.current && q.pid == p.pid
    ensures forall u: nat :: StateOf(SetState(p, t, state), u) ==
              if u == t && StateOf(p, t).Some? then Some(state) else StateOf(p, u)
  {
    SameThreadsOk(p, SetState(p, t, state).threads);
  }

  /** Changing threads without adding or removing any. */
  lemma SameThreadsOk(p: Proc, threads: seq<Option<Thread>>)
    requires ProcOk(p) && |threads| == |p.threads|
    requires forall x | 0 <= x < |threads| :: threads[x].Some? <==> p.threads[x].Some?
    ensures ProcOk(p.(threads := threads))
  {
    forall x | 0 <= x < |threads| && threads[x].Some? ensures x in p.order {
      assert p.threads[x].Some?;
    }
  }

  lemma PickedOk(p: Proc)
    requires ProcOk(p) && HasReady(p)
    ensures ProcOk(Rotated(p)) && Attached(Rotated(p)) && IsReady(p.threads, Rotated(p).current)
    ensures Rotated(p).threads == p.threads && Rotated(p).pid == p.pid
  {
    RotateRing(p.order, FirstReady(p, 0), p.threads);
  }

  /** A process that is not stuck has a running thread afterwards: one that was ready, if any was. */
  lemma PromoteOk(p: Proc)
    requires ProcOk(p)
    ensures ProcOk(Promote(p))
    ensures !Stuck(p) ==> Attached(Promote(p)) && StateOf(Promote(p), Promote(p).current) == Some(Running)
    ensures HasReady(p) ==> StateOf(p, Promote(p).current) == Some(Ready)
    ensures forall u: nat | u != Promote(p).current :: StateOf(Promote(p), u) == StateOf(p, u)
  {
    hide HasReady, Rotated, ProcOk;
    if HasReady(p) {
      PickedOk(p);
    }
    var q := if HasReady(p) then Rotated(p) else p;
    SetStateOk(q, q.current, Running);
  }

  lemma SetProcOk(s: Sched, x: nat, p: Proc)
    requires SchedOk(s) && x < |s.table| && s.table[x].Some? && ProcOk(p)
    ensures SchedOk(SetProc(s, x, p))
  {}

  lemma DemoteOk(s: Sched)
    requires SchedOk(s)
    ensures SchedOk(Demote(s)) && Demote(s).order == s.order && Demote(s).current == s.current
    ensures |Demote(s).table| == |s.table|
    ensures forall x | 0 <= x < |s.table| :: Demote(s).table[x].Some? == s.table[x].Some?
  {
    if Linked(s) {
      var p := s.table[s.current].value;
      SetStateOk(p, p.current, Ready);
    }
  }

  /** The process at which the search ends is there and not stuck, and runnable if any before the last was. */
  lemma TargetOk(d: Sched)
    requires SchedOk(d) && d.order != [] && SearchEnds(d)
    ensures var x := d.order[Target(d)];
      && x < |d.table| && d.table[x].Some? && !Stuck(d.table[x].value)
      && (FirstDecided(d, 0) < |d.order| <==> HasReady(d.table[x].value))
      && (FirstDecided(d, 0) == |d.order| ==> x == d.current)
  {}

  /** Moving the current mark to position k of the ring. */
  lemma TurnOk(s: Sched, k: nat)
    requires SchedOk(s) && k < |s.order|
    ensures var r := s.(current := s.order[k], order := Rotate(s.order, k)); SchedOk(r) && Linked(r)
  {
    RotateRing(s.order, k, s.table);
    hide ProcOk;
  }

  lemma SwitchOk(s: Sched)
    requires SchedOk(s) && SwitchReady(s)
    ensures SchedOk(Switch(s)) && Linked(Switch(s)) && |Switch(s).order| == |s.order| && |Switch(s).table| == |s.table|
  {
    DemoteOk(s);
    var d := Demote(s);
    TargetOk(d);
    hide SchedOk, ProcOk, Demote, Promote, SearchEnds, FirstDecided, Rotate;
    var x := d.order[Target(d)];
    assert ProcOk(d.table[x].value) by { ProcAt(d, x); }
    PromoteOk(d.table[x].value);
    SetProcOk(d, x, Promote(d.table[x].value));
    TurnOk(SetProc(d, x, Promote(d.table[x].value)), Target(d));
  }

  lemma ProcAt(s: Sched, x: nat)
    requires SchedOk(s) && x < |s.table| && s.table[x].Some?
    ensures ProcOk(s.table[x].value) && x in s.order
  {}

  // --- At most one running thread ----------------------------------------------------------------------------------

  /** Only the current thread of the current process may be running. */
  ghost predicate OneRunning(s: Sched) {
    forall x, t: nat | 0 <= x < |s.table| && s.table[x].Some? && StateOf(s.table[x].value, t) == Some(Running) ::
      x == s.current && t == s.table[x].value.current
  }

  lemma DemoteStopsAll(s: Sched)
    requires SchedOk(s) && OneRunning(s)
    ensures forall x, t: nat | 0 <= x < |s.table| && Demote(s).table[x].Some? ::
            StateOf(Demote(s).table[x].value, t) != Some(Running)
  {
    if Linked(s) {
      var p := s.table[s.current].value;
      SetStateOk(p, p.current, Ready);
    }
  }

  /** After a switch exactly one thread runs: the current one. */
  lemma SwitchRunsOne(s: Sched)
    requires SchedOk(s) && OneRunning(s) && SwitchReady(s)
    ensures OneRunning(Switch(s)) && Linked(Switch(s))
    ensures var p := Switch(s).table[Switch(s).current].value; StateOf(p, p.current) == Some(Running)
  {
    DemoteOk(s);
    DemoteStopsAll(s);
    var d, s' := Demote(s), Switch(s);
    TargetOk(d);
    PromoteOk(d.table[s'.current].value);
    hide Ring, Rotate, FirstReady, FirstDecided, Demote, Promote, ProcOk, Target;
  }

  /** The thread a switch picks was ready, counting the one that just stepped back, exactly when some
      thread was. */
  lemma SwitchPicksReady(s: Sched)
    requires SchedOk(s) && SwitchReady(s)
    ensures var s', d := Switch(s), Demote(s);
      && Linked(s') && s'.current < |d.table| && d.table[s'.current].Some?
      && ((exists x :: Runnable(d.table, x)) <==>
            StateOf(d.table[s'.current].value, s'.table[s'.current].value.current) == Some(Ready))
  {
    DemoteOk(s);
    SwitchOk(s);
    var d, s' := Demote(s), Switch(s);
    var x := s'.current;
    TargetOk(d);
    PromoteOk(d.table[x].value);
    if z :| Runnable(d.table, z) {
      DecidedIsFound(d, z);
    }
    var p, t := d.table[x].value, s'.table[x].value.current;
    if StateOf(p, t) == Some(Ready) {
      ReadyIsFound(p, t);
    }
    hide Demote, Promote, ProcOk, Ring;
  }

  lemma DecidedIsFound(s: Sched, x: nat)
    requires SchedOk(s) && Decides(s.table, x)
    ensures x in s.order && FirstDecided(s, 0) <= IndexOf(s.order, x)
  {
    assert x in s.order;
    var i := IndexOf(s.order, x);
  }

  lemma ReadyIsFound(p: Proc, t: nat)
    requires ProcOk(p) && IsReady(p.threads, t)
    ensures t in p.order && FirstReady(p, 0) <= IndexOf(p.order, t)
  {
    assert t in p.order;
    var i := IndexOf(p.order, t);
  }

  // --- Bounded waiting ----------------------------------------------------------------------------------------------

  /** What can happen while a thread waits: a switch, a thread blocking, sleeping or getting ready again, one
      falling asleep until another of its process ends, a process leaving its slot, or a thread ending. */
  datatype Event =
    | Switched
    | Changed(x: nat, t: nat, state: RunState)
    | Joining(x: nat, t: nat, other: nat)
    | Left(x: nat)
    | Ended(x: nat, t: nat)

  /** A switch that does not end is the end of the run; `GoesOn` says that there is none. */
  function Apply(s: Sched, e: Event): Sched {
    match e
    case Switched => if SwitchReady(s) then Switch(s) else s
    case Changed(x, t, state) =>
      if state != Running && x < |s.table| && s.table[x].Some? then
        SetProc(s, x, SetState(s.table[x].value, t, state))
      else s
    case Joining(x, t, other) =>
      if x < |s.table| && s.table[x].Some? then SetProc(s, x, Join(s.table[x].value, t, other)) else s
    case Left(x) =>
      if x < |s.table| then s.(table := s.table[x := None], order := Without(s.order, x)) else s
    case Ended(x, t) =>
      if x < |s.table| && s.table[x].Some? then SetProc(s, x, EndThread(s.table[x].value, t)) else s
  }

  /** Thread t goes to sleep until another one ends, if that is there. */
  function Join(p: Proc, t: nat, other: nat): Proc {
    if t < |p.threads| && p.threads[t].Some? && other < |p.threads| && p.threads[other].Some? then
      p.(threads := p.threads[t := Some(Thread(Sleeping, other))])
    else p
  }

  /** The process without thread t. When t is the current one its mark stays where it is. */
  function Dropped(p: Proc, t: nat): Proc
    requires t < |p.threads|
  {
    p.(threads := p.threads[t := None], order := Without(p.order, t))
  }

  /** The threads that sleep until thread t ends become ready. */
  function WakeJoiners(threads: seq<Option<Thread>>, t: nat): (r: seq<Option<Thread>>)
    ensures |r| == |threads|
    ensures forall i | 0 <= i < |r| :: r[i] ==
              if threads[i].Some? && SleepsOn(threads[i].value, t) then Some(Thread(Ready, NOT_WAITING)) else threads[i]
  {
    seq(|threads|, i requires 0 <= i < |threads| =>
      if threads[i].Some? && SleepsOn(threads[i].value, t) then Some(Thread(Ready, NOT_WAITING)) else threads[i])
  }

  predicate SleepsOn(thread: Thread, t: nat) { thread.state == Sleeping && thread.waitingThread == t }

  /** Thread t, the current one or another, leaves its process, and those that joined it wake up. The end of the
      main thread is the end of the process instead. Only the running thread of a process ends its threads, so
      that the process has a current thread when it does. */
  function EndThread(p: Proc, t: nat): Proc {
    if Attached(p) && t != 0 && t < |p.threads| && t in p.order then
      var q := Dropped(p, t);
      q.(threads := WakeJoiners(q.threads, t))
    else p
  }

  function Switches(events: seq<Event>): nat {
    if events == [] then 0 else (if events[0] == Switched then 1 else 0) + Switches(events[1..])
  }

  predicate Awaits(s: Sched, x: nat, t: nat) {
    x < |s.table| && s.table[x].Some? && StateOf(s.table[x].value, t) == Some(Ready)
  }

  /** Thread t of process slot x is ready now and after each of the events. */
  predicate StaysReady(s: Sched, x: nat, t: nat, events: seq<Event>)
    decreases |events|
  {
    Awaits(s, x, t) && (events != [] ==> StaysReady(Apply(s, events[0]), x, t, events[1..]))
  }

  /** How long a ready thread can still wait, when there are at most n processes. */
  function Patience(s: Sched, x: nat, t: nat, n: nat): nat
    requires x in s.order && x < |s.table| && s.table[x].Some? && t in s.table[x].value.order
  {
    IndexOf(s.table[x].value.order, t) * n + IndexOf(s.order, x)
  }

  lemma AwaitsIsInRings(s: Sched, x: nat, t: nat)
    requires SchedOk(s) && Awaits(s, x, t)
    ensures x in s.order && t in s.table[x].value.order
  {}

  lemma {:induction false} WithoutMembers(order: seq<nat>, x: nat)
    ensures forall y: nat :: y in Without(order, x) <==> y in order && y != x
    ensures |Without(order, x)| <= |order|
  {
    if order != [] {
      WithoutMembers(order[1..], x);
      assert order == [order[0]] + order[1..];
    }
  }

  lemma {:induction false} WithoutLast(order: seq<nat>, x: nat)
    requires order != [] && order[|order| - 1] != x
    ensures var w := Without(order, x); w != [] && w[|w| - 1] == order[|order| - 1]
  {
    if |order| > 1 {
      WithoutLast(order[1..], x);
    }
  }

  lemma {:induction false} WithoutKeepsDistinct(order: seq<nat>, x: nat)
    requires NoRepeats(order)
    ensures NoRepeats(Without(order, x))
  {
    if order != [] {
      var rest := order[1..];
      WithoutKeepsDistinct(rest, x);
      WithoutMembers(rest, x);
      var w, v := Without(order, x), Without(rest, x);
      if order[0] != x {
        assert w == [order[0]] + v;
        assert order[0] !in rest;
        assert forall j | 0 < j < |w| :: w[j] == v[j - 1] && v[j - 1] in v;
      } else {
        assert w == v;
      }
    }
  }

  lemma {:induction false} WithoutIndex(order: seq<nat>, x: nat, y: nat)
    requires y in order && y in Without(order, x) && x != y
    ensures IndexOf(Without(order, x), y) <= IndexOf(order, y)
  {
    var w, v := Without(order, x), Without(order[1..], x);
    if order[0] != y {
      WithoutMembers(order[1..], x);
      WithoutIndex(order[1..], x, y);
      if order[0] == x {
        assert w == v;
      } else {
        assert w == [order[0]] + v && w[1..] == v;
      }
    } else {
      assert w == [y] + v;
    }
  }

  lemma {:induction false} WithoutIsSplice(order: seq<nat>, k: nat)
    requires NoRepeats(order) && k < |order|
    ensures Without(order, order[k]) == order[..k] + order[k + 1..]
  {
    var rest := order[1..];
    if k == 0 {
      WithoutAbsent(rest, order[0]);
    } else {
      WithoutIsSplice(rest, k - 1);
      assert order[..k] == [order[0]] + rest[..k - 1];
      assert order[k + 1..] == rest[k..];
    }
  }

  lemma {:induction false} WithoutAbsent(order: seq<nat>, x: nat)
    requires x !in order
    ensures Without(order, x) == order
  {
    if order != [] {
      WithoutAbsent(order[1..], x);
    }
  }

  lemma WithoutRing<T>(order: seq<nat>, x: nat, slots: seq<Option<T>>)
    requires Ring(order, slots) && x < |slots|
    ensures Ring(Without(order, x), slots[x := None])
  {
    WithoutKeepsDistinct(order, x);
    WithoutMembers(order, x);
    var w := Without(order, x);
    forall i | 0 <= i < |w| ensures w[i] < |slots| && slots[x := None][w[i]].Some? {
      assert w[i] in w;
    }
  }

  lemma ApplyOk(s: Sched, e: Event)
    requires SchedOk(s)
    ensures SchedOk(Apply(s, e)) && |Apply(s, e).order| <= |s.order|
  {
    hide Ring, ProcOk, Switch, SwitchReady, Join, EndThread;
    match e {
      case Switched =>
        if SwitchReady(s) {
          SwitchOk(s);
        }
      case Changed(x, t, state) =>
        if state != Running && x < |s.table| && s.table[x].Some? {
          SetStateOk(s.table[x].value, t, state);
          SetProcOk(s, x, SetState(s.table[x].value, t, state));
        }
      case Joining(x, t, other) =>
        if x < |s.table| && s.table[x].Some? {
          JoinOk(s.table[x].value, t, other);
          SetProcOk(s, x, Join(s.table[x].value, t, other));
        }
      case Left(x) =>
        if x < |s.table| {
          LeftOk(s, x);
        }
      case Ended(x, t) =>
        if x < |s.table| && s.table[x].Some? {
          EndThreadOk(s.table[x].value, t);
          SetProcOk(s, x, EndThread(s.table[x].value, t));
        }
    }
  }

  lemma LeftOk(s: Sched, x: nat)
    requires SchedOk(s) && x < |s.table|
    ensures SchedOk(s.(table := s.table[x := None], order := Without(s.order, x)))
    ensures |Without(s.order, x)| <= |s.order|
  {
    WithoutMembers(s.order, x);
    WithoutRing(s.order, x, s.table);
    if Linked(s) && s.current != x {
      WithoutLast(s.order, x);
    }
  }

  lemma EndThreadOk(p: Proc, t: nat)
    requires ProcOk(p)
    ensures ProcOk(EndThread(p, t)) && EndThread(p, t).current == p.current && EndThread(p, t).pid == p.pid
    ensures EndThread(p, t).order == p.order || EndThread(p, t).order == Without(p.order, t)
    ensures forall u: nat ::
              || StateOf(EndThread(p, t), u) == StateOf(p, u)
              || (u == t && StateOf(EndThread(p, t), u).None?)
              || (StateOf(p, u) == Some(Sleeping) && StateOf(EndThread(p, t), u) == Some(Ready))
    ensures EndThread(p, t) != p && t == p.current ==> !Attached(EndThread(p, t))
  {
    if Attached(p) && t != 0 && t < |p.threads| && t in p.order {
      DroppedOk(p, t);
      var q := Dropped(p, t);
      SameThreadsOk(q, WakeJoiners(q.threads, t));
    }
    hide ProcOk, Without;
  }

  lemma DroppedOk(p: Proc, t: nat)
    requires ProcOk(p) && Attached(p) && t in p.order && t != 0
    ensures |p.order| > 1 && t < |p.threads| && ProcOk(Dropped(p, t))
    ensures Attached(Dropped(p, t)) <==> t != p.current
  {
    hide NoRepeats;
    assert 0 in p.order;
    WithoutMembers(p.order, t);
    assert 0 in Without(p.order, t);
    WithoutRing(p.order, t, p.threads);
    if t != p.current {
      WithoutLast(p.order, t);
    }
  }

  lemma JoinOk(p: Proc, t: nat, other: nat)
    requires ProcOk(p)
    ensures var q := Join(p, t, other);
      ProcOk(q) && q.order == p.order && q.current == p.current && q.pid == p.pid && Attached(q) == Attached(p)
    ensures forall u: nat ::
              StateOf(Join(p, t, other), u) == StateOf(p, u) || StateOf(Join(p, t, other), u) == Some(Sleeping)
  {
    SameThreadsOk(p, Join(p, t, other).threads);
    hide ProcOk;
  }

  /** A switch rotates the ring to a process not behind any that is runnable and promotes one of its threads. */
  lemma SwitchShape(s: Sched, x: nat) returns (k: nat)
    requires SchedOk(s) && SwitchReady(s) && Decides(Demote(s).table, x)
    ensures x in s.order && k < |s.order| && k <= IndexOf(s.order, x)
    ensures var s', d, c := Switch(s), Demote(s), s.order[k];
      && s'.order == Rotate(s.order, k) && |s'.table| == |d.table|
      && c < |d.table| && d.table[c].Some? && ProcOk(d.table[c].value) && HasReady(d.table[c].value)
      && s'.table[c] == Some(Promote(d.table[c].value)) && (x != c ==> s'.table[x] == d.table[x])
  {
    DemoteOk(s);
    DecidedIsFound(Demote(s), x);
    k := Target(Demote(s));
  }

  /** A switch that passes a ready thread over either brings its process closer, leaving the process as it
      was, or picks its process and brings the thread closer there. */
  lemma SwitchBringsCloser(s: Sched, x: nat, t: nat)
    requires SchedOk(s) && SwitchReady(s) && Awaits(s, x, t) && Awaits(Switch(s), x, t)
    ensures x in s.order && t in s.table[x].value.order
    ensures var s' := Switch(s);
      && SchedOk(s') && x in s'.order && t in s'.table[x].value.order
      && var p, p' := s.table[x].value, s'.table[x].value;
         || (IndexOf(s'.order, x) < IndexOf(s.order, x) && p'.order == p.order)
         || (IndexOf(s'.order, x) < |s.order| && IndexOf(p'.order, t) < IndexOf(p.order, t))
  {
    SwitchOk(s);
    AwaitsIsInRings(s, x, t);
    AwaitsIsInRings(Switch(s), x, t);
    DemoteKeepsReady(s, x, t);
    hide Demote, Switch, SwitchReady, SchedOk, Ring, ProcOk, FirstDecided, Promote, Rotate, HasReady;
    var k := SwitchShape(s, x);
    NoRepeatsInRing(s);
    RotateBringsCloser(s.order, k, x);
    if s.order[k] == x {
      PromotePasses(Demote(s).table[x].value, t);
    } else {
      assert IndexOf(s.order, x) != k;
    }
  }

  lemma NoRepeatsInRing(s: Sched)
    requires SchedOk(s)
    ensures NoRepeats(s.order)
  {}

  lemma DemoteKeepsReady(s: Sched, x: nat, t: nat)
    requires SchedOk(s) && Awaits(s, x, t)
    ensures var d := Demote(s);
      && Runnable(d.table, x) && d.table[x].value.order == s.table[x].value.order
      && ProcOk(d.table[x].value) && IsReady(d.table[x].value.threads, t)
  {
    DemoteOk(s);
    ReadyIsFound(Demote(s).table[x].value, t);
  }

  lemma SwitchShortensWait(s: Sched, x: nat, t: nat, n: nat)
    requires SchedOk(s) && SwitchReady(s) && Awaits(s, x, t) && Awaits(Switch(s), x, t) && |s.order| <= n
    ensures SchedOk(Switch(s)) && x in s.order && t in s.table[x].value.order
    ensures x in Switch(s).order && t in Switch(s).table[x].value.order
    ensures Patience(Switch(s), x, t, n) < Patience(s, x, t, n)
  {
    SwitchBringsCloser(s, x, t);
    hide Switch, SwitchReady, SchedOk, Awaits, IndexOf;
    var a, b := IndexOf(s.table[x].value.order, t), IndexOf(Switch(s).table[x].value.order, t);
    if b < a {
      FewerLaps(a, b, n);
    }
  }

  lemma FewerLaps(a: nat, b: nat, n: nat)
    requires b < a
    ensures b * n + n <= a * n
  {
    assert a * n == (a - b - 1) * n + b * n + n;
  }

  /** Within the process that is chosen, a ready thread that is not picked moves up. */
  lemma PromotePasses(p: Proc, t: nat)
    requires ProcOk(p) && IsReady(p.threads, t) && StateOf(Promote(p), t) == Some(Ready)
    ensures t in p.order && t in Promote(p).order && IndexOf(Promote(p).order, t) < IndexOf(p.order, t)
  {
    ReadyIsFound(p, t);
    PromoteOk(p);
    var k := FirstReady(p, 0);
    RotateBringsCloser(p.order, k, t);
    assert p.order[k] == Promote(p).current != t;
  }

  lemma MoreLaps(a: nat, b: nat, n: nat)
    requires b <= a
    ensures b * n <= a * n
  {
    assert a * n == (a - b) * n + b * n;
  }

  /** Other events do not push a waiting thread back. */
  lemma EventKeepsPlace(s: Sched, x: nat, t: nat, n: nat, e: Event)
    requires SchedOk(s) && e != Switched && Awaits(s, x, t) && Awaits(Apply(s, e), x, t)
    ensures SchedOk(Apply(s, e)) && x in s.order && t in s.table[x].value.order
    ensures x in Apply(s, e).order && t in Apply(s, e).table[x].value.order
    ensures Patience(Apply(s, e), x, t, n) <= Patience(s, x, t, n)
  {
    hide Apply, SchedOk, IndexOf;
    ApplyOk(s, e);
    var s' := Apply(s, e);
    AwaitsIsInRings(s, x, t);
    AwaitsIsInRings(s', x, t);
    EventKeepsPlaces(s, x, t, e);
    MoreLaps(IndexOf(s.table[x].value.order, t), IndexOf(s'.table[x].value.order, t), n);
  }

  lemma EventKeepsPlaces(s: Sched, x: nat, t: nat, e: Event)
    requires SchedOk(s) && e != Switched && Awaits(s, x, t) && Awaits(Apply(s, e), x, t)
    requires var s' := Apply(s, e);
      x in s.order && t in s.table[x].value.order && x in s'.order && t in s'.table[x].value.order
    ensures var s' := Apply(s, e);
      && IndexOf(s'.order, x) <= IndexOf(s.order, x)
      && IndexOf(s'.table[x].value.order, t) <= IndexOf(s.table[x].value.order, t)
  {
    hide IndexOf, Ring;
    var s' := Apply(s, e);
    if e.Left? && e.x < |s.table| {
      WithoutIndex(s.order, e.x, x);
    }
    if e.Ended? && e.x == x {
      EndThreadOk(s.table[x].value, e.t);
      if s'.table[x].value.order != s.table[x].value.order {
        WithoutIndex(s.table[x].value.order, e.t, t);
      }
    }
  }

  /** Every switch among the events comes to an end. */
  predicate GoesOn(s: Sched, events: seq<Event>)
    decreases |events|
  {
    events != [] ==> (events[0] == Switched ==> SwitchReady(s)) && GoesOn(Apply(s, events[0]), events[1..])
  }

  lemma {:induction false} WaitIsBounded(s: Sched, x: nat, t: nat, n: nat, events: seq<Event>)
    requires SchedOk(s) && StaysReady(s, x, t, events) && GoesOn(s, events) && |s.order| <= n
    ensures x in s.order && t in s.table[x].value.order
    ensures Switches(events) <= Patience(s, x, t, n)
    decreases |events|
  {
    AwaitsIsInRings(s, x, t);
    if events != [] {
      var s', rest := Apply(s, events[0]), events[1..];
      ApplyOk(s, events[0]);
      WaitIsBounded(s', x, t, n, rest);
      if events[0] == Switched {
        SwitchShortensWait(s, x, t, n);
      } else {
        EventKeepsPlace(s, x, t, n, events[0]);
      }
    }
  }

  /** As long as every search ends, a thread that stays ready is passed over fewer than (processes) x (threads of
      its process) times. */
  lemma BoundedWaiting(s: Sched, x: nat, t: nat, events: seq<Event>)
    requires SchedOk(s) && StaysReady(s, x, t, events) && GoesOn(s, events)
    ensures Switches(events) < |s.order| * |s.table[x].value.order|
  {
    var n := |s.order|;
    WaitIsBounded(s, x, t, n, events);
    FewerLaps(|s.table[x].value.order|, IndexOf(s.table[x].value.order, t), n);
    assert n * |s.table[x].value.order| == |s.table[x].value.order| * n;
  }

  // --- When the search ends --------------------------------------------------------------------------------------

  predicate IsStuck(s: Sched, x: nat) { x < |s.table| && s.table[x].Some? && Stuck(s.table[x].value) }

  ghost predicate NoneStuck(s: Sched) { forall x | 0 <= x < |s.table| :: !IsStuck(s, x) }

  /** No process is stuck, now and after each of the events. */
  ghost predicate StaysUnstuck(s: Sched, events: seq<Event>)
    decreases |events|
  {
    NoneStuck(s) && (events != [] ==> StaysUnstuck(Apply(s, events[0]), events[1..]))
  }

  /** A process gets neither stuck nor free when its running thread steps back. */
  lemma DemoteKeepsStuck(s: Sched, x: nat)
    requires SchedOk(s) && x < |s.table| && s.table[x].Some?
    ensures var d := Demote(s).table; x < |d| && d[x].Some? && (Stuck(d[x].value) <==> Stuck(s.table[x].value))
  {
    if Linked(s) && x == s.current && Demote(s) != s {
      var p := s.table[x].value;
      SetStateOk(p, p.current, Ready);
      assert Attached(p) && Attached(SetState(p, p.current, Ready));
    }
  }

  /** A runnable process comes up in ring order with no stuck one before it. */
  ghost predicate RunnableFirst(s: Sched) {
    exists j :: 0 <= j < |s.order| && Runnable(s.table, s.order[j]) && forall i | 0 <= i < j :: !IsStuck(s, s.order[i])
  }

  /** While some thread is ready the search ends if and only if a runnable process comes up with no stuck one
      before it; so it always ends while no process is stuck, even if the current one was just unlinked. */
  lemma ReadyMakesSwitch(s: Sched, x: nat)
    requires SchedOk(s) && Runnable(s.table, x)
    ensures SwitchReady(s) <==> RunnableFirst(Demote(s))
    ensures NoneStuck(s) ==> SwitchReady(s)
  {
    hide Demote, HasReady, SchedOk, Stuck, SearchEnds, FirstDecided, RunnableFirst;
    DemoteOk(s);
    RunnableAfterDemote(s, x);
    ShapeOk(s);
    var d := Demote(s);
    DecidedIsFound(d, x);
    EndsIffRunnableFirst(d);
    if NoneStuck(s) {
      var y := d.order[FirstDecided(d, 0)];
      DemoteKeepsStuck(s, y);
      assert !IsStuck(s, y);
      RunnableUnstuck(d);
    }
  }

  lemma RunnableUnstuck(d: Sched)
    requires FirstDecided(d, 0) < |d.order| && !IsStuck(d, d.order[FirstDecided(d, 0)])
    ensures SearchEnds(d)
  {
    hide HasReady;
  }

  lemma EndsIffRunnableFirst(d: Sched)
    requires FirstDecided(d, 0) < |d.order|
    ensures SearchEnds(d) <==> RunnableFirst(d)
  {
    hide HasReady, Attached;
    var k := FirstDecided(d, 0);
    if j :| 0 <= j < |d.order| && Runnable(d.table, d.order[j]) && forall i | 0 <= i < j :: !IsStuck(d, d.order[i]) {
      assert Decides(d.table, d.order[j]);
      assert Decides(d.table, d.order[k]) && (k < j ==> !IsStuck(d, d.order[k]));
    }
    if SearchEnds(d) {
      assert forall i | 0 <= i < k :: !IsStuck(d, d.order[i]) by {
        assert forall i | 0 <= i < k :: !Decides(d.table, d.order[i]);
      }
    }
  }

  lemma ShapeOk(s: Sched)
    requires SchedOk(s)
    ensures forall i | 0 <= i < |s.order| :: s.order[i] < |s.table| && s.table[s.order[i]].Some?
  {}

  lemma RunnableAfterDemote(s: Sched, x: nat)
    requires SchedOk(s) && Runnable(s.table, x)
    ensures Runnable(Demote(s).table, x)
  {
    var p := s.table[x].value;
    DemoteKeepsReady(s, x, p.order[FirstReady(p, 0)]);
  }

  lemma {:induction false} UnstuckGoesOn(s: Sched, x: nat, t: nat, events: seq<Event>)
    requires SchedOk(s) && StaysReady(s, x, t, events) && StaysUnstuck(s, events)
    ensures GoesOn(s, events)
    decreases |events|
  {
    if events != [] {
      ReadyIsFound(s.table[x].value, t);
      ReadyMakesSwitch(s, x);
      ApplyOk(s, events[0]);
      UnstuckGoesOn(Apply(s, events[0]), x, t, events[1..]);
    }
  }

  // --- A stuck process stops the kernel ------------------------------------------------------------------------------

  predicate StaysStuck(s: Sched, x: nat, events: seq<Event>)
    decreases |events|
  {
    IsStuck(s, x) && (events != [] ==> StaysStuck(Apply(s, events[0]), x, events[1..]))
  }

  /** While a process stays stuck each switch that ends brings it closer, and no switch gets past it: the search
      of the switch after that never ends, whatever other threads are ready. */
  lemma {:induction false} StuckHangsSoon(s: Sched, x: nat, events: seq<Event>)
    requires SchedOk(s) && StaysStuck(s, x, events) && GoesOn(s, events)
    ensures x in s.order && Switches(events) <= IndexOf(s.order, x) < |s.order|
    decreases |events|
  {
    assert x in s.order;
    if events != [] {
      var s' := Apply(s, events[0]);
      ApplyOk(s, events[0]);
      StuckHangsSoon(s', x, events[1..]);
      if events[0] == Switched {
        SwitchNearsStuck(s, x);
      } else if events[0].Left? && events[0].x < |s.table| {
        WithoutIndex(s.order, events[0].x, x);
      }
    }
  }

  lemma SwitchNearsStuck(s: Sched, x: nat)
    requires SchedOk(s) && IsStuck(s, x) && SwitchReady(s)
    ensures x in s.order && x in Switch(s).order && IndexOf(Switch(s).order, x) < IndexOf(s.order, x)
  {
    DemoteOk(s);
    DemoteKeepsStuck(s, x);
    NoRepeatsInRing(s);
    hide Demote, SchedOk, Ring, ProcOk, FirstDecided, Promote, Rotate, HasReady, Target, SwitchReady;
    var k := SwitchShape(s, x);
    RotateBringsCloser(s.order, k, x);
    assert k != IndexOf(s.order, x);
  }

  /** How a process gets stuck: its current thread, which is not the main one, ends, and no other is ready or
      asleep until just that happens. */
  lemma StuckIff(p: Proc)
    requires ProcOk(p) && Attached(p) && p.current != 0
    ensures Stuck(EndThread(p, p.current)) <==>
              forall u | 0 <= u < |p.threads| && u != p.current && p.threads[u].Some? ::
                p.threads[u].value.state != Ready && !SleepsOn(p.threads[u].value, p.current)
  {
    hide EndThread, ProcOk, HasReady;
    EndedThreads(p);
    var q := EndThread(p, p.current);
    HasReadyIff(q);
    if u :| 0 <= u < |p.threads| && u != p.current && p.threads[u].Some?
            && (p.threads[u].value.state == Ready || SleepsOn(p.threads[u].value, p.current)) {
      assert IsReady(q.threads, u);
    }
  }

  lemma HasReadyIff(p: Proc)
    requires ProcOk(p)
    ensures HasReady(p) <==> exists t :: IsReady(p.threads, t)
  {
    if t :| IsReady(p.threads, t) {
      ReadyIsFound(p, t);
    }
  }

  lemma EndedThreads(p: Proc)
    requires ProcOk(p) && Attached(p) && p.current != 0
    ensures var q := EndThread(p, p.current);
      && ProcOk(q) && q.current == p.current && |q.threads| == |p.threads|
      && q.threads == WakeJoiners(p.threads[p.current := None], p.current)
  {
    assert p.current in p.order;
    EndThreadOk(p, p.current);
  }

  // --- Arrivals ------------------------------------------------------------------------------------------------------

  /** The scheduler with a process added in a free slot, next after the current one. */
  function Inserted(s: Sched, slot: nat, p: Proc): Sched
    requires slot < |s.table|
  {
    Sched(if s.order == [] then slot else s.current, [slot] + s.order, s.table[slot := Some(p)])
  }

  function NewProc(pid: int, maxThreads: nat, mainThread: Thread): Proc
    requires maxThreads >= 1
  {
    Proc(pid, 0, [0], [Some(mainThread)] + seq(maxThreads - 1, _ => None))
  }

  lemma NewProcOk(pid: int, maxThreads: nat, mainThread: Thread)
    requires maxThreads >= 1
    ensures ProcOk(NewProc(pid, maxThreads, mainThread))
  {}

  /** A new thread comes next after the current one. */
  function AddThread(p: Proc, index: nat, thread: Thread): Proc
    requires index < |p.threads|
  {
    p.(order := [index] + p.order, threads := p.threads[index := Some(thread)])
  }

  /** Anything that can happen to a scheduler: one of the events, a new process, or a new thread that the running
      thread of a process adds to it. */
  datatype Step = Happens(e: Event) | Joined(slot: nat, pid: int, maxThreads: nat) | Spawned(x: nat, t: nat)

  function ApplyStep(s: Sched, step: Step): Sched {
    match step
    case Happens(e) => Apply(s, e)
    case Joined(slot, pid, maxThreads) =>
      if slot < |s.table| && s.table[slot].None? && maxThreads >= 1 && (s.order == [] || Linked(s)) then
        Inserted(s, slot, NewProc(pid, maxThreads, Thread(Ready, NOT_WAITING)))
      else s
    case Spawned(x, t) =>
      if x < |s.table| && s.table[x].Some? && CanAdd(s.table[x].value, t) then
        SetProc(s, x, AddThread(s.table[x].value, t, Thread(Ready, NOT_WAITING)))
      else s
  }

  predicate CanAdd(p: Proc, t: nat) { Attached(p) && t < |p.threads| && p.threads[t].None? }

  function AfterSteps(s: Sched, steps: seq<Step>): Sched
    decreases |steps|
  {
    if steps == [] then s else AfterSteps(ApplyStep(s, steps[0]), steps[1..])
  }

  lemma InsertRing(order: seq<nat>, slot: nat, table: seq<Option<Proc>>, p: Proc)
    requires Ring(order, table) && slot < |table| && table[slot].None?
    ensures Ring([slot] + order, table[slot := Some(p)]) && slot !in order
  {
    var r := [slot] + order;
    forall x | 0 <= x < |table| && table[slot := Some(p)][x].Some? ensures x in r {
      if x != slot {
        assert x in order;
      }
    }
  }

  lemma InsertedSched(s: Sched, slot: nat, p: Proc)
    requires SchedOk(s) && (s.order != [] ==> Linked(s))
    requires ProcOk(p) && slot < |s.table| && s.table[slot].None?
    ensures SchedOk(Inserted(s, slot, p))
  {
    InsertRing(s.order, slot, s.table, p);
  }

  lemma AddThreadOk(p: Proc, index: nat, thread: Thread)
    requires ProcOk(p) && Attached(p) && index < |p.threads| && p.threads[index].None?
    ensures ProcOk(AddThread(p, index, thread)) && Attached(AddThread(p, index, thread))
  {
    var q := AddThread(p, index, thread);
    forall x | 0 <= x < |q.threads| && q.threads[x].Some? ensures x in q.order {
      if x != index {
        assert x in p.order;
      }
    }
  }

  lemma StepOk(s: Sched, step: Step)
    requires SchedOk(s)
    ensures SchedOk(ApplyStep(s, step)) && |ApplyStep(s, step).table| == |s.table|
  {
    match step {
      case Happens(e) =>
        ApplyOk(s, e);
        ApplyKeepsTable(s, e);
      case Joined(slot, pid, maxThreads) =>
        if slot < |s.table| && s.table[slot].None? && maxThreads >= 1 && (s.order == [] || Linked(s)) {
          NewProcOk(pid, maxThreads, Thread(Ready, NOT_WAITING));
          InsertedSched(s, slot, NewProc(pid, maxThreads, Thread(Ready, NOT_WAITING)));
        }
      case Spawned(x, t) =>
        if x < |s.table| && s.table[x].Some? && CanAdd(s.table[x].value, t) {
          AddThreadOk(s.table[x].value, t, Thread(Ready, NOT_WAITING));
          SetProcOk(s, x, AddThread(s.table[x].value, t, Thread(Ready, NOT_WAITING)));
        }
    }
  }

  lemma ApplyKeepsTable(s: Sched, e: Event)
    requires SchedOk(s)
    ensures |Apply(s, e).table| == |s.table|
  {
    hide Switch, SwitchReady, SetState, EndThread, Join, SchedOk;
    if SwitchReady(s) {
      SwitchOk(s);
    }
  }

  /** In every run from a scheduler with at most one running thread, processes and threads joining included, at
      most one thread is running. */
  lemma {:induction false} RunKeepsOneRunning(s: Sched, steps: seq<Step>)
    requires SchedOk(s) && OneRunning(s)
    ensures SchedOk(AfterSteps(s, steps)) && OneRunning(AfterSteps(s, steps))
    decreases |steps|
  {
    hide SchedOk, OneRunning;
    if steps != [] {
      StepOk(s, steps[0]);
      StepKeepsOneRunning(s, steps[0]);
      RunKeepsOneRunning(ApplyStep(s, steps[0]), steps[1..]);
    }
  }

  /** A thread that joins is ready, not running. */
  lemma StepKeepsOneRunning(s: Sched, step: Step)
    requires SchedOk(s) && OneRunning(s)
    ensures OneRunning(ApplyStep(s, step))
  {
    match step {
      case Happens(e) =>
        hide Apply;
        ApplyKeepsOneRunning(s, e);
      case Joined(slot, pid, maxThreads) =>
      case Spawned(x, t) =>
        if ApplyStep(s, step) != s {
          NewThreadIsReady(s.table[x].value, t);
        }
    }
  }

  lemma NewThreadIsReady(p: Proc, t: nat)
    requires ProcOk(p) && t < |p.threads| && p.threads[t].None?
    ensures var q := AddThread(p, t, Thread(Ready, NOT_WAITING));
      && q.current == p.current
      && forall u: nat :: StateOf(q, u) == if u == t then Some(Ready) else StateOf(p, u)
  {}

  lemma ApplyKeepsOneRunning(s: Sched, e: Event)
    requires SchedOk(s) && OneRunning(s)
    ensures OneRunning(Apply(s, e))
  {
    hide Switch, SwitchReady, Ring;
    match e {
      case Switched =>
        if SwitchReady(s) {
          SwitchRunsOne(s);
        }
      case Changed(x, t, state) =>
        if state != Running && x < |s.table| && s.table[x].Some? {
          SetStateOk(s.table[x].value, t, state);
        }
      case Joining(x, t, other) =>
        if x < |s.table| && s.table[x].Some? {
          JoinOk(s.table[x].value, t, other);
        }
      case Left(x) =>
      case Ended(x, t) =>
        if x < |s.table| && s.table[x].Some? {
          EndThreadOk(s.table[x].value, t);
        }
    }
  }
}
