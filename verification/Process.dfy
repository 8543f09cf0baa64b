// A process: a fixed table of threads chained into a ring by index.
module Process {
  import opened Wrappers
  import opened RoundRobin

  datatype ThreadSlot = ThreadSlot(thread: Option<Thread>, next: nat)

  function Threads(slots: seq<ThreadSlot>): (t: seq<Option<Thread>>)
    ensures |t| == |slots| && forall i | 0 <= i < |t| :: t[i] == slots[i].thread
  {
    seq(|slots|, i requires 0 <= i < |slots| => slots[i].thread)
  }

  /** Each slot of the order points at the next one, the last at the first. */
  ghost predicate Chained(order: seq<nat>, slots: seq<ThreadSlot>) {
    && (forall i | 0 <= i < |order| :: order[i] < |slots|)
    && (forall i | 0 <= i < |order| - 1 :: slots[order[i]].next == order[i + 1])
    && (order != [] ==> slots[order[|order| - 1]].next == order[0])
  }

  /** The threads are those of the slots, chained in ring order, and the current slot leads to the first of the
      ring, whether it is the last of the ring or its thread has just ended. */
  ghost predicate Sound(p: Proc, slots: seq<ThreadSlot>) {
    && p.threads == Threads(slots) && ProcOk(p) && Chained(p.order, slots)
    && slots[p.current].next == p.order[0]
  }

  class KernelProcess {
    const pid: int
    const slots: array<ThreadSlot>
    var currentThread: nat
    ghost var order: seq<nat>

    ghost function State(): Proc
      reads this, slots
    {
      Proc(pid, currentThread, order, Threads(slots[..]))
    }

    ghost predicate Valid()
      reads this, slots
    {
      Sound(State(), slots[..])
    }

    /** A process starts with its main thread, alone in the ring. */
    constructor (id: int, maxThreads: nat, mainThread: Thread)
      requires maxThreads >= 1
      ensures Valid() && Attached(State()) && fresh(slots) && slots.Length == maxThreads && pid == id
      ensures State() == NewProc(id, maxThreads, mainThread)
    {
      pid := id;
      slots := new ThreadSlot[maxThreads](_ => ThreadSlot(None, 0));
      currentThread, order := 0, [0];
      new;
      slots[0] := ThreadSlot(Some(mainThread), 0);
    }

    /** Moves to the next ready thread round the ring, the current one last; -1 when none is ready. From a process
        that is stuck the source's walk does not end (`NextThreadEndsIff`). */
    method NextThread() returns (next: int)
      requires Valid() && !Stuck(State())
      modifies this
      ensures Valid() && Attached(State())
      ensures var p := old(State());
        if HasReady(p) then State() == Rotated(p) && next == State().current else State() == p && next == -1
    {
      hide Sound, FirstReady, Stuck;
      var first := currentThread;
      InRing(0);
      var n := slots[currentThread].next;
      ghost var k := 0;
      while slots[n].thread.value.state != Ready && first != n
        invariant k < |order| && n == order[k] && n < slots.Length && slots[n].thread.Some?
        invariant FirstReady(State(), 0) == FirstReady(State(), k)
        invariant State() == old(State()) && Valid() && first == currentThread
        decreases |order| - k
      {
        StepOn(k);
        n := slots[n].next;
        k := k + 1;
        InRing(k);
      }
      EndOfWalk(k);
      if first == n && slots[n].thread.value.state != Ready {
        return -1;
      }
      PickedSound(State(), slots[..]);
      order := Rotate(order, k);
      currentThread := n;
      return n;
    }

    lemma InRing(k: nat)
      requires Valid() && (k == 0 || k < |order|)
      ensures order != [] && currentThread < slots.Length && slots[currentThread].next == order[0]
      ensures order[k] < slots.Length && slots[order[k]].thread.Some?
    {}

    /** From a thread that is not ready, nor the current one, the walk goes on inside the ring. */
    lemma StepOn(k: nat)
      requires Valid() && !Stuck(State()) && k < |order| && order[k] != currentThread
      requires FirstReady(State(), 0) == FirstReady(State(), k)
      requires order[k] < slots.Length && slots[order[k]].thread.Some? && slots[order[k]].thread.value.state != Ready
      ensures k < |order| - 1 && slots[order[k]].next == order[k + 1]
      ensures FirstReady(State(), k) == FirstReady(State(), k + 1)
    {}

    /** Where the walk ends: at the first ready thread, or back at the current one with none. */
    lemma EndOfWalk(k: nat)
      requires Valid() && !Stuck(State()) && k < |order|
      requires FirstReady(State(), 0) == FirstReady(State(), k)
      requires order[k] < slots.Length && slots[order[k]].thread.Some?
      requires slots[order[k]].thread.value.state == Ready || order[k] == currentThread
      ensures slots[order[k]].thread.value.state == Ready ==> FirstReady(State(), 0) == k
      ensures slots[order[k]].thread.value.state != Ready ==> FirstReady(State(), 0) == |order| && Attached(State())
    {}

    method SetThreadState(t: nat, state: RunState)
      requires Valid() && t < slots.Length && slots[t].thread.Some?
      modifies slots
      ensures Valid() && State() == SetState(old(State()), t, state)
    {
      ghost var p := State();
      SetStateOk(p, t, state);
      slots[t] := slots[t].(thread := Some(slots[t].thread.value.(state := state)));
      assert State() == SetState(p, t, state);
    }

    method FirstAvailableThreadSpace() returns (index: nat)
      ensures index <= slots.Length && (index < slots.Length ==> slots[index].thread.None?)
      ensures forall i | 0 <= i < index :: slots[i].thread.Some?
    {
      index := 0;
      while index < slots.Length && slots[index].thread.Some?
        invariant index <= slots.Length
        invariant forall i | 0 <= i < index :: slots[i].thread.Some?
      {
        index := index + 1;
      }
    }

    /** Puts a new thread, in the lowest free slot, right after the current one; -1 when the table is full. */
    method AddNewThread(thread: Thread) returns (index: int)
      requires Valid() && Attached(State())
      modifies this`order, slots
      ensures Valid() && Attached(State())
      ensures index == -1 ==> State() == old(State()) && forall t | 0 <= t < slots.Length :: old(slots[t].thread).Some?
      ensures index != -1 ==> 0 <= index < slots.Length && old(slots[index].thread).None?
                              && State() == AddThread(old(State()), index, thread)
      ensures forall t | 0 <= t < index :: old(slots[t].thread).Some?
    {
      hide Sound, AddThread, Threads;
      var i := FirstAvailableThreadSpace();
      if i == slots.Length {
        return -1;
      }
      ghost var p, was := State(), slots[..];
      AddedSound(p, was, i, thread);
      var next := slots[currentThread].next;
      slots[i] := ThreadSlot(Some(thread), next);
      slots[currentThread] := slots[currentThread].(next := i);
      assert slots[..] == Added(was, currentThread, i, thread);
      order := [i] + order;
      return i;
    }

    /** Ends a thread and wakes those who joined it. Ending the main thread kills the process instead. When the
        current thread ends, the mark stays on its empty slot until the next switch, which comes before any other
        call of the process: only its running thread ends or adds threads. */
    method TerminateThread(t: nat) returns (killed: bool)
      requires Valid() && Attached(State())
      modifies this`order, slots
      ensures Valid() && killed == (t == 0) && State() == EndThread(old(State()), t)
      ensures Attached(State()) <==> killed || t != currentThread
    {
      if t == 0 {
        return true;
      }
      hide Sound, Dropped, WakeJoiners;
      killed := false;
      var found, previous;
      ghost var k;
      found, previous, k := FindThread(t);
      if found {
        Unlink(previous, t, k);
        UnlockWaitingThreads(t);
      }
    }

    /** Walks the ring to a thread and to the slot before it. */
    method FindThread(t: nat) returns (found: bool, previous: nat, ghost k: nat)
      requires Valid() && Attached(State())
      ensures found <==> t in order
      ensures found ==> k < |order| && order[k] == t && t < slots.Length
      ensures found ==> previous == if k == 0 then order[|order| - 1] else order[k - 1]
    {
      hide Sound;
      WalkOn(0);
      previous := currentThread;
      var toRemove := slots[previous].next;
      var first := toRemove;
      k := 0;
      while toRemove != t
        invariant k < |order| && toRemove == order[k] && toRemove < slots.Length
        invariant forall j | 0 <= j < k :: order[j] != t
        invariant previous == if k == 0 then order[|order| - 1] else order[k - 1]
        decreases |order| - k
      {
        WalkOn(k);
        if slots[toRemove].next == first {
          return false, previous, k;
        }
        previous := toRemove;
        toRemove := slots[toRemove].next;
        k := k + 1;
        WalkOn(k);
      }
      found := true;
    }

    lemma WalkOn(k: nat)
      requires Valid() && Attached(State()) && (k == 0 || k < |order|)
      ensures order != [] && order[|order| - 1] == currentThread
      ensures currentThread < slots.Length && slots[currentThread].next == order[0] && order[k] < slots.Length
      ensures slots[order[k]].next == if k < |order| - 1 then order[k + 1] else order[0]
      ensures k < |order| - 1 ==> order[k + 1] != order[0]
    {}

    /** Takes slot t, at position k, out of the ring. */
    method Unlink(previous: nat, t: nat, ghost k: nat)
      requires Valid() && Attached(State()) && t != 0 && k < |order| && order[k] == t
      requires previous == if k == 0 then order[|order| - 1] else order[k - 1]
      modifies this`order, slots
      ensures Valid() && t < |old(State()).threads| && State() == Dropped(old(State()), t)
      ensures Attached(State()) <==> t != currentThread
    {
      hide Sound, Dropped, Without, Threads;
      ghost var p, was := State(), slots[..];
      UnlinkOk(p, k, was);
      slots[previous] := slots[previous].(next := slots[t].next);
      slots[t] := slots[t].(thread := None);
      assert slots[..] == Cut(was, previous, t);
      order := Without(order, t);
    }

    method UnlockWaitingThreads(t: nat)
      requires Valid()
      modifies slots
      ensures Valid() && State() == old(State()).(threads := WakeJoiners(old(State()).threads, t))
      ensures Attached(State()) <==> Attached(old(State()))
    {
      hide Sound;
      ghost var p, was := State(), slots[..];
      for i := 0 to slots.Length
        invariant forall j | 0 <= j < slots.Length :: slots[j].next == was[j].next
        invariant forall j | 0 <= j < i :: slots[j].thread == WakeJoiners(Threads(was), t)[j]
        invariant forall j | i <= j < slots.Length :: slots[j] == was[j]
      {
        var thread := slots[i].thread;
        if thread.Some? && SleepsOn(thread.value, t) {
          slots[i] := slots[i].(thread := Some(Thread(Ready, NOT_WAITING)));
        }
      }
      assert Threads(slots[..]) == WakeJoiners(Threads(was), t);
      SameLinks(p, was, slots[..]);
    }

    /** Puts a thread to sleep until another one of the process ends. */
    method JoinThread(t: nat, toJoin: nat) returns (sleeping: bool)
      requires Valid() && t < slots.Length && slots[t].thread.Some? && toJoin < slots.Length
      modifies slots
      ensures Valid() && sleeping == old(slots[toJoin].thread).Some?
      ensures State() == Join(old(State()), t, toJoin)
    {
      sleeping := slots[toJoin].thread.Some?;
      if sleeping {
        hide Sound;
        ghost var p, was := State(), slots[..];
        slots[t] := slots[t].(thread := Some(Thread(Sleeping, toJoin)));
        assert Threads(slots[..]) == p.threads[t := Some(Thread(Sleeping, toJoin))];
        SameLinks(p, was, slots[..]);
      }
    }
  }

  // --- Where the walk of nextThread stops ---------------------------------------------------------------------------

  /** The slot at which the loop stops within so many more rounds, from slot n of a walk that began at slot `first`. */
  function WalkAfter(slots: seq<ThreadSlot>, first: nat, n: nat, rounds: nat): Option<nat>
    decreases rounds
  {
    if n >= |slots| then None
    else if n == first || (slots[n].thread.Some? && slots[n].thread.value.state == Ready) then Some(n)
    else if rounds == 0 then None
    else WalkAfter(slots, first, slots[n].next, rounds - 1)
  }

  /** The loop ends at all if and only if the process is not stuck. */
  lemma {:induction false} NextThreadEndsIff(p: Proc, slots: seq<ThreadSlot>)
    requires Sound(p, slots)
    ensures (exists rounds :: WalkAfter(slots, p.current, slots[p.current].next, rounds).Some?) <==> !Stuck(p)
  {
    if Stuck(p) {
      forall rounds: nat ensures WalkAfter(slots, p.current, slots[p.current].next, rounds).None? {
        WalksForEver(p, slots, 0, rounds);
      }
    } else {
      WalkEnds(p, slots, 0);
    }
  }

  lemma {:induction false} WalksForEver(p: Proc, slots: seq<ThreadSlot>, k: nat, rounds: nat)
    requires Sound(p, slots) && Stuck(p) && k < |p.order|
    ensures WalkAfter(slots, p.current, p.order[k], rounds).None?
    decreases rounds
  {
    assert !IsReady(p.threads, p.order[k]) && p.order[k] != p.current;
    if rounds > 0 {
      WalksForEver(p, slots, if k < |p.order| - 1 then k + 1 else 0, rounds - 1);
    }
  }

  lemma {:induction false} WalkEnds(p: Proc, slots: seq<ThreadSlot>, k: nat)
    requires Sound(p, slots) && !Stuck(p) && k < |p.order| && FirstReady(p, 0) >= k
    ensures WalkAfter(slots, p.current, p.order[k], |p.order| - 1 - k).Some?
    decreases |p.order| - k
  {
    if FirstReady(p, 0) > k && p.order[k] != p.current {
      WalkEnds(p, slots, k + 1);
    }
  }

  lemma RotateChained(order: seq<nat>, k: nat, slots: seq<ThreadSlot>)
    requires Chained(order, slots) && k < |order|
    ensures Chained(Rotate(order, k), slots)
  {}

  /** The slots after pointing the predecessor of slot t past it and emptying slot t. */
  function Cut(slots: seq<ThreadSlot>, previous: nat, t: nat): (r: seq<ThreadSlot>)
    requires previous < |slots| && t < |slots|
    ensures |r| == |slots|
  {
    var relinked := slots[previous := slots[previous].(next := slots[t].next)];
    relinked[t := relinked[t].(thread := None)]
  }

  /** Changing threads without adding or removing any, or changing the links. */
  lemma SameLinks(p: Proc, was: seq<ThreadSlot>, now: seq<ThreadSlot>)
    requires Sound(p, was) && |now| == |was|
    requires forall j | 0 <= j < |was| :: now[j].next == was[j].next && (now[j].thread.Some? <==> was[j].thread.Some?)
    ensures Sound(p.(threads := Threads(now)), now)
  {
    SameThreadsOk(p, Threads(now));
    hide ProcOk;
  }

  /** The slots after putting a thread in slot i, between the current one and its successor. */
  function Added(slots: seq<ThreadSlot>, current: nat, i: nat, thread: Thread): (r: seq<ThreadSlot>)
    requires current < |slots| && i < |slots|
    ensures |r| == |slots|
  {
    var filled := slots[i := ThreadSlot(Some(thread), slots[current].next)];
    filled[current := filled[current].(next := i)]
  }

  lemma AddedSound(p: Proc, was: seq<ThreadSlot>, i: nat, thread: Thread)
    requires Sound(p, was) && Attached(p) && i < |was| && was[i].thread.None?
    ensures p.current < |was| && i < |p.threads|
    ensures var now := Added(was, p.current, i, thread);
      && Sound(AddThread(p, i, thread), now) && Attached(AddThread(p, i, thread))
      && AddThread(p, i, thread) == Proc(p.pid, p.current, [i] + p.order, Threads(now))
  {
    AddThreadOk(p, i, thread);
    assert p.current in p.order;
    var now := Added(was, p.current, i, thread);
    assert Threads(now) == p.threads[i := Some(thread)];
    AddedChained(p.order, was, i, thread);
    hide Ring, Chained;
  }

  lemma AddedChained(order: seq<nat>, was: seq<ThreadSlot>, i: nat, thread: Thread)
    requires order != [] && Chained(order, was) && NoRepeats(order) && i < |was| && i !in order
    ensures Chained([i] + order, Added(was, order[|order| - 1], i, thread))
  {}

  lemma UnlinkOk(p: Proc, k: nat, was: seq<ThreadSlot>)
    requires Sound(p, was) && Attached(p) && k < |p.order| && p.order[k] != 0
    ensures var t, prev := p.order[k], if k == 0 then p.order[|p.order| - 1] else p.order[k - 1];
      && t < |was| && prev < |was| && t < |p.threads|
      && var q, now := Dropped(p, t), Cut(was, prev, t);
      && q == Proc(p.pid, p.current, Without(p.order, t), Threads(now)) && Sound(q, now)
      && (Attached(q) <==> t != p.current)
  {
    DroppedOk(p, p.order[k]);
    CutShape(p, k, was);
    if k == |p.order| - 1 {
      LastOfRing(p, k, was);
    } else {
      StaysLast(p, k);
    }
    hide ProcOk, Without, Dropped, Cut, Threads;
  }

  /** When another one goes, the last of the ring stays the last. */
  lemma StaysLast(p: Proc, k: nat)
    requires ProcOk(p) && Attached(p) && k < |p.order| - 1
    ensures var w := Without(p.order, p.order[k]);
      p.order[k] != p.current && w != [] && w[|w| - 1] == p.current
  {
    WithoutLast(p.order, p.order[k]);
  }

  lemma PickedSound(p: Proc, slots: seq<ThreadSlot>)
    requires Sound(p, slots) && HasReady(p)
    ensures Sound(Rotated(p), slots) && Attached(Rotated(p))
  {
    PickedOk(p);
    RotateChained(p.order, FirstReady(p, 0), slots);
    hide ProcOk;
  }

  /** When the last of the ring goes, its slot still leads to the first. */
  lemma LastOfRing(p: Proc, k: nat, was: seq<ThreadSlot>)
    requires ProcOk(p) && Chained(p.order, was) && |p.order| > 1 && k == |p.order| - 1
    ensures var t, prev := p.order[k], p.order[k - 1];
      t < |was| && prev < |was| && prev != t
      && Without(p.order, t) != [] && Cut(was, prev, t)[t].next == Without(p.order, t)[0]
  {
    WithoutIsSplice(p.order, k);
  }

  lemma CutShape(p: Proc, k: nat, was: seq<ThreadSlot>)
    requires NoRepeats(p.order) && k < |p.order| && |p.order| > 1
    requires Chained(p.order, was) && p.threads == Threads(was)
    ensures var t, prev := p.order[k], if k == 0 then p.order[|p.order| - 1] else p.order[k - 1];
      && t < |was| && prev < |was|
      && var q, now := Dropped(p, t), Cut(was, prev, t);
      && q == Proc(p.pid, p.current, Without(p.order, t), Threads(now)) && Chained(q.order, now)
  {
    var t, prev := p.order[k], if k == 0 then p.order[|p.order| - 1] else p.order[k - 1];
    WithoutIsSplice(p.order, k);
    UnchainOk(p.order, k, was, Cut(was, prev, t));
    hide Chained, NoRepeats, Without;
    assert Threads(Cut(was, prev, t)) == p.threads[t := None];
  }

  /** Pointing the predecessor of position k at its successor takes it out of the chain. */
  lemma UnchainOk(order: seq<nat>, k: nat, was: seq<ThreadSlot>, now: seq<ThreadSlot>)
    requires Chained(order, was) && NoRepeats(order) && k < |order| && |order| > 1 && |now| == |was|
    requires var prev := if k == 0 then order[|order| - 1] else order[k - 1];
      && now[prev].next == was[order[k]].next
      && forall x | 0 <= x < |was| && x != prev :: now[x].next == was[x].next
    ensures Chained(order[..k] + order[k + 1..], now)
  {
    var r, n := order[..k] + order[k + 1..], |order|;
    forall i | 0 <= i < |r| - 1 ensures now[r[i]].next == r[i + 1] {
      var j := if i < k then i else i + 1;
      assert r[i] == order[j];
      if i == k - 1 {
      } else {
        assert j != (if k == 0 then n - 1 else k - 1);
      }
    }
  }
}
