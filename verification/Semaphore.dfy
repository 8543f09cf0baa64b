// The kernel's counting semaphore, with its waiter table and the loops that remove killed threads.
module Semaphore {
  import opened Wrappers
  import opened WaitTable

  datatype SemState = SemState(value: int, blocked: Slots, blockedQuantity: int)

  datatype Outcome = Passed | Parked | Refused  // Refused: the table is full and the kernel kills the caller

  datatype WaitResult = WaitResult(s: SemState, outcome: Outcome)

  datatype WakeResult = WakeResult(s: SemState, woken: Option<nat>)

  // The pieces of wait and signal, in the order the source executes them under the semaphore's mutex.

  function Decrement(s: SemState): SemState { s.(value := s.value - 1) }

  function Admit(s: SemState, t: nat): WaitResult {
    if s.value < 0 then
      var k := FirstUnused(s.blocked, 0);
      if k == |s.blocked| then WaitResult(s, Refused)
      else WaitResult(s.(blocked := s.blocked[k := Some(t)], blockedQuantity := s.blockedQuantity + 1), Parked)
    else
      WaitResult(s, Passed)
  }

  function Wake(s: SemState): WakeResult {
    if s.blockedQuantity == 0 then WakeResult(s, None)
    else
      var k := FirstUsed(s.blocked, 0);
      if k == |s.blocked| then WakeResult(s, None)
      else WakeResult(s.(blocked := s.blocked[k := None], blockedQuantity := s.blockedQuantity - 1), s.blocked[k])
  }

  function Increment(s: SemState): SemState { s.(value := s.value + 1) }

  function Wait(s: SemState, t: nat): WaitResult { Admit(Decrement(s), t) }

  function Signal(s: SemState): WakeResult {
    var r := Wake(s);
    r.(s := Increment(r.s))
  }

  /** Takes the victims out of the slots from i on, giving back one unit of value for each. */
  function Evict(s: SemState, victims: set<nat>, i: nat): SemState
    requires i <= |s.blocked|
    decreases |s.blocked| - i
  {
    if i == |s.blocked| then s
    else if s.blocked[i].Some? && s.blocked[i].value in victims then
      Evict(SemState(s.value + 1, s.blocked[i := None], s.blockedQuantity - 1), victims, i + 1)
    else Evict(s, victims, i + 1)
  }

  class KernelSemaphore {
    var value: int
    const blocked: array<Option<nat>>
    var blockedQuantity: int

    function State(): SemState
      reads this, blocked
    {
      SemState(value, blocked[..], blockedQuantity)
    }

    constructor (maxBlocked: nat)
      ensures State() == Fresh(maxBlocked, 0) && fresh(blocked)
    {
      value, blockedQuantity := 0, 0;
      blocked := new Option<nat>[maxBlocked](_ => None);
    }

    method SetValue(v: int)
      modifies this`value
      ensures State() == old(State()).(value := v)
    {
      value := v;
    }

    method WaitFor(t: nat) returns (outcome: Outcome)
      modifies this, blocked
      ensures WaitResult(State(), outcome) == Wait(old(State()), t)
    {
      value := value - 1;
      if value < 0 {
        var added := AddToSemaphoreBlocked(t);
        return if added then Parked else Refused;
      }
      return Passed;
    }

    method AddToSemaphoreBlocked(t: nat) returns (added: bool)
      modifies this`blockedQuantity, blocked
      ensures var k := FirstUnused(old(blocked[..]), 0);
        && added == (k < blocked.Length)
        && blocked[..] == (if added then old(blocked[..])[k := Some(t)] else old(blocked[..]))
        && blockedQuantity == old(blockedQuantity) + if added then 1 else 0
    {
      var index := NextListIndexAvailable(blocked);
      added := index != blocked.Length;
      if added {
        blocked[index] := Some(t);
        blockedQuantity := blockedQuantity + 1;
      }
    }

    /** Returns the thread that becomes ready, if one was waiting. */
    method SignalOne() returns (woken: Option<nat>)
      modifies this, blocked
      ensures WakeResult(State(), woken) == Signal(old(State()))
    {
      woken := UnlockSemaphoreProcess();
      value := value + 1;
    }

    method UnlockSemaphoreProcess() returns (woken: Option<nat>)
      modifies this`blockedQuantity, blocked
      ensures WakeResult(State(), woken) == Wake(old(State()))
    {
      woken := None;
      if blockedQuantity == 0 {
        return;
      }
      var i := 0;
      while i < blocked.Length && woken.None?
        invariant i <= blocked.Length
        invariant woken.None? ==> State() == old(State()) && FirstUsed(blocked[..], 0) == FirstUsed(blocked[..], i)
        invariant woken.Some? ==> WakeResult(State(), woken) == Wake(old(State()))
      {
        if blocked[i].Some? {
          woken := blocked[i];
          blocked[i] := None;
          blockedQuantity := blockedQuantity - 1;
        }
        i := i + 1;
      }
    }

    /** The removal loop for killed threads: one thread, or all the threads of a process. */
    method RemoveThreads(victims: set<nat>)
      modifies this, blocked
      ensures State() == Evict(old(State()), victims, 0)
    {
      for j := 0 to blocked.Length
        invariant Evict(old(State()), victims, 0) == Evict(State(), victims, j)
      {
        if blocked[j].Some? && blocked[j].value in victims {
          blocked[j] := None;
          blockedQuantity := blockedQuantity - 1;
          value := value + 1;
        }
      }
    }
  }

  function Fresh(maxBlocked: nat, initial: int): SemState {
    SemState(initial, seq(maxBlocked, _ => None), 0)
  }

  // --- Conservation ------------------------------------------------------------------------------

  /** The table holds one waiter for each unit the value is below zero, and its count is right. */
  predicate Balanced(s: SemState) {
    s.blockedQuantity == Occupied(s.blocked) == if s.value < 0 then -s.value else 0
  }

  /** Waiting keeps the balance exactly when it need not park or the table has room. */
  lemma WaitKeepsBalance(s: SemState, t: nat)
    requires Balanced(s)
    ensures Balanced(Wait(s, t).s) <==> s.value > 0 || Occupied(s.blocked) < |s.blocked|
    ensures Balanced(Wait(s, t).s) <==> Wait(s, t).outcome != Refused
  {
    OccupiedZero(s.blocked);
    var k := FirstUnused(s.blocked, 0);
    if k < |s.blocked| {
      OccupiedUpdate(s.blocked, k, Some(t));
    }
  }

  lemma SignalKeepsBalance(s: SemState)
    requires Balanced(s)
    ensures Balanced(Signal(s).s)
    ensures Signal(s).woken.Some? <==> s.value < 0
  {
    OccupiedZero(s.blocked);
    var k := FirstUsed(s.blocked, 0);
    if k < |s.blocked| {
      OccupiedUpdate(s.blocked, k, None);
    }
  }

  /** A wait passes exactly when the value was positive, is refused exactly when it was not and the table is full, and
      otherwise parks the caller in the lowest free slot. */
  lemma WaitOutcome(s: SemState, t: nat)
    ensures var r := Wait(s, t);
      && r.s.value == s.value - 1
      && (r.outcome == Passed <==> s.value > 0)
      && (r.outcome == Refused <==> s.value <= 0 && Occupied(s.blocked) == |s.blocked|)
      && (r.outcome != Parked ==> r.s.blocked == s.blocked)
      && (r.outcome == Parked ==>
            exists k: nat :: LowestFree(s.blocked, k) && r.s.blocked == s.blocked[k := Some(t)])
  {
    OccupiedZero(s.blocked);
    var k := FirstUnused(s.blocked, 0);
    assert k < |s.blocked| ==> LowestFree(s.blocked, k);
  }

  /** A signal wakes the waiter in the lowest slot and adds one to the value either way. */
  lemma SignalServesLowest(s: SemState)
    requires Balanced(s)
    ensures var r := Signal(s);
      && r.s.value == s.value + 1
      && (r.woken.None? ==> r.s.blocked == s.blocked)
      && (r.woken.Some? ==>
            exists k: nat :: LowestUsed(s.blocked, k) && s.blocked[k] == r.woken && r.s.blocked == s.blocked[k := None])
  {
    var k := FirstUsed(s.blocked, 0);
    assert k < |s.blocked| ==> LowestUsed(s.blocked, k);
  }

  lemma {:induction false} EvictKeepsBalance(s: SemState, victims: set<nat>, i: nat)
    requires i <= |s.blocked| && Balanced(s)
    ensures var r := Evict(s, victims, i);
      && Balanced(r) && |r.blocked| == |s.blocked|
      && r.value - s.value == s.blockedQuantity - r.blockedQuantity >= 0
      && (forall j | 0 <= j < |s.blocked| ::
            r.blocked[j] ==
            if i <= j && s.blocked[j].Some? && s.blocked[j].value in victims then None else s.blocked[j])
    decreases |s.blocked| - i
  {
    if i < |s.blocked| {
      if s.blocked[i].Some? && s.blocked[i].value in victims {
        OccupiedUpdate(s.blocked, i, None);
        EvictKeepsBalance(SemState(s.value + 1, s.blocked[i := None], s.blockedQuantity - 1), victims, i + 1);
      } else {
        EvictKeepsBalance(s, victims, i + 1);
      }
    }
  }

  // --- Runs ----------------------------------------------------------------------------------------

  datatype Event = WaitEvent(t: nat) | SignalEvent | KillEvent(victims: set<nat>)

  /** A semaphore and what has happened to it; a wait is completed when it passes or is woken. */
  datatype History = History(s: SemState, waits: nat, signals: nat, removed: int, completed: nat, refused: bool)

  function Replay(maxBlocked: nat, initial: int, events: seq<Event>): History {
    if events == [] then History(Fresh(maxBlocked, initial), 0, 0, 0, 0, false)
    else
      var h := Replay(maxBlocked, initial, events[..|events| - 1]);
      match events[|events| - 1]
      case WaitEvent(t) =>
        var r := Wait(h.s, t);
        h.(s := r.s, waits := h.waits + 1, completed := h.completed + (if r.outcome == Passed then 1 else 0),
           refused := h.refused || r.outcome == Refused)
      case SignalEvent =>
        var r := Signal(h.s);
        h.(s := r.s, signals := h.signals + 1, completed := h.completed + (if r.woken.Some? then 1 else 0))
      case KillEvent(victims) =>
        var s := Evict(h.s, victims, 0);
        h.(s := s, removed := h.removed + h.s.blockedQuantity - s.blockedQuantity)
  }

  /** Conservation over every run in which the table never overflows. */
  lemma {:induction false} Conservation(maxBlocked: nat, initial: int, events: seq<Event>)
    requires initial >= 0 && !Replay(maxBlocked, initial, events).refused
    ensures var h := Replay(maxBlocked, initial, events);
      && Balanced(h.s)
      && h.s.value == initial + h.signals - h.waits + h.removed
      && h.completed + h.removed + Occupied(h.s.blocked) == h.waits
      && h.completed <= initial + h.signals
  {
    if events == [] {
      OccupiedZero(Fresh(maxBlocked, initial).blocked);
    } else {
      Conservation(maxBlocked, initial, events[..|events| - 1]);
      var h := Replay(maxBlocked, initial, events[..|events| - 1]);
      match events[|events| - 1] {
        case WaitEvent(t) => WaitKeepsBalance(h.s, t);
        case SignalEvent => SignalKeepsBalance(h.s);
        case KillEvent(victims) => EvictKeepsBalance(h.s, victims, 0);
      }
    }
  }

  /** Threads 0 to k - 1 wait, one after the other. */
  function Waits(k: nat): (events: seq<Event>)
    ensures |events| == k && (k > 0 ==> events[k - 1] == WaitEvent(k - 1) && events[..k - 1] == Waits(k - 1))
  {
    if k == 0 then [] else Waits(k - 1) + [WaitEvent(k - 1)]
  }

  lemma {:induction false} WaitsPark(maxBlocked: nat, k: nat)
    requires k <= maxBlocked
    ensures var h := Replay(maxBlocked, 0, Waits(k));
      !h.refused && h.s.value == 0 - k && Occupied(h.s.blocked) == k && |h.s.blocked| == maxBlocked
  {
    if k == 0 {
      OccupiedZero(Fresh(maxBlocked, 0).blocked);
    } else {
      WaitsPark(maxBlocked, k - 1);
      var s := Replay(maxBlocked, 0, Waits(k - 1)).s;
      OccupiedZero(s.blocked);
      OccupiedUpdate(s.blocked, FirstUnused(s.blocked, 0), Some(k - 1));
    }
  }

  /** The failing input, for every table size n: of n + 1 waits on a semaphore of value 0 the last is refused,
      and the value is then one lower than the waiters account for. */
  lemma OneWaitTooMany(maxBlocked: nat)
    ensures var h := Replay(maxBlocked, 0, Waits(maxBlocked + 1));
      h.refused && !Balanced(h.s) && h.s.value + 1 == 0 - maxBlocked && Occupied(h.s.blocked) == maxBlocked
  {
    WaitsPark(maxBlocked, maxBlocked);
    OccupiedZero(Replay(maxBlocked, 0, Waits(maxBlocked)).s.blocked);
  }
}
