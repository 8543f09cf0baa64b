// The kernel's blocking mutex: atomic exchange, a table of waiters and direct hand-off of ownership.
module Mutex {
  import opened Wrappers
  import opened WaitTable

  const LOCKED: nat := 0
  const UNLOCKED: nat := 1

  /** `owner` is the source's lockProcess; it keeps its last value while the mutex is unlocked. */
  datatype MutexState = MutexState(value: nat, owner: Option<nat>, blocked: Slots, blockedQuantity: int)

  datatype Outcome = Acquired | Queued | Refused  // Refused: the table is full and the kernel kills the caller

  datatype DownResult = DownResult(m: MutexState, outcome: Outcome)

  datatype UpResult = UpResult(m: MutexState, woken: Option<nat>)

  function Down(m: MutexState, t: nat): DownResult {
    if m.value == LOCKED then
      var k := FirstUnused(m.blocked, 0);
      if k == |m.blocked| then DownResult(m, Refused)
      else DownResult(m.(blocked := m.blocked[k := Some(t)], blockedQuantity := m.blockedQuantity + 1), Queued)
    else
      DownResult(m.(value := LOCKED, owner := Some(t)), Acquired)
  }

  /** Hands the mutex to the first waiter, if any. */
  function Unlock(m: MutexState): UpResult {
    if m.blockedQuantity == 0 then UpResult(m, None)
    else
      var k := FirstUsed(m.blocked, 0);
      if k == |m.blocked| then UpResult(m, None)
      else UpResult(m.(owner := m.blocked[k],
                       blocked := m.blocked[k := None], blockedQuantity := m.blockedQuantity - 1),
                    m.blocked[k])
  }

  function Up(m: MutexState, t: nat): UpResult {
    if m.owner == Some(t) then
      var r := Unlock(m);
      if r.woken.None? then r.(m := r.m.(value := UNLOCKED)) else r
    else
      UpResult(m, None)
  }

  class KernelMutex {
    var value: nat
    var lockProcess: Option<nat>
    const blocked: array<Option<nat>>
    var blockedQuantity: int

    function State(): MutexState
      reads this, blocked
    {
      MutexState(value, lockProcess, blocked[..], blockedQuantity)
    }

    constructor (maxBlocked: nat)
      ensures State() == Fresh(maxBlocked) && fresh(blocked)
    {
      value := UNLOCKED;
      lockProcess := None;
      blockedQuantity := 0;
      blocked := new Option<nat>[maxBlocked](_ => None);
    }

    method MutexDown(t: nat) returns (outcome: Outcome)
      modifies this, blocked
      ensures DownResult(State(), outcome) == Down(old(State()), t)
    {
      var locked := TestAndSetLock();
      if locked == LOCKED {
        var added := AddToBlocked(t);
        return if added then Queued else Refused;
      }
      lockProcess := Some(t);
      return Acquired;
    }

    /** The atomic exchange of the lock word with 0. */
    method TestAndSetLock() returns (before: nat)
      modifies this`value
      ensures before == old(value) && value == LOCKED
    {
      before, value := value, LOCKED;
    }

    method AddToBlocked(t: nat) returns (added: bool)
      modifies this`blockedQuantity, blocked
      ensures var k := FirstUnused(old(blocked[..]), 0);
        && added == (k < blocked.Length)
        && blocked[..] == (if added then old(blocked[..])[k := Some(t)] else old(blocked[..]))
        && blockedQuantity == old(blockedQuantity) + if added then 1 else 0
    {
      var index := NextListIndexAvailable(blocked);
      added := index != blocked.Length;
      if added {
        blocked[index] := Some(t);
        blockedQuantity := blockedQuantity + 1;
      }
    }

    /** Returns the thread that becomes ready, if the caller handed the mutex over. */
    method MutexUp(t: nat) returns (woken: Option<nat>)
      modifies this, blocked
      ensures UpResult(State(), woken) == Up(old(State()), t)
    {
      woken := None;
      if lockProcess == Some(t) {
        woken := UnlockProcess();
        if woken.None? {
          value := UNLOCKED;
        }
      }
    }

    method UnlockProcess() returns (woken: Option<nat>)
      modifies this, blocked
      ensures UpResult(State(), woken) == Unlock(old(State())) && value == old(value)
    {
      woken := None;
      if blockedQuantity == 0 {
        return;
      }
      var i := 0;
      while i < blocked.Length && woken.None?
        invariant i <= blocked.Length
        invariant woken.None? ==> State() == old(State()) && FirstUsed(blocked[..], 0) == FirstUsed(blocked[..], i)
        invariant woken.Some? ==> UpResult(State(), woken) == Unlock(old(State()))
        invariant value == old(value)
      {
        if blocked[i].Some? {
          lockProcess := blocked[i];
          woken := blocked[i];
          blocked[i] := None;
          blockedQuantity := blockedQuantity - 1;
        }
        i := i + 1;
      }
    }

    /** The drain loop that releases a mutex: every waiter is woken and the table ends empty. */
    method Drain() returns (woken: seq<nat>)
      requires blockedQuantity == Occupied(blocked[..])
      modifies this, blocked
      ensures blockedQuantity == 0 && forall j | 0 <= j < blocked.Length :: blocked[j].None?
      ensures Members(old(blocked[..])) == multiset(woken)
      ensures value == old(value)
    {
      lockProcess := None;
      woken := [];
      OccupiedZero(blocked[..]);
      while blockedQuantity > 0
        invariant blockedQuantity == Occupied(blocked[..]) && value == old(value)
        invariant Members(old(blocked[..])) == multiset(woken) + Members(blocked[..])
        decreases blockedQuantity
      {
        ghost var before := State();
        UnlockDrains(before);
        var w := UnlockProcess();
        assert State() == Unlock(before).m;
        woken := woken + [w.value];
      }
      OccupiedZero(blocked[..]);
      MembersEmpty(blocked[..]);
    }
  }

  /** The threads waiting in a table. */
  function Members(s: Slots): multiset<nat> {
    if s == [] then multiset{}
    else Members(s[..|s| - 1]) + if s[|s| - 1].Some? then multiset{s[|s| - 1].value} else multiset{}
  }

  lemma {:induction false} MembersUpdate(s: Slots, k: nat)
    requires k < |s| && s[k].Some?
    ensures Members(s) == Members(s[k := None]) + multiset{s[k].value}
  {
    var n := |s| - 1;
    if k == n {
      assert s[k := None][..n] == s[..n];
    } else {
      assert s[k := None][..n] == s[..n][k := None];
      MembersUpdate(s[..n], k);
    }
  }

  lemma UnlockDrains(m: MutexState)
    requires m.blockedQuantity == Occupied(m.blocked) > 0
    ensures var r := Unlock(m);
      && r.woken.Some? && r.m.blockedQuantity == Occupied(r.m.blocked) == m.blockedQuantity - 1
      && Members(m.blocked) == Members(r.m.blocked) + multiset{r.woken.value}
  {
    var k := FirstUsed(m.blocked, 0);
    OccupiedZero(m.blocked);
    OccupiedUpdate(m.blocked, k, None);
    MembersUpdate(m.blocked, k);
  }

  lemma {:induction false} MembersEmpty(s: Slots)
    requires forall j | 0 <= j < |s| :: s[j].None?
    ensures Members(s) == multiset{}
  {
    if s != [] {
      MembersEmpty(s[..|s| - 1]);
    }
  }

  function Fresh(maxBlocked: nat): MutexState {
    MutexState(UNLOCKED, None, seq(maxBlocked, _ => None), 0)
  }

  // --- A mutex and the threads that use it ---------------------------------------------------

  datatype Phase = Outside | Waiting | Inside

  /** What a thread is doing with respect to one mutex, and the mutex agreeing with it. */
  ghost predicate Agrees(m: MutexState, phases: seq<Phase>) {
    && m.value <= 1
    && m.blockedQuantity == Occupied(m.blocked) && Distinct(m.blocked)
    && (forall t | 0 <= t < |phases| :: phases[t] == Inside <==> m.value == LOCKED && m.owner == Some(t))
    && (forall t | 0 <= t < |phases| :: phases[t] == Waiting <==> Some(t) in m.blocked)
    && (forall w | Some(w) in m.blocked :: w < |phases|)
    && (m.value == LOCKED ==> m.owner.Some? && m.owner.value < |phases|)
    && (m.value == UNLOCKED ==> forall j | 0 <= j < |m.blocked| :: m.blocked[j].None?)
  }

  /** The phases after thread t asked for the mutex. */
  function AfterDown(m: MutexState, phases: seq<Phase>, t: nat): seq<Phase>
    requires t < |phases|
  {
    match Down(m, t).outcome
    case Acquired => phases[t := Inside]
    case Queued => phases[t := Waiting]
    case Refused => phases
  }

  /** The phases after thread t gave the mutex up. */
  function AfterUp(m: MutexState, phases: seq<Phase>, t: nat): seq<Phase>
    requires t < |phases|
  {
    match Up(m, t).woken
    case None => phases[t := Outside]
    case Some(w) => if w < |phases| then phases[t := Outside][w := Inside] else phases
  }

  lemma DownKeeps(m: MutexState, phases: seq<Phase>, t: nat)
    requires Agrees(m, phases) && t < |phases| && phases[t] == Outside
    ensures Agrees(Down(m, t).m, AfterDown(m, phases, t))
  {
    var k := FirstUnused(m.blocked, 0);
    if m.value == LOCKED && k < |m.blocked| {
      FillSlot(m.blocked, k, t);
    }
  }

  lemma UpKeeps(m: MutexState, phases: seq<Phase>, t: nat)
    requires Agrees(m, phases) && t < |phases| && phases[t] == Inside
    ensures Agrees(Up(m, t).m, AfterUp(m, phases, t))
    ensures var w := Up(m, t).woken; w.Some? ==> w.value < |phases| && w.value != t && phases[w.value] == Waiting
  {
    OccupiedZero(m.blocked);
    var k := FirstUsed(m.blocked, 0);
    if k < |m.blocked| {
      ClearSlot(m.blocked, k);
      assert m.blocked[k] in m.blocked;
    }
  }

  /** Mutual exclusion, no lost wake-up, and hand-off, in any state where mutex and threads agree. */
  lemma AgreementIsSafe(m: MutexState, phases: seq<Phase>)
    requires Agrees(m, phases)
    ensures forall s, t | 0 <= s < |phases| && 0 <= t < |phases| && phases[s] == phases[t] == Inside :: s == t
    ensures (exists t :: 0 <= t < |phases| && phases[t] == Waiting) ==>
              m.value == LOCKED && exists t :: 0 <= t < |phases| && phases[t] == Inside
    ensures forall t | 0 <= t < |phases| && phases[t] == Inside ::
              (Up(m, t).woken.None? <==> forall s | 0 <= s < |phases| :: phases[s] != Waiting)
              && (Up(m, t).woken.Some? ==> Up(m, t).m.value == LOCKED && Up(m, t).m.owner == Up(m, t).woken)
  {
    OccupiedZero(m.blocked);
    var k := FirstUsed(m.blocked, 0);
    if k < |m.blocked| {
      assert m.blocked[k] == Some(m.blocked[k].value);
      assert Some(m.blocked[k].value) in m.blocked;
      assert phases[m.blocked[k].value] == Waiting;
      assert m.value == LOCKED && phases[m.owner.value] == Inside;
    }
    forall t | 0 <= t < |phases| && phases[t] == Waiting ensures k < |m.blocked| {
      var j :| 0 <= j < |m.blocked| && m.blocked[j] == Some(t);
    }
  }

  /** What a down does, said of the threads: it acquires the mutex exactly when nobody is inside, is refused exactly
      when somebody is and the table is full, and otherwise queues the caller in the lowest free slot. */
  lemma DownOutcome(m: MutexState, phases: seq<Phase>, t: nat)
    requires Agrees(m, phases)
    ensures var r := Down(m, t);
      && (r.outcome == Acquired <==> forall s | 0 <= s < |phases| :: phases[s] != Inside)
      && (r.outcome == Refused <==> m.value == LOCKED && Occupied(m.blocked) == |m.blocked|)
      && (r.outcome == Refused ==> r.m == m)
      && (r.outcome == Queued ==>
            r.m.owner == m.owner && exists k: nat :: LowestFree(m.blocked, k) && r.m.blocked == m.blocked[k := Some(t)])
  {
    OccupiedZero(m.blocked);
    var k := FirstUnused(m.blocked, 0);
    assert k < |m.blocked| ==> LowestFree(m.blocked, k);
    if m.value == LOCKED {
      assert phases[m.owner.value] == Inside;
    }
  }

  /** The waiter in the lowest slot is served, not the one that has waited longest. */
  lemma UpServesLowest(m: MutexState, phases: seq<Phase>, t: nat)
    requires Agrees(m, phases) && t < |phases| && phases[t] == Inside
    ensures var r := Up(m, t);
      r.woken.Some? ==>
        exists k: nat :: LowestUsed(m.blocked, k) && m.blocked[k] == r.woken && r.m.blocked == m.blocked[k := None]
  {
    var k := FirstUsed(m.blocked, 0);
    assert k < |m.blocked| ==> LowestUsed(m.blocked, k);
  }

  /** An up by a thread that is not inside has no effect. */
  lemma OutsiderUp(m: MutexState, phases: seq<Phase>, t: nat)
    requires Agrees(m, phases) && t < |phases| && phases[t] != Inside
    ensures Up(m, t) == UpResult(m, None)
  {
    OccupiedZero(m.blocked);
  }

  /** So a waiter can be overtaken: b waits before c comes, and c gets the mutex before b. */
  lemma WaiterOvertaken(holder: nat, a: nat, b: nat, c: nat)
    ensures var m := MutexState(LOCKED, Some(holder), [Some(a), Some(b)], 2);
      var handed := Up(m, holder); var joined := Down(handed.m, c); var next := Up(joined.m, a);
      handed.woken == Some(a) && joined.outcome == Queued && next.woken == Some(c) && next.m.blocked == [None, Some(b)]
  {
    assert FirstUsed([Some(a), Some(b)], 0) == 0;
    assert [Some(a), Some(b)][0 := None] == [None, Some(b)];
    assert FirstUnused([None, Some(b)], 0) == 0;
    assert [None, Some(b)][0 := Some(c)] == [Some(c), Some(b)];
    assert FirstUsed([Some(c), Some(b)], 0) == 0;
    assert [Some(c), Some(b)][0 := None] == [None, Some(b)];
  }

  // --- Runs: any number of threads, in any order, each giving up only what it holds --------------

  datatype System = System(m: MutexState, phases: seq<Phase>)

  ghost predicate Step(s: System, s': System) {
    exists t | 0 <= t < |s.phases| ::
      || (s.phases[t] == Outside && s' == System(Down(s.m, t).m, AfterDown(s.m, s.phases, t)))
      || (s.phases[t] == Inside && s' == System(Up(s.m, t).m, AfterUp(s.m, s.phases, t)))
  }

  ghost predicate Run(b: seq<System>) {
    && |b| > 0
    && (exists slots: nat :: b[0].m == Fresh(slots))
    && (forall t | 0 <= t < |b[0].phases| :: b[0].phases[t] == Outside)
    && forall i | 0 <= i < |b| - 1 :: Step(b[i], b[i + 1])
  }

  lemma {:induction false} RunAgrees(b: seq<System>, i: nat)
    requires Run(b) && i < |b|
    ensures Agrees(b[i].m, b[i].phases)
  {
    if i == 0 {
      OccupiedZero(b[0].m.blocked);
    } else {
      RunAgrees(b, i - 1);
      var s := b[i - 1];
      assert Step(s, b[i - 1 + 1]);
      var t :| 0 <= t < |s.phases| &&
        ((s.phases[t] == Outside && b[i] == System(Down(s.m, t).m, AfterDown(s.m, s.phases, t)))
         || (s.phases[t] == Inside && b[i] == System(Up(s.m, t).m, AfterUp(s.m, s.phases, t))));
      if s.phases[t] == Outside {
        DownKeeps(s.m, s.phases, t);
      } else {
        UpKeeps(s.m, s.phases, t);
      }
    }
  }

  /** In every run at most one thread is inside, and nobody waits at an unlocked mutex. */
  lemma RunIsSafe(b: seq<System>, i: nat)
    requires Run(b) && i < |b|
    ensures forall s, t | 0 <= s < |b[i].phases| && 0 <= t < |b[i].phases|
            && b[i].phases[s] == b[i].phases[t] == Inside :: s == t
    ensures b[i].m.value == UNLOCKED ==> forall t | 0 <= t < |b[i].phases| :: b[i].phases[t] == Outside
    ensures b[i].m.blockedQuantity == Occupied(b[i].m.blocked)
  {
    RunAgrees(b, i);
    AgreementIsSafe(b[i].m, b[i].phases);
  }
}
