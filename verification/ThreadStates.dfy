// What switches, joins and ends of threads do to the state of each thread.
module ThreadStates {
  import opened Wrappers
  import opened RoundRobin

  /** Thread u of the process in slot x, if there is one. */
  function Shown(s: Sched, x: nat, u: nat): Option<Thread> {
    if x < |s.table| && s.table[x].Some? && u < |s.table[x].value.threads| then s.table[x].value.threads[u] else None
  }

  /** The thread that has the processor. */
  predicate IsCurrent(s: Sched, x: nat, u: nat) { Linked(s) && x == s.current && u == s.table[x].value.current }

  function In(thread: Option<Thread>, state: RunState): Option<Thread> {
    if thread.Some? then Some(thread.value.(state := state)) else None
  }

  predicate Has(thread: Option<Thread>, state: RunState) { thread.Some? && thread.value.state == state }

  // --- Switches ----------------------------------------------------------------------------------------------------

  lemma DemoteShows(s: Sched, x: nat, u: nat)
    requires SchedOk(s)
    ensures Shown(Demote(s), x, u) ==
            if IsCurrent(s, x, u) && Has(Shown(s, x, u), Running) then In(Shown(s, x, u), Ready) else Shown(s, x, u)
  {}

  lemma PromoteShows(p: Proc, u: nat)
    requires ProcOk(p)
    ensures |Promote(p).threads| == |p.threads| && Promote(p).current < |p.threads|
    ensures u < |p.threads| ==>
              Promote(p).threads[u] == if u == Promote(p).current then In(p.threads[u], Running) else p.threads[u]
  {
    hide HasReady;
    if HasReady(p) {
      PickedOk(p);
    }
  }

  /** A switch rewrites one slot: the picked process, promoted. */
  lemma SwitchSets(s: Sched) returns (y: nat)
    requires SchedOk(s) && SwitchReady(s)
    ensures var s', d := Switch(s), Demote(s);
      && y < |d.table| && d.table[y].Some? && ProcOk(d.table[y].value)
      && s'.table == d.table[y := Some(Promote(d.table[y].value))] && s'.current == y
  {
    DemoteOk(s);
    TargetOk(Demote(s));
    y := Demote(s).order[Target(Demote(s))];
    ProcAt(Demote(s), y);
    hide Demote, Promote, ProcOk, SchedOk, Ring, Target, HasReady, Stuck, Rotate;
  }

  /** A switch sets the thread it picks running, sets the one that was running ready, unless that is the one it
      picks, and touches no other thread. */
  lemma SwitchShows(s: Sched, x: nat, u: nat)
    requires SchedOk(s) && SwitchReady(s)
    ensures Shown(Switch(s), x, u) ==
            if IsCurrent(Switch(s), x, u) then In(Shown(s, x, u), Running)
            else if IsCurrent(s, x, u) && Has(Shown(s, x, u), Running) then In(Shown(s, x, u), Ready)
            else Shown(s, x, u)
  {
    hide Demote, Promote, ProcOk, SchedOk, Switch, SwitchReady;
    var y := SwitchSets(s);
    DemoteShows(s, x, u);
    PromoteShows(Demote(s).table[y].value, u);
  }

  /** A thread that is neither ready nor running gets the processor without having been woken if and only if no
      thread is ready and it is the current one already. */
  lemma ResumedIff(s: Sched, x: nat, t: nat)
    requires SchedOk(s) && SwitchReady(s)
    requires Shown(s, x, t).Some? && !Has(Shown(s, x, t), Ready) && !Has(Shown(s, x, t), Running)
    ensures Has(Shown(Switch(s), x, t), Running) <==>
              IsCurrent(s, x, t) && forall y: nat :: !Runnable(Demote(s).table, y)
  {
    SwitchPicksReady(s);
    SwitchShows(s, x, t);
    DemoteShows(s, x, t);
    IdleStays(s);
    hide Demote, Switch, SwitchReady, SchedOk, Runnable;
  }

  /** With nothing ready the current thread goes on. */
  lemma IdleStays(s: Sched)
    requires SchedOk(s) && SwitchReady(s)
    ensures (forall y: nat :: !Runnable(Demote(s).table, y)) ==>
              Linked(s) && Linked(Switch(s)) && Switch(s).current == s.current
              && Switch(s).table[s.current].value.current == s.table[s.current].value.current
  {
    DemoteOk(s);
    SwitchOk(s);
    var d := Demote(s);
    TargetOk(d);
    if forall y: nat :: !Runnable(d.table, y) {
      var y := d.order[Target(d)];
      assert !Runnable(d.table, y);
      assert !HasReady(d.table[y].value);
    }
  }

  // --- Joins and ends ----------------------------------------------------------------------------------------------

  predicate CanEnd(p: Proc, t: nat) { Attached(p) && t != 0 && t < |p.threads| && p.threads[t].Some? }

  /** The end of a thread takes it out, wakes exactly those that joined it, and touches no other thread. */
  lemma EndShows(p: Proc, t: nat, u: nat)
    requires ProcOk(p) && u < |p.threads|
    ensures var q := EndThread(p, t);
      && |q.threads| == |p.threads|
      && q.threads[u] ==
         if !CanEnd(p, t) then p.threads[u]
         else if u == t then None
         else if p.threads[u].Some? && SleepsOn(p.threads[u].value, t) then Some(Thread(Ready, NOT_WAITING))
         else p.threads[u]
  {
    assert t < |p.threads| && p.threads[t].Some? ==> t in p.order;
    hide Ring, Without;
  }

  /** Thread t of slot x sleeps until thread `other` ends, and that is there. */
  predicate Asleep(s: Sched, x: nat, t: nat, other: nat) {
    Shown(s, x, t) == Some(Thread(Sleeping, other)) && Shown(s, x, other).Some?
  }

  /** Thread `other` is gone and t is ready, or has been picked since. */
  predicate Woken(s: Sched, x: nat, t: nat, other: nat) {
    Shown(s, x, other).None? && (Has(Shown(s, x, t), Ready) || Has(Shown(s, x, t), Running))
  }

  lemma JoinSleeps(s: Sched, x: nat, t: nat, other: nat)
    requires SchedOk(s) && Shown(s, x, t).Some?
    ensures var s' := Apply(s, Joining(x, t, other));
      if Shown(s, x, other).Some? then Asleep(s', x, t, other) else s' == s
  {
    assert s.table[x := s.table[x]] == s.table;
  }

  /** The event itself is not about thread t, nor the end of its process; and a switch finds a ready thread. */
  ghost predicate Spares(s: Sched, e: Event, x: nat, t: nat) {
    match e
    case Switched => SwitchReady(s) ==> exists y: nat :: Runnable(Demote(s).table, y)
    case Changed(y, u, _) => y != x || u != t
    case Joining(y, u, _) => y != x || u != t
    case Left(y) => y != x
    case Ended(y, u) => y != x || u != t
  }

  ghost predicate AllSpare(s: Sched, events: seq<Event>, x: nat, t: nat)
    decreases |events|
  {
    events != [] ==> Spares(s, events[0], x, t) && AllSpare(Apply(s, events[0]), events[1..], x, t)
  }

  function AfterEvents(s: Sched, events: seq<Event>): Sched
    decreases |events|
  {
    if events == [] then s else AfterEvents(Apply(s, events[0]), events[1..])
  }

  lemma SwitchSpares(s: Sched, x: nat, t: nat, other: nat)
    requires SchedOk(s) && SwitchReady(s) && exists y: nat :: Runnable(Demote(s).table, y)
    ensures Asleep(s, x, t, other) ==> Asleep(Switch(s), x, t, other)
    ensures Woken(s, x, t, other) ==> Woken(Switch(s), x, t, other)
  {
    SwitchShows(s, x, t);
    SwitchShows(s, x, other);
    hide Switch, SwitchReady, SchedOk, Demote, Runnable, IsCurrent, Shown;
    if Asleep(s, x, t, other) {
      ResumedIff(s, x, t);
    }
  }

  lemma StepSpares(s: Sched, e: Event, x: nat, t: nat, other: nat)
    requires SchedOk(s) && t != other && Spares(s, e, x, t)
    requires Asleep(s, x, t, other) || Woken(s, x, t, other)
    ensures Asleep(Apply(s, e), x, t, other) || Woken(Apply(s, e), x, t, other)
  {
    hide Switch, SwitchReady, Ring, EndThread;
    match e {
      case Switched =>
        if SwitchReady(s) {
          SwitchSpares(s, x, t, other);
        }
      case Changed(y, u, state) =>
      case Joining(y, u, o) =>
      case Left(y) =>
      case Ended(y, u) =>
        if y == x && x < |s.table| && s.table[x].Some? {
          var p := s.table[x].value;
          EndShows(p, u, t);
          if other < |p.threads| {
            EndShows(p, u, other);
          }
        }
    }
  }

  /** A thread that joined another one sleeps exactly as long as that one is there: over every run in which nobody
      else changes it and each switch finds a ready thread, it is asleep while the other is there, and ready, or
      running since, once that has ended. */
  lemma {:induction false} SleepsWhileThere(s: Sched, events: seq<Event>, x: nat, t: nat, other: nat)
    requires SchedOk(s) && t != other && AllSpare(s, events, x, t)
    requires Asleep(s, x, t, other) || Woken(s, x, t, other)
    ensures var s' := AfterEvents(s, events);
      && SchedOk(s')
      && (Shown(s', x, other).Some? <==> Asleep(s', x, t, other))
      && (Shown(s', x, other).None? <==> Woken(s', x, t, other))
    decreases |events|
  {
    if events != [] {
      StepSpares(s, events[0], x, t, other);
      ApplyOk(s, events[0]);
      hide Apply, Asleep, Woken, Spares, SchedOk;
      SleepsWhileThere(Apply(s, events[0]), events[1..], x, t, other);
    }
  }

  /** The failing input: the only process's running thread joins another one, which is blocked; the next switch
      finds nothing ready and lets it run on. */
  lemma JoinerRunsOn(s: Sched, x: nat, t: nat, other: nat)
    requires SchedOk(s) && IsCurrent(s, x, t) && t != other && |s.order| == 1
    requires Shown(s, x, t).Some? && Has(Shown(s, x, other), Blocked)
    requires forall u: nat | u != t :: !Has(Shown(s, x, u), Ready)
    ensures var j := Apply(s, Joining(x, t, other));
      Asleep(j, x, t, other) && SwitchReady(j) && Has(Shown(Switch(j), x, t), Running)
      && Shown(Switch(j), x, other).Some?
  {
    var e := Joining(x, t, other);
    var j := Apply(s, e);
    ApplyOk(s, e);
    JoinSleeps(s, x, t, other);
    NothingReady(s, x, t, other);
    JoinOk(s.table[x].value, t, other);
    AloneGoesOn(j);
    hide Join, HasReady, SchedOk;
    SwitchShows(j, x, other);
    ResumedIff(j, x, t);
  }

  lemma NothingReady(s: Sched, x: nat, t: nat, other: nat)
    requires SchedOk(s) && Shown(s, x, t).Some? && Shown(s, x, other).Some?
    requires forall u: nat | u != t :: !Has(Shown(s, x, u), Ready)
    ensures !HasReady(Join(s.table[x].value, t, other))
  {
    hide ProcOk, HasReady;
    var q := Join(s.table[x].value, t, other);
    ProcAt(s, x);
    JoinOk(s.table[x].value, t, other);
    HasReadyIff(q);
    forall u: nat ensures !IsReady(q.threads, u) {
      assert u == t || !Has(Shown(s, x, u), Ready);
    }
  }

  /** The only process goes on when its current thread is there but not running and none is ready. */
  lemma AloneGoesOn(s: Sched)
    requires SchedOk(s) && Linked(s) && |s.order| == 1 && !HasReady(s.table[s.current].value)
    requires Attached(s.table[s.current].value)
    requires StateOf(s.table[s.current].value, s.table[s.current].value.current) != Some(Running)
    ensures Demote(s) == s && SwitchReady(s) && forall y: nat :: !Runnable(s.table, y)
  {
    assert s.order == [s.current];
    assert FirstDecided(s, 0) == 1;
    forall y: nat ensures !Runnable(s.table, y) {
      if y < |s.table| && s.table[y].Some? {
        ProcAt(s, y);
      }
    }
  }

  // --- Arrivals ----------------------------------------------------------------------------------------------------

  /** A thread that is added comes up first in its process. */
  lemma NewThreadFirst(p: Proc, t: nat)
    requires ProcOk(p) && CanAdd(p, t)
    ensures var q := AddThread(p, t, Thread(Ready, NOT_WAITING)); HasReady(q) && Rotated(q).current == t
  {
    var q := AddThread(p, t, Thread(Ready, NOT_WAITING));
    assert FirstReady(q, 0) == 0;
  }

  /** A process that is added is the one the next switch picks. */
  lemma NewProcessFirst(s: Sched, slot: nat, p: Proc)
    requires SchedOk(s) && (s.order != [] ==> Linked(s)) && slot < |s.table| && s.table[slot].None?
    requires ProcOk(p) && HasReady(p) && StateOf(p, p.current) != Some(Running)
    ensures var r := Inserted(s, slot, p); SwitchReady(r) && Switch(r).current == slot
  {
    var r := Inserted(s, slot, p);
    InsertedSched(s, slot, p);
    DemoteOk(r);
    ShapeOk(r);
    hide HasReady, Ring, ProcOk, SchedOk;
    assert Demote(r).table[slot] == Some(p);
    assert FirstDecided(Demote(r), 0) == 0;
  }
}
