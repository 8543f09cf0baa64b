// What each reader gets out of the pipe: as many bytes as it asked for, its own share of the bytes in their order.
module PipeReaders {
  import opened PipeSystem
  import opened PipeProgress
  import M = Mutex
  import S = Semaphore

  /** For each thread, how many bytes its calls asked for and the bytes it copied into its buffer; and the reader of
      each byte in the record of bytes that went out. */
  datatype Readings = Readings(asked: seq<nat>, got: seq<seq<bv8>>, takers: seq<nat>)

  function Noted(s: State, h: Readings, e: Event): (h': Readings)
    requires Formed(s) && |h.asked| == |h.got| == |s.threads|
    ensures |h'.asked| == |h'.got| == |h.asked|
  {
    if e.t >= |s.threads| || s.threads[e.t].role == Writer then h
    else
      var th := s.threads[e.t];
      match e
      case Move(t) =>
        if th.pc == HoldP && t < |Next(s, t).threads| then
          h.(got := h.got[t := h.got[t] + [Next(s, t).threads[t].byte]])
        else if th.pc == CopiedP then h.(takers := h.takers + [t])
        else h
      case Call(t, bytes, count) =>
        if th.pc == LoopTop && th.todo == [] && th.wanted == 0 then h.(asked := h.asked[t := h.asked[t] + count])
        else h
  }

  /** A reader that is on its way to the ring still wants a byte. */
  predicate Eager(th: Thread) {
    th.pc in {WantA, QueueA, HoldA, DecA, PassA, ParkA, Blocked, WantP, QueueP, HoldP} && th.role == Reader ==>
        th.wanted != 0
  }

  /** What a reader copied is its share of the record, in order, and what is in flight; that is all it asked for but
      what it still wants. */
  ghost predicate Served(s: State, h: Readings, t: nat)
    requires |h.asked| == |h.got| == |s.threads| && |h.takers| == |s.read| && t < |s.threads|
  {
    var th := s.threads[t];
    && Eager(th)
    && (th.role == Reader ==>
          h.got[t] == By(s.read, h.takers, t) + InFlight(th) && |h.got[t]| + th.wanted == h.asked[t])
  }

  ghost predicate ReadingsOk(s: State, h: Readings) {
    && |h.asked| == |h.got| == |s.threads| && |h.takers| == |s.read|
    && (forall t | 0 <= t < |s.threads| :: Served(s, h, t))
    && forall i | 0 <= i < |h.takers| :: h.takers[i] < |s.threads| && s.threads[h.takers[i]].role == Reader
  }

  /** What a step takes out: the byte of a reader that advances, and nothing else. */
  lemma MoveReads(s: State, t: nat)
    requires Formed(s) && t < |s.threads|
    ensures var th := s.threads[t];
      Next(s, t).read == s.read + if th.pc == CopiedP && th.role == Reader then [th.byte] else []
  {
    hide M.Down, M.Up, S.Admit, S.Wake;
  }

  lemma HandedServes(x: Thread, y: Thread)
    requires Handed(x, y)
    ensures y.role == x.role && y.wanted == x.wanted && InFlight(y) == InFlight(x) && (Eager(x) ==> Eager(y))
  {}

  /** What a reader's step does to its count and to what it has in flight. */
  lemma AdvancesServes(x: Thread, y: Thread)
    requires Advances(x, y) && Eager(x)
    ensures y.role == x.role && Eager(y)
    ensures x.role == Reader ==> y.wanted + (if x.pc == HoldP then 1 else 0) == x.wanted
    ensures x.role == Reader ==> InFlight(y) == if x.pc == HoldP then [y.byte] else []
    ensures x.role == Reader ==> InFlight(x) == if x.pc == CopiedP then [x.byte] else []
  {}

  lemma CopyMoves(s: State, t: nat)
    requires Formed(s) && t < |s.threads| && s.threads[t].pc == HoldP && s.threads[t].role == Reader
    ensures Next(s, t) != s
  {
    assert Next(s, t).threads[t].pc == CopiedP;
  }

  lemma MoveServes(s: State, h: Readings, t: nat, u: nat)
    requires Inv(s) && ReadingsOk(s, h) && t < |s.threads| && u < |s.threads|
    ensures var s', h' := Next(s, t), Noted(s, h, Move(t));
      && |s'.threads| == |s.threads| && |h'.takers| == |s'.read| && Served(s', h', u)
      && s'.threads[u].role == s.threads[u].role
  {
    hide MutexesOk, SemsOk, RingOk, Next, By, Handed, Advances, Eager, InFlight;
    MoveFrame(s, t);
    MoveReads(s, t);
    var th, x, y := s.threads[t], s.threads[u], Next(s, t).threads[u];
    assert Served(s, h, u);
    if th.pc == CopiedP {
      CopiedMoves(s, t);
    }
    if th.pc == HoldP && th.role == Reader {
      CopyMoves(s, t);
    }
    if Next(s, t) != s {
      if u == t {
        AdvancesServes(x, y);
      } else if y != x {
        HandedServes(x, y);
      }
    }
    if th.pc == CopiedP && th.role == Reader {
      ByAppend(s.read, h.takers, th.byte, t, u);
    }
    assert s.read + [] == s.read;
    assert By(s.read, h.takers, u) + [] == By(s.read, h.takers, u);
  }

  lemma EventServes(s: State, h: Readings, e: Event)
    requires Inv(s) && ReadingsOk(s, h)
    ensures ReadingsOk(Apply(s, e), Noted(s, h, e))
  {
    hide MutexesOk, SemsOk, RingOk, Next, By;
    var s', h' := Apply(s, e), Noted(s, h, e);
    if e.t < |s.threads| {
      match e {
        case Move(t) =>
          forall u | 0 <= u < |s.threads| ensures |s'.threads| == |s.threads| && |h'.takers| == |s'.read|
            && Served(s', h', u) && s'.threads[u].role == s.threads[u].role
          {
            MoveServes(s, h, t, u);
          }
          MoveServes(s, h, t, t);
        case Call(t, bytes, count) =>
          forall u | 0 <= u < |s.threads| ensures Served(s', h', u) {
            assert Served(s, h, u);
          }
      }
    }
  }

  function ReadingsAfter(capacity: nat, slots: nat, roles: seq<Role>, events: seq<Event>): (h: Readings)
    ensures |h.asked| == |h.got| == |roles|
  {
    if events == [] then Readings(seq(|roles|, _ => 0), seq(|roles|, _ => []), [])
    else
      var n := |events| - 1;
      ThreadCount(capacity, slots, roles, events[..n]);
      Noted(After(capacity, slots, roles, events[..n]), ReadingsAfter(capacity, slots, roles, events[..n]), events[n])
  }

  lemma CreatedServes(capacity: nat, slots: nat, roles: seq<Role>)
    ensures ReadingsOk(Created(capacity, slots, roles), Readings(seq(|roles|, _ => 0), seq(|roles|, _ => []), []))
  {}

  lemma {:induction false} RunServes(capacity: nat, slots: nat, roles: seq<Role>, events: seq<Event>)
    ensures ReadingsOk(After(capacity, slots, roles, events), ReadingsAfter(capacity, slots, roles, events))
  {
    hide Inv, ReadingsOk, Noted, Apply;
    if events == [] {
      CreatedServes(capacity, slots, roles);
    } else {
      var front := events[..|events| - 1];
      RunServes(capacity, slots, roles, front);
      RunKeeps(capacity, slots, roles, front);
      EventServes(After(capacity, slots, roles, front), ReadingsAfter(capacity, slots, roles, front),
          events[|events| - 1]);
    }
  }

  /** In every run: each byte that went out went to one reader; each reader's buffer holds its share of those bytes in
      the order in which they were written; and a reader that has returned from its calls got exactly as many as
      they asked for. */
  lemma ReadersGetWhatTheyAsk(capacity: nat, slots: nat, roles: seq<Role>, events: seq<Event>, t: nat)
    requires t < |After(capacity, slots, roles, events).threads|
    requires After(capacity, slots, roles, events).threads[t].role == Reader
    ensures var s, h := After(capacity, slots, roles, events), ReadingsAfter(capacity, slots, roles, events);
      && t < |roles| && |h.takers| == |s.read| && s.read <= s.written
      && (forall i | 0 <= i < |h.takers| :: h.takers[i] < |s.threads| && s.threads[h.takers[i]].role == Reader)
      && h.got[t] == By(s.read, h.takers, t) + InFlight(s.threads[t])
      && |h.got[t]| + s.threads[t].wanted == h.asked[t]
      && (s.threads[t].pc == LoopTop && s.threads[t].wanted == 0 ==>
            h.got[t] == By(s.read, h.takers, t) && |h.got[t]| == h.asked[t])
  {
    ThreadCount(capacity, slots, roles, events);
    RunServes(capacity, slots, roles, events);
    RunIsFifo(capacity, slots, roles, events);
    var s, h := After(capacity, slots, roles, events), ReadingsAfter(capacity, slots, roles, events);
    hide After, ReadingsAfter, By;
    assert Served(s, h, t);
    assert By(s.read, h.takers, t) + [] == By(s.read, h.takers, t);
  }
}
