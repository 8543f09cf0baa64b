// Exactly what each slave gets in a distribution, and what is read from each when the master listens.
module Shares {
  import opened Distribution

  function Min(a: nat, b: nat): nat { if a < b then a else b }

  /** The messages that hand out n files from number k on. */
  function Batch(k: nat, n: nat): (ms: seq<Message>)
    ensures |ms| == n && forall j | 0 <= j < n :: ms[j] == File(k + j)
  {
    seq(n, j requires 0 <= j < n => File(k + j))
  }

  /** How many of the slaves from i up to j have nothing to do. */
  function Idle(slaves: seq<Slave>, i: nat, j: nat): nat
    requires j <= |slaves|
    decreases j - i
  {
    if i >= j then 0 else (if slaves[i].remaining == 0 then 1 else 0) + Idle(slaves, i + 1, j)
  }

  lemma {:induction false} IdleSame(a: seq<Slave>, b: seq<Slave>, i: nat, j: nat)
    requires |a| == |b| && j <= |a| && forall k | i <= k < j :: a[k] == b[k]
    ensures Idle(a, i, j) == Idle(b, i, j)
    decreases j - i
  {
    if i < j {
      IdleSame(a, b, i + 1, j);
    }
  }

  lemma {:induction false} SendUpToGives(s: State, i: nat, batch: nat)
    requires i < |s.slaves| && s.distributed <= s.files
    ensures var s', n, sl := SendUpTo(s, i, batch), Min(batch, s.files - s.distributed), s.slaves[i];
      && s'.distributed == s.distributed + n
      && s' == s.(distributed := s'.distributed, slaves := s'.slaves) && OnlyAt(s, s', i)
      && s'.slaves[i] == sl.(sent := sl.sent + Batch(s.distributed, n), remaining := sl.remaining + n)
    decreases batch
  {
    if batch == 0 || s.distributed >= s.files {
      assert s.slaves[i].sent + [] == s.slaves[i].sent;
    } else {
      SendUpToGives(Send(s, i), i, batch - 1);
      var sent, k, n := s.slaves[i].sent, s.distributed, Min(batch, s.files - s.distributed);
      assert sent + [File(k)] + Batch(k + 1, n - 1) == sent + Batch(k, n);
    }
  }

  /** One slave in turn: an idle one gets the smaller of a batch and what is left, a busy one nothing, and each one
      reached after the last file its stop message. */
  lemma ServeGives(s: State, i: nat)
    requires i < |s.slaves| && s.distributed <= s.files
    ensures var s', sl, left := Serve(s, i), s.slaves[i], s.files - s.distributed;
      && var n := if sl.remaining == 0 then Min(BATCH_SIZE, left) else 0;
      && s'.distributed == s.distributed + n
      && s' == s.(distributed := s'.distributed, slaves := s'.slaves) && OnlyAt(s, s', i)
      && s'.slaves[i] == Given(sl, s.distributed, n, left == 0)
  {
    var sl := s.slaves[i];
    assert sl.sent + [] == sl.sent;
    if s.distributed < s.files && sl.remaining == 0 {
      SendUpToGives(s, i, BATCH_SIZE);
    }
  }

  /** A slave that was handed n files from number k on, and perhaps its stop message. */
  function Given(sl: Slave, k: nat, n: nat, stop: bool): Slave {
    sl.(sent := sl.sent + Batch(k, n) + (if stop then [Stop] else []), remaining := sl.remaining + n,
        running := sl.running && !stop)
  }

  /** Files handed out before slave j is reached, by a pass that begins at slave i. */
  function Out(s: State, i: nat, j: nat): nat
    requires j <= |s.slaves| && s.distributed <= s.files
  {
    Min(s.files - s.distributed, BATCH_SIZE * Idle(s.slaves, i, j))
  }

  /** A pass over the slaves from i on hands out the smaller of what is left and a batch for each idle slave. Slave j
      gets its share of that, in order: the smaller of a batch and what is left when it is reached, if it is idle;
      nothing if it is busy; and its stop message if nothing is left then. */
  lemma {:induction false} DistributeGives(s: State, i: nat, j: nat)
    requires i <= j < |s.slaves| && s.distributed <= s.files
    ensures var s', sl, left := Distribute(s, i), s.slaves[j], s.files - s.distributed;
      && s'.distributed == s.distributed + Out(s, i, |s.slaves|)
      && s' == s.(distributed := s'.distributed, slaves := s'.slaves)
      && var n := if sl.remaining == 0 then Min(BATCH_SIZE, left - Out(s, i, j)) else 0;
         s'.slaves[j] == Given(sl, s.distributed + Out(s, i, j), n, left == Out(s, i, j))
    decreases |s.slaves| - i
  {
    hide Given, Serve;
    ServeGives(s, i);
    var t := Serve(s, i);
    IdleSame(s.slaves, t.slaves, i + 1, |s.slaves|);
    IdleSame(s.slaves, t.slaves, i + 1, j);
    if i < j {
      DistributeGives(t, i + 1, j);
    } else {
      DistributeLeaves(t, i + 1, j);
    }
  }

  /** A pass from slave i on does not touch those before. */
  lemma {:induction false} DistributeLeaves(s: State, i: nat, j: nat)
    requires j < i <= |s.slaves| && s.distributed <= s.files
    ensures var s' := Distribute(s, i);
      && s'.slaves[j] == s.slaves[j] && s'.distributed == s.distributed + Out(s, i, |s.slaves|)
      && s' == s.(distributed := s'.distributed, slaves := s'.slaves)
    decreases |s.slaves| - i
  {
    if i < |s.slaves| {
      hide Given, Serve;
      ServeGives(s, i);
      IdleSame(s.slaves, Serve(s, i).slaves, i + 1, |s.slaves|);
      DistributeLeaves(Serve(s, i), i + 1, j);
    }
  }

  // --- Listening ---------------------------------------------------------------------------------------------------

  /** The results that the ready slaves from i on have next. */
  function Lines(slaves: seq<Slave>, ready: seq<bool>, i: nat): seq<nat>
    requires i <= |slaves| == |ready|
    decreases |slaves| - i
  {
    if i == |slaves| then []
    else
      (if ready[i] && HasLine(slaves[i]) then [slaves[i].sent[slaves[i].done].number] else [])
      + Lines(slaves, ready, i + 1)
  }

  lemma {:induction false} LinesSame(a: seq<Slave>, b: seq<Slave>, ready: seq<bool>, i: nat)
    requires i <= |a| == |b| == |ready| && forall k | i <= k < |a| :: a[k] == b[k]
    ensures Lines(a, ready, i) == Lines(b, ready, i)
    decreases |a| - i
  {
    if i < |a| {
      LinesSame(a, b, ready, i + 1);
    }
  }

  /** Listening takes one line from each ready slave that has one, in the order of the slaves, and none from any
      other. */
  lemma {:induction false} ListenTakes(s: State, ready: seq<bool>, i: nat, j: nat)
    requires i <= |s.slaves| == |ready| && j < |s.slaves|
    ensures var s', sl := Listen(s, ready, i), s.slaves[j];
      && s'.results == s.results + Lines(s.slaves, ready, i)
      && s'.finished == s.finished + |Lines(s.slaves, ready, i)|
      && s' == s.(slaves := s'.slaves, finished := s'.finished, results := s'.results)
      && s'.slaves[j] ==
         if i <= j && ready[j] && HasLine(sl) then sl.(done := sl.done + 1, remaining := sl.remaining - 1) else sl
    decreases |s.slaves| - i
  {
    if i == |s.slaves| {
      assert s.results + [] == s.results;
    } else {
      var t := if ready[i] && HasLine(s.slaves[i]) then Receive(s, i) else s;
      LinesSame(s.slaves, t.slaves, ready, i + 1);
      hide HasLine;
      ListenTakes(t, ready, i + 1, j);
    }
  }
}
