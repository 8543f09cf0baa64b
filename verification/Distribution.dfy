// Handing files to slave processes in batches, and collecting their results: the protocol, step by step.
// Files are numbered in list order. A slave answers the files it was sent one line each, in order.
module Distribution {

  const BATCH_SIZE := 2

  datatype Message = File(number: nat) | Stop

  /** One slave as its master knows it: whether it is still running, everything written to it, how many
      results were read from it, and how many files it still has. */
  datatype Slave = Slave(running: bool, sent: seq<Message>, done: nat, remaining: nat)

  datatype State = State(files: nat, slaves: seq<Slave>, distributed: nat, finished: nat, results: seq<nat>)

  // --- Steps -----------------------------------------------------------------------------------------------

  function Send(s: State, i: nat): (s': State)
    requires i < |s.slaves|
    ensures |s'.slaves| == |s.slaves|
  {
    var sl := s.slaves[i];
    var sl' := sl.(sent := sl.sent + [File(s.distributed)], remaining := sl.remaining + 1);
    s.(slaves := s.slaves[i := sl'], distributed := s.distributed + 1)
  }

  /** Up to `batch` files, as long as there are any. */
  function SendUpTo(s: State, i: nat, batch: nat): (s': State)
    requires i < |s.slaves|
    ensures |s'.slaves| == |s.slaves|
    decreases batch
  {
    if batch == 0 || s.distributed >= s.files then s else SendUpTo(Send(s, i), i, batch - 1)
  }

  function StopSlave(s: State, i: nat): (s': State)
    requires i < |s.slaves|
    ensures |s'.slaves| == |s.slaves|
  {
    var sl := s.slaves[i];
    s.(slaves := s.slaves[i := sl.(running := false, sent := sl.sent + [Stop])])
  }

  /** What one slave gets in a distribution: a batch if it is idle, nothing if it is busy, and a stop
      message when the files have run out. */
  function Serve(s: State, i: nat): (s': State)
    requires i < |s.slaves|
    ensures |s'.slaves| == |s.slaves|
  {
    if s.distributed >= s.files then StopSlave(s, i)
    else if s.slaves[i].remaining == 0 then SendUpTo(s, i, BATCH_SIZE)
    else s
  }

  function Distribute(s: State, i: nat): (s': State)
    requires i <= |s.slaves|
    ensures |s'.slaves| == |s.slaves|
    decreases |s.slaves| - i
  {
    if i == |s.slaves| then s else Distribute(Serve(s, i), i + 1)
  }

  /** Reads one result of slave i. */
  function Receive(s: State, i: nat): (s': State)
    requires i < |s.slaves| && s.slaves[i].remaining > 0
    requires s.slaves[i].done < |s.slaves[i].sent| && s.slaves[i].sent[s.slaves[i].done].File?
    ensures |s'.slaves| == |s.slaves|
  {
    var sl := s.slaves[i];
    var sl' := sl.(done := sl.done + 1, remaining := sl.remaining - 1);
    s.(slaves := s.slaves[i := sl'], finished := s.finished + 1, results := s.results + [sl.sent[sl.done].number])
  }

  predicate HasLine(sl: Slave) { sl.remaining > 0 && sl.done < |sl.sent| && sl.sent[sl.done].File? }

  /** Takes one line from every slave that is ready; a slave with no files left has none (its end of file
      also counts as ready, and is ignored). */
  function Listen(s: State, ready: seq<bool>, i: nat): (s': State)
    requires i <= |s.slaves| == |ready|
    ensures |s'.slaves| == |s.slaves|
    decreases |s.slaves| - i
  {
    if i == |s.slaves| then s
    else Listen(if ready[i] && HasLine(s.slaves[i]) then Receive(s, i) else s, ready, i + 1)
  }

  function Distributed(s: State): (s': State)
    ensures |s'.slaves| == |s.slaves|
  {
    if s.distributed != s.files then Distribute(s, 0) else s
  }

  /** One turn of the main loop. */
  function Round(s: State, ready: seq<bool>): (s': State)
    requires |ready| == |s.slaves|
    ensures |s'.slaves| == |s.slaves|
  {
    Listen(Distributed(s), ready, 0)
  }

  function StopAll(s: State, i: nat): (s': State)
    requires i <= |s.slaves|
    ensures |s'.slaves| == |s.slaves|
    decreases |s.slaves| - i
  {
    if i == |s.slaves| then s
    else StopAll(if s.slaves[i].running then StopSlave(s, i) else s, i + 1)
  }

  function Started(files: nat, slaves: nat): (s: State)
    ensures |s.slaves| == slaves
  {
    State(files, seq(slaves, _ => Slave(true, [], 0, 0)), 0, 0, [])
  }

  /** The main loop over the given ready sets; it stops by itself once every file has its result. */
  function Loop(s: State, schedule: seq<seq<bool>>): (s': State)
    requires forall r | r in schedule :: |r| == |s.slaves|
    ensures |s'.slaves| == |s.slaves|
    decreases schedule
  {
    if schedule == [] || s.finished == s.files then s else Loop(Round(s, schedule[0]), schedule[1..])
  }

  // --- Bookkeeping -----------------------------------------------------------------------------------------

  /** How often file k is named in a list of messages. */
  function Names(ms: seq<Message>, k: nat): nat {
    if ms == [] then 0 else (if ms[0] == File(k) then 1 else 0) + Names(ms[1..], k)
  }

  /** How often file k was sent to any slave, and how often it awaits its result. */
  function Sent(slaves: seq<Slave>, k: nat): nat {
    if slaves == [] then 0 else Names(slaves[0].sent, k) + Sent(slaves[1..], k)
  }

  function Pending(slaves: seq<Slave>, k: nat): nat {
    if slaves == [] then 0 else Names(Unanswered(slaves[0]), k) + Pending(slaves[1..], k)
  }

  function Unanswered(sl: Slave): seq<Message> {
    if sl.done <= |sl.sent| then sl.sent[sl.done..] else []
  }

  function Remaining(slaves: seq<Slave>): nat {
    if slaves == [] then 0 else slaves[0].remaining + Remaining(slaves[1..])
  }

  /** How often a result of file k was read. */
  function Results(results: seq<nat>, k: nat): nat {
    if results == [] then 0
    else Results(results[..|results| - 1], k) + if results[|results| - 1] == k then 1 else 0
  }

  /** A slave gets only files, and a stop message last of all when it is stopped. */
  ghost predicate SlaveOk(sl: Slave) {
    && (if sl.running then forall k | 0 <= k < |sl.sent| :: sl.sent[k].File?
        else sl.sent != [] && sl.sent[|sl.sent| - 1] == Stop && forall k | 0 <= k < |sl.sent| - 1 :: sl.sent[k].File?)
    && sl.done + sl.remaining == FilesOf(sl)
    && sl.remaining <= BATCH_SIZE
  }

  /** How many files a slave was sent. */
  function FilesOf(sl: Slave): int { if sl.running then |sl.sent| else |sl.sent| - 1 }

  ghost predicate SlavesOk(slaves: seq<Slave>) { forall i | 0 <= i < |slaves| :: SlaveOk(slaves[i]) }

  /** The protocol's invariant. */
  ghost predicate Inv(s: State) {
    && SlavesOk(s.slaves)
    && s.distributed <= s.files
    && (forall k: nat :: Once(s, k))
    && s.distributed - s.finished == Remaining(s.slaves) && |s.results| == s.finished
    && (s.distributed < s.files ==> forall i | 0 <= i < |s.slaves| :: s.slaves[i].running)
  }

  /** A file that was distributed is with exactly one slave, once, and either awaits its result or has one. */
  ghost predicate Once(s: State, k: nat) {
    && Sent(s.slaves, k) == (if k < s.distributed then 1 else 0)
    && Results(s.results, k) + Pending(s.slaves, k) == if k < s.distributed then 1 else 0
  }

  lemma {:induction false} NamesAppend(ms: seq<Message>, m: Message, k: nat)
    ensures Names(ms + [m], k) == Names(ms, k) + if m == File(k) then 1 else 0
  {
    if ms != [] {
      NamesAppend(ms[1..], m, k);
      assert (ms + [m])[1..] == ms[1..] + [m];
    }
  }

  /** Replacing one slave changes the totals by that slave's share. */
  lemma {:induction false} TotalsUpdate(slaves: seq<Slave>, i: nat, sl: Slave, k: nat)
    requires i < |slaves|
    ensures Sent(slaves[i := sl], k) + Names(slaves[i].sent, k) == Sent(slaves, k) + Names(sl.sent, k)
    ensures Pending(slaves[i := sl], k) + Names(Unanswered(slaves[i]), k) ==
            Pending(slaves, k) + Names(Unanswered(sl), k)
  {
    hide Names, Unanswered;
    if i == 0 {
      assert slaves[i := sl][1..] == slaves[1..];
    } else {
      TotalsUpdate(slaves[1..], i - 1, sl, k);
      assert slaves[i := sl][1..] == slaves[1..][i - 1 := sl];
    }
  }

  lemma {:induction false} RemainingUpdate(slaves: seq<Slave>, i: nat, sl: Slave)
    requires i < |slaves|
    ensures Remaining(slaves[i := sl]) + slaves[i].remaining == Remaining(slaves) + sl.remaining
  {
    if i == 0 {
      assert slaves[i := sl][1..] == slaves[1..];
    } else {
      RemainingUpdate(slaves[1..], i - 1, sl);
      assert slaves[i := sl][1..] == slaves[1..][i - 1 := sl];
    }
  }

  /** A positive total comes from some slave. */
  lemma {:induction false} SomeRemaining(slaves: seq<Slave>) returns (i: nat)
    requires Remaining(slaves) > 0
    ensures i < |slaves| && slaves[i].remaining > 0
  {
    if slaves[0].remaining > 0 {
      i := 0;
    } else {
      i := SomeRemaining(slaves[1..]);
      i := i + 1;
    }
  }

  lemma {:induction false} NothingPending(slaves: seq<Slave>, k: nat)
    requires SlavesOk(slaves) && Remaining(slaves) == 0
    ensures Pending(slaves, k) == 0
  {
    if slaves != [] {
      NothingPending(slaves[1..], k);
      assert SlaveOk(slaves[0]);
      assert Unanswered(slaves[0]) == if slaves[0].running then [] else [Stop];
      assert [Stop][1..] == [] && Names([], k) == 0 && Names([Stop], k) == Names([], k);
    }
  }

  // --- Every step keeps the invariant ------------------------------------------------------------------------

  lemma StartedOk(files: nat, slaves: nat)
    ensures Inv(Started(files, slaves))
  {
    var s := Started(files, slaves);
    NewSlavesRemain(s.slaves);
    forall k: nat ensures Once(s, k) {
      NewSlaves(s.slaves, k);
    }
  }

  lemma {:induction false} NewSlaves(slaves: seq<Slave>, k: nat)
    requires forall i | 0 <= i < |slaves| :: slaves[i] == Slave(true, [], 0, 0)
    ensures Sent(slaves, k) == 0 && Pending(slaves, k) == 0
  {
    if slaves != [] {
      NewSlaves(slaves[1..], k);
    }
  }

  lemma {:induction false} NewSlavesRemain(slaves: seq<Slave>)
    requires forall i | 0 <= i < |slaves| :: slaves[i] == Slave(true, [], 0, 0)
    ensures Remaining(slaves) == 0
  {
    if slaves != [] {
      NewSlavesRemain(slaves[1..]);
    }
  }

  lemma SendKeeps(s: State, i: nat)
    requires Inv(s) && s.distributed < s.files
    requires i < |s.slaves| && s.slaves[i].running && s.slaves[i].remaining < BATCH_SIZE
    ensures Inv(Send(s, i))
  {
    var sl, m := s.slaves[i], File(s.distributed);
    var sl' := Send(s, i).slaves[i];
    RemainingUpdate(s.slaves, i, sl');
    SentOk(s.slaves, i, sl', m);
    forall k: nat ensures Once(Send(s, i), k) {
      TotalsUpdate(s.slaves, i, sl', k);
      NamesAppend(sl.sent, m, k);
      NamesAppend(Unanswered(sl), m, k);
      assert Once(s, k);
    }
    hide Once, Remaining, SlaveOk;
  }

  lemma SentOk(slaves: seq<Slave>, i: nat, sl': Slave, m: Message)
    requires SlavesOk(slaves) && i < |slaves| && slaves[i].running
    requires sl'.sent == slaves[i].sent + [m] && sl'.done == slaves[i].done
    requires if m.File? then sl'.running && sl'.remaining == slaves[i].remaining + 1 <= BATCH_SIZE
             else !sl'.running && sl'.remaining == slaves[i].remaining
    ensures SlavesOk(slaves[i := sl']) && Unanswered(sl') == Unanswered(slaves[i]) + [m]
  {
    assert SlaveOk(slaves[i]);
  }

  lemma StopKeeps(s: State, i: nat)
    requires Inv(s) && i < |s.slaves| && s.slaves[i].running && s.distributed == s.files
    ensures Inv(StopSlave(s, i))
  {
    var sl := s.slaves[i];
    var sl' := StopSlave(s, i).slaves[i];
    RemainingUpdate(s.slaves, i, sl');
    SentOk(s.slaves, i, sl', Stop);
    forall k: nat ensures Once(StopSlave(s, i), k) {
      TotalsUpdate(s.slaves, i, sl', k);
      NamesAppend(sl.sent, Stop, k);
      NamesAppend(Unanswered(sl), Stop, k);
      assert Once(s, k);
    }
    hide Once, Remaining, SlaveOk;
  }

  lemma ReceiveKeeps(s: State, i: nat)
    requires Inv(s) && i < |s.slaves| && HasLine(s.slaves[i])
    ensures Inv(Receive(s, i))
  {
    hide Remaining, Sent, Pending;
    var sl := s.slaves[i];
    var s' := Receive(s, i);
    var sl' := s'.slaves[i];
    RemainingUpdate(s.slaves, i, sl');
    assert SlaveOk(sl);
    assert Unanswered(sl) == [sl.sent[sl.done]] + Unanswered(sl');
    assert s'.results[..|s.results|] == s.results;
    forall k: nat ensures Once(s', k) {
      TotalsUpdate(s.slaves, i, sl', k);
      assert Once(s, k);
    }
    hide Once, Remaining;
  }

  /** Slaves other than i are as before. */
  ghost predicate OnlyAt(s: State, s': State, i: nat) {
    |s'.slaves| == |s.slaves| && s'.files == s.files && forall j | 0 <= j < |s.slaves| && j != i ::
        s'.slaves[j] == s.slaves[j]
  }

  lemma {:induction false} SendUpToKeeps(s: State, i: nat, batch: nat)
    requires Inv(s) && i < |s.slaves| && s.slaves[i].running && s.slaves[i].remaining + batch <= BATCH_SIZE
    ensures var s' := SendUpTo(s, i, batch);
      && Inv(s') && OnlyAt(s, s', i) && (s.distributed < s.files && batch > 0 ==> s'.slaves[i].remaining > 0)
      && s'.slaves[i].remaining >= s.slaves[i].remaining && s'.finished == s.finished
    decreases batch
  {
    if batch > 0 && s.distributed < s.files {
      SendKeeps(s, i);
      hide Inv;
      SendUpToKeeps(Send(s, i), i, batch - 1);
    }
  }

  lemma ServeKeeps(s: State, i: nat)
    requires Inv(s) && i < |s.slaves| && s.slaves[i].running
    ensures var s' := Serve(s, i);
      && Inv(s') && OnlyAt(s, s', i) && s'.finished == s.finished
      && (s'.distributed < s.files ==> s'.slaves[i].remaining > 0)
  {
    if s.distributed >= s.files {
      StopKeeps(s, i);
    } else if s.slaves[i].remaining == 0 {
      SendUpToKeeps(s, i, BATCH_SIZE);
    }
    hide Inv;
  }

  /** After a distribution either all files are out, or every slave has one to work on. */
  lemma {:induction false} DistributeKeeps(s: State, i: nat)
    requires Inv(s) && i <= |s.slaves| && forall j | i <= j < |s.slaves| :: s.slaves[j].running
    ensures var s' := Distribute(s, i);
      && Inv(s') && s'.files == s.files && s'.finished == s.finished
      && (forall j | 0 <= j < i :: s'.slaves[j] == s.slaves[j])
      && (s'.distributed < s.files ==> forall j | i <= j < |s.slaves| :: s'.slaves[j].remaining > 0)
    decreases |s.slaves| - i
  {
    if i < |s.slaves| {
      ServeKeeps(s, i);
      hide Inv, Serve;
      DistributeKeeps(Serve(s, i), i + 1);
      DistributedGrows(Serve(s, i), i + 1);
    }
  }

  lemma {:induction false} DistributedGrows(s: State, i: nat)
    requires i <= |s.slaves|
    ensures Distribute(s, i).distributed >= s.distributed
    decreases |s.slaves| - i
  {
    if i < |s.slaves| {
      if s.distributed < s.files && s.slaves[i].remaining == 0 {
        SendingGrows(s, i, BATCH_SIZE);
      }
      hide SendUpTo;
      DistributedGrows(Serve(s, i), i + 1);
    }
  }

  lemma {:induction false} SendingGrows(s: State, i: nat, batch: nat)
    requires i < |s.slaves|
    ensures SendUpTo(s, i, batch).distributed >= s.distributed
    decreases batch
  {
    if batch > 0 && s.distributed < s.files {
      SendingGrows(Send(s, i), i, batch - 1);
    }
  }

  lemma {:induction false} ListenKeeps(s: State, ready: seq<bool>, i: nat)
    requires Inv(s) && i <= |s.slaves| == |ready|
    ensures var s' := Listen(s, ready, i);
      && Inv(s') && s'.files == s.files && s'.distributed == s.distributed && s'.finished >= s.finished
      && ((exists j :: i <= j < |s.slaves| && ready[j] && HasLine(s.slaves[j])) ==> s'.finished > s.finished)
    decreases |s.slaves| - i
  {
    if i < |s.slaves| {
      if ready[i] && HasLine(s.slaves[i]) {
        ReceiveKeeps(s, i);
      }
      hide Inv, HasLine;
      ListenKeeps(if ready[i] && HasLine(s.slaves[i]) then Receive(s, i) else s, ready, i + 1);
    }
  }

  lemma DistributedKeeps(s: State)
    requires Inv(s)
    ensures var d := Distributed(s);
      && Inv(d) && d.files == s.files && d.finished == s.finished
      && (d.distributed < d.files ==> forall j | 0 <= j < |d.slaves| :: d.slaves[j].remaining > 0)
  {
    if s.distributed != s.files {
      DistributeKeeps(s, 0);
    }
  }

  lemma WorkingHasLine(s: State, i: nat)
    requires Inv(s) && i < |s.slaves| && s.slaves[i].remaining > 0
    ensures HasLine(s.slaves[i])
  {
    assert SlaveOk(s.slaves[i]);
  }

  /** The wait for results is never reached with files unfinished and none of them with a slave. */
  lemma NeverWaitsInVain(s: State)
    requires Inv(s) && |s.slaves| > 0 && s.finished != s.files
    ensures exists i :: 0 <= i < |s.slaves| && HasLine(Distributed(s).slaves[i])
  {
    DistributedKeeps(s);
    var d := Distributed(s);
    var i := 0;
    if d.distributed == d.files {
      i := SomeRemaining(d.slaves);
    }
    WorkingHasLine(d, i);
  }

  lemma RoundKeeps(s: State, ready: seq<bool>)
    requires Inv(s) && |ready| == |s.slaves|
    ensures Inv(Round(s, ready)) && Round(s, ready).files == s.files && Round(s, ready).finished >= s.finished
    ensures Answered(s, ready) ==> Round(s, ready).finished > s.finished
  {
    DistributedKeeps(s);
    hide Inv, Distributed;
    ListenKeeps(Distributed(s), ready, 0);
  }

  /** Some slave that still has files is among the ready ones. */
  ghost predicate Answered(s: State, ready: seq<bool>)
    requires |ready| == |s.slaves|
  {
    exists i :: 0 <= i < |s.slaves| && ready[i] && HasLine(Distributed(s).slaves[i])
  }

  /** In every round until the end, some slave answers. */
  ghost predicate AlwaysAnswered(s: State, schedule: seq<seq<bool>>)
    requires forall r | r in schedule :: |r| == |s.slaves|
    decreases schedule
  {
    schedule == [] || s.finished == s.files ||
    (Answered(s, schedule[0]) && AlwaysAnswered(Round(s, schedule[0]), schedule[1..]))
  }

  /** How many rounds of the loop some slave answers in. In the others only slaves that have ended are
      ready, and nothing is finished. */
  ghost function AnsweredRounds(s: State, schedule: seq<seq<bool>>): nat
    requires forall r | r in schedule :: |r| == |s.slaves|
    decreases schedule
  {
    if schedule == [] || s.finished == s.files then 0
    else (if Answered(s, schedule[0]) then 1 else 0) + AnsweredRounds(Round(s, schedule[0]), schedule[1..])
  }

  lemma {:induction false} LoopKeeps(s: State, schedule: seq<seq<bool>>)
    requires Inv(s) && forall r | r in schedule :: |r| == |s.slaves|
    ensures Inv(Loop(s, schedule)) && Loop(s, schedule).files == s.files
    ensures Loop(s, schedule).finished >= s.finished + AnsweredRounds(s, schedule)
    ensures AlwaysAnswered(s, schedule) && |schedule| >= s.files - s.finished ==> Loop(s, schedule).finished == s.files
    decreases schedule
  {
    FinishedBound(s);
    if schedule != [] && s.finished != s.files {
      RoundKeeps(s, schedule[0]);
      hide Inv, Round, Answered;
      LoopKeeps(Round(s, schedule[0]), schedule[1..]);
    }
  }

  lemma FinishedBound(s: State)
    requires Inv(s)
    ensures s.finished <= s.files && |s.results| == s.finished
  {}

  lemma {:induction false} StopAllKeeps(s: State, i: nat)
    requires Inv(s) && i <= |s.slaves| && s.distributed == s.files && forall j | 0 <= j < i :: !s.slaves[j].running
    ensures var s' := StopAll(s, i);
      && Inv(s') && s'.distributed == s.distributed && s'.results == s.results && s'.files == s.files
      && forall j | 0 <= j < |s'.slaves| :: !s'.slaves[j].running
    decreases |s.slaves| - i
  {
    if i < |s.slaves| {
      if s.slaves[i].running {
        StopKeeps(s, i);
      }
      hide Inv;
      StopAllKeeps(if s.slaves[i].running then StopSlave(s, i) else s, i + 1);
    }
  }

  /** When the loop has ended and the slaves were stopped: every file was sent to exactly one slave, once,
      and gave exactly one result; and each slave got exactly one stop message, after all its files. */
  lemma ExitIsComplete(files: nat, slaves: nat, schedule: seq<seq<bool>>)
    requires forall r | r in schedule :: |r| == slaves
    requires Loop(Started(files, slaves), schedule).finished == files
    ensures var s := StopAll(Loop(Started(files, slaves), schedule), 0);
      && (forall k: nat :: Sent(s.slaves, k) == Results(s.results, k) == if k < files then 1 else 0)
      && |s.results| == files
      && forall i | 0 <= i < |s.slaves| ::
           s.slaves[i].sent != [] && s.slaves[i].sent[|s.slaves[i].sent| - 1] == Stop
           && forall k | 0 <= k < |s.slaves[i].sent| - 1 :: s.slaves[i].sent[k].File?
  {
    hide Inv, Loop, StopAll, Sent, Results, AnsweredRounds, AlwaysAnswered, Once;
    StartedOk(files, slaves);
    LoopKeeps(Started(files, slaves), schedule);
    var l := Loop(Started(files, slaves), schedule);
    FinishedBound(l);
    AllFinished(l);
    StopAllKeeps(l, 0);
    AllFinished(StopAll(l, 0));
    StopIsLast(StopAll(l, 0));
  }

  lemma StopIsLast(s: State)
    requires Inv(s) && forall i | 0 <= i < |s.slaves| :: !s.slaves[i].running
    ensures |s.results| == s.finished
    ensures forall i | 0 <= i < |s.slaves| ::
              s.slaves[i].sent != [] && s.slaves[i].sent[|s.slaves[i].sent| - 1] == Stop
              && forall k | 0 <= k < |s.slaves[i].sent| - 1 :: s.slaves[i].sent[k].File?
  {
    forall i | 0 <= i < |s.slaves| ensures SlaveOk(s.slaves[i]) {}
  }

  lemma AllFinished(s: State)
    requires Inv(s) && |s.results| == s.files
    ensures s.distributed == s.files
    ensures forall k: nat :: Sent(s.slaves, k) == Results(s.results, k) == if k < s.files then 1 else 0
  {
    forall k: nat ensures Sent(s.slaves, k) == Results(s.results, k) == if k < s.files then 1 else 0 {
      assert Once(s, k);
      NothingPending(s.slaves, k);
    }
  }

  /** If in each round some slave answers, as many rounds as there are files are enough to end. */
  lemma EndsInTime(files: nat, slaves: nat, schedule: seq<seq<bool>>)
    requires (forall r | r in schedule :: |r| == slaves) && |schedule| >= files
    requires AlwaysAnswered(Started(files, slaves), schedule)
    ensures Loop(Started(files, slaves), schedule).finished == files
  {
    StartedOk(files, slaves);
    LoopKeeps(Started(files, slaves), schedule);
  }

  /** More generally, as many answered rounds as there are files, with any others in between. */
  lemma EndsWhenAnswered(files: nat, slaves: nat, schedule: seq<seq<bool>>)
    requires forall r | r in schedule :: |r| == slaves
    requires AnsweredRounds(Started(files, slaves), schedule) >= files
    ensures Loop(Started(files, slaves), schedule).finished == files
  {
    StartedOk(files, slaves);
    LoopKeeps(Started(files, slaves), schedule);
    FinishedBound(Loop(Started(files, slaves), schedule));
  }
}
