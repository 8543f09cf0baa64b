// The master process: the loops that update its slave table and counters in place.
module Master {
  import opened Distribution

  class MasterProcess {
    const files: nat
    const slaves: array<Slave>
    var distributed: nat
    var finished: nat
    var results: seq<nat>

    ghost function Now(): State
      reads this, slaves
    {
      State(files, slaves[..], distributed, finished, results)
    }

    constructor (fileQuantity: nat, slaveQuantity: nat)
      ensures Now() == Started(fileQuantity, slaveQuantity) && fresh(slaves)
    {
      files := fileQuantity;
      slaves := new Slave[slaveQuantity](_ => Slave(true, [], 0, 0));
      distributed, finished, results := 0, 0, [];
    }

    method SendFile(i: nat)
      requires i < slaves.Length
      modifies this`distributed, slaves
      ensures Now() == Send(old(Now()), i)
    {
      var sl := slaves[i];
      slaves[i] := sl.(sent := sl.sent + [File(distributed)], remaining := sl.remaining + 1);
      distributed := distributed + 1;
    }

    method StopOne(i: nat)
      requires i < slaves.Length
      modifies slaves
      ensures Now() == StopSlave(old(Now()), i)
    {
      var sl := slaves[i];
      slaves[i] := sl.(running := false, sent := sl.sent + [Stop]);
    }

    /** A batch for slave i when it is idle. */
    method SendBatch(i: nat)
      requires i < slaves.Length && distributed < files
      modifies this`distributed, slaves
      ensures Now() == Serve(old(Now()), i)
    {
      ghost var s := Now();
      var distributingBatch := false;
      var j := 0;
      while j < BATCH_SIZE && files - distributed > 0
        invariant j <= BATCH_SIZE
        invariant s.slaves[i].remaining == 0 ==>
                    SendUpTo(Now(), i, BATCH_SIZE - j) == SendUpTo(s, i, BATCH_SIZE)
                        && (distributingBatch || Now() == s)
        invariant s.slaves[i].remaining != 0 ==> Now() == s && !distributingBatch
      {
        if slaves[i].remaining == 0 || distributingBatch {
          SendFile(i);
          distributingBatch := true;
        }
        j := j + 1;
      }
    }

    method DistributeFiles()
      modifies this`distributed, slaves
      ensures Now() == Distribute(old(Now()), 0)
    {
      ghost var s := Now();
      var i := 0;
      while i < slaves.Length
        invariant i <= slaves.Length && Distribute(Now(), i) == Distribute(s, 0)
      {
        if files - distributed > 0 {
          SendBatch(i);
        } else {
          StopOne(i);
        }
        i := i + 1;
      }
    }

    /** Takes a line from each slave that select reported ready. */
    method SlaveListener(ready: seq<bool>)
      requires |ready| == slaves.Length
      modifies this`finished, this`results, slaves
      ensures Now() == Listen(old(Now()), ready, 0)
    {
      ghost var s := Now();
      var i := 0;
      while i < slaves.Length
        invariant i <= slaves.Length && Listen(Now(), ready, i) == Listen(s, ready, 0)
      {
        if ready[i] && HasLine(slaves[i]) {
          var sl := slaves[i];
          results := results + [sl.sent[sl.done].number];
          slaves[i] := sl.(done := sl.done + 1, remaining := sl.remaining - 1);
          finished := finished + 1;
        }
        i := i + 1;
      }
    }

    method StopSlaves()
      modifies slaves
      ensures Now() == StopAll(old(Now()), 0)
    {
      ghost var s := Now();
      var i := 0;
      while i < slaves.Length
        invariant i <= slaves.Length && StopAll(Now(), i) == StopAll(s, 0)
      {
        if slaves[i].running {
          StopOne(i);
        }
        i := i + 1;
      }
    }

    /** The program from the created slaves to the last stop message, for any answers of select that let the
        loop end. */
    method HashAll(schedule: seq<seq<bool>>)
      requires Now() == Started(files, slaves.Length)
      requires (forall r | r in schedule :: |r| == slaves.Length) && Loop(Now(), schedule).finished == files
      modifies this, slaves
      ensures Now() == StopAll(Loop(old(Now()), schedule), 0)
      ensures finished == files
    {
      ghost var s := Now();
      var r := 0;
      assert schedule[0..] == schedule;
      while finished != files
        invariant r <= |schedule| && Loop(Now(), schedule[r..]) == Loop(s, schedule)
        decreases |schedule| - r
      {
        if distributed != files {
          DistributeFiles();
        }
        SlaveListener(schedule[r]);
        assert schedule[r..][1..] == schedule[r + 1..];
        r := r + 1;
      }
      StopSlaves();
    }
  }
}
