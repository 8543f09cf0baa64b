// The fixed table of blocked threads that mutexes and semaphores both carry.
// A thread is identified by one number, standing for its (process, thread) pair.
module WaitTable {
  import opened Wrappers

  type Slots = seq<Option<nat>>

  /** Index of the first slot from i on that is unused, or |s|. */
  function FirstUnused(s: Slots, i: nat): (k: nat)
    requires i <= |s|
    ensures i <= k <= |s| && (k < |s| ==> s[k].None?) && forall j | i <= j < k :: s[j].Some?
    decreases |s| - i
  {
    if i == |s| || s[i].None? then i else FirstUnused(s, i + 1)
  }

  /** Index of the first slot from i on that holds a thread, or |s|. */
  function FirstUsed(s: Slots, i: nat): (k: nat)
    requires i <= |s|
    ensures i <= k <= |s| && (k < |s| ==> s[k].Some?) && forall j | i <= j < k :: s[j].None?
    decreases |s| - i
  {
    if i == |s| || s[i].Some? then i else FirstUsed(s, i + 1)
  }

  predicate LowestFree(s: Slots, k: nat) { k < |s| && s[k].None? && forall j | 0 <= j < k :: s[j].Some? }

  predicate LowestUsed(s: Slots, k: nat) { k < |s| && s[k].Some? && forall j | 0 <= j < k :: s[j].None? }

  function Occupied(s: Slots): nat {
    if s == [] then 0 else Occupied(s[..|s| - 1]) + if s[|s| - 1].Some? then 1 else 0
  }

  /** No thread occupies two slots. */
  ghost predicate Distinct(s: Slots) {
    forall i, j | 0 <= i < j < |s| && s[i].Some? :: s[i] != s[j]
  }

  lemma {:induction false} OccupiedUpdate(s: Slots, k: nat, x: Option<nat>)
    requires k < |s|
    ensures Occupied(s[k := x]) == Occupied(s) - (if s[k].Some? then 1 else 0) + (if x.Some? then 1 else 0)
  {
    var n := |s| - 1;
    if k == n {
      assert s[k := x][..n] == s[..n];
    } else {
      assert s[k := x][..n] == s[..n][k := x];
      OccupiedUpdate(s[..n], k, x);
    }
  }

  lemma {:induction false} OccupiedZero(s: Slots)
    ensures Occupied(s) == 0 <==> FirstUsed(s, 0) == |s|
    ensures Occupied(s) <= |s|
    ensures Occupied(s) == |s| <==> FirstUnused(s, 0) == |s|
  {
    if s != [] {
      var n := |s| - 1;
      OccupiedZero(s[..n]);
      assert forall j | 0 <= j < n :: s[..n][j] == s[j];
      var a, b := FirstUsed(s[..n], 0), FirstUsed(s, 0);
      var c, d := FirstUnused(s[..n], 0), FirstUnused(s, 0);
    }
  }

  lemma FillSlot(s: Slots, k: nat, t: nat)
    requires k < |s| && s[k].None? && Distinct(s) && Some(t) !in s
    ensures Distinct(s[k := Some(t)]) && Occupied(s[k := Some(t)]) == Occupied(s) + 1
    ensures forall x: nat :: Some(x) in s[k := Some(t)] <==> Some(x) in s || x == t
  {
    var b := s[k := Some(t)];
    OccupiedUpdate(s, k, Some(t));
    forall x: nat ensures Some(x) in b <==> Some(x) in s || x == t {
      if Some(x) in s {
        var j :| 0 <= j < |s| && s[j] == Some(x);
        assert b[j] == Some(x);
      } else if x == t {
        assert b[k] == Some(x);
      }
    }
  }

  lemma ClearSlot(s: Slots, k: nat)
    requires k < |s| && s[k].Some? && Distinct(s)
    ensures Distinct(s[k := None]) && Occupied(s[k := None]) == Occupied(s) - 1
    ensures forall x: nat :: Some(x) in s[k := None] <==> Some(x) in s && x != s[k].value
  {
    var b := s[k := None];
    OccupiedUpdate(s, k, None);
    forall x: nat ensures Some(x) in b <==> Some(x) in s && x != s[k].value {
      if Some(x) in s && x != s[k].value {
        var j :| 0 <= j < |s| && s[j] == Some(x);
        assert b[j] == Some(x);
      }
    }
  }

  method NextListIndexAvailable(list: array<Option<nat>>) returns (index: nat)
    ensures index == FirstUnused(list[..], 0)
  {
    index := 0;
    while index < list.Length
      invariant index <= list.Length
      invariant FirstUnused(list[..], 0) == FirstUnused(list[..], index)
    {
      if list[index].None? {
        return;
      }
      index := index + 1;
    }
  }
}
