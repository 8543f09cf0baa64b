// The buddy allocator's usage tags: an implicit binary tree stored in a sequence.
// Node i (counted from 1) has children 2i and 2i+1 and its tag sits at position i-1.
module BuddyTags {
  import opened Bits

  datatype Usage = FullyUsed | HalfUsed | Unused | Allocated

  type Tags = seq<Usage>

  datatype AllocResult = AllocResult(tags: Tags, node: nat)  // node 0: nothing was free

  predicate IsNode(u: Tags, i: int) { 1 <= i <= |u| }

  function Tag(u: Tags, i: nat): Usage
    requires IsNode(u, i)
  {
    u[i - 1]
  }

  function Set(u: Tags, i: nat, x: Usage): (v: Tags)
    requires IsNode(u, i)
    ensures |v| == |u|
    ensures forall k {:trigger Tag(v, k)} | IsNode(u, k) :: Tag(v, k) == if k == i then x else Tag(u, k)
  {
    u[i - 1 := x]
  }

  // --- The operations on tags ---------------------------------------------------------

  /** Descends from node i, leftmost first, to a free node `levels` below it. */
  function Alloc(u: Tags, i: nat, levels: nat): (r: AllocResult)
    requires Fits(|u|, i, levels)
    ensures |r.tags| == |u| && r.node <= |u|
    decreases levels
  {
    if Tag(u, i) == FullyUsed || Tag(u, i) == Allocated then
      AllocResult(u, 0)
    else if levels == 0 then
      if Tag(u, i) == HalfUsed then AllocResult(u, 0) else AllocResult(Set(u, i, Allocated), i)
    else
      var left := Alloc(u, 2 * i, levels - 1);
      if left.node != 0 then
        AllocResult(Set(left.tags, i, HalfUsed), left.node)
      else
        var right := Alloc(left.tags, 2 * i + 1, levels - 1);
        if right.node != 0 && Tag(right.tags, 2 * i + 1) != HalfUsed && Tag(right.tags, 2 * i) != HalfUsed then
          AllocResult(Set(right.tags, i, FullyUsed), right.node)
        else
          right
  }

  /** What the climb after a release writes at an inner node. */
  function Recomputed(u: Tags, i: nat): Usage
    requires IsNode(u, i) && IsNode(u, 2 * i + 1)
  {
    if Tag(u, 2 * i) == Unused && Tag(u, 2 * i + 1) == Unused then Unused else HalfUsed
  }

  /** Recomputes node i and all its ancestors. */
  function Climb(u: Tags, i: nat): (v: Tags)
    requires i == 0 || IsNode(u, 2 * i + 1)
    ensures |v| == |u|
    decreases i
  {
    if i == 0 then u else Climb(Set(u, i, Recomputed(u, i)), i / 2)
  }

  /** Releasing the block whose first page is the given leaf. */
  function Release(u: Tags, leaf: nat): Tags
    requires IsNode(u, leaf) && |u| % 2 == 1
  {
    Climb(Set(u, leaf, Unused), leaf / 2)
  }

  /** The first node that is not unused on the way up from node i; 0 when there is none. */
  function Owner(u: Tags, i: nat): (n: nat)
    requires i <= |u|
    ensures n <= i
  {
    if i == 0 then 0 else if Tag(u, i) == Unused then Owner(u, i / 2) else i
  }

  // --- What the tags mean -------------------------------------------------------------

  /** There is room for `levels` more levels of nodes below node i. */
  predicate Fits(size: nat, i: nat, levels: nat)
    decreases levels
  {
    1 <= i <= size && (levels > 0 ==> Fits(size, 2 * i, levels - 1) && Fits(size, 2 * i + 1, levels - 1))
  }

  predicate NodeOk(u: Tags, i: nat)
    requires IsNode(u, i) && |u| % 2 == 1
  {
    var inner := 2 * i <= |u|;
    match Tag(u, i)
    case Unused => inner ==> Tag(u, 2 * i) == Unused && Tag(u, 2 * i + 1) == Unused
    case Allocated => inner ==> Tag(u, 2 * i) == Unused && Tag(u, 2 * i + 1) == Unused
    case FullyUsed => inner && Full(Tag(u, 2 * i)) && Full(Tag(u, 2 * i + 1))
    case HalfUsed => inner && (Tag(u, 2 * i) != Unused || Tag(u, 2 * i + 1) != Unused)
  }

  predicate Full(t: Usage) { t == FullyUsed || t == Allocated }

  /** Every node agrees with its children, except perhaps node x. */
  ghost predicate OkExcept(u: Tags, x: nat) {
    |u| % 2 == 1 && forall i {:trigger NodeOk(u, i)} | IsNode(u, i) && i != x :: NodeOk(u, i)
  }

  ghost predicate Ok(u: Tags) {
    |u| % 2 == 1 && forall i {:trigger NodeOk(u, i)} | IsNode(u, i) :: NodeOk(u, i)
  }

  /** Node i or one of its ancestors is an allocated block. */
  predicate Covered(u: Tags, i: nat)
    requires IsNode(u, i)
  {
    Tag(u, i) == Allocated || (i > 1 && Covered(u, i / 2))
  }

  predicate Free(u: Tags, i: nat)
    requires IsNode(u, i)
  {
    Tag(u, i) == Unused && !Covered(u, i)
  }

  /** m lies on the path from n to the root. */
  predicate Above(m: nat, n: nat) {
    m == n || (m < n && Above(m, n / 2))
  }

  /** n is one of the nodes exactly `levels` below node i. */
  predicate Under(n: nat, i: nat, levels: nat)
    decreases levels
  {
    if levels == 0 then n == i else Under(n, 2 * i, levels - 1) || Under(n, 2 * i + 1, levels - 1)
  }

  function Live(u: Tags): set<nat> {
    set i | 1 <= i <= |u| && Tag(u, i) == Allocated
  }

  // --- Arithmetic of the tree ----------------------------------------------------------

  lemma {:induction false} RoomToFit(size: nat, i: nat, levels: nat)
    requires i >= 1 && (i + 1) * Pow2(levels) <= size + 1
    ensures Fits(size, i, levels)
    decreases levels
  {
    if levels > 0 {
      var p := Pow2(levels - 1);
      DoubleRoom(i, p);
      RoomToFit(size, 2 * i, levels - 1);
      RoomToFit(size, 2 * i + 1, levels - 1);
    }
    assert (i + 1) * Pow2(levels) >= i + 1;
  }

  lemma DoubleRoom(i: nat, p: nat)
    ensures (2 * i + 1) * p + p == (2 * i + 1 + 1) * p == (i + 1) * (2 * p)
  {}

  lemma Halves(i: nat, p: nat)
    ensures i * (2 * p) == 2 * i * p <= (2 * i + 1) * p <= (2 * i + 1 + 1) * p == (i + 1) * (2 * p)
  {}

  lemma {:induction false} UnderIffRange(n: nat, i: nat, levels: nat)
    ensures Under(n, i, levels) <==> i * Pow2(levels) <= n < (i + 1) * Pow2(levels)
    decreases levels
  {
    if levels > 0 {
      assert Pow2(levels) == 2 * Pow2(levels - 1);
      hide Pow2;
      UnderIffRange(n, 2 * i, levels - 1);
      UnderIffRange(n, 2 * i + 1, levels - 1);
      Halves(i, Pow2(levels - 1));
    }
  }

  lemma UnderOrdered(m: nat, n: nat, i: nat, levels: nat)
    requires Under(m, 2 * i, levels) && Under(n, 2 * i + 1, levels)
    ensures m < n
  {
    UnderIffRange(m, 2 * i, levels);
    UnderIffRange(n, 2 * i + 1, levels);
  }

  lemma {:induction false} UnderIsBelow(n: nat, i: nat, levels: nat)
    requires Under(n, i, levels) && i >= 1
    ensures Above(i, n)
    decreases levels
  {
    if levels > 0 {
      var c := if Under(n, 2 * i, levels - 1) then 2 * i else 2 * i + 1;
      UnderIsBelow(n, c, levels - 1);
      AboveTransitive(i, c, n);
    }
  }

  lemma {:induction false} AboveTransitive(a: nat, b: nat, c: nat)
    requires Above(a, b) && Above(b, c)
    ensures Above(a, c)
  {
    if b != c {
      AboveTransitive(a, b, c / 2);
    }
  }

  // --- Tags and coverage ----------------------------------------------------------------

  lemma {:induction false} CoveredIffAllocatedAbove(u: Tags, n: nat)
    requires IsNode(u, n)
    ensures Covered(u, n) <==> exists m :: IsNode(u, m) && Above(m, n) && Tag(u, m) == Allocated
  {
    if n > 1 {
      CoveredIffAllocatedAbove(u, n / 2);
    }
    if Covered(u, n) {
      if Tag(u, n) == Allocated {
        assert Above(n, n);
      } else {
        var m :| IsNode(u, m) && Above(m, n / 2) && Tag(u, m) == Allocated;
        AboveIsSmaller(m, n / 2);
        assert Above(m, n);
      }
    }
    if m :| IsNode(u, m) && Above(m, n) && Tag(u, m) == Allocated {
      if m != n {
        assert Above(m, n / 2);
      }
    }
  }

  lemma {:induction false} AboveIsSmaller(m: nat, n: nat)
    requires Above(m, n)
    ensures m <= n
  {}

  /** Below an unused or an allocated node every tag is Unused. */
  lemma {:induction false} UnusedBelow(u: Tags, i: nat, n: nat)
    requires Ok(u) && IsNode(u, i) && IsNode(u, n) && Above(i, n)
    requires Tag(u, i) == Unused || (Tag(u, i) == Allocated && i != n)
    ensures Tag(u, n) == Unused
  {
    if i != n {
      if i != n / 2 {
        UnusedBelow(u, i, n / 2);
      }
      assert NodeOk(u, n / 2);
    }
  }

  /** A node that is not unused has a live block at or below it. */
  lemma {:induction false} UsedHasLive(u: Tags, i: nat) returns (n: nat)
    requires Ok(u) && IsNode(u, i) && Tag(u, i) != Unused
    ensures n in Live(u) && Above(i, n)
    decreases |u| - i
  {
    assert NodeOk(u, i);
    if Tag(u, i) == Allocated {
      n := i;
    } else {
      var c := if Tag(u, 2 * i) != Unused then 2 * i else 2 * i + 1;
      n := UsedHasLive(u, c);
      assert Above(i, c);
      AboveTransitive(i, c, n);
    }
  }

  /** The live blocks form an antichain. */
  lemma LiveAntichain(u: Tags, m: nat, n: nat)
    requires Ok(u) && m in Live(u) && n in Live(u) && m != n
    ensures !Above(m, n)
  {
    if Above(m, n) {
      UnusedBelow(u, m, n);
    }
  }

  /** No live block left means that every node is unused: everything has coalesced. */
  lemma NoLiveAllUnused(u: Tags)
    requires Ok(u) && Live(u) == {}
    ensures forall i | IsNode(u, i) :: Tag(u, i) == Unused
  {
    forall i | IsNode(u, i) ensures Tag(u, i) == Unused {
      if Tag(u, i) != Unused {
        var n := UsedHasLive(u, i);
      }
    }
  }

  // --- Allocation -----------------------------------------------------------------------

  /** A full subtree has no free node at any depth. */
  lemma {:induction false} FullHasNoFree(u: Tags, i: nat, levels: nat, n: nat)
    requires Ok(u) && Fits(|u|, i, levels) && Under(n, i, levels) && IsNode(u, n) && Full(Tag(u, i))
    ensures !Free(u, n)
    decreases levels
  {
    if Tag(u, i) == Allocated {
      UnderIsBelow(n, i, levels);
      CoveredIffAllocatedAbove(u, n);
    } else if levels > 0 {
      assert NodeOk(u, i);
      FullHasNoFree(u, if Under(n, 2 * i, levels - 1) then 2 * i else 2 * i + 1, levels - 1, n);
    }
  }

  /** Completeness: allocation fails exactly when nothing at the wanted depth is free, and otherwise
      it takes the leftmost free node. */
  lemma {:induction false} AllocLeftmost(u: Tags, i: nat, levels: nat)
    requires Ok(u) && Fits(|u|, i, levels) && (i > 1 ==> !Covered(u, i / 2))
    ensures var n := Alloc(u, i, levels).node;
      && (n == 0 ==> Alloc(u, i, levels).tags == u)
      && (n != 0 ==> IsNode(u, n) && Under(n, i, levels) && Free(u, n))
      && forall m | IsNode(u, m) && Under(m, i, levels) && (n != 0 ==> m < n) :: !Free(u, m)
    decreases levels
  {
    var n := Alloc(u, i, levels).node;
    if Full(Tag(u, i)) {
      forall m | IsNode(u, m) && Under(m, i, levels) ensures !Free(u, m) {
        FullHasNoFree(u, i, levels, m);
      }
    } else if levels > 0 {
      assert !Covered(u, i);
      assert (2 * i) / 2 == i && (2 * i + 1) / 2 == i;
      AllocLeftmost(u, 2 * i, levels - 1);
      AllocLeftmost(u, 2 * i + 1, levels - 1);
      if Alloc(u, 2 * i, levels - 1).node != 0 {
        forall m | IsNode(u, m) && Under(m, 2 * i + 1, levels - 1) ensures n < m {
          UnderOrdered(n, m, i, levels - 1);
        }
      }
    }
  }

  /** v is u after node n, at or below node i, became a block and the path from n up to i was repaired. */
  ghost predicate Changed(u: Tags, i: nat, n: nat, v: Tags) {
    && |v| == |u| && IsNode(u, i) && IsNode(u, n) && Above(i, n)
    && Tag(v, n) == Allocated && Tag(v, i) != Unused
    && OkExcept(v, i / 2)
    && (forall k {:trigger Tag(v, k)} | IsNode(u, k) && (k < i || !Above(k, n)) :: Tag(v, k) == Tag(u, k))
    && (forall k {:trigger Tag(v, k)} | IsNode(u, k) && i <= k < n && Above(k, n) :: OnPath(Tag(u, k), Tag(v, k)))
  }

  /** The tags a node strictly above the new block can have before and after. */
  predicate OnPath(before: Usage, after: Usage) {
    (before == Unused || before == HalfUsed) && (after == HalfUsed || after == FullyUsed)
  }

  lemma {:induction false} AllocChanges(u: Tags, i: nat, levels: nat)
    requires Ok(u) && Fits(|u|, i, levels)
    ensures var r := Alloc(u, i, levels); r.node != 0 ==> Changed(u, i, r.node, r.tags)
    decreases levels
  {
    if Full(Tag(u, i)) {
    } else if levels == 0 {
      if Tag(u, i) == Unused {
        AllocLeafOk(u, i);
      }
    } else {
      AllocChanges(u, 2 * i, levels - 1);
      AllocNoneUnchanged(u, 2 * i, levels - 1);
      AllocChanges(u, 2 * i + 1, levels - 1);
      AllocNoneUnchanged(u, 2 * i + 1, levels - 1);
      var left := Alloc(u, 2 * i, levels - 1);
      var right := Alloc(u, 2 * i + 1, levels - 1);
      if left.node != 0 {
        AllocLevelOk(u, i, 2 * i, left.node, left.tags, HalfUsed);
      } else if right.node != 0 {
        if Tag(u, 2 * i) == Unused {
          assert NodeOk(u, 2 * i);
          AllocInUnused(u, 2 * i, levels - 1);
        }
        AllocRightOk(u, i, right.node, right.tags);
      }
    }
  }

  /** The right child was served because the left one, not unused, had no room. */
  lemma AllocRightOk(u: Tags, i: nat, n: nat, t: Tags)
    requires Ok(u) && IsNode(u, i) && !Full(Tag(u, i)) && IsNode(u, 2 * i) && Tag(u, 2 * i) != Unused
    requires Changed(u, 2 * i + 1, n, t)
    ensures var full := Tag(t, 2 * i + 1) != HalfUsed && Tag(t, 2 * i) != HalfUsed;
      Changed(u, i, n, if full then Set(t, i, FullyUsed) else t)
  {
    assert NodeOk(u, i);
    assert Tag(t, i) == Tag(u, i) == HalfUsed;
    assert Tag(t, 2 * i) == Tag(u, 2 * i);
    if Tag(t, 2 * i + 1) != HalfUsed && Tag(t, 2 * i) != HalfUsed {
      AllocLevelOk(u, i, 2 * i + 1, n, t, FullyUsed);
    } else {
      AllocLevelOk(u, i, 2 * i + 1, n, t, HalfUsed);
      assert Set(t, i, HalfUsed) == t;
    }
  }

  lemma AllocLeafOk(u: Tags, i: nat)
    requires Ok(u) && IsNode(u, i) && Tag(u, i) == Unused
    ensures Changed(u, i, i, Set(u, i, Allocated))
  {
    var v := Set(u, i, Allocated);
    forall k | IsNode(v, k) && k != i / 2 ensures NodeOk(v, k) {
      assert NodeOk(u, k);
    }
  }

  lemma {:induction false} AllocNoneUnchanged(u: Tags, i: nat, levels: nat)
    requires Fits(|u|, i, levels)
    ensures Alloc(u, i, levels).node == 0 ==> Alloc(u, i, levels).tags == u
    decreases levels
  {
    if !Full(Tag(u, i)) && levels > 0 {
      AllocNoneUnchanged(u, 2 * i, levels - 1);
      AllocNoneUnchanged(u, 2 * i + 1, levels - 1);
    }
  }

  /** An unused node always satisfies the request. */
  lemma {:induction false} AllocInUnused(u: Tags, i: nat, levels: nat)
    requires Ok(u) && Fits(|u|, i, levels) && Tag(u, i) == Unused
    ensures Alloc(u, i, levels).node != 0
    decreases levels
  {
    if levels > 0 {
      assert NodeOk(u, i);
      AllocInUnused(u, 2 * i, levels - 1);
    }
  }

  /** One level of the way back: child c was served, giving tags t; node i is then repaired. */
  lemma AllocLevelOk(u: Tags, i: nat, c: nat, n: nat, t: Tags, x: Usage)
    requires Ok(u) && IsNode(u, i) && !Full(Tag(u, i)) && (c == 2 * i || c == 2 * i + 1)
    requires Changed(u, c, n, t)
    requires x == HalfUsed || (x == FullyUsed && Full(Tag(t, 2 * i)) && Full(Tag(t, 2 * i + 1)))
    ensures Changed(u, i, n, Set(t, i, x))
  {
    var v := Set(t, i, x);
    assert Above(i, c);
    AboveTransitive(i, c, n);
    AboveIsSmaller(c, n);
    forall k | IsNode(v, k) && k != i / 2 ensures NodeOk(v, k) {
      if k != i {
        assert NodeOk(t, k);
      }
    }
    forall k | IsNode(u, k) && i <= k < n && Above(k, n) ensures OnPath(Tag(u, k), Tag(v, k)) {
      if k < c {
        AboveOfBoth(k, c, n);
        AboveIsSmaller(k, c / 2);
      }
    }
  }

  /** What the descent leaves at each node it came through: fully used when the block came from its right half and
      neither half is half used, and half used otherwise. */
  lemma AllocMarks(u: Tags, i: nat, levels: nat)
    requires Ok(u) && levels > 0 && Fits(|u|, i, levels) && Alloc(u, i, levels).node != 0
    ensures var v, n := Alloc(u, i, levels).tags, Alloc(u, i, levels).node;
      && IsNode(v, 2 * i) && IsNode(v, 2 * i + 1) && (Above(2 * i, n) <==> !Above(2 * i + 1, n))
      && Tag(v, i) == if Above(2 * i + 1, n) && Tag(v, 2 * i) != HalfUsed && Tag(v, 2 * i + 1) != HalfUsed
                      then FullyUsed else HalfUsed
  {
    hide Ok, OkExcept, OnPath, Above, Changed, Alloc;
    ServedShape(u, i, levels);
    var left, right, n := Alloc(u, 2 * i, levels - 1), Alloc(u, 2 * i + 1, levels - 1), Alloc(u, i, levels).node;
    OneSide(i, n);
    if left.node != 0 {
      AllocChanges(u, 2 * i, levels - 1);
      ChangedIsAbove(u, 2 * i, n, left.tags);
    } else {
      AllocChanges(u, 2 * i + 1, levels - 1);
      ChangedIsAbove(u, 2 * i + 1, n, right.tags);
      LeftFails(u, i, levels);
    }
  }

  /** What serving a request below node i makes of the tags, from what serving it below a child made of them. */
  lemma ServedShape(u: Tags, i: nat, levels: nat)
    requires levels > 0 && Fits(|u|, i, levels) && Alloc(u, i, levels).node != 0
    ensures 1 <= 2 * i + 1 <= |u| && !Full(Tag(u, i))
    ensures var r, left, right := Alloc(u, i, levels), Alloc(u, 2 * i, levels - 1), Alloc(u, 2 * i + 1, levels - 1);
      if left.node != 0 then r == AllocResult(Set(left.tags, i, HalfUsed), left.node)
      else r.node == right.node != 0 && r.tags ==
           if Tag(right.tags, 2 * i + 1) != HalfUsed && Tag(right.tags, 2 * i) != HalfUsed
           then Set(right.tags, i, FullyUsed) else right.tags
  {
    AllocNoneUnchanged(u, 2 * i, levels - 1);
  }

  lemma ChangedIsAbove(u: Tags, i: nat, n: nat, v: Tags)
    requires Changed(u, i, n, v)
    ensures Above(i, n) && |v| == |u| && forall k | 1 <= k < i && k <= |u| :: Tag(v, k) == Tag(u, k)
  {}

  /** Nothing lies below both children. */
  lemma OneSide(i: nat, n: nat)
    requires i >= 1
    ensures !(Above(2 * i, n) && Above(2 * i + 1, n))
  {
    if Above(2 * i, n) && Above(2 * i + 1, n) {
      AboveOfBoth(2 * i, 2 * i + 1, n);
    }
  }

  /** Where the left half has no room, a node that is not full is half used. */
  lemma LeftFails(u: Tags, i: nat, levels: nat)
    requires Ok(u) && levels > 0 && Fits(|u|, i, levels) && !Full(Tag(u, i))
    ensures Alloc(u, 2 * i, levels - 1).node == 0 ==> Tag(u, i) == HalfUsed
  {
    if Tag(u, i) == Unused {
      assert NodeOk(u, i);
      AllocInUnused(u, 2 * i, levels - 1);
    }
  }

  /** Two nodes above a third lie on one path. */
  lemma {:induction false} AboveOfBoth(a: nat, b: nat, n: nat)
    requires Above(a, n) && Above(b, n) && a <= b
    ensures Above(a, b)
  {
    if b != n {
      AboveIsSmaller(b, n / 2);
      if a == n {
      } else {
        AboveOfBoth(a, b, n / 2);
      }
    }
  }

  /** Allocation from the root keeps every tag consistent and adds exactly one live block. */
  lemma AllocAddsBlock(u: Tags, levels: nat)
    requires Ok(u) && Fits(|u|, 1, levels)
    ensures var r := Alloc(u, 1, levels);
      && Ok(r.tags)
      && Live(r.tags) == if r.node == 0 then Live(u) else Live(u) + {r.node}
  {
    var r := Alloc(u, 1, levels);
    AllocNoneUnchanged(u, 1, levels);
    AllocChanges(u, 1, levels);
    if r.node != 0 {
      assert Ok(r.tags);
      forall k: nat ensures k in Live(r.tags) <==> k in Live(u) + {r.node} {
        if IsNode(u, k) && k != r.node && Above(k, r.node) {
          AboveIsSmaller(k, r.node);
        }
      }
    }
  }

  // --- Release ----------------------------------------------------------------------------

  /** Climbing from below an allocated block changes nothing until it reaches the block, which becomes unused. */
  lemma {:induction false} ClimbReachesBlock(u: Tags, i: nat, n: nat)
    requires Ok(u) && IsNode(u, 2 * i + 1) && n >= 1 && Above(n, i) && Tag(u, n) == Allocated
    ensures Climb(u, i) == Climb(Set(u, n, Unused), n / 2)
    decreases i
  {
    assert NodeOk(u, i);
    if i != n {
      UnusedBelow(u, n, i);
      AboveIsSmaller(n, i / 2);
      assert Set(u, i, Unused) == u;
      ClimbReachesBlock(u, i / 2, n);
    }
  }

  /** Climbing repairs the tags above i and leaves the blocks alone, when none of them lies on the path. */
  lemma {:induction false} ClimbRepairs(u: Tags, i: nat)
    requires OkExcept(u, i) && (i == 0 || IsNode(u, 2 * i + 1))
    requires forall k | IsNode(u, k) && Above(k, i) :: Tag(u, k) != Allocated
    ensures Ok(Climb(u, i)) && Live(Climb(u, i)) == Live(u)
    decreases i
  {
    if i > 0 {
      var v := Set(u, i, Recomputed(u, i));
      forall k | IsNode(v, k) && k != i / 2 ensures NodeOk(v, k) {
        if k != i {
          assert NodeOk(u, k);
        }
      }
      assert Above(i, i);
      forall k | IsNode(v, k) && Above(k, i / 2) ensures Tag(v, k) != Allocated {
        AboveIsSmaller(k, i / 2);
      }
      assert Live(v) == Live(u);
      ClimbRepairs(v, i / 2);
    }
  }

  /** Clearing the leaf tag and climbing is the same as clearing the block's own tag and climbing from there. */
  lemma ReleaseIsClimb(u: Tags, n: nat, leaf: nat)
    requires Ok(u) && n in Live(u) && IsNode(u, leaf) && 2 * leaf > |u| && Above(n, leaf)
    ensures n / 2 == 0 || IsNode(u, 2 * (n / 2) + 1)
    ensures Release(u, leaf) == Climb(Set(u, n, Unused), n / 2)
  {
    AboveIsSmaller(n, leaf);
    assert NodeOk(u, n);
    if leaf != n {
      UnusedBelow(u, n, leaf);
      assert Set(u, leaf, Unused) == u;
      ClimbReachesBlock(u, leaf / 2, n);
    }
  }

  /** Releasing from any page of a live block removes exactly that block. */
  lemma ReleaseRemovesBlock(u: Tags, n: nat, leaf: nat)
    requires Ok(u) && n in Live(u) && IsNode(u, leaf) && 2 * leaf > |u| && Above(n, leaf)
    ensures Ok(Release(u, leaf)) && Live(Release(u, leaf)) == Live(u) - {n}
  {
    var v := Set(u, n, Unused);
    ReleaseIsClimb(u, n, leaf);
    assert NodeOk(u, n);
    forall k | IsNode(v, k) && k != n / 2 ensures NodeOk(v, k) {
      assert NodeOk(u, k);
    }
    forall k | IsNode(v, k) && Above(k, n / 2) ensures Tag(v, k) != Allocated {
      AboveIsSmaller(k, n / 2);
      assert Above(k, n);
      if Tag(u, k) == Allocated {
        UnusedBelow(u, k, n);
      }
    }
    ClimbRepairs(v, n / 2);
    assert Live(v) == Live(u) - {n};
  }

  /** Climbing undoes any change on a path whose tags were unused or half used. */
  lemma {:induction false} ClimbRestores(v: Tags, u: Tags, i: nat)
    requires Ok(u) && |v| == |u| && (i == 0 || IsNode(u, 2 * i + 1))
    requires forall k | IsNode(u, k) && !Above(k, i) :: Tag(v, k) == Tag(u, k)
    requires forall k | IsNode(u, k) && Above(k, i) :: Tag(u, k) == Unused || Tag(u, k) == HalfUsed
    ensures Climb(v, i) == u
    decreases i
  {
    if i == 0 {
      forall k | 0 <= k < |u| ensures v[k] == u[k] {
        assert Tag(v, k + 1) == Tag(u, k + 1);
      }
    } else {
      assert Above(i, i) && NodeOk(u, i);
      var w := Set(v, i, Recomputed(v, i));
      assert !Above(2 * i, i) && !Above(2 * i + 1, i);
      assert Tag(w, i) == Tag(u, i);
      forall k | IsNode(u, k) && !Above(k, i / 2) ensures Tag(w, k) == Tag(u, k) {
        if k != i {
          assert !Above(k, i);
        }
      }
      forall k | IsNode(u, k) && Above(k, i / 2) ensures Tag(u, k) == Unused || Tag(u, k) == HalfUsed {
        AboveIsSmaller(k, i / 2);
        assert Above(k, i);
      }
      ClimbRestores(w, u, i / 2);
    }
  }

  /** Release undoes allocation on the whole tag array, whichever page of the block it starts from. */
  lemma ReleaseUndoesAlloc(u: Tags, levels: nat, leaf: nat)
    requires Ok(u) && Fits(|u|, 1, levels) && IsNode(u, leaf) && 2 * leaf > |u|
    requires var r := Alloc(u, 1, levels); r.node != 0 && Above(r.node, leaf)
    ensures Release(Alloc(u, 1, levels).tags, leaf) == u
  {
    var r := Alloc(u, 1, levels);
    var n, t := r.node, r.tags;
    AllocChanges(u, 1, levels);
    AllocAddsBlock(u, levels);
    AllocLeftmost(u, 1, levels);
    var v := Set(t, n, Unused);
    ReleaseIsClimb(t, n, leaf);
    forall k | IsNode(u, k) && !Above(k, n / 2) ensures Tag(v, k) == Tag(u, k) {
      assert k != n ==> !Above(k, n);
    }
    forall k | IsNode(u, k) && Above(k, n / 2) ensures Tag(u, k) == Unused || Tag(u, k) == HalfUsed {
      AboveIsSmaller(k, n / 2);
      assert Above(k, n) && OnPath(Tag(u, k), Tag(t, k));
    }
    ClimbRestores(v, u, n / 2);
  }

  /** A climb through unused tags stops at the live block that contains the leaf, if there is one. */
  lemma {:induction false} OwnerIsBlock(u: Tags, i: nat, n: nat)
    requires Ok(u) && IsNode(u, i) && n in Live(u) && Above(n, i)
    ensures Owner(u, i) == n
    decreases i
  {
    if i != n {
      UnusedBelow(u, n, i);
      AboveIsSmaller(n, i / 2);
      OwnerIsBlock(u, i / 2, n);
    }
  }

  lemma {:induction false} OwnerIsAbove(u: Tags, i: nat)
    requires i <= |u|
    ensures Owner(u, i) != 0 ==> Above(Owner(u, i), i)
    decreases i
  {
    if i > 0 && Tag(u, i) == Unused {
      OwnerIsAbove(u, i / 2);
    }
  }
}
