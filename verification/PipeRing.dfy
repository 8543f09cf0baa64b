// The pipe's byte ring: indices run from 0 to the capacity inclusive, so there is one spare cell.
module PipeRing {
  import opened Arith

  datatype Ring = Ring(cells: seq<bv8>, readIndex: nat, writeIndex: nat)

  /** An index that has reached the last cell wraps to 0. */
  function Successor(r: Ring, i: nat): nat { if i == |r.cells| - 1 then 0 else i + 1 }

  function Store(r: Ring, b: bv8): Ring {
    if r.writeIndex < |r.cells| then r.(cells := r.cells[r.writeIndex := b]) else r
  }

  function Load(r: Ring): bv8 {
    if r.readIndex < |r.cells| then r.cells[r.readIndex] else 0
  }

  function AdvanceWrite(r: Ring): Ring { r.(writeIndex := Successor(r, r.writeIndex)) }

  function AdvanceRead(r: Ring): Ring { r.(readIndex := Successor(r, r.readIndex)) }

  /** The ring holds exactly the bytes written and not yet read, each in its own cell. */
  ghost predicate Holds(r: Ring, written: seq<bv8>, read: seq<bv8>) {
    var n := |r.cells|;
    && n > 0 && |read| <= |written| < |read| + n
    && read == written[..|read|]
    && r.writeIndex == |written| % n && r.readIndex == |read| % n
    && forall k {:trigger written[k]} | |read| <= k < |written| :: r.cells[k % n] == written[k]
  }

  lemma SuccessorIsModulo(r: Ring, k: nat)
    requires |r.cells| > 0
    ensures Successor(r, k % |r.cells|) == (k + 1) % |r.cells|
  {
    var n := |r.cells|;
    if k % n == n - 1 {
      DivMod(k + 1, n, k / n + 1, 0);
    } else {
      DivMod(k + 1, n, k / n, k % n + 1);
    }
  }

  /** Two positions less than one lap apart use different cells. */
  lemma DistinctCells(n: nat, j: nat, k: nat)
    requires j < k < j + n
    ensures j % n != k % n
  {
    assert k - j == (k / n - j / n) * n + k % n - j % n;
    if j % n == k % n {
      NoMultipleInside(k / n - j / n, n);
    }
  }

  /** Storing leaves every unread byte in place, while there is room. */
  lemma StoreKeeps(r: Ring, written: seq<bv8>, read: seq<bv8>, b: bv8)
    requires Holds(r, written, read)
    ensures Holds(Store(r, b), written, read) && Store(r, b).cells[Store(r, b).writeIndex] == b
  {
    forall k | |read| <= k < |written| ensures Store(r, b).cells[k % |r.cells|] == written[k] {
      DistinctCells(|r.cells|, k, |written|);
    }
  }

  lemma AdvanceWriteKeeps(r: Ring, written: seq<bv8>, read: seq<bv8>)
    requires Holds(r, written, read) && |written| - |read| < |r.cells| - 1
    ensures Holds(AdvanceWrite(r), written + [r.cells[r.writeIndex]], read)
  {
    SuccessorIsModulo(r, |written|);
  }

  lemma AdvanceReadKeeps(r: Ring, written: seq<bv8>, read: seq<bv8>)
    requires Holds(r, written, read) && |read| < |written|
    ensures Holds(AdvanceRead(r), written, read + [Load(r)]) && Load(r) == written[|read|]
  {
    SuccessorIsModulo(r, |read|);
    assert written[|read|] == Load(r);
  }

  /** Counting on from an index that is itself a position modulo the ring size. */
  lemma SameCell(n: nat, base: nat, i: nat)
    requires n > 0
    ensures (base % n + i) % n == (base + i) % n
  {
    var q, r := (base % n + i) / n, (base % n + i) % n;
    var m := base / n;
    assert base + i == (m + q) * n + r by {
      assert base == m * n + base % n;
      assert (m + q) * n == m * n + q * n;
    }
    DivMod(base + i, n, m + q, r);
  }

  /** The cell i places after the read index. */
  function Ahead(r: Ring, i: nat): bv8
    requires |r.cells| > 0
  {
    r.cells[(r.readIndex + i) % |r.cells|]
  }

  lemma UnreadInPlace(r: Ring, written: seq<bv8>, read: seq<bv8>, i: nat)
    requires Holds(r, written, read) && |read| + i < |written|
    ensures Ahead(r, i) == written[|read| + i]
  {
    SameCell(|r.cells|, |read|, i);
    assert written[|read| + i] == r.cells[(|read| + i) % |r.cells|];
  }

  class KernelRing {
    const buffer: array<bv8>
    var readIndex: nat
    var writeIndex: nat

    predicate Valid()
      reads this
    {
      readIndex < buffer.Length && writeIndex < buffer.Length
    }

    function State(): Ring
      reads this, buffer
    {
      Ring(buffer[..], readIndex, writeIndex)
    }

    constructor (capacity: nat)
      ensures Valid() && fresh(buffer) && buffer.Length == capacity + 1 && Holds(State(), [], [])
    {
      buffer := new bv8[capacity + 1];
      readIndex, writeIndex := 0, 0;
    }

    /** The body of the writer's critical section. */
    method Put(b: bv8)
      requires Valid()
      modifies this`writeIndex, buffer
      ensures Valid() && State() == AdvanceWrite(Store(old(State()), b))
    {
      buffer[writeIndex] := b;
      if writeIndex == buffer.Length - 1 {
        writeIndex := 0;
      } else {
        writeIndex := writeIndex + 1;
      }
    }

    /** The body of the reader's critical section. */
    method Take() returns (b: bv8)
      requires Valid()
      modifies this`readIndex
      ensures Valid() && b == Load(old(State())) && State() == AdvanceRead(old(State()))
    {
      b := buffer[readIndex];
      if readIndex == buffer.Length - 1 {
        readIndex := 0;
      } else {
        readIndex := readIndex + 1;
      }
    }
  }
}
