// The directory of a BMFS disk: a table of records, and the search for room for a new file.
module BmfsDirectory {
  import opened Wrappers

  /** A record. Its name is the C string in it: empty marks the end of the directory, and a name whose first
      character is DELETED a record that is not in use but still holds the extent of the file it had. */
  datatype Entry = Entry(name: string, start: nat, reserved: nat, size: nat)

  type Directory = seq<Entry>

  const DELETED: char := 1 as char
  const WORD := 0x1_0000_0000_0000_0000

  predicate IsEnd(e: Entry) { e.name == "" }

  predicate IsDeleted(e: Entry) { e.name != "" && e.name[0] == DELETED }

  predicate IsLive(e: Entry) { !IsEnd(e) && !IsDeleted(e) }

  predicate FileName(name: string) { name != "" && name[0] != DELETED }

  /** First block after the extent of a record. */
  function Limit(e: Entry): nat { e.start + e.reserved }

  predicate Overlaps(e: Entry, start: nat, blocks: nat) {
    e.start < start + blocks && start < Limit(e)
  }

  /** Records before the end marker, or the whole directory when it has none. */
  function EndOf(dir: Directory): (n: nat)
    ensures n <= |dir| && (n < |dir| ==> IsEnd(dir[n])) && forall i | 0 <= i < n :: !IsEnd(dir[i])
  {
    if dir == [] || IsEnd(dir[0]) then 0 else 1 + EndOf(dir[1..])
  }

  predicate Marked(dir: Directory) { EndOf(dir) < |dir| }

  function Records(dir: Directory): Directory { dir[..EndOf(dir)] }

  /** Slot of the first live record with the given name, from slot i to the end marker. */
  function FindFrom(dir: Directory, name: string, i: nat): (slot: Option<nat>)
    requires i <= EndOf(dir)
    ensures slot.Some? ==> i <= slot.value < EndOf(dir) && IsLive(dir[slot.value]) && dir[slot.value].name == name
    ensures slot.None? ==> forall j | i <= j < EndOf(dir) && IsLive(dir[j]) :: dir[j].name != name
    decreases EndOf(dir) - i
  {
    if i == EndOf(dir) then None
    else if IsLive(dir[i]) && dir[i].name == name then Some(i)
    else FindFrom(dir, name, i + 1)
  }

  function FindFile(dir: Directory, name: string): Option<nat> { FindFrom(dir, name, 0) }

  /** First slot that holds no file: a deleted record or the end marker. */
  function FirstFree(dir: Directory): (slot: Option<nat>)
    ensures slot.Some? ==> slot.value < |dir| && !IsLive(dir[slot.value])
    ensures slot.Some? ==> forall j | 0 <= j < slot.value :: IsLive(dir[j])
    ensures slot.None? ==> forall j | 0 <= j < |dir| :: IsLive(dir[j])
  {
    if dir == [] then None
    else if !IsLive(dir[0]) then Some(0)
    else
      var rest := FirstFree(dir[1..]);
      if rest.Some? then Some(rest.value + 1) else None
  }

  // --- Well-formed directories -----------------------------------------------------------------------------

  /** Extents lie between the first and the last block, those of files are disjoint, and names are unique. */
  ghost predicate DirOk(dir: Directory, blocks: nat) {
    && 2 <= blocks < WORD
    && (forall i | 0 <= i < EndOf(dir) :: Placed(dir[i], blocks))
    && forall i, j | 0 <= i < j < EndOf(dir) && IsLive(dir[i]) && IsLive(dir[j]) :: Apart(dir[i], dir[j])
  }

  predicate Placed(e: Entry, blocks: nat) { 1 <= e.start && 1 <= e.reserved && Limit(e) <= blocks - 1 }

  predicate Apart(a: Entry, b: Entry) { !Overlaps(a, b.start, b.reserved) && a.name != b.name }

  /** A new file of `wanted` blocks may start at block p. */
  ghost predicate Roomy(records: Directory, blocks: nat, wanted: nat, p: nat) {
    1 <= p && p + wanted <= blocks - 1 && forall i | 0 <= i < |records| && IsLive(records[i]) ::
        !Overlaps(records[i], p, wanted)
  }

  predicate InOrder(a: Entry, b: Entry) {
    (IsDeleted(a) ==> IsDeleted(b)) && (IsLive(a) && IsLive(b) ==> a.start <= b.start)
  }

  /** The order qsort leaves: files by starting block, then the deleted records in any order. */
  ghost predicate Sorted(r: Directory) { forall i, j | 0 <= i < j < |r| :: InOrder(r[i], r[j]) }

  ghost predicate SortOf(r: Directory, records: Directory) {
    Sorted(r) && multiset(r) == multiset(records)
  }

  // --- Creating --------------------------------------------------------------------------------------------

  function Sub64(a: nat, b: nat): nat { (a - b) % WORD }

  function Add64(a: nat, b: nat): nat { (a + b) % WORD }

  /** Start of the area the search settles on from record i of the sorted copy, or 0. */
  function Search(r: Directory, i: nat, previousEnd: nat, blocks: nat, wanted: nat): nat
    requires i <= |r|
    decreases |r| - i
  {
    var thisStart := if i == |r| || IsDeleted(r[i]) then Sub64(blocks, 1) else r[i].start;
    if Sub64(thisStart, previousEnd) >= wanted then previousEnd
    else if i < |r| then Search(r, i + 1, Add64(r[i].start, r[i].reserved), blocks, wanted)
    else 0
  }

  /** How many records the search looks at: none when the directory has no end marker. */
  function Considered(dir: Directory): (n: nat)
    ensures n <= |dir|
  {
    if Marked(dir) then EndOf(dir) else 0
  }

  function BlocksFor(maxSize: nat): nat { (if maxSize % 2 != 0 then maxSize + 1 else maxSize) / 2 }

  /** The directory with a new record in slot f. Taking the slot counted as the marker's marks the next one. */
  function WithFile(dir: Directory, f: nat, file: Entry): (d: Directory)
    requires f < |dir|
    ensures |d| == |dir|
  {
    var d := dir[f := file];
    if f == Considered(dir) && f + 1 < |dir| then d[f + 1 := d[f + 1].(name := "")] else d
  }

  /** The directory after `create`, given the sorted copy of the records it considers. */
  function Create(dir: Directory, name: string, wanted: nat, blocks: nat, r: Directory): (d: Directory)
    ensures |d| == |dir|
  {
    if FindFile(dir, name).Some? || FirstFree(dir).None? then dir
    else
      var start := Search(r, 0, 1, blocks, wanted);
      if start == 0 then dir else WithFile(dir, FirstFree(dir).value, Entry(name, start, wanted, 0))
  }

  // --- First fit -------------------------------------------------------------------------------------------

  lemma CountOnce(s: Directory, i: nat)
    requires i < |s| && forall j | 0 <= j < |s| && j != i :: s[j] != s[i]
    ensures multiset(s)[s[i]] == 1
  {
    assert s == s[..i] + [s[i]] + s[i + 1..];
    assert s[i] !in s[..i] && s[i] !in s[i + 1..];
  }

  lemma CountTwice(s: Directory, i: nat, j: nat)
    requires i < j < |s| && s[i] == s[j]
    ensures multiset(s)[s[i]] >= 2
  {
    assert s == s[..i] + [s[i]] + s[i + 1..j] + [s[j]] + s[j + 1..];
  }

  /** What the search relies on in the sorted copy: each file ends before the next begins. */
  ghost predicate Laid(r: Directory, blocks: nat) {
    && Sorted(r) && 2 <= blocks < WORD
    && (forall i | 0 <= i < |r| :: !IsEnd(r[i]) && Placed(r[i], blocks))
    && forall i, j | 0 <= i < j < |r| && IsLive(r[i]) && IsLive(r[j]) :: Limit(r[i]) <= r[j].start
  }

  lemma SortLays(dir: Directory, blocks: nat, r: Directory)
    requires DirOk(dir, blocks) && SortOf(r, Records(dir))
    ensures Laid(r, blocks)
  {
    var s := Records(dir);
    forall i | 0 <= i < |r| ensures r[i] in s {
      assert r[i] in multiset(r);
    }
    forall i, j | 0 <= i < j < |r| && IsLive(r[i]) && IsLive(r[j]) ensures Limit(r[i]) <= r[j].start {
      var a :| 0 <= a < |s| && s[a] == r[i];
      var b :| 0 <= b < |s| && s[b] == r[j];
      if a == b {
        CountTwice(r, i, j);
        CountOnce(s, a);
      }
    }
  }

  lemma RoomySort(r: Directory, s: Directory, blocks: nat, wanted: nat, p: nat)
    requires multiset(r) == multiset(s)
    ensures Roomy(r, blocks, wanted, p) <==> Roomy(s, blocks, wanted, p)
  {
    forall e ensures e in r <==> e in s {
      assert e in multiset(r) <==> e in multiset(s);
    }
    forall i | 0 <= i < |r| ensures r[i] in s {}
    forall i | 0 <= i < |s| ensures s[i] in r {}
  }

  /** The files among the first i records end by previousEnd, the others start there or later, and no place
      before it has room. */
  ghost predicate Scanned(r: Directory, i: nat, previousEnd: nat, blocks: nat, wanted: nat) {
    && 1 <= previousEnd <= blocks - 1
    && (forall k | 0 <= k < i && k < |r| && IsLive(r[k]) :: Limit(r[k]) <= previousEnd)
    && (forall k | i <= k < |r| && IsLive(r[k]) :: previousEnd <= r[k].start)
    && forall p | Roomy(r, blocks, wanted, p) :: previousEnd <= p
  }

  /** On a well-formed directory the 64-bit arithmetic of the search does not wrap. */
  lemma SearchStep(r: Directory, i: nat, previousEnd: nat, blocks: nat, wanted: nat)
    requires Laid(r, blocks) && i <= |r| && previousEnd <= blocks - 1
    requires i < |r| && IsLive(r[i]) ==> previousEnd <= r[i].start
    ensures var thisStart := if i == |r| || IsDeleted(r[i]) then blocks - 1 else r[i].start;
      Search(r, i, previousEnd, blocks, wanted) ==
        if thisStart - previousEnd >= wanted then previousEnd
        else if i < |r| then Search(r, i + 1, Limit(r[i]), blocks, wanted)
        else 0
  {
    NoWrap(blocks - 1);
    NoWrap(blocks - 1 - previousEnd);
    if i < |r| {
      NoWrap(Limit(r[i]));
      NoWrap(if IsLive(r[i]) then r[i].start - previousEnd else 0);
    }
  }

  lemma NoWrap(a: nat)
    requires a < WORD
    ensures a % WORD == a
  {}

  /** While files remain, the search advances past each gap that is too small. */
  lemma {:induction false} SearchFirstFit(r: Directory, i: nat, previousEnd: nat, blocks: nat, wanted: nat)
    requires Laid(r, blocks) && wanted >= 1 && i <= |r| && Scanned(r, i, previousEnd, blocks, wanted)
    requires i > 0 ==> IsLive(r[i - 1])
    ensures var start := Search(r, i, previousEnd, blocks, wanted);
      && ((exists p :: Roomy(r, blocks, wanted, p)) ==>
            Roomy(r, blocks, wanted, start) && forall p | Roomy(r, blocks, wanted, p) :: start <= p)
      && ((forall p :: !Roomy(r, blocks, wanted, p)) ==>
            (start == 0 <==> forall k | 0 <= k < |r| && IsDeleted(r[k]) :: Limit(r[k]) + wanted > blocks - 1))
    decreases |r| - i
  {
    SearchStep(r, i, previousEnd, blocks, wanted);
    hide Search, Laid, Roomy;
    SearchFacts(r, i, previousEnd, blocks, wanted);
    if i < |r| && IsLive(r[i]) {
      if r[i].start - previousEnd >= wanted {
        FitsBefore(r, i, previousEnd, blocks, wanted);
      } else {
        TooSmall(r, i, previousEnd, blocks, wanted);
        SearchFirstFit(r, i + 1, Limit(r[i]), blocks, wanted);
      }
    } else {
      if blocks - 1 - previousEnd >= wanted {
        FitsAtEnd(r, i, previousEnd, blocks, wanted);
      } else {
        NoneFits(r, i, previousEnd, blocks, wanted);
        if i < |r| {
          SearchStale(r, i + 1, Limit(r[i]), blocks, wanted);
        }
      }
    }
  }

  lemma SearchFacts(r: Directory, i: nat, previousEnd: nat, blocks: nat, wanted: nat)
    requires Laid(r, blocks) && i <= |r|
    requires i > 0 ==> IsLive(r[i - 1])
    ensures i < |r| ==> !IsEnd(r[i])
    ensures forall k | 0 <= k < i :: IsLive(r[k])
    ensures i < |r| && IsDeleted(r[i]) ==> forall k | i <= k < |r| :: IsDeleted(r[k])
  {}

  lemma NoneFits(r: Directory, i: nat, previousEnd: nat, blocks: nat, wanted: nat)
    requires Scanned(r, i, previousEnd, blocks, wanted) && blocks - 1 - previousEnd < wanted
    ensures forall p :: !Roomy(r, blocks, wanted, p)
  {
    forall p ensures !Roomy(r, blocks, wanted, p) {}
  }

  lemma FitsBefore(r: Directory, i: nat, previousEnd: nat, blocks: nat, wanted: nat)
    requires Laid(r, blocks) && wanted >= 1 && i < |r| && IsLive(r[i]) && Scanned(r, i, previousEnd, blocks, wanted)
    requires r[i].start - previousEnd >= wanted
    ensures Roomy(r, blocks, wanted, previousEnd)
  {}

  lemma FitsAtEnd(r: Directory, i: nat, previousEnd: nat, blocks: nat, wanted: nat)
    requires Laid(r, blocks) && wanted >= 1 && i <= |r| && (i < |r| ==> IsDeleted(r[i]))
    requires Scanned(r, i, previousEnd, blocks, wanted) && blocks - 1 - previousEnd >= wanted
    ensures Roomy(r, blocks, wanted, previousEnd)
  {}

  lemma TooSmall(r: Directory, i: nat, previousEnd: nat, blocks: nat, wanted: nat)
    requires Laid(r, blocks) && wanted >= 1 && i < |r| && IsLive(r[i]) && Scanned(r, i, previousEnd, blocks, wanted)
    requires r[i].start - previousEnd < wanted
    ensures Scanned(r, i + 1, Limit(r[i]), blocks, wanted)
  {
    forall p | Roomy(r, blocks, wanted, p) ensures Limit(r[i]) <= p {
      assert !Overlaps(r[i], p, wanted);
    }
  }

  /** Past the files, the search mistakes the extent of each deleted record for the last one in use. */
  lemma {:induction false} SearchStale(r: Directory, i: nat, previousEnd: nat, blocks: nat, wanted: nat)
    requires Laid(r, blocks) && wanted >= 1 && 0 < i <= |r| && IsDeleted(r[i - 1]) && previousEnd == Limit(r[i - 1])
    ensures Search(r, i, previousEnd, blocks, wanted) == 0 <==>
            forall k | i - 1 <= k < |r| :: Limit(r[k]) + wanted > blocks - 1
    decreases |r| - i
  {
    SearchStep(r, i, previousEnd, blocks, wanted);
    assert i < |r| ==> IsDeleted(r[i]);
    hide Search, Laid, Sorted;
    if i < |r| && Limit(r[i - 1]) + wanted > blocks - 1 {
      SearchStale(r, i + 1, Limit(r[i]), blocks, wanted);
    }
  }

  /** A deleted record whose old extent leaves room before the last block: what the search may fall for. */
  ghost predicate StaleFits(records: Directory, blocks: nat, wanted: nat) {
    exists k :: 0 <= k < |records| && IsDeleted(records[k]) && Limit(records[k]) + wanted <= blocks - 1
  }

  /** First fit: with an end marker, `create` takes the lowest block with enough room when there is any. When
      there is none it leaves the directory alone exactly if no deleted record's old extent misleads it. */
  lemma FirstFit(dir: Directory, wanted: nat, blocks: nat, r: Directory)
    requires DirOk(dir, blocks) && wanted >= 1 && SortOf(r, Records(dir))
    ensures var start, s := Search(r, 0, 1, blocks, wanted), Records(dir);
      && ((exists p :: Roomy(s, blocks, wanted, p)) ==>
            Roomy(s, blocks, wanted, start) && forall p | Roomy(s, blocks, wanted, p) :: start <= p)
      && ((forall p :: !Roomy(s, blocks, wanted, p)) ==> (start == 0 <==> !StaleFits(s, blocks, wanted)))
  {
    var s := Records(dir);
    SortLays(dir, blocks, r);
    SearchFirstFit(r, 0, 1, blocks, wanted);
    forall p ensures Roomy(r, blocks, wanted, p) <==> Roomy(s, blocks, wanted, p) {
      RoomySort(r, s, blocks, wanted, p);
    }
    hide Search, Roomy;
    StaleSort(r, s, blocks, wanted);
  }

  lemma StaleSort(r: Directory, s: Directory, blocks: nat, wanted: nat)
    requires multiset(r) == multiset(s)
    ensures StaleFits(r, blocks, wanted) <==> StaleFits(s, blocks, wanted)
  {
    forall e ensures e in r <==> e in s {
      assert e in multiset(r) <==> e in multiset(s);
    }
    forall i | 0 <= i < |r| ensures r[i] in s {}
    forall i | 0 <= i < |s| ensures s[i] in r {}
  }

  /** Wherever the search settles, the file lies between the reserved blocks. */
  lemma {:induction false} SearchInRange(r: Directory, i: nat, previousEnd: nat, blocks: nat, wanted: nat)
    requires Laid(r, blocks) && wanted >= 1 && i <= |r| && 1 <= previousEnd <= blocks - 1
    requires i < |r| && IsLive(r[i]) ==> previousEnd <= r[i].start
    ensures var start := Search(r, i, previousEnd, blocks, wanted); start != 0 ==> start + wanted <= blocks - 1
    decreases |r| - i
  {
    SearchStep(r, i, previousEnd, blocks, wanted);
    if i < |r| {
      assert i + 1 < |r| && IsLive(r[i + 1]) ==> IsLive(r[i]);
      hide Search;
      SearchInRange(r, i + 1, Limit(r[i]), blocks, wanted);
    }
  }

  // --- What create does to the directory ------------------------------------------------------------------

  /** Every file of the directory is still there, in its slot. */
  ghost predicate Keeps(dir: Directory, d: Directory) {
    forall i | 0 <= i < EndOf(dir) && IsLive(dir[i]) :: i < EndOf(d) && d[i] == dir[i]
  }

  ghost predicate NoFiles(dir: Directory) { forall i | 0 <= i < EndOf(dir) :: !IsLive(dir[i]) }

  /** The new record cuts the directory short: an unmarked directory whose first record is a deleted one. */
  predicate CutsShort(dir: Directory) { !Marked(dir) && |dir| > 1 && !IsLive(dir[0]) }

  lemma WithFileOk(dir: Directory, file: Entry, blocks: nat)
    requires DirOk(dir, blocks) && FirstFree(dir).Some? && IsLive(file) && Placed(file, blocks)
    requires FindFile(dir, file.name).None?
    ensures var f := FirstFree(dir).value; var d := WithFile(dir, f, file);
      && f < EndOf(d) && d[f] == file
      && (CutsShort(dir) ==> EndOf(d) == 1 && DirOk(d, blocks) && (Keeps(dir, d) <==> NoFiles(dir)))
      && (!CutsShort(dir) ==>
            && Keeps(dir, d)
            && (DirOk(d, blocks) <==> Roomy(Records(dir), blocks, file.reserved, file.start)))
  {
    var f := FirstFree(dir).value;
    var d := WithFile(dir, f, file);
    WithFileSlots(dir, f, file);
    hide FirstFree, WithFile, Marked, FindFrom;
    if CutsShort(dir) {
    } else {
      RecordsApart(dir, d, f, EndOf(d), file, blocks);
    }
  }

  lemma WithFileSlots(dir: Directory, f: nat, file: Entry)
    requires f < |dir| && !IsLive(dir[f]) && (forall j | 0 <= j < f :: IsLive(dir[j])) && !IsEnd(file)
    ensures var d := WithFile(dir, f, file);
      && f < EndOf(d) && d[f] == file && f <= EndOf(dir) && (CutsShort(dir) <==> !Marked(dir) && f == 0 && |dir| > 1)
      && EndOf(d) == (if CutsShort(dir) then 1 else if f == EndOf(dir) then f + 1 else EndOf(dir))
      && forall i | 0 <= i < EndOf(d) && i != f :: d[i] == dir[i]
  {
    var d := WithFile(dir, f, file);
    var n := if CutsShort(dir) then 1 else if f == EndOf(dir) then f + 1 else EndOf(dir);
    assert forall i | 0 <= i < n && i != f :: d[i] == dir[i];
    assert n < |dir| ==> IsEnd(d[n]);
    hide WithFile;
    assert EndOf(d) == n;
  }

  lemma RecordsApart(dir: Directory, d: Directory, f: nat, n: nat, file: Entry, blocks: nat)
    requires DirOk(dir, blocks) && Placed(file, blocks) && IsLive(file) && |d| == |dir| && EndOf(d) == n
    requires f < n && d[f] == file && (f < EndOf(dir) ==> !IsLive(dir[f]))
    requires n == if f == EndOf(dir) then f + 1 else EndOf(dir)
    requires forall i | 0 <= i < n && i != f :: d[i] == dir[i]
    requires forall i | 0 <= i < EndOf(dir) && IsLive(dir[i]) :: dir[i].name != file.name
    ensures DirOk(d, blocks) <==> Roomy(Records(dir), blocks, file.reserved, file.start)
  {
    var s := Records(dir);
    if DirOk(d, blocks) {
      forall i | 0 <= i < |s| && IsLive(s[i]) ensures !Overlaps(s[i], file.start, file.reserved) {
        assert s[i] == d[i] && i != f;
        assert Apart(d[if i < f then i else f], d[if i < f then f else i]);
      }
    }
    if Roomy(s, blocks, file.reserved, file.start) {
      forall i, j | 0 <= i < j < n && IsLive(d[i]) && IsLive(d[j]) ensures Apart(d[i], d[j]) {
        if i == f {
          assert s[j] == d[j];
        } else if j == f {
          assert s[i] == d[i];
        }
      }
    }
  }

  /** A record with the deleted mark takes no room, but it cuts short like any other. */
  lemma WithDeletedOk(dir: Directory, file: Entry, blocks: nat)
    requires DirOk(dir, blocks) && FirstFree(dir).Some? && IsDeleted(file) && Placed(file, blocks)
    ensures var d := WithFile(dir, FirstFree(dir).value, file);
      DirOk(d, blocks) && (Keeps(dir, d) <==> !CutsShort(dir) || NoFiles(dir))
  {
    var f := FirstFree(dir).value;
    var d := WithFile(dir, f, file);
    WithFileSlots(dir, f, file);
    hide FirstFree, WithFile, Marked;
    forall i, j | 0 <= i < j < EndOf(d) && IsLive(d[i]) && IsLive(d[j]) ensures Apart(d[i], d[j]) {
      assert Apart(dir[i], dir[j]);
    }
  }

  /** No file lies in slot f or behind it. */
  ghost predicate NoFilesBehind(dir: Directory, f: nat) {
    forall i | f <= i < EndOf(dir) :: !IsLive(dir[i])
  }

  lemma MarkerEnds(dir: Directory, f: nat, file: Entry)
    requires f < |dir| && (forall j | 0 <= j < f :: IsLive(dir[j])) && IsEnd(file)
    ensures var d := WithFile(dir, f, file); EndOf(d) == f <= EndOf(dir) && forall i | 0 <= i < f :: d[i] == dir[i]
  {
    var d := WithFile(dir, f, file);
    assert forall i | 0 <= i < f :: d[i] == dir[i];
    assert IsEnd(d[f]);
    hide WithFile;
    assert EndOf(d) == f;
  }

  /** A record with an empty name is an end marker. */
  lemma WithMarkerOk(dir: Directory, file: Entry, blocks: nat)
    requires DirOk(dir, blocks) && FirstFree(dir).Some? && IsEnd(file)
    ensures var f := FirstFree(dir).value; var d := WithFile(dir, f, file);
      EndOf(d) == f && DirOk(d, blocks) && (Keeps(dir, d) <==> NoFilesBehind(dir, f))
  {
    hide FirstFree, WithFile;
    var f := FirstFree(dir).value;
    var d := WithFile(dir, f, file);
    MarkerEnds(dir, f, file);
    forall i, j | 0 <= i < j < EndOf(d) && IsLive(d[i]) && IsLive(d[j]) ensures Apart(d[i], d[j]) {
      assert Apart(dir[i], dir[j]);
    }
  }

  /** When `create` writes a record at all. */
  ghost predicate Writes(dir: Directory, blocks: nat, wanted: nat) {
    var s := Records(dir);
    && FirstFree(dir).Some?
    && if Marked(dir) then (exists p :: Roomy(s, blocks, wanted, p)) || StaleFits(s, blocks, wanted)
       else 1 + wanted <= blocks - 1
  }

  /** When `create` is safe: it writes nothing; or, for an empty name, no file lies behind the first free slot;
      or, for other names, it does not cut off files and, unless the name has the deleted mark, there is room:
      anywhere if the directory has an end marker, from block 1 on if it has none. */
  ghost predicate CreateSafe(dir: Directory, name: string, blocks: nat, wanted: nat) {
    var s := Records(dir);
    Writes(dir, blocks, wanted) ==>
      if name == "" then NoFilesBehind(dir, FirstFree(dir).value)
      else if CutsShort(dir) then NoFiles(dir)
      else if name[0] == DELETED then true
      else if Marked(dir) then exists p :: Roomy(s, blocks, wanted, p)
      else Roomy(s, blocks, wanted, 1)
  }

  /** Whatever the name, creating a file keeps the directory well-formed and every other file in it exactly when
      it is safe. */
  lemma CreateKeepsIff(dir: Directory, name: string, wanted: nat, blocks: nat, r: Directory)
    requires DirOk(dir, blocks) && FindFile(dir, name).None? && wanted >= 1
    requires SortOf(r, dir[..Considered(dir)])
    ensures var d := Create(dir, name, wanted, blocks, r);
      DirOk(d, blocks) && Keeps(dir, d) <==> CreateSafe(dir, name, blocks, wanted)
  {
    hide Search, WithFile, Roomy, DirOk, NoFiles, NoFilesBehind, StaleFits, FirstFree, FindFrom, EndOf, Considered;
    if FirstFree(dir).Some? {
      var start := Search(r, 0, 1, blocks, wanted);
      StartFacts(dir, wanted, blocks, r);
      if start != 0 {
        var file := Entry(name, start, wanted, 0);
        if IsEnd(file) {
          WithMarkerOk(dir, file, blocks);
        } else if IsDeleted(file) {
          WithDeletedOk(dir, file, blocks);
        } else {
          WithFileOk(dir, file, blocks);
        }
      }
    }
  }

  /** The failing input for the empty name: the file behind the first free slot is lost. */
  lemma EmptyNameLosesFile()
    ensures var dir := [Entry([DELETED], 1, 1, 0), Entry("a", 2, 1, 0), Entry("", 0, 0, 0)];
      && DirOk(dir, 10) && CreateSafe(dir, "b", 10, 1) && FindFile(dir, "a") == Some(1)
      && forall r | SortOf(r, Records(dir)) :: FindFile(Create(dir, "", 1, 10, r), "a") == None
  {
    var dir := [Entry([DELETED], 1, 1, 0), Entry("a", 2, 1, 0), Entry("", 0, 0, 0)];
    TwoRecords(dir);
    var s := Records(dir);
    assert s == dir[..2];
    assert FirstFree(dir) == Some(0);
    assert Roomy(s, 10, 1, 3);
    assert FindFrom(dir, "a", 0) == FindFrom(dir, "a", 1) == Some(1);
    forall r | SortOf(r, s) ensures FindFile(Create(dir, "", 1, 10, r), "a") == None {
      StartFacts(dir, 1, 10, r);
      assert FindFile(dir, "").None?;
      WithMarkerOk(dir, Entry("", Search(r, 0, 1, 10, 1), 1, 0), 10);
    }
  }

  lemma StartFacts(dir: Directory, wanted: nat, blocks: nat, r: Directory)
    requires DirOk(dir, blocks) && wanted >= 1 && SortOf(r, dir[..Considered(dir)])
    ensures var start, s := Search(r, 0, 1, blocks, wanted), Records(dir);
      && (start != 0 ==> start + wanted <= blocks - 1)
      && (!Marked(dir) ==> start == if 1 + wanted > blocks - 1 then 0 else 1)
      && (FirstFree(dir).Some? ==> (start != 0 <==> Writes(dir, blocks, wanted)))
      && (Marked(dir) && start != 0 ==>
            (Roomy(s, blocks, wanted, start) <==> exists p :: Roomy(s, blocks, wanted, p)))
  {
    if Marked(dir) {
      FirstFit(dir, wanted, blocks, r);
      SortLays(dir, blocks, r);
      SearchInRange(r, 0, 1, blocks, wanted);
      StartAfterFirst(r, blocks);
    } else {
      assert r == [];
      SearchStep(r, 0, 1, blocks, wanted);
    }
  }

  lemma StartAfterFirst(r: Directory, blocks: nat)
    requires Laid(r, blocks)
    ensures r != [] && IsLive(r[0]) ==> 1 <= r[0].start
  {}

  /** A create that finds room records the file in the first free slot, at the lowest block with room, and
      touches nothing else below the new end. */
  lemma CreateRecords(dir: Directory, name: string, wanted: nat, blocks: nat, r: Directory)
    requires DirOk(dir, blocks) && Marked(dir) && FileName(name) && FindFile(dir, name).None? && wanted >= 1
    requires SortOf(r, Records(dir)) && exists p :: Roomy(Records(dir), blocks, wanted, p)
    ensures var d := Create(dir, name, wanted, blocks, r);
      && FirstFree(dir).Some? && FindFile(d, name) == FirstFree(dir)
      && var f := FirstFree(dir).value;
      && f < EndOf(d) && d[f].name == name && d[f].reserved == wanted && d[f].size == 0
      && Roomy(Records(dir), blocks, wanted, d[f].start)
      && (forall p | Roomy(Records(dir), blocks, wanted, p) :: d[f].start <= p)
      && forall i | 0 <= i < EndOf(d) && i != f :: i < EndOf(dir) && d[i] == dir[i]
  {
    FirstFit(dir, wanted, blocks, r);
    var start := Search(r, 0, 1, blocks, wanted);
    assert start >= 1;
    var file := Entry(name, start, wanted, 0);
    assert dir[EndOf(dir)].name == "";
    hide Search, Roomy;
    var f := FirstFree(dir).value;
    WithFileSlots(dir, f, file);
    var d := WithFile(dir, f, file);
    hide WithFile, FirstFree, DirOk;
    FindAt(d, name, f);
  }

  lemma FindAt(d: Directory, name: string, f: nat)
    requires f < EndOf(d) && IsLive(d[f]) && d[f].name == name
    requires forall i | 0 <= i < EndOf(d) && i != f && IsLive(d[i]) :: d[i].name != name
    ensures FindFile(d, name) == Some(f)
  {}

  // --- Deleting --------------------------------------------------------------------------------------------

  function Deleted(e: Entry): Entry
    requires e.name != ""
  {
    e.(name := [DELETED] + e.name[1..])
  }

  function Delete(dir: Directory, name: string): (d: Directory)
    ensures |d| == |dir|
  {
    match FindFile(dir, name)
    case None => dir
    case Some(slot) => dir[slot := Deleted(dir[slot])]
  }

  /** Deleting removes just the named file, keeps the directory well-formed, and frees the file's blocks; its record
      still holds the extent and all of the name but the first character. */
  lemma DeleteRemoves(dir: Directory, name: string, blocks: nat)
    requires DirOk(dir, blocks)
    ensures var d := Delete(dir, name);
      && DirOk(d, blocks) && EndOf(d) == EndOf(dir) && FindFile(d, name).None?
      && (forall i | 0 <= i < EndOf(d) && IsLive(d[i]) :: d[i] == dir[i])
      && (forall i | 0 <= i < EndOf(dir) && IsLive(dir[i]) && dir[i].name != name :: d[i] == dir[i])
      && match FindFile(dir, name)
         case None => d == dir
         case Some(slot) =>
           && Roomy(Records(d), blocks, dir[slot].reserved, dir[slot].start)
           && IsDeleted(d[slot]) && d[slot].start == dir[slot].start && Limit(d[slot]) == Limit(dir[slot])
           && d[slot].size == dir[slot].size && d[slot].name[1..] == dir[slot].name[1..]
  {
    var d := Delete(dir, name);
    match FindFile(dir, name) {
      case None =>
      case Some(slot) =>
        assert IsDeleted(d[slot]);
        assert forall i | 0 <= i < |d| && i != slot :: d[i] == dir[i];
        assert EndOf(d) == EndOf(dir);
        hide FindFrom, Delete;
        DeletedOk(dir, d, slot, blocks);
    }
  }

  lemma DeletedOk(dir: Directory, d: Directory, slot: nat, blocks: nat)
    requires DirOk(dir, blocks) && |d| == |dir| && EndOf(d) == EndOf(dir) && slot < EndOf(dir) && IsLive(dir[slot])
    requires IsDeleted(d[slot]) && d[slot] == Deleted(dir[slot])
    requires forall i | 0 <= i < |d| && i != slot :: d[i] == dir[i]
    ensures DirOk(d, blocks) && Roomy(Records(d), blocks, dir[slot].reserved, dir[slot].start)
    ensures forall i | 0 <= i < EndOf(d) && IsLive(d[i]) :: d[i].name != dir[slot].name
  {
    forall i | 0 <= i < EndOf(d) && IsLive(d[i])
      ensures !Overlaps(d[i], dir[slot].start, dir[slot].reserved) && d[i].name != dir[slot].name
    {
      assert i != slot;
      assert Apart(dir[if i < slot then i else slot], dir[if i < slot then slot else i]);
    }
  }

  /** Two directories with the same files in the same slots have the same room. */
  lemma SameFilesSameRoom(a: Directory, b: Directory, blocks: nat, wanted: nat, p: nat)
    requires forall i | 0 <= i < EndOf(a) && IsLive(a[i]) :: i < EndOf(b) && b[i] == a[i]
    requires forall i | 0 <= i < EndOf(b) && IsLive(b[i]) :: i < EndOf(a) && a[i] == b[i]
    ensures Roomy(Records(a), blocks, wanted, p) <==> Roomy(Records(b), blocks, wanted, p)
  {
    var s, t := Records(a), Records(b);
    forall i | 0 <= i < |s| && IsLive(s[i]) ensures i < |t| && t[i] == s[i] {}
    forall i | 0 <= i < |t| && IsLive(t[i]) ensures i < |s| && s[i] == t[i] {}
  }

  /** Deleting the file just created gives back exactly the room there was, for every size and place. */
  lemma DeleteUndoesCreate(dir: Directory, name: string, wanted: nat, blocks: nat, r: Directory, size: nat, p: nat)
    requires DirOk(dir, blocks) && Marked(dir) && FileName(name) && FindFile(dir, name).None? && wanted >= 1
    requires SortOf(r, Records(dir)) && exists p :: Roomy(Records(dir), blocks, wanted, p)
    ensures var d := Delete(Create(dir, name, wanted, blocks, r), name);
      && DirOk(d, blocks) && Keeps(dir, d) && Keeps(d, dir)
      && (Roomy(Records(d), blocks, size, p) <==> Roomy(Records(dir), blocks, size, p))
  {
    var c := Create(dir, name, wanted, blocks, r);
    CreateRecords(dir, name, wanted, blocks, r);
    CreateKeepsIff(dir, name, wanted, blocks, r);
    hide Create, DirOk, Roomy, FirstFree, FindFrom;
    DeleteRemoves(c, name, blocks);
    hide Delete;
    SameFilesSameRoom(dir, Delete(c, name), blocks, size, p);
  }

  // --- Where create goes wrong -----------------------------------------------------------------------------

  /** With no room left, a deleted record makes `create` put the file over another one. */
  lemma StaleRecordOverlap()
    ensures var dir := [Entry("a", 1, 8, 0), Entry([DELETED], 1, 1, 0), Entry("", 0, 0, 0)];
      && DirOk(dir, 10) && SortOf(Records(dir), Records(dir))
      && !DirOk(Create(dir, "b", 1, 10, Records(dir)), 10)
  {
    var dir := [Entry("a", 1, 8, 0), Entry([DELETED], 1, 1, 0), Entry("", 0, 0, 0)];
    TwoRecords(dir);
    var s := Records(dir);
    assert s == dir[..2];
    assert FindFile(dir, "b").None?;
    forall p ensures !Roomy(s, 10, 1, p) {
      if 1 <= p && p + 1 <= 9 {
        assert Overlaps(s[0], p, 1);
      }
    }
    assert IsDeleted(s[1]) && Limit(s[1]) + 1 <= 9;
    CreateKeepsIff(dir, "b", 1, 10, s);
    StaleKeeps(dir, s);
  }

  lemma TwoRecords(dir: Directory)
    requires |dir| >= 2 && dir[0].name != "" && dir[1].name != "" && (|dir| > 2 ==> dir[2].name == "")
    ensures EndOf(dir) == 2
  {}

  lemma StaleKeeps(dir: Directory, s: Directory)
    requires dir == [Entry("a", 1, 8, 0), Entry([DELETED], 1, 1, 0), Entry("", 0, 0, 0)] && s == Records(dir)
    ensures Keeps(dir, Create(dir, "b", 1, 10, s))
  {
    TwoRecords(dir);
    assert FirstFree(dir) == Some(1);
    WithFileSlots(dir, 1, Entry("b", Search(s, 0, 1, 10, 1), 1, 0));
  }

  // --- Runs --------------------------------------------------------------------------------------------------

  datatype Command = CreateFile(name: string, maxSize: nat) | DeleteFile(name: string)

  predicate Before(a: Entry, b: Entry) { !IsDeleted(a) && (IsDeleted(b) || a.start <= b.start) }

  function InsertEntry(e: Entry, r: Directory): (s: Directory)
    requires Sorted(r) && !IsEnd(e) && forall i | 0 <= i < |r| :: !IsEnd(r[i])
    ensures Sorted(s) && multiset(s) == multiset{e} + multiset(r) && forall i | 0 <= i < |s| :: !IsEnd(s[i])
  {
    if r == [] then [e]
    else if Before(e, r[0]) then
      BehindFirst(e, r);
      SortedFront(e, r);
      [e] + r
    else
      var s := InsertEntry(e, r[1..]);
      assert r == [r[0]] + r[1..];
      RestBehind(e, r, s);
      SortedFront(r[0], s);
      [r[0]] + s
  }

  lemma SortedFront(e: Entry, r: Directory)
    requires Sorted(r) && forall i | 0 <= i < |r| :: InOrder(e, r[i])
    ensures Sorted([e] + r)
  {}

  lemma BehindFirst(e: Entry, r: Directory)
    requires r != [] && Sorted(r) && Before(e, r[0]) && forall i | 0 <= i < |r| :: !IsEnd(r[i])
    ensures forall i | 0 <= i < |r| :: InOrder(e, r[i])
  {
    forall i | 0 <= i < |r| ensures InOrder(e, r[i]) {
      assert i > 0 ==> InOrder(r[0], r[i]);
    }
  }

  lemma RestBehind(e: Entry, r: Directory, s: Directory)
    requires r != [] && Sorted(r) && !Before(e, r[0]) && !IsEnd(e) && (forall i | 0 <= i < |r| :: !IsEnd(r[i]))
    requires multiset(s) == multiset{e} + multiset(r[1..])
    ensures forall i | 0 <= i < |s| :: InOrder(r[0], s[i])
  {
    forall i | 0 <= i < |s| ensures InOrder(r[0], s[i]) {
      assert s[i] in multiset(s);
      assert s[i] == e || s[i] in r[1..];
    }
  }

  /** The records sorted the way the comparison function asks for. */
  function SortedCopy(records: Directory): (r: Directory)
    requires forall i | 0 <= i < |records| :: !IsEnd(records[i])
    ensures SortOf(r, records) && forall i | 0 <= i < |r| :: !IsEnd(r[i])
  {
    if records == [] then []
    else
      assert records == [records[0]] + records[1..];
      InsertEntry(records[0], SortedCopy(records[1..]))
  }

  function Apply(dir: Directory, blocks: nat, c: Command): (d: Directory)
    ensures |d| == |dir|
  {
    match c
    case CreateFile(name, maxSize) => Create(dir, name, BlocksFor(maxSize), blocks, SortedCopy(dir[..Considered(dir)]))
    case DeleteFile(name) => Delete(dir, name)
  }

  function Formatted(slots: nat): (dir: Directory)
    ensures |dir| == slots && forall i | 0 <= i < slots :: dir[i] == Entry("", 0, 0, 0)
  {
    seq(slots, _ => Entry("", 0, 0, 0))
  }

  function After(slots: nat, blocks: nat, run: seq<Command>): Directory {
    if run == [] then Formatted(slots) else Apply(After(slots, blocks, run[..|run| - 1]), blocks, run[|run| - 1])
  }

  ghost predicate SafeStep(dir: Directory, blocks: nat, c: Command) {
    match c
    case CreateFile(name, maxSize) =>
      maxSize >= 1 && (FindFile(dir, name).None? ==> CreateSafe(dir, name, blocks, BlocksFor(maxSize)))
    case DeleteFile(_) => true
  }

  lemma SafeStepKeeps(dir: Directory, blocks: nat, c: Command)
    requires DirOk(dir, blocks) && SafeStep(dir, blocks, c)
    ensures DirOk(Apply(dir, blocks, c), blocks)
  {
    hide DirOk, CreateSafe, Search, SortedCopy, WithFile, FirstFree;
    match c {
      case CreateFile(name, maxSize) =>
        if FindFile(dir, name).None? {
          CreateKeepsIff(dir, name, BlocksFor(maxSize), blocks, SortedCopy(dir[..Considered(dir)]));
        }
      case DeleteFile(name) => DeleteRemoves(dir, name, blocks);
    }
  }

  /** From a formatted disk, files stay disjoint and off the reserved blocks as long as each create is safe. */
  lemma {:induction false} RunOk(slots: nat, blocks: nat, run: seq<Command>)
    requires 2 <= blocks < WORD
    requires forall i | 0 <= i < |run| :: SafeStep(After(slots, blocks, run[..i]), blocks, run[i])
    ensures DirOk(After(slots, blocks, run), blocks)
  {
    hide SafeStep, Apply;
    if run != [] {
      var n := |run| - 1;
      forall i | 0 <= i < n ensures run[..n][..i] == run[..i] && run[..n][i] == run[i] {}
      RunOk(slots, blocks, run[..n]);
      SafeStepKeeps(After(slots, blocks, run[..n]), blocks, run[n]);
    }
  }
}
