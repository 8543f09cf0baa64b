// The BMFS disk as bytes: the directory in block 0, a file's bytes in the blocks its record reserves.
module BmfsDisk {
  import opened Arith
  import opened BmfsDirectory
  import opened Bytes
  import opened Wrappers

  const DIRECTORY_AT := 4096
  const RECORD_SIZE := 64

  // --- Records as bytes ------------------------------------------------------------------------------------

  predicate CString(name: string) {
    |name| <= 31 && forall i | 0 <= i < |name| :: 1 <= name[i] as int < 256
  }

  function NameField(name: string): (b: seq<byte>)
    requires CString(name)
    ensures |b| == 32
  {
    seq(32, i requires 0 <= i < 32 => if i < |name| then name[i] as int as byte else 0)
  }

  function FromNameField(b: seq<byte>): string {
    if b == [] || b[0] == 0 then "" else [b[0] as int as char] + FromNameField(b[1..])
  }

  lemma {:induction false} NameRoundTrip(name: string, b: seq<byte>)
    requires CString(name) && |b| > |name| && b[|name|] == 0
    requires forall i | 0 <= i < |name| :: b[i] as int == name[i] as int
    ensures FromNameField(b) == name
  {
    if name != "" {
      NameRoundTrip(name[1..], b[1..]);
      assert name == [name[0]] + name[1..];
    }
  }

  predicate Storable(e: Entry) { CString(e.name) && e.start < WORD && e.reserved < WORD && e.size < WORD }

  predicate AllStorable(dir: Directory) { forall i | 0 <= i < |dir| :: Storable(dir[i]) }

  function EncodeEntry(e: Entry): (b: seq<byte>)
    requires Storable(e)
    ensures |b| == RECORD_SIZE
  {
    NameField(e.name) + LittleEndian(e.start, 8) + LittleEndian(e.reserved, 8)
    + LittleEndian(e.size, 8) + LittleEndian(0, 8)
  }

  function DecodeEntry(b: seq<byte>): Entry
    requires |b| == RECORD_SIZE
  {
    Entry(FromNameField(b[..32]), FromLittleEndian(b[32..40]), FromLittleEndian(b[40..48]), FromLittleEndian(b[48..56]))
  }

  lemma EntryFields(name: seq<byte>, start: seq<byte>, reserved: seq<byte>, size: seq<byte>, unused: seq<byte>)
    requires |name| == 32 && |start| == 8 && |reserved| == 8 && |size| == 8 && |unused| == 8
    ensures var b := name + start + reserved + size + unused;
      |b| == RECORD_SIZE && b[..32] == name && b[32..40] == start && b[40..48] == reserved && b[48..56] == size
  {}

  lemma WordRoundTrip(v: nat)
    requires v < WORD
    ensures FromLittleEndian(LittleEndian(v, 8)) == v
  {
    assert Power256(4) == 0x1_0000_0000 && Power256(8) == WORD;
    LittleEndianRoundTrip(v, 8);
  }

  lemma EntryRoundTrip(e: Entry)
    requires Storable(e)
    ensures DecodeEntry(EncodeEntry(e)) == e
  {
    hide LittleEndian, FromLittleEndian, FromNameField;
    EntryFields(NameField(e.name), LittleEndian(e.start, 8), LittleEndian(e.reserved, 8), LittleEndian(e.size, 8),
        LittleEndian(0, 8));
    NameRoundTrip(e.name, NameField(e.name));
    WordRoundTrip(e.start);
    WordRoundTrip(e.reserved);
    WordRoundTrip(e.size);
  }

  function EncodeDirectory(dir: Directory): (b: seq<byte>)
    requires AllStorable(dir)
    ensures |b| == RECORD_SIZE * |dir|
  {
    if dir == [] then [] else EncodeEntry(dir[0]) + EncodeDirectory(dir[1..])
  }

  function DecodeDirectory(b: seq<byte>): (dir: Directory)
    requires |b| % RECORD_SIZE == 0
  {
    if b == [] then [] else [DecodeEntry(b[..RECORD_SIZE])] + DecodeDirectory(b[RECORD_SIZE..])
  }

  /** Reading the directory back from disk gives the directory that was flushed. */
  lemma {:induction false} DirectoryRoundTrip(dir: Directory)
    requires AllStorable(dir)
    ensures |EncodeDirectory(dir)| % RECORD_SIZE == 0 && DecodeDirectory(EncodeDirectory(dir)) == dir
  {
    if dir != [] {
      DirectoryRoundTrip(dir[1..]);
      EntryRoundTrip(dir[0]);
      hide EncodeEntry, DecodeEntry, Storable, DecodeDirectory;
      FirstRecord(EncodeEntry(dir[0]), EncodeDirectory(dir[1..]));
    }
  }

  lemma FirstRecord(a: seq<byte>, rest: seq<byte>)
    requires |a| == RECORD_SIZE && |rest| % RECORD_SIZE == 0
    ensures |a + rest| % RECORD_SIZE == 0 && DecodeDirectory(a + rest) == [DecodeEntry(a)] + DecodeDirectory(rest)
  {
    assert (a + rest)[..RECORD_SIZE] == a;
    assert (a + rest)[RECORD_SIZE..] == rest;
  }

  /** Where the fields of record i lie in the directory's bytes. */
  lemma RecordLayout(dir: Directory, i: nat)
    requires AllStorable(dir) && i < |dir|
    ensures (i + 1) * RECORD_SIZE <= |EncodeDirectory(dir)|
    ensures var b := EncodeDirectory(dir)[i * RECORD_SIZE..(i + 1) * RECORD_SIZE];
      && (forall k | 0 <= k < |dir[i].name| :: b[k] as int == dir[i].name[k] as int) && b[|dir[i].name|] == 0
      && b[32..40] == LittleEndian(dir[i].start, 8) && b[40..48] == LittleEndian(dir[i].reserved, 8)
      && b[48..56] == LittleEndian(dir[i].size, 8)
  {
    hide LittleEndian, EncodeDirectory;
    RecordAt(dir, i);
  }

  lemma {:induction false} RecordAt(dir: Directory, i: nat)
    requires AllStorable(dir) && i < |dir|
    ensures (i + 1) * RECORD_SIZE <= |EncodeDirectory(dir)|
    ensures EncodeDirectory(dir)[i * RECORD_SIZE..(i + 1) * RECORD_SIZE] == EncodeEntry(dir[i])
  {
    hide EncodeEntry;
    if i > 0 {
      RecordAt(dir[1..], i - 1);
      ShiftSlice(EncodeEntry(dir[0]), EncodeDirectory(dir[1..]), (i - 1) * RECORD_SIZE);
    }
  }

  lemma ShiftSlice(a: seq<byte>, rest: seq<byte>, at: nat)
    requires |a| == RECORD_SIZE && at + RECORD_SIZE <= |rest|
    ensures (a + rest)[RECORD_SIZE + at..2 * RECORD_SIZE + at] == rest[at..at + RECORD_SIZE]
  {}

  // --- The disk ----------------------------------------------------------------------------------------------

  const BLOCK_SIZE := 2097152

  /** The directory in memory and the disk's bytes. */
  datatype Image = Image(dir: Directory, bytes: seq<byte>)

  function Flush(dir: Directory, bytes: seq<byte>): (b: seq<byte>)
    requires AllStorable(dir) && DIRECTORY_AT + RECORD_SIZE * |dir| <= |bytes|
    ensures |b| == |bytes|
  {
    Splice(bytes, DIRECTORY_AT, EncodeDirectory(dir))
  }

  /** A disk of `blocks` blocks whose directory area holds the directory in memory. */
  ghost predicate Saved(image: Image, blocks: nat) {
    && AllStorable(image.dir) && RECORD_SIZE * |image.dir| <= 4096
    && 2 * BLOCK_SIZE <= blocks * BLOCK_SIZE <= |image.bytes| && blocks * BLOCK_SIZE < WORD
    && image.bytes[DIRECTORY_AT..DIRECTORY_AT + RECORD_SIZE * |image.dir|] == EncodeDirectory(image.dir)
  }

  ghost predicate ImageOk(image: Image, blocks: nat) {
    Saved(image, blocks) && DirOk(image.dir, blocks) && Sized(image.dir)
  }

  /** No file is larger than what its record reserves. */
  ghost predicate Sized(dir: Directory) {
    forall i | 0 <= i < EndOf(dir) && IsLive(dir[i]) :: dir[i].size <= dir[i].reserved * BLOCK_SIZE
  }

  /** The contents of a file. */
  ghost function Fetch(image: Image, blocks: nat, name: string): Option<seq<byte>>
    requires ImageOk(image, blocks)
  {
    match FindFile(image.dir, name)
    case None => None
    case Some(slot) => Some(Contents(image, blocks, slot))
  }

  ghost function Contents(image: Image, blocks: nat, slot: nat): seq<byte>
    requires ImageOk(image, blocks) && slot < EndOf(image.dir) && IsLive(image.dir[slot])
  {
    var e := image.dir[slot];
    assert Placed(e, blocks);
    image.bytes[e.start * BLOCK_SIZE..e.start * BLOCK_SIZE + e.size]
  }

  /** Writing `data` as the contents of a file, if the file is there and its blocks can hold it. */
  ghost function Store(image: Image, blocks: nat, name: string, data: seq<byte>): Image
    requires ImageOk(image, blocks)
  {
    match FindFile(image.dir, name)
    case None => image
    case Some(slot) =>
      var e := image.dir[slot];
      if e.reserved * BLOCK_SIZE < |data| then image
      else
        assert Placed(e, blocks);
        Stored(image.dir, image.bytes, slot, data)
  }

  ghost function Stored(dir: Directory, bytes: seq<byte>, slot: nat, data: seq<byte>): Image
    requires slot < |dir| && AllStorable(dir) && |data| < WORD && dir[slot].start * BLOCK_SIZE + |data| <= |bytes|
    requires DIRECTORY_AT + RECORD_SIZE * |dir| <= |bytes|
  {
    var d := dir[slot := dir[slot].(size := |data|)];
    Image(d, Flush(d, Splice(bytes, dir[slot].start * BLOCK_SIZE, data)))
  }

  // --- Writing -----------------------------------------------------------------------------------------------

  /** A change of the directory that moves no file and a write of its bytes keep the contents of a file whose
      blocks were not written. */
  lemma SameBytes(before: Image, after: Image, blocks: nat, i: nat, j: nat, lo: nat, hi: nat)
    requires ImageOk(before, blocks) && ImageOk(after, blocks)
    requires |after.dir| == |before.dir| && |after.bytes| == |before.bytes|
    requires i < EndOf(before.dir) && IsLive(before.dir[i]) && j < EndOf(after.dir) && after.dir[j] == before.dir[i]
    requires hi <= lo || Limit(before.dir[i]) * BLOCK_SIZE <= lo || hi <= before.dir[i].start * BLOCK_SIZE
    requires forall k | 0 <= k < |before.bytes| && !(lo <= k < hi)
            && !(DIRECTORY_AT <= k < DIRECTORY_AT + RECORD_SIZE * |before.dir|) ::
               after.bytes[k] == before.bytes[k]
    ensures Contents(after, blocks, j) == Contents(before, blocks, i)
  {
    assert Placed(before.dir[i], blocks);
  }

  /** What writing a file does to the directory and the bytes. */
  lemma StoredFacts(image: Image, blocks: nat, slot: nat, data: seq<byte>)
    requires ImageOk(image, blocks) && slot < EndOf(image.dir) && IsLive(image.dir[slot])
    requires |data| <= image.dir[slot].reserved * BLOCK_SIZE
    ensures Placed(image.dir[slot], blocks) && |data| < WORD
    ensures var a := Stored(image.dir, image.bytes, slot, data); var at := image.dir[slot].start * BLOCK_SIZE;
      && a.dir == image.dir[slot := image.dir[slot].(size := |data|)]
      && |a.bytes| == |image.bytes| && EndOf(a.dir) == EndOf(image.dir)
      && a.bytes[at..at + |data|] == data
      && ImageOk(a, blocks) && BytesKept(image, a, at, at + |data|)
  {
    var e := image.dir[slot];
    assert Placed(e, blocks);
    ResizedOk(image.dir, slot, |data|, blocks);
    hide DirOk, Sized, EncodeDirectory, AllStorable, Placed;
    var d := image.dir[slot := e.(size := |data|)];
    var bytes := Splice(image.bytes, e.start * BLOCK_SIZE, data);
    FlushFacts(d, bytes, blocks);
  }

  lemma FlushFacts(d: Directory, bytes: seq<byte>, blocks: nat)
    requires AllStorable(d) && RECORD_SIZE * |d| <= 4096
    requires 2 * BLOCK_SIZE <= blocks * BLOCK_SIZE <= |bytes| && blocks * BLOCK_SIZE < WORD
    ensures Saved(Image(d, Flush(d, bytes)), blocks)
    ensures forall k | 0 <= k < |bytes| && !(DIRECTORY_AT <= k < DIRECTORY_AT + RECORD_SIZE * |d|) ::
            Flush(d, bytes)[k] == bytes[k]
  {}

  lemma ResizedOk(dir: Directory, slot: nat, size: nat, blocks: nat)
    requires DirOk(dir, blocks) && Sized(dir) && AllStorable(dir) && slot < EndOf(dir) && IsLive(dir[slot])
    requires size <= dir[slot].reserved * BLOCK_SIZE && size < WORD
    ensures var d := dir[slot := dir[slot].(size := size)];
      DirOk(d, blocks) && Sized(d) && AllStorable(d) && EndOf(d) == EndOf(dir)
  {
    var d := dir[slot := dir[slot].(size := size)];
    SameEnd(dir, d);
    forall i, j | 0 <= i < j < EndOf(d) && IsLive(d[i]) && IsLive(d[j]) ensures Apart(d[i], d[j]) {
      assert Apart(dir[i], dir[j]);
    }
  }

  lemma SameEnd(a: Directory, b: Directory)
    requires |a| == |b| && forall i | 0 <= i < |a| :: IsEnd(a[i]) <==> IsEnd(b[i])
    ensures EndOf(a) == EndOf(b)
  {}

  /** Files not called `name` have the same record before and after. */
  ghost predicate OthersKept(before: Directory, after: Directory, name: string) {
    && (forall i | 0 <= i < EndOf(before) && IsLive(before[i]) && before[i].name != name ::
        i < EndOf(after) && after[i] == before[i])
    && (forall i | 0 <= i < EndOf(after) && IsLive(after[i]) && after[i].name != name ::
        i < EndOf(before) && before[i] == after[i])
  }

  ghost predicate BytesKept(before: Image, after: Image, lo: nat, hi: nat) {
    && |after.bytes| == |before.bytes| && |after.dir| == |before.dir|
    && forall k | 0 <= k < |before.bytes| && !(lo <= k < hi)
        && !(DIRECTORY_AT <= k < DIRECTORY_AT + RECORD_SIZE * |before.dir|) ::
         after.bytes[k] == before.bytes[k]
  }

  lemma OthersFetched(before: Image, after: Image, blocks: nat, name: string, other: string, lo: nat, hi: nat)
    requires ImageOk(before, blocks) && ImageOk(after, blocks) && other != name
    requires OthersKept(before.dir, after.dir, name) && BytesKept(before, after, lo, hi)
    requires forall i | 0 <= i < EndOf(before.dir) && IsLive(before.dir[i]) && before.dir[i].name != name ::
               hi <= lo || Limit(before.dir[i]) * BLOCK_SIZE <= lo || hi <= before.dir[i].start * BLOCK_SIZE
    ensures Fetch(after, blocks, other) == Fetch(before, blocks, other)
  {
    var s := FindFile(before.dir, other);
    if s.Some? {
      var slot := s.value;
      assert after.dir[slot] == before.dir[slot];
      Unique(after.dir, blocks, slot);
      SameBytes(before, after, blocks, slot, slot, lo, hi);
    }
  }

  lemma Unique(dir: Directory, blocks: nat, slot: nat)
    requires DirOk(dir, blocks) && slot < EndOf(dir) && IsLive(dir[slot])
    ensures FindFile(dir, dir[slot].name) == Some(slot)
  {
    forall i | 0 <= i < EndOf(dir) && i != slot && IsLive(dir[i]) ensures dir[i].name != dir[slot].name {
      assert Apart(dir[if i < slot then i else slot], dir[if i < slot then slot else i]);
    }
  }

  /** Reading a file back gives exactly what was written, when its blocks can hold that; otherwise nothing changes. */
  lemma StoreThenFetch(image: Image, blocks: nat, name: string, data: seq<byte>)
    requires ImageOk(image, blocks)
    ensures var a := Store(image, blocks, name, data);
      && ImageOk(a, blocks)
      && match FindFile(image.dir, name)
         case None => a == image
         case Some(slot) =>
           if image.dir[slot].reserved * BLOCK_SIZE < |data| then a == image else Fetch(a, blocks, name) == Some(data)
  {
    match FindFile(image.dir, name) {
      case None =>
      case Some(slot) =>
        if |data| <= image.dir[slot].reserved * BLOCK_SIZE {
          StoredFacts(image, blocks, slot, data);
          var a := Stored(image.dir, image.bytes, slot, data);
          Unique(a.dir, blocks, slot);
        }
    }
  }

  /** A write touches no other file's record or contents, nor any byte of the reserved blocks outside the directory. */
  lemma StoreKeepsOthers(image: Image, blocks: nat, name: string, data: seq<byte>, other: string)
    requires ImageOk(image, blocks) && other != name
    ensures var a := Store(image, blocks, name, data);
      && ImageOk(a, blocks) && Fetch(a, blocks, other) == Fetch(image, blocks, other)
      && OthersKept(image.dir, a.dir, name) && |a.bytes| == |image.bytes|
      && forall k | 0 <= k < |a.bytes| && (k < BLOCK_SIZE || (blocks - 1) * BLOCK_SIZE <= k) &&
           !(DIRECTORY_AT <= k < DIRECTORY_AT + RECORD_SIZE * |image.dir|) :: a.bytes[k] == image.bytes[k]
  {
    match FindFile(image.dir, name) {
      case None =>
      case Some(slot) =>
        if |data| <= image.dir[slot].reserved * BLOCK_SIZE {
          StoredFacts(image, blocks, slot, data);
          StoredOthers(image, blocks, slot, data, other);
          WriteApart(image, blocks, slot, |data|);
          hide Stored, ImageOk, Fetch, FindFrom;
        }
    }
  }

  lemma StoredOthers(image: Image, blocks: nat, slot: nat, data: seq<byte>, other: string)
    requires ImageOk(image, blocks) && slot < EndOf(image.dir) && IsLive(image.dir[slot])
    requires other != image.dir[slot].name
    requires |data| <= image.dir[slot].reserved * BLOCK_SIZE
    ensures Placed(image.dir[slot], blocks) && |data| < WORD
    ensures var a := Stored(image.dir, image.bytes, slot, data);
      && ImageOk(a, blocks) && Fetch(a, blocks, other) == Fetch(image, blocks, other)
      && OthersKept(image.dir, a.dir, image.dir[slot].name)
  {
    StoredFacts(image, blocks, slot, data);
    WriteApart(image, blocks, slot, |data|);
    var a := Stored(image.dir, image.bytes, slot, data);
    hide Stored, ImageOk, Fetch, FindFrom, BytesKept;
    var at := image.dir[slot].start * BLOCK_SIZE;
    OthersFetched(image, a, blocks, image.dir[slot].name, other, at, at + |data|);
  }

  /** The bytes written to one file lie outside every other file's blocks. */
  lemma WriteApart(image: Image, blocks: nat, slot: nat, size: nat)
    requires ImageOk(image, blocks) && slot < EndOf(image.dir) && IsLive(image.dir[slot])
    requires size <= image.dir[slot].reserved * BLOCK_SIZE
    ensures var at := image.dir[slot].start * BLOCK_SIZE;
      && BLOCK_SIZE <= at && at + size <= (blocks - 1) * BLOCK_SIZE
      && forall i | 0 <= i < EndOf(image.dir) && IsLive(image.dir[i]) && image.dir[i].name != image.dir[slot].name ::
           at + size <= at || Limit(image.dir[i]) * BLOCK_SIZE <= at || at + size <= image.dir[i].start * BLOCK_SIZE
  {
    var dir, e := image.dir, image.dir[slot];
    assert Placed(e, blocks);
    forall i | 0 <= i < EndOf(dir) && IsLive(dir[i]) && dir[i].name != e.name
      ensures Limit(dir[i]) * BLOCK_SIZE <= e.start * BLOCK_SIZE || Limit(e) * BLOCK_SIZE <= dir[i].start * BLOCK_SIZE
    {
      assert Placed(dir[i], blocks);
      assert Apart(dir[if i < slot then i else slot], dir[if i < slot then slot else i]);
    }
  }

  // --- Creating and deleting ------------------------------------------------------------------------------------

  /** A changed directory is flushed. */
  ghost function Rewritten(image: Image, d: Directory): Image
    requires AllStorable(d) && |d| == |image.dir| && DIRECTORY_AT + RECORD_SIZE * |d| <= |image.bytes|
  {
    if d == image.dir then image else Image(d, Flush(d, image.bytes))
  }

  ghost predicate CommandOk(c: Command) {
    match c
    case CreateFile(name, maxSize) => CString(name) && maxSize >= 1
    case DeleteFile(_) => true
  }

  lemma ApplyStorable(dir: Directory, blocks: nat, c: Command)
    requires AllStorable(dir) && DirOk(dir, blocks) && CommandOk(c)
    ensures AllStorable(Apply(dir, blocks, c))
  {
    match c {
      case DeleteFile(name) =>
      case CreateFile(name, maxSize) =>
        hide Search, SortedCopy, DirOk, AllStorable, WithFile, FindFrom, FirstFree;
        var wanted, r := BlocksFor(maxSize), SortedCopy(dir[..Considered(dir)]);
        StartFacts(dir, wanted, blocks, r);
        BlocksBelowWord(dir, blocks);
        if FirstFree(dir).Some? && Search(r, 0, 1, blocks, wanted) != 0 {
          WithFileStorable(dir, FirstFree(dir).value, Entry(name, Search(r, 0, 1, blocks, wanted), wanted, 0));
        }
    }
  }

  lemma BlocksBelowWord(dir: Directory, blocks: nat)
    requires DirOk(dir, blocks)
    ensures blocks < WORD
  {}

  lemma WithFileStorable(dir: Directory, f: nat, file: Entry)
    requires AllStorable(dir) && f < |dir| && Storable(file)
    ensures AllStorable(WithFile(dir, f, file))
  {}

  lemma RewrittenOk(image: Image, d: Directory, blocks: nat, name: string, other: string)
    requires ImageOk(image, blocks) && AllStorable(d) && DirOk(d, blocks) && Sized(d) && |d| == |image.dir|
    requires OthersKept(image.dir, d, name) && other != name
    ensures Rewritten(image, d).dir == d
    ensures ImageOk(Rewritten(image, d), blocks)
    ensures Fetch(Rewritten(image, d), blocks, other) == Fetch(image, blocks, other)
  {
    if d != image.dir {
      FlushFacts(d, image.bytes, blocks);
      hide Fetch, DirOk, Sized, EncodeDirectory;
      OthersFetched(image, Rewritten(image, d), blocks, name, other, 0, 0);
    }
  }

  /** A safe create adds an empty file, or nothing; the contents of all other files stay the same. A name that
      is empty or has the deleted mark names no file, before or after. */
  lemma CreateKeepsContents(image: Image, blocks: nat, name: string, maxSize: nat, other: string)
    requires ImageOk(image, blocks) && SafeStep(image.dir, blocks, CreateFile(name, maxSize))
    requires CString(name) && other != name
    ensures var c := CreateFile(name, maxSize); var d := Apply(image.dir, blocks, c);
      && AllStorable(d)
      && var a := Rewritten(image, d);
      && ImageOk(a, blocks) && Fetch(a, blocks, other) == Fetch(image, blocks, other)
      && (d == image.dir ==> a == image)
      && (d != image.dir ==> Fetch(image, blocks, name) == None)
      && (d != image.dir ==> Fetch(a, blocks, name) == if FileName(name) then Some([]) else None)
  {
    var c := CreateFile(name, maxSize);
    var d := Apply(image.dir, blocks, c);
    ApplyStorable(image.dir, blocks, c);
    CreatedOthers(image.dir, blocks, name, maxSize);
    hide Apply, SafeStep, DirOk, Sized, Rewritten, FileName;
    if d != image.dir {
      RewrittenOk(image, d, blocks, name, other);
      if FileName(name) {
        EmptyFile(Rewritten(image, d), blocks, name);
      }
      hide Fetch;
    } else {
      SameImage(image);
    }
  }

  lemma SameImage(image: Image)
    requires AllStorable(image.dir) && DIRECTORY_AT + RECORD_SIZE * |image.dir| <= |image.bytes|
    ensures Rewritten(image, image.dir) == image
  {}

  lemma EmptyFile(image: Image, blocks: nat, name: string)
    requires ImageOk(image, blocks) && FindFile(image.dir, name).Some?
    requires image.dir[FindFile(image.dir, name).value].size == 0
    ensures Fetch(image, blocks, name) == Some([])
  {
    assert Contents(image, blocks, FindFile(image.dir, name).value) == [];
  }

  lemma CreatedOthers(dir: Directory, blocks: nat, name: string, maxSize: nat)
    requires DirOk(dir, blocks) && Sized(dir) && SafeStep(dir, blocks, CreateFile(name, maxSize))
    ensures var d := Apply(dir, blocks, CreateFile(name, maxSize));
      && (d != dir ==>
            && FindFile(dir, name).None? && DirOk(d, blocks) && OthersKept(dir, d, name) && Sized(d)
            && if FileName(name) then FindFile(d, name).Some? && d[FindFile(d, name).value].size == 0
               else FindFile(d, name).None?)
  {
    hide Search, SortedCopy, CreateSafe, WithFile, FirstFree;
    var wanted, r := BlocksFor(maxSize), SortedCopy(dir[..Considered(dir)]);
    var d := Create(dir, name, wanted, blocks, r);
    if d != dir {
      CreateKeepsIff(dir, name, wanted, blocks, r);
      AddedRecord(dir, FirstFree(dir).value, Entry(name, Search(r, 0, 1, blocks, wanted), wanted, 0), blocks);
    }
  }

  const MIB := 1048576

  /** The least number of blocks that holds so many MiB. */
  predicate Covers(n: nat, maxSize: nat) { maxSize * MIB <= n * BLOCK_SIZE < maxSize * MIB + BLOCK_SIZE }

  lemma BlocksForCovers(maxSize: nat, n: nat)
    ensures Covers(BlocksFor(maxSize), maxSize) && (Covers(n, maxSize) ==> n == BlocksFor(maxSize))
  {}

  /** A safe create that records a file reserves the fewest blocks that hold the MiB it was asked for. */
  lemma CreateReserves(dir: Directory, blocks: nat, name: string, maxSize: nat)
    requires DirOk(dir, blocks) && Sized(dir) && FileName(name) && SafeStep(dir, blocks, CreateFile(name, maxSize))
    ensures var d := Apply(dir, blocks, CreateFile(name, maxSize));
      d != dir ==> FindFile(d, name).Some? && Covers(d[FindFile(d, name).value].reserved, maxSize)
  {
    hide Search, SortedCopy, CreateSafe, WithFile, FirstFree;
    var wanted, r := BlocksFor(maxSize), SortedCopy(dir[..Considered(dir)]);
    BlocksForCovers(maxSize, wanted);
    if Create(dir, name, wanted, blocks, r) != dir {
      CreateKeepsIff(dir, name, wanted, blocks, r);
      AddedRecord(dir, FirstFree(dir).value, Entry(name, Search(r, 0, 1, blocks, wanted), wanted, 0), blocks);
    }
  }

  /** And it is refused only for a name in use, a full directory, or want of room for just that many blocks. */
  lemma CreateRefusedIff(dir: Directory, blocks: nat, name: string, maxSize: nat, n: nat)
    requires DirOk(dir, blocks) && FileName(name) && maxSize >= 1 && Covers(n, maxSize)
    ensures Apply(dir, blocks, CreateFile(name, maxSize)) == dir <==>
              FindFile(dir, name).Some? || !Writes(dir, blocks, n)
  {
    hide Search, SortedCopy, FirstFree, DirOk, Writes, FindFrom;
    var r := SortedCopy(dir[..Considered(dir)]);
    BlocksForCovers(maxSize, n);
    StartFacts(dir, n, blocks, r);
    var start := Search(r, 0, 1, blocks, n);
    if FindFile(dir, name).None? && FirstFree(dir).Some? && start != 0 {
      var f := FirstFree(dir).value;
      assert WithFile(dir, f, Entry(name, start, n, 0))[f] != dir[f];
    }
    WritesNeedsSlot(dir, blocks, n);
  }

  lemma WritesNeedsSlot(dir: Directory, blocks: nat, wanted: nat)
    ensures Writes(dir, blocks, wanted) ==> FirstFree(dir).Some?
  {}

  lemma AddedRecord(dir: Directory, f: nat, file: Entry, blocks: nat)
    requires f < |dir| && !IsLive(dir[f]) && (forall j | 0 <= j < f :: IsLive(dir[j])) && file.size == 0
    requires var d := WithFile(dir, f, file); DirOk(d, blocks) && Keeps(dir, d)
    requires FindFile(dir, file.name).None? && Sized(dir)
    ensures var d := WithFile(dir, f, file);
      && OthersKept(dir, d, file.name) && Sized(d)
      && if FileName(file.name) then FindFile(d, file.name) == Some(f) && d[f] == file
         else FindFile(d, file.name).None?
  {
    hide WithFile;
    var d := WithFile(dir, f, file);
    if IsEnd(file) {
      MarkerEnds(dir, f, file);
    } else {
      WithFileSlots(dir, f, file);
    }
    if IsLive(file) {
      Unique(d, blocks, f);
    }
  }

  /** Flushing a directory that is saved already changes no byte. */
  lemma FlushSaved(image: Image, blocks: nat)
    requires Saved(image, blocks)
    ensures Flush(image.dir, image.bytes) == image.bytes
  {
    var b := Flush(image.dir, image.bytes);
    forall k | 0 <= k < |b| ensures b[k] == image.bytes[k] {
      if DIRECTORY_AT <= k < DIRECTORY_AT + RECORD_SIZE * |image.dir| {
        var e := EncodeDirectory(image.dir);
        assert image.bytes[DIRECTORY_AT..DIRECTORY_AT + RECORD_SIZE * |image.dir|][k - DIRECTORY_AT]
            == e[k - DIRECTORY_AT];
        assert b[DIRECTORY_AT..DIRECTORY_AT + |e|][k - DIRECTORY_AT] == e[k - DIRECTORY_AT];
      }
    }
  }

  /** Deleting makes a file unreadable and keeps the contents of all others. */
  lemma DeleteKeepsContents(image: Image, blocks: nat, name: string, other: string)
    requires ImageOk(image, blocks) && other != name
    ensures var d := Delete(image.dir, name);
      && AllStorable(d)
      && var a := Rewritten(image, d);
      && ImageOk(a, blocks) && Fetch(a, blocks, other) == Fetch(image, blocks, other) && Fetch(a, blocks, name) == None
  {
    var d := Delete(image.dir, name);
    ApplyStorable(image.dir, blocks, DeleteFile(name));
    DeleteRemoves(image.dir, name, blocks);
    hide Delete;
    RewrittenOk(image, d, blocks, name, other);
  }
}
