// Whole runs of the BMFS utility: every file keeps what was last written to it.
module BmfsRuns {
  import opened BmfsDirectory
  import opened BmfsDisk
  import opened Bytes
  import opened Wrappers

  datatype DiskCommand = Change(c: Command) | Put(name: string, data: seq<byte>)

  function NameOf(c: DiskCommand): string {
    match c
    case Change(CreateFile(name, _)) => name
    case Change(DeleteFile(name)) => name
    case Put(name, _) => name
  }

  /** A create is safe for the directory, and its name can be stored. */
  ghost predicate StepSafe(image: Image, blocks: nat, c: DiskCommand) {
    c.Change? ==> SafeStep(image.dir, blocks, c.c) && CommandOk(c.c)
  }

  ghost function Step(image: Image, blocks: nat, c: DiskCommand): Image
    requires ImageOk(image, blocks) && StepSafe(image, blocks, c)
  {
    match c
    case Change(d) =>
      ApplyStorable(image.dir, blocks, d);
      Rewritten(image, Apply(image.dir, blocks, d))
    case Put(name, data) => Store(image, blocks, name, data)
  }

  /** What a command makes of the contents of one file. */
  ghost function Effect(image: Image, blocks: nat, c: DiskCommand, name: string,
      was: Option<seq<byte>>): Option<seq<byte>> {
    if NameOf(c) != name then was
    else match c
      case Change(CreateFile(_, _)) =>
        if Apply(image.dir, blocks, c.c) != image.dir && FileName(name) then Some([]) else was
      case Change(DeleteFile(_)) => None
      case Put(_, data) =>
        match FindFile(image.dir, name)
        case None => was
        case Some(slot) => if |data| <= image.dir[slot].reserved * BLOCK_SIZE then Some(data) else was
  }

  /** Each safe command keeps the disk well-formed and has its effect on its own file and no other. */
  lemma StepIsEffect(image: Image, blocks: nat, c: DiskCommand, name: string)
    requires ImageOk(image, blocks) && StepSafe(image, blocks, c)
    ensures ImageOk(Step(image, blocks, c), blocks)
    ensures Fetch(Step(image, blocks, c), blocks, name) == Effect(image, blocks, c, name, Fetch(image, blocks, name))
  {
    hide ImageOk, Fetch, SafeStep, Apply, Rewritten, Store;
    var other := if NameOf(c) != name then name else name + "x";
    match c {
      case Change(CreateFile(n, size)) => CreateKeepsContents(image, blocks, n, size, other);
      case Change(DeleteFile(n)) => DeleteStep(image, blocks, n, other);
      case Put(n, data) =>
        StoreThenFetch(image, blocks, n, data);
        StoreKeepsOthers(image, blocks, n, data, other);
    }
  }

  lemma DeleteStep(image: Image, blocks: nat, name: string, other: string)
    requires ImageOk(image, blocks) && other != name
    ensures var d := Apply(image.dir, blocks, DeleteFile(name));
      && AllStorable(d) && |d| == |image.dir|
      && DIRECTORY_AT + RECORD_SIZE * |d| <= |image.bytes|
      && var a := Rewritten(image, d);
      && ImageOk(a, blocks) && Fetch(a, blocks, other) == Fetch(image, blocks, other) && Fetch(a, blocks, name) == None
  {
    DeleteKeepsContents(image, blocks, name, other);
    hide Delete, Fetch, Rewritten, DirOk, Sized;
  }

  ghost predicate SafeRun(image: Image, blocks: nat, run: seq<DiskCommand>)
    requires ImageOk(image, blocks)
    decreases run
  {
    run == [] ||
    (StepSafe(image, blocks, run[0]) &&
     (StepIsEffect(image, blocks, run[0], "");
      SafeRun(Step(image, blocks, run[0]), blocks, run[1..])))
  }

  ghost function Final(image: Image, blocks: nat, run: seq<DiskCommand>): (final: Image)
    requires ImageOk(image, blocks) && SafeRun(image, blocks, run)
    ensures ImageOk(final, blocks)
    decreases run
  {
    if run == [] then image
    else
      StepIsEffect(image, blocks, run[0], "");
      Final(Step(image, blocks, run[0]), blocks, run[1..])
  }

  /** The effects of all commands of a run on the contents of one file, one after the other. */
  ghost function Remembered(image: Image, blocks: nat, run: seq<DiskCommand>, name: string,
      was: Option<seq<byte>>): Option<seq<byte>>
    requires ImageOk(image, blocks) && SafeRun(image, blocks, run)
    decreases run
  {
    if run == [] then was
    else
      StepIsEffect(image, blocks, run[0], "");
      Remembered(Step(image, blocks, run[0]), blocks, run[1..], name, Effect(image, blocks, run[0], name, was))
  }

  /** After every safe run each file reads as what was last written to it, as if files were kept in a table by
      name and never shared the disk. */
  lemma {:induction false} RunReadsLastWrite(image: Image, blocks: nat, run: seq<DiskCommand>, name: string)
    requires ImageOk(image, blocks) && SafeRun(image, blocks, run)
    ensures Fetch(Final(image, blocks, run), blocks, name) ==
            Remembered(image, blocks, run, name, Fetch(image, blocks, name))
    decreases run
  {
    hide ImageOk, Fetch, Step, Effect, StepSafe;
    if run != [] {
      StepIsEffect(image, blocks, run[0], name);
      RunReadsLastWrite(Step(image, blocks, run[0]), blocks, run[1..], name);
    }
  }

  /** What was asked for can be written: after a safe create of so many MiB that records the file, up to that many bytes
      are stored and read back. */
  lemma CreateThenPut(image: Image, blocks: nat, name: string, maxSize: nat, data: seq<byte>)
    requires ImageOk(image, blocks) && FileName(name) && |data| <= maxSize * MIB
    requires StepSafe(image, blocks, Change(CreateFile(name, maxSize)))
    requires Apply(image.dir, blocks, CreateFile(name, maxSize)) != image.dir
    ensures var a := Step(image, blocks, Change(CreateFile(name, maxSize)));
      && ImageOk(a, blocks)
      && var b := Store(a, blocks, name, data); ImageOk(b, blocks) && Fetch(b, blocks, name) == Some(data)
  {
    hide ImageOk, Fetch, SafeStep, Apply, Store, DirOk, Sized;
    var c := Change(CreateFile(name, maxSize));
    StepIsEffect(image, blocks, c, name);
    ImageParts(image, blocks);
    CreateReserves(image.dir, blocks, name, maxSize);
    StoreThenFetch(Step(image, blocks, c), blocks, name, data);
  }

  lemma ImageParts(image: Image, blocks: nat)
    requires ImageOk(image, blocks)
    ensures DirOk(image.dir, blocks) && Sized(image.dir)
  {}

  /** A formatted disk is well-formed and holds no file. */
  lemma FormattedOk(slots: nat, blocks: nat, bytes: seq<byte>, name: string)
    requires RECORD_SIZE * slots <= 4096 && 2 <= blocks && blocks * BLOCK_SIZE <= |bytes| && blocks * BLOCK_SIZE < WORD
    ensures AllStorable(Formatted(slots))
    ensures var image := Image(Formatted(slots), Flush(Formatted(slots), bytes));
      ImageOk(image, blocks) && Fetch(image, blocks, name) == None
  {
    assert EndOf(Formatted(slots)) == 0;
    FlushFacts(Formatted(slots), bytes, blocks);
  }
}
