// The packer that writes the kernel image, and the boot-time code that unpacks it in memory.
module ModuleLoader {
  import opened Bytes
  import opened ModuleImage

  const BUFFER_SIZE := 128
  const WORD_SIZE := 4

  /** Appends a whole file to the target, a buffer at a time. */
  method WriteFile(target: seq<byte>, source: seq<byte>) returns (written: seq<byte>)
    ensures written == target + source
  {
    written := target;
    var at, eof := 0, false;
    while !eof
      invariant at <= |source| && written == target + source[..at] && (eof ==> at == |source|)
      decreases |source| - at, !eof
    {
      var read := if |source| - at < BUFFER_SIZE then |source| - at else BUFFER_SIZE;
      eof := read < BUFFER_SIZE;
      written := written + source[at..at + read];
      assert source[..at + read] == source[..at] + source[at..at + read];
      at := at + read;
    }
  }

  /** Builds the image from a kernel file and the module files. */
  method BuildImage(kernel: seq<byte>, modules: seq<seq<byte>>) returns (target: seq<byte>)
    ensures target == Image(kernel, modules)
  {
    hide WriteUint32, Body;
    target := WriteFile([], kernel);
    target := target + WriteUint32(|modules|);
    assert modules[0..] == modules;
    assert target + Body(modules) == Image(kernel, modules);
    for i := 0 to |modules|
      invariant target + Body(modules[i..]) == Image(kernel, modules)
    {
      BodyFrom(target, modules, i);
      target := target + WriteUint32(|modules[i]|);
      target := WriteFile(target, modules[i]);
    }
    NoBody(target, modules);
  }

  lemma BodyFrom(target: seq<byte>, modules: seq<seq<byte>>, i: nat)
    requires i < |modules|
    ensures target + WriteUint32(|modules[i]|) + modules[i] + Body(modules[i + 1..]) == target + Body(modules[i..])
  {
    hide WriteUint32, Body;
    assert modules[i..] == [modules[i]] + modules[i + 1..];
    BodyOfFirst(modules[i], modules[i + 1..]);
  }

  lemma NoBody(target: seq<byte>, modules: seq<seq<byte>>)
    ensures target + Body(modules[|modules|..]) == target
  {}

  class Memory {
    const mem: array<byte>

    constructor (cells: array<byte>)
      ensures mem == cells
    {
      mem := cells;
    }

    /** Copies forwards: by four-byte words when both addresses and the length are aligned, else by bytes. */
    method Memcpy(dst: nat, src: nat, length: nat)
      requires Copies(mem[..], dst, src, length)
      modifies mem
      ensures src + length <= mem.Length && dst + length <= mem.Length
      ensures mem[..] == CopiedTo(old(mem[..]), dst, src, length)
    {
      if dst % WORD_SIZE == 0 && src % WORD_SIZE == 0 && length % WORD_SIZE == 0 {
        CopyWords(dst, src, length);
      } else {
        CopyBytes(dst, src, length);
      }
    }

    method CopyWords(dst: nat, src: nat, length: nat)
      requires Copies(mem[..], dst, src, length)
      requires dst % WORD_SIZE == 0 && src % WORD_SIZE == 0 && length % WORD_SIZE == 0
      modifies mem
      ensures src + length <= mem.Length && dst + length <= mem.Length
      ensures mem[..] == CopiedTo(old(mem[..]), dst, src, length)
    {
      hide Splice, Copies, CopiedTo;
      ghost var was := mem[..];
      var words := length / WORD_SIZE;
      CopyBounds(was, dst, src, length);
      for i := 0 to words
        invariant mem[..] == CopiedTo(was, dst, src, i * WORD_SIZE)
      {
        CopiedFurther(was, dst, src, length, i * WORD_SIZE, WORD_SIZE);
        CopyWord(dst + i * WORD_SIZE, src + i * WORD_SIZE);
      }
    }

    method CopyBytes(dst: nat, src: nat, length: nat)
      requires Copies(mem[..], dst, src, length)
      modifies mem
      ensures src + length <= mem.Length && dst + length <= mem.Length
      ensures mem[..] == CopiedTo(old(mem[..]), dst, src, length)
    {
      hide Splice, Copies, CopiedTo;
      ghost var was := mem[..];
      CopyBounds(was, dst, src, length);
      for i := 0 to length
        invariant mem[..] == CopiedTo(was, dst, src, i)
      {
        CopiedFurther(was, dst, src, length, i, 1);
        SpliceOne(mem[..], dst + i, src + i);
        mem[dst + i] := mem[src + i];
      }
    }

    method CopyWord(dst: nat, src: nat)
      requires dst + WORD_SIZE <= mem.Length && src + WORD_SIZE <= mem.Length
      modifies mem
      ensures mem[..] == Splice(old(mem[..]), dst, old(mem[..])[src..src + WORD_SIZE])
    {
      hide Splice, ReadUint32, WriteUint32;
      WordRoundTrip(mem[..], src);
      var word := LoadWord(src);
      StoreWord(dst, word);
    }

    method LoadWord(at: nat) returns (word: nat)
      requires at + WORD_SIZE <= mem.Length
      ensures word == ReadUint32(mem[..], at)
    {
      word := FromLittleEndian(mem[at..at + WORD_SIZE]);
      assert mem[at..at + WORD_SIZE] == mem[..][at..at + WORD_SIZE];
    }

    method StoreWord(at: nat, word: nat)
      requires at + WORD_SIZE <= mem.Length && word < UINT32
      modifies mem
      ensures mem[..] == Splice(old(mem[..]), at, WriteUint32(word))
    {
      var b := WriteUint32(word);
      forall k | 0 <= k < WORD_SIZE {
        mem[at + k] := b[k];
      }
    }

    method ReadUint32At(address: nat) returns (value: nat, next: nat)
      requires address + 4 <= mem.Length
      ensures value == ReadUint32(mem[..], address) && next == address + 4
    {
      value := LoadWord(address);
      next := address + 4;
    }

    /** Copies one module to the next slot of the drop area. */
    method LoadModule(cursor: nat, last: nat) returns (next: nat, info: Module, nextLast: nat)
      requires cursor + 4 <= mem.Length && Copies(mem[..], last, cursor + 4, ReadUint32(mem[..], cursor))
      modifies mem
      ensures var size := ReadUint32(old(mem[..]), cursor);
        && next == cursor + 4 + size && info == Module(last, size) && nextLast == last + DROP_STRIDE
        && next <= mem.Length && last + size <= mem.Length
        && mem[..] == CopiedTo(old(mem[..]), last, cursor + 4, size)
    {
      var size, start := ReadUint32At(cursor);
      nextLast := last + DROP_STRIDE;
      info := Module(last, size);
      Memcpy(last, start, size);
      next := start + size;
    }

    method LoadModules(payloadStart: nat, dropStart: nat) returns (modules: seq<Module>)
      requires Load(mem[..], payloadStart, dropStart).Done?
      modifies mem
      ensures Done(mem[..], modules) == Load(old(mem[..]), payloadStart, dropStart)
    {
      hide ReadUint32, Splice, LoadFrom, Copies, CopiedTo;
      ghost var goal := Load(mem[..], payloadStart, dropStart);
      var count, cursor := ReadUint32At(payloadStart);
      var last := dropStart;
      modules := [];
      for i := 0 to count
        invariant |modules| == i
        invariant var o := LoadFrom(mem[..], cursor, last, count - i); o.Done? && goal == Done(o.mem, modules + o.table)
      {
        LoadFromStep(mem[..], cursor, last, count - i, modules);
        var info;
        cursor, info, last := LoadModule(cursor, last);
        modules := modules + [info];
      }
      LoadNone(mem[..], cursor, last);
    }

    /** From packed image to loaded modules: in whatever memory holds the image of a kernel with these modules
        at `start`, away from the area written, every module ends in its slot exactly when none is copied over
        different bytes of an earlier one; modules that fit their slots always do. */
    method Boot(start: nat, dropStart: nat, ghost kernel: seq<byte>, ghost files: seq<seq<byte>>, kernelSize: nat)
      returns (modules: seq<Module>)
      requires Sizes(files) && kernelSize == |kernel| && HasBytes(mem[..], start, Image(kernel, files))
      requires dropStart + Extent(files) <= mem.Length
      requires start + |Image(kernel, files)| <= dropStart || dropStart + Extent(files) <= start
      modifies mem
      ensures AllInPlace(mem[..], modules, dropStart, files) <==> Compatible(files)
      ensures Fitting(files) ==> AllInPlace(mem[..], modules, dropStart, files)
      ensures SameOutside(old(mem[..]), mem[..], dropStart, dropStart + Extent(files))
    {
      hide Load, Payload, HasBytes, Extent, AllInPlace, Compatible, SameOutside, Overlaid, Tabled, Sizes, Fitting;
      SplitBytes(mem[..], start, kernel, Payload(files));
      LoadGivesBackIff(mem[..], start + kernelSize, dropStart, files);
      FittingIsCompatible(files);
      modules := LoadModules(start + kernelSize, dropStart);
    }
  }

  /** One turn of the loading loop. */
  lemma LoadFromStep(mem: seq<byte>, cursor: nat, last: nat, count: nat, modules: seq<Module>)
    requires count > 0 && LoadFrom(mem, cursor, last, count).Done?
    ensures cursor + 4 <= |mem| && Copies(mem, last, cursor + 4, ReadUint32(mem, cursor))
    ensures var size := ReadUint32(mem, cursor); var o := LoadFrom(mem, cursor, last, count);
      var r := LoadFrom(CopiedTo(mem, last, cursor + 4, size), cursor + 4 + size, last + DROP_STRIDE, count - 1);
      r.Done? && r.mem == o.mem && modules + o.table == modules + [Module(last, size)] + r.table
  {
    hide ReadUint32, Splice;
  }

  /** Memory once the first n bytes are copied. */
  function CopiedTo(was: seq<byte>, dst: nat, src: nat, n: nat): (b: seq<byte>)
    requires src + n <= |was| && dst + n <= |was|
    ensures |b| == |was|
  {
    Splice(was, dst, was[src..src + n])
  }

  lemma CopyBounds(was: seq<byte>, dst: nat, src: nat, length: nat)
    requires Copies(was, dst, src, length)
    ensures src + length <= |was| && dst + length <= |was|
    ensures CopiedTo(was, dst, src, 0) == was
  {}

  lemma SpliceOne(mem: seq<byte>, dst: nat, src: nat)
    requires dst < |mem| && src < |mem|
    ensures mem[dst := mem[src]] == Splice(mem, dst, mem[src..src + 1])
  {}

  /** A word read and written back is the same four bytes. */
  lemma WordRoundTrip(mem: seq<byte>, at: nat)
    requires at + WORD_SIZE <= |mem|
    ensures ReadUint32(mem, at) < UINT32 && WriteUint32(ReadUint32(mem, at)) == mem[at..at + WORD_SIZE]
  {
    assert Power256(4) == UINT32;
    BytesRoundTrip(mem[at..at + WORD_SIZE]);
  }

  /** Copying n more bytes forwards extends what has been copied: the bytes still to be read are untouched. */
  lemma CopiedFurther(was: seq<byte>, dst: nat, src: nat, length: nat, done: nat, n: nat)
    requires Copies(was, dst, src, length) && done + n <= length
    ensures src + length <= |was| && dst + length <= |was|
    ensures var now := CopiedTo(was, dst, src, done);
      CopiedTo(was, dst, src, done + n) == Splice(now, dst + done, now[src + done..src + done + n])
  {
    var now := CopiedTo(was, dst, src, done);
    assert was[src..src + done + n] == was[src..src + done] + was[src + done..src + done + n];
    assert now[src + done..src + done + n] == was[src + done..src + done + n];
  }
}
