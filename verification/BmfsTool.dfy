// The BMFS utility: the directory buffer and the open disk, and the commands that work on them in place.
module BmfsTool {
  import opened BmfsDirectory
  import opened BmfsDisk
  import opened Bytes
  import opened Wrappers

  class Tool {
    const directory: array<Entry>
    const disk: array<byte>
    const blocks: nat

    ghost function State(): Image
      reads directory, disk
    {
      Image(directory[..], disk[..])
    }

    ghost predicate Valid()
      reads directory, disk
    {
      ImageOk(State(), blocks)
    }

    constructor (entries: array<Entry>, bytes: array<byte>, diskBlocks: nat)
      requires ImageOk(Image(entries[..], bytes[..]), diskBlocks)
      ensures Valid() && directory == entries && disk == bytes && blocks == diskBlocks
    {
      directory, disk, blocks := entries, bytes, diskBlocks;
    }

    method FindFile(name: string) returns (slot: Option<nat>)
      ensures slot == BmfsDirectory.FindFile(directory[..], name)
    {
      var i := 0;
      while i < directory.Length
        invariant i <= EndOf(directory[..])
        invariant BmfsDirectory.FindFile(directory[..], name) == FindFrom(directory[..], name, i)
      {
        if IsEnd(directory[i]) {
          return None;
        } else if IsLive(directory[i]) && directory[i].name == name {
          return Some(i);
        }
        i := i + 1;
      }
      return None;
    }

    /** How many records are in use or deleted, and the first slot for a new one, or -1. */
    method CountRecords() returns (used: nat, firstFree: int)
      ensures used == Considered(directory[..])
      ensures firstFree == match FirstFree(directory[..]) { case None => -1 case Some(f) => f }
    {
      used, firstFree := 0, -1;
      ghost var dir := directory[..];
      var i := 0;
      while i < directory.Length
        invariant i <= EndOf(dir) && used == 0
        invariant if firstFree == -1 then forall j | 0 <= j < i :: IsLive(dir[j])
                  else 0 <= firstFree < i && IsDeleted(dir[firstFree]) && forall j | 0 <= j < firstFree ::
                      IsLive(dir[j])
      {
        if IsEnd(directory[i]) {
          used := i;
          if firstFree == -1 {
            firstFree := i;
          }
          return;
        } else if IsDeleted(directory[i]) {
          if firstFree == -1 {
            firstFree := i;
          }
        }
        i := i + 1;
      }
    }

    /** Looks for an area with enough free blocks, in the records sorted by starting block. */
    method FindArea(r: Directory, wanted: nat) returns (start: nat)
      ensures start == Search(r, 0, 1, blocks, wanted)
    {
      var i, previousEnd := 0, 1;
      start := 0;
      while i < |r| + 1
        invariant i <= |r| + 1
        invariant Search(r, 0, 1, blocks, wanted) == if i <= |r| then Search(r, i, previousEnd, blocks, wanted) else 0
      {
        var thisStart;
        if i == |r| || IsDeleted(r[i]) {
          thisStart := Sub64(blocks, 1);
        } else {
          thisStart := r[i].start;
        }
        if Sub64(thisStart, previousEnd) >= wanted {
          start := previousEnd;
          return;
        }
        if i < |r| {
          previousEnd := Add64(r[i].start, r[i].reserved);
        }
        i := i + 1;
      }
    }

    /** Writes the directory to its place on disk. */
    method FlushDirectory()
      requires AllStorable(directory[..]) && DIRECTORY_AT + RECORD_SIZE * directory.Length <= disk.Length
      modifies disk
      ensures disk[..] == Flush(directory[..], old(disk[..]))
    {
      var bytes := EncodeDirectory(directory[..]);
      ghost var was, dir := disk[..], directory[..];
      forall k | 0 <= k < |bytes| {
        disk[DIRECTORY_AT + k] := bytes[k];
      }
      assert directory[..] == dir;
      assert disk[..] == Splice(was, DIRECTORY_AT, bytes);
    }

    method Create(name: string, maxSize: nat)
      requires Valid() && CommandOk(CreateFile(name, maxSize))
      modifies directory, disk
      ensures AllStorable(Apply(old(directory[..]), blocks, CreateFile(name, maxSize)))
      ensures State() == Rewritten(old(State()), Apply(old(directory[..]), blocks, CreateFile(name, maxSize)))
    {
      hide EncodeEntry, DirOk, Sized, FindFrom, Search, Splice, SortedCopy, EndOf;
      ghost var image := State();
      FlushSaved(image, blocks);
      ApplyStorable(directory[..], blocks, CreateFile(name, maxSize));
      var size := if maxSize % 2 != 0 then maxSize + 1 else maxSize;
      var slot := FindFile(name);
      if slot.Some? {
        return;
      }
      var wanted := size / 2;
      var used, firstFree := CountRecords();
      if firstFree == -1 {
        return;
      }
      var r := SortedCopy(directory[..used]);
      var start := FindArea(r, wanted);
      if start == 0 {
        return;
      }
      PutRecord(firstFree, used, Entry(name, start, wanted, 0));
      FlushDirectory();
    }

    /** Writes a record, and marks the next one as the end if this one was. */
    method PutRecord(f: nat, used: nat, file: Entry)
      requires f < directory.Length && used == Considered(directory[..])
      modifies directory
      ensures directory[..] == WithFile(old(directory[..]), f, file) && disk[..] == old(disk[..])
    {
      ghost var dir, bytes := directory[..], disk[..];
      directory[f] := file;
      if f == used && used + 1 < directory.Length {
        directory[used + 1] := directory[used + 1].(name := "");
      }
      assert directory[..] == WithFile(dir, f, file);
      assert disk[..] == bytes;
    }

    method Delete(name: string)
      requires Valid()
      modifies directory, disk
      ensures Valid() && AllStorable(BmfsDirectory.Delete(old(directory[..]), name))
      ensures State() == Rewritten(old(State()), BmfsDirectory.Delete(old(directory[..]), name))
    {
      ghost var image := State();
      DeleteKeepsContents(image, blocks, name, name + "x");
      var slot := FindFile(name);
      if slot.Some? {
        directory[slot.value] := Deleted(directory[slot.value]);
        FlushDirectory();
      }
    }

    /** Writes bytes one after the other from an offset on. */
    method PutBytes(at: nat, data: seq<byte>)
      requires at + |data| <= disk.Length
      modifies disk
      ensures disk[..] == Splice(old(disk[..]), at, data) && directory[..] == old(directory[..])
    {
      ghost var was, dir := disk[..], directory[..];
      for i := 0 to |data|
        invariant directory[..] == dir && disk[..] == Splice(was, at, data[..i])
      {
        disk[at + i] := data[i];
        assert disk[..] == Splice(was, at, data[..i + 1]);
      }
      assert data[..|data|] == data;
    }

    /** Copies `data` into the blocks of a file and records its size. */
    method Write(name: string, data: seq<byte>)
      requires Valid()
      modifies directory, disk
      ensures Valid() && State() == Store(old(State()), blocks, name, data)
    {
      hide EncodeEntry, DirOk, Sized, FindFrom, Splice;
      ghost var image := State();
      StoreThenFetch(image, blocks, name, data);
      var slot := FindFile(name);
      if slot.None? {
        return;
      }
      var e := directory[slot.value];
      if e.reserved * BLOCK_SIZE < |data| {
        return;
      }
      StoredFacts(image, blocks, slot.value, data);
      var at := e.start * BLOCK_SIZE;
      PutBytes(at, data);
      directory[slot.value] := e.(size := |data|);
      FlushDirectory();
    }

    /** Reads the contents of a file. */
    method Read(name: string) returns (data: Option<seq<byte>>)
      requires Valid()
      ensures data == Fetch(State(), blocks, name)
    {
      var slot := FindFile(name);
      if slot.None? {
        return None;
      }
      var e := directory[slot.value];
      assert Placed(e, blocks);
      var bytes := [];
      var at := e.start * BLOCK_SIZE;
      for i := 0 to e.size
        invariant bytes == disk[at..at + i]
      {
        bytes := bytes + [disk[at + i]];
      }
      return Some(bytes);
    }
  }
}
