// The page allocator itself: two arrays updated in place, addresses filled in on first descent.
module BuddyHeap {
  import opened Bits
  import opened BuddyTags
  import opened BuddyBlocks

  const NULL: nat := 0

  class Heap {
    const height: nat       // the kernel's maxLevels
    const base: nat         // address of the first page
    const pageSize: nat
    const usage: array<Usage>
    const memoryBase: array<nat>

    ghost predicate Shape()
      reads usage, memoryBase
    {
      && height >= 1 && base > NULL && pageSize >= 1
      && usage != memoryBase as object
      && Shaped(height, usage[..]) && memoryBase.Length == usage.Length
    }

    ghost function BlockAddress(n: nat): nat
      requires InTree(height, n)
    {
      base + Offset(height, pageSize, n)
    }

    /** Every recorded base is right, and every block has one. */
    ghost predicate BasesOk()
      requires Shape()
      reads usage, memoryBase
    {
      && memoryBase[0] == base
      && (forall k | 0 <= k < memoryBase.Length :: memoryBase[k] != NULL ==> memoryBase[k] == BlockAddress(k + 1))
      && (forall k | 0 <= k < usage.Length :: usage[k] == Allocated ==> memoryBase[k] != NULL)
    }

    ghost predicate Valid()
      reads usage, memoryBase
    {
      Shape() && BasesOk() && Ok(usage[..])
    }

    constructor (levels: nat, start: nat, bytesPerPage: nat)
      requires levels >= 1 && start > NULL && bytesPerPage >= 1
      ensures Valid() && fresh(usage) && fresh(memoryBase)
      ensures height == levels && base == start && pageSize == bytesPerPage
      ensures usage[..] == InitialTags(levels)
    {
      height, base, pageSize := levels, start, bytesPerPage;
      usage := new Usage[2 * Pow2(levels) - 1];
      memoryBase := new nat[2 * Pow2(levels) - 1];
      new;
      memoryBase[0] := base;
      usage[0] := Unused;
      for i := 1 to usage.Length
        invariant memoryBase[0] == base && usage[0] == Unused
        invariant forall k | 1 <= k < i :: memoryBase[k] == NULL && usage[k] == Unused
      {
        memoryBase[i] := NULL;
        usage[i] := Unused;
      }
      InitialTagsOk(height);
      assert usage[..] == InitialTags(height);
    }

    /** A request in pages: the address of the lowest free block of the chosen size, or NULL. */
    method Allocate(pages: nat) returns (address: nat)
      requires Valid()
      modifies usage, memoryBase
      ensures Valid()
      ensures var r := AllocatePages(height, old(usage[..]), pages);
        usage[..] == r.tags && address == if r.node == 0 then NULL else BlockAddress(r.node)
      ensures address != NULL <==> AllocatePages(height, old(usage[..]), pages).node != 0
    {
      if pages == 0 || pages > Pow2(height) {
        return NULL;
      }
      address := GetPages(pages);
    }

    method GetPages(quantity: nat) returns (address: nat)
      requires Valid() && 1 <= quantity <= Pow2(height)
      modifies usage, memoryBase
      ensures Valid()
      ensures var r := AllocatePages(height, old(usage[..]), quantity);
        && usage[..] == r.tags
        && address == if r.node == 0 then NULL else BlockAddress(r.node)
    {
      RequestLog(height, quantity);
      var log := Log2(quantity);
      var levelsToDescend := height - log;
      if quantity == 1 {
        levelsToDescend := height;
      }
      RootFits(height, levelsToDescend);
      AllocAddsBlock(usage[..], levelsToDescend);
      address := GetPagesRecursive(1, levelsToDescend);
    }

    method GetPagesRecursive(index: nat, levels: nat) returns (address: nat)
      requires Shape() && BasesOk() && Fits(usage.Length, index, levels) && memoryBase[index - 1] != NULL
      modifies usage, memoryBase
      ensures Shape() && BasesOk()
      ensures forall k | 0 <= k < memoryBase.Length && old(memoryBase[k]) != NULL :: memoryBase[k] == old(memoryBase[k])
      ensures var r := Alloc(old(usage[..]), index, levels);
        && usage[..] == r.tags
        && address == if r.node == 0 then NULL else BlockAddress(r.node)
      decreases levels
    {
      if usage[index - 1] == FullyUsed || usage[index - 1] == Allocated {
        return NULL;
      }
      if levels == 0 {
        if usage[index - 1] == HalfUsed {
          return NULL;
        }
        usage[index - 1] := Allocated;
        return memoryBase[index - 1];
      }
      SetMemoryBlockDivisionBases(index);
      var left := GetPagesRecursive(2 * index, levels - 1);
      if left != NULL {
        usage[index - 1] := HalfUsed;
        return left;
      }
      var right := GetPagesRecursive(2 * index + 1, levels - 1);
      if right != NULL && usage[2 * index] != HalfUsed && usage[2 * index - 1] != HalfUsed {
        usage[index - 1] := FullyUsed;
      }
      return right;
    }

    /** Fills in the bases of a node's children: the left half starts where the node does. */
    method SetMemoryBlockDivisionBases(parent: nat)
      requires Shape() && BasesOk() && 1 <= parent && 2 * parent < usage.Length && memoryBase[parent - 1] != NULL
      modifies memoryBase
      ensures BasesOk() && memoryBase[2 * parent - 1] != NULL && memoryBase[2 * parent] != NULL
      ensures forall k | 0 <= k < memoryBase.Length &&
                (old(memoryBase[k]) != NULL || (k != 2 * parent - 1 && k != 2 * parent)) ::
                memoryBase[k] == old(memoryBase[k])
    {
      if memoryBase[2 * parent - 1] == NULL || memoryBase[2 * parent] == NULL {
        var log := Log2(parent);
        var divisions := log + 1;
        if parent % 2 != 0 {
          divisions := divisions - 1;
        }
        var memory := memoryBase[parent - 1];
        ChildOffsets(height, parent, pageSize);
        memoryBase[2 * parent - 1] := memory;
        memoryBase[2 * parent] := ShiftRight(pageSize * Pow2(height), divisions) + memory;
      }
    }

    /** Frees a block given any address of the heap; says whether the address was a block's first byte. */
    method Free(address: nat) returns (freed: bool)
      requires Valid() && base <= address < base + Scaled(pageSize, height)
      modifies usage
      ensures Valid()
      ensures FreeResult(usage[..], freed) == FreeOffset(height, old(usage[..]), pageSize, address - base)
    {
      hide Ok, Climb, Owner, Offset, Scaled, Pow2;
      ghost var was, leaf := usage[..], PageLeaf(height, pageSize, address - base);
      FreeKeepsOk(height, was, pageSize, address - base);
      var live := IsAllocatedPage(address);
      if live {
        var index := (address - base) / pageSize;
        index := index + usage.Length / 2;
        assert index + 1 == leaf;
        usage[index] := Unused;
        assert usage[..] == Set(was, leaf, Unused);
        FreeMemoryRecursive((index + 1) / 2);
        return true;
      }
      return false;
    }

    method FreeMemoryRecursive(index: nat)
      requires Shape() && BasesOk() && (index > 0 ==> 2 * index + 1 <= usage.Length)
      modifies usage
      ensures Shape() && BasesOk() && usage[..] == Climb(old(usage[..]), index)
      decreases index
    {
      if index > 0 {
        ghost var was := usage[..];
        if usage[2 * index - 1] == Unused && usage[2 * index] == Unused {
          usage[index - 1] := Unused;
        }
        if usage[2 * index - 1] == FullyUsed || usage[2 * index] == FullyUsed {
          usage[index - 1] := HalfUsed;
        }
        if usage[2 * index - 1] == HalfUsed || usage[2 * index] == HalfUsed {
          usage[index - 1] := HalfUsed;
        }
        if usage[2 * index - 1] == Allocated || usage[2 * index] == Allocated {
          usage[index - 1] := HalfUsed;
        }
        assert usage[..] == Set(was, index, Recomputed(was, index));
        FreeMemoryRecursive(index / 2);
      }
    }

    method IsAllocatedPage(address: nat) returns (live: bool)
      requires Valid() && base <= address < base + Scaled(pageSize, height)
      ensures live == FreeOffset(height, usage[..], pageSize, address - base).freed
    {
      PageInHeap(height, pageSize, address - base);
      var index := (address - base) / pageSize + 1;
      live := IsAllocatedPageRecursive(address, index + usage.Length / 2);
    }

    method IsAllocatedPageRecursive(address: nat, index: nat) returns (live: bool)
      requires Valid() && index <= usage.Length && address != NULL
      ensures var n := Owner(usage[..], index);
        live <==> n != 0 && usage[n - 1] == Allocated && BlockAddress(n) == address
      decreases index
    {
      if index <= 0 {
        return false;
      }
      if usage[index - 1] == Allocated && memoryBase[index - 1] == address {
        return true;
      }
      if usage[index - 1] == Unused {
        live := IsAllocatedPageRecursive(address, index / 2);
        return;
      }
      return false;
    }
  }

  /** The kernel's logarithm, corrected for odd indices, is the exact depth, and the heap size shifted by
      one more than the depth is the size of a child's block. */
  lemma ChildOffsets(h: nat, n: nat, pageSize: nat)
    requires 1 <= n && 2 * n + 1 < 2 * Pow2(h)
    ensures KernelLog2(n) - (if n % 2 == 1 then 1 else 0) == Depth(h, n)
    ensures Offset(h, pageSize, 2 * n) == Offset(h, pageSize, n)
    ensures Offset(h, pageSize, 2 * n + 1) ==
            Offset(h, pageSize, n) + ShiftRight(pageSize * Pow2(h), Depth(h, n) + 1)
  {
    assert (2 * n + 1) / 2 == n && (2 * n) / 2 == n;
    assert Depth(h, 2 * n + 1) == Depth(h, n) + 1;
    ScaledProduct(pageSize, h);
    ShiftScaled(pageSize, h, Depth(h, n) + 1);
  }

  /** Rounding a byte count up to whole pages. */
  method PagesToAllocate(bytes: nat, pageSize: nat) returns (pages: nat)
    requires pageSize >= 1
    ensures (pages - 1) * pageSize < bytes <= pages * pageSize || (bytes == 0 && pages == 0)
  {
    pages := bytes / pageSize;
    if bytes % pageSize != 0 {
      pages := pages + 1;
    }
  }
}
