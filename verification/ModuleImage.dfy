// The packed kernel image: the kernel, a count, and each module behind its size; and what loading it does.
module ModuleImage {
  import opened Bytes
  import opened Wrappers

  const DROP_STRIDE := 0x100000
  const UINT32 := 0x1_0000_0000

  function WriteUint32(v: nat): (b: seq<byte>)
    ensures |b| == 4
  {
    LittleEndian(v % UINT32, 4)
  }

  /** Each module's size in four bytes, then its bytes. */
  function Body(modules: seq<seq<byte>>): seq<byte> {
    if modules == [] then [] else WriteUint32(|modules[0]|) + modules[0] + Body(modules[1..])
  }

  function Payload(modules: seq<seq<byte>>): seq<byte> { WriteUint32(|modules|) + Body(modules) }

  function Image(kernel: seq<byte>, modules: seq<seq<byte>>): seq<byte> { kernel + Payload(modules) }

  /** Bytes from the count to the size of module i. */
  function Ahead(modules: seq<seq<byte>>, i: nat): nat
    requires i <= |modules|
  {
    if i == 0 then 0 else 4 + |modules[0]| + Ahead(modules[1..], i - 1)
  }

  /** Where the parts lie: the kernel first, the count right behind it, and each module behind its size. */
  lemma ImageLayout(kernel: seq<byte>, modules: seq<seq<byte>>, i: nat)
    requires i < |modules|
    ensures var image, at := Image(kernel, modules), |kernel| + 4 + Ahead(modules, i);
      && at + 4 + |modules[i]| <= |image|
      && image[..|kernel|] == kernel && image[|kernel|..|kernel| + 4] == WriteUint32(|modules|)
      && image[at..at + 4] == WriteUint32(|modules[i]|) && image[at + 4..at + 4 + |modules[i]|] == modules[i]
      && (i == |modules| - 1 ==> at + 4 + |modules[i]| == |image|)
  {
    hide WriteUint32, Body, Ahead;
    var count, body, at, n := WriteUint32(|modules|), Body(modules), Ahead(modules, i), |modules[i]|;
    BodyLayout(modules, i);
    assert Image(kernel, modules) == (kernel + count) + body;
    TailSlice(kernel + count, body, at, at + 4);
    TailSlice(kernel + count, body, at + 4, at + 4 + n);
    assert (kernel + count + body)[..|kernel|] == kernel;
  }

  lemma TailSlice(a: seq<byte>, b: seq<byte>, lo: nat, hi: nat)
    requires lo <= hi <= |b|
    ensures (a + b)[|a| + lo..|a| + hi] == b[lo..hi]
  {}

  lemma {:induction false} BodyLayout(modules: seq<seq<byte>>, i: nat)
    requires i < |modules|
    ensures var b, at := Body(modules), Ahead(modules, i);
      && at + 4 + |modules[i]| <= |b|
      && b[at..at + 4] == WriteUint32(|modules[i]|) && b[at + 4..at + 4 + |modules[i]|] == modules[i]
      && (i == |modules| - 1 ==> at + 4 + |modules[i]| == |b|)
  {
    hide WriteUint32;
    var m, rest := modules[0], Body(modules[1..]);
    assert Body(modules) == (WriteUint32(|m|) + m) + rest;
    if i == 0 {
      assert |modules| == 1 ==> modules[1..] == [];
    } else {
      BodyLayout(modules[1..], i - 1);
      var at := Ahead(modules[1..], i - 1);
      TailSlice(WriteUint32(|m|) + m, rest, at, at + 4);
      TailSlice(WriteUint32(|m|) + m, rest, at + 4, at + 4 + |modules[i]|);
    }
  }

  // --- Loading ---------------------------------------------------------------------------------------------

  datatype Module = Module(address: nat, size: nat)

  /** What loading leaves in memory and in the module table; Fault when it would leave the memory or copy a
      module onto its own source from above, which memcpy does not support. */
  datatype Outcome = Fault | Done(mem: seq<byte>, table: seq<Module>)

  function ReadUint32(mem: seq<byte>, at: nat): nat
    requires at + 4 <= |mem|
  {
    FromLittleEndian(mem[at..at + 4])
  }

  /** memcpy goes forwards: the buffers must not overlap, unless the destination is the lower one. */
  predicate Copies(mem: seq<byte>, dst: nat, src: nat, length: nat) {
    src + length <= |mem| && dst + length <= |mem| && (dst <= src || src + length <= dst)
  }

  function LoadFrom(mem: seq<byte>, cursor: nat, last: nat, count: nat): (o: Outcome)
    ensures o.Done? ==> |o.mem| == |mem| && |o.table| == count
    decreases count
  {
    if count == 0 then Done(mem, [])
    else if cursor + 4 > |mem| || !Copies(mem, last, cursor + 4, ReadUint32(mem, cursor)) then Fault
    else
      var size := ReadUint32(mem, cursor);
      var copied := Splice(mem, last, mem[cursor + 4..cursor + 4 + size]);
      match LoadFrom(copied, cursor + 4 + size, last + DROP_STRIDE, count - 1)
      case Fault => Fault
      case Done(m, table) => Done(m, [Module(last, size)] + table)
  }

  function Load(mem: seq<byte>, payload: nat, drop: nat): (o: Outcome)
    ensures o.Done? ==> |o.mem| == |mem|
  {
    if payload + 4 > |mem| then Fault else LoadFrom(mem, payload + 4, drop, ReadUint32(mem, payload))
  }

  // --- Loading gives back what was packed ------------------------------------------------------------------

  /** The count and the sizes fit in the four bytes they are written in. */
  ghost predicate Sizes(modules: seq<seq<byte>>) {
    |modules| < UINT32 && forall i | 0 <= i < |modules| :: |modules[i]| < UINT32
  }

  /** Every module but the last fits in its slot of the drop area. */
  ghost predicate Fitting(modules: seq<seq<byte>>) {
    Sizes(modules) && forall i | 0 <= i < |modules| - 1 :: |modules[i]| <= DROP_STRIDE
  }

  /** Wherever a later module is copied over an earlier one, it happens to have the same bytes there. */
  ghost predicate Compatible(modules: seq<seq<byte>>) {
    forall i, j, k: nat | 0 <= i < j < |modules| && k < |modules[j]| && (j - i) * DROP_STRIDE + k < |modules[i]| ::
      modules[i][(j - i) * DROP_STRIDE + k] == modules[j][k]
  }

  /** Bytes of memory from the start of the drop area to the last byte that loading may write. */
  function Extent(modules: seq<seq<byte>>): nat {
    if modules == [] then 0
    else if |modules| == 1 || |modules[0]| > DROP_STRIDE + Extent(modules[1..]) then |modules[0]|
    else DROP_STRIDE + Extent(modules[1..])
  }

  ghost predicate HasBytes(mem: seq<byte>, at: nat, data: seq<byte>) {
    at + |data| <= |mem| && mem[at..at + |data|] == data
  }

  lemma Uint32RoundTrip(mem: seq<byte>, at: nat, v: nat)
    requires v < UINT32 && HasBytes(mem, at, WriteUint32(v))
    ensures ReadUint32(mem, at) == v
  {
    hide LittleEndian, FromLittleEndian, Power256;
    FourBytes();
    LittleEndianRoundTrip(v, 4);
    assert v % UINT32 == v;
  }

  lemma FourBytes()
    ensures Power256(4) == UINT32
  {}

  lemma SplitBytes(mem: seq<byte>, at: nat, a: seq<byte>, b: seq<byte>)
    requires HasBytes(mem, at, a + b)
    ensures HasBytes(mem, at, a) && HasBytes(mem, at + |a|, b)
  {
    assert mem[at..at + |a|] == (a + b)[..|a|];
    assert mem[at + |a|..at + |a| + |b|] == (a + b)[|a|..];
  }

  lemma BytesKept(mem: seq<byte>, mem': seq<byte>, at: nat, data: seq<byte>, lo: nat, hi: nat)
    requires HasBytes(mem, at, data) && SameOutside(mem, mem', lo, hi) && (at + |data| <= lo || hi <= at)
    ensures HasBytes(mem', at, data)
  {}

  /** Bytes outside lo..hi are the same. */
  ghost predicate SameOutside(mem: seq<byte>, mem': seq<byte>, lo: nat, hi: nat) {
    |mem'| == |mem| && forall k | 0 <= k < |mem| && !(lo <= k < hi) :: mem'[k] == mem[k]
  }

  lemma SpliceFacts(mem: seq<byte>, at: nat, data: seq<byte>)
    requires at + |data| <= |mem|
    ensures HasBytes(Splice(mem, at, data), at, data) && SameOutside(mem, Splice(mem, at, data), at, at + |data|)
  {}

  /** What memory holds before and after the first of a list of modules is copied. */
  lemma StepBytes(mem: seq<byte>, cursor: nat, last: nat, m: seq<byte>, rest: seq<seq<byte>>)
    requires HasBytes(mem, cursor, Body([m] + rest)) && |m| < UINT32 && last + |m| <= |mem|
    requires cursor + |Body([m] + rest)| <= last || last + |m| <= cursor
    ensures |Body([m] + rest)| == 4 + |m| + |Body(rest)|
    ensures HasBytes(mem, cursor + 4, m) && cursor + 4 <= |mem| && ReadUint32(mem, cursor) == |m|
    ensures Copies(mem, last, cursor + 4, |m|)
    ensures var copied := Splice(mem, last, m);
      HasBytes(copied, last, m) && HasBytes(copied, cursor + 4 + |m|, Body(rest))
          && SameOutside(mem, copied, last, last + |m|)
  {
    hide WriteUint32, Body, Splice, HasBytes, ReadUint32, SameOutside;
    var header := WriteUint32(|m|);
    BodyOfFirst(m, rest);
    SplitBytes(mem, cursor, header, m + Body(rest));
    SplitBytes(mem, cursor + 4, m, Body(rest));
    Bounds(mem, cursor + 4 + |m|, Body(rest));
    Uint32RoundTrip(mem, cursor, |m|);
    SpliceFacts(mem, last, m);
    BytesKept(mem, Splice(mem, last, m), cursor + 4 + |m|, Body(rest), last, last + |m|);
  }

  lemma BodyOfFirst(m: seq<byte>, rest: seq<seq<byte>>)
    ensures Body([m] + rest) == WriteUint32(|m|) + (m + Body(rest))
  {
    assert ([m] + rest)[1..] == rest;
  }

  lemma Bounds(mem: seq<byte>, at: nat, data: seq<byte>)
    requires HasBytes(mem, at, data)
    ensures at + |data| <= |mem|
  {}

  /** Loading the first of a list of modules. */
  lemma LoadStep(mem: seq<byte>, cursor: nat, last: nat, m: seq<byte>, count: nat)
    requires HasBytes(mem, cursor + 4, m) && cursor + 4 <= |mem| && ReadUint32(mem, cursor) == |m|
    requires Copies(mem, last, cursor + 4, |m|)
    ensures LoadFrom(mem, cursor, last, 1 + count) ==
              match LoadFrom(Splice(mem, last, m), cursor + 4 + |m|, last + DROP_STRIDE, count)
              case Fault => Fault
              case Done(mem', table) => Done(mem', [Module(last, |m|)] + table)
  {
    hide ReadUint32, Splice;
    assert mem[cursor + 4..cursor + 4 + |m|] == m;
  }

  /** The byte that the last module to cover it puts `a` bytes into the drop area, if any does. */
  function Top(modules: seq<seq<byte>>, a: nat): Option<byte> {
    if modules == [] then None
    else if a >= DROP_STRIDE && Top(modules[1..], a - DROP_STRIDE).Some? then Top(modules[1..], a - DROP_STRIDE)
    else if a < |modules[0]| then Some(modules[0][a])
    else None
  }

  function Expected(mem: seq<byte>, last: nat, modules: seq<seq<byte>>, p: nat): byte
    requires p < |mem|
  {
    if p >= last && Top(modules, p - last).Some? then Top(modules, p - last).value else mem[p]
  }

  /** Memory with the modules copied to their slots one after the other. */
  ghost predicate Overlaid(mem: seq<byte>, mem': seq<byte>, last: nat, modules: seq<seq<byte>>) {
    |mem'| == |mem| && forall p: nat | p < |mem| :: mem'[p] == Expected(mem, last, modules, p)
  }

  ghost predicate Tabled(table: seq<Module>, drop: nat, modules: seq<seq<byte>>) {
    |table| == |modules| && forall i | 0 <= i < |modules| :: table[i] == Module(drop + i * DROP_STRIDE, |modules[i]|)
  }

  /** Loading any modules fills the table and leaves at each address what the last of them put there. */
  lemma {:induction false} LoadBody(mem: seq<byte>, cursor: nat, last: nat, modules: seq<seq<byte>>)
    requires Sizes(modules) && HasBytes(mem, cursor, Body(modules)) && last + Extent(modules) <= |mem|
    requires cursor + |Body(modules)| <= last || last + Extent(modules) <= cursor
    ensures var o := LoadFrom(mem, cursor, last, |modules|);
      o.Done? && Tabled(o.table, last, modules) && Overlaid(mem, o.mem, last, modules)
    decreases modules
  {
    hide Body, Extent, Splice, LoadFrom, HasBytes, Sizes, Tabled, Overlaid, SameOutside, Copies, ReadUint32;
    if modules == [] {
      LoadNone(mem, cursor, last);
      return;
    }
    var m, rest := modules[0], modules[1..];
    ExtentOfRest(modules);
    var copied := Splice(mem, last, m);
    assert modules == [m] + rest;
    StepBytes(mem, cursor, last, m, rest);
    LoadStep(mem, cursor, last, m, |rest|);
    if rest == [] {
      LoadNone(copied, cursor + 4 + |m|, last + DROP_STRIDE);
    } else {
      LoadBody(copied, cursor + 4 + |m|, last + DROP_STRIDE, rest);
    }
    var r := LoadFrom(copied, cursor + 4 + |m|, last + DROP_STRIDE, |rest|);
    FirstAndRest(mem, copied, r, last, modules, rest);
  }

  lemma LoadNone(mem: seq<byte>, cursor: nat, last: nat)
    ensures LoadFrom(mem, cursor, last, 0) == Done(mem, [])
    ensures Tabled([], last, []) && Overlaid(mem, mem, last, [])
  {}

  lemma ExtentOfRest(modules: seq<seq<byte>>)
    requires Sizes(modules) && modules != []
    ensures Sizes(modules[1..]) && |modules[0]| <= Extent(modules) && |modules[0]| < UINT32
    ensures |modules| > 1 ==> DROP_STRIDE + Extent(modules[1..]) <= Extent(modules)
  {}

  /** Copying the rest over the memory with the first module in its slot. */
  lemma FirstAndRest(mem: seq<byte>, copied: seq<byte>, r: Outcome, last: nat,
                     modules: seq<seq<byte>>, rest: seq<seq<byte>>)
    requires modules != [] && rest == modules[1..]
    requires HasBytes(copied, last, modules[0]) && SameOutside(mem, copied, last, last + |modules[0]|)
    requires r.Done? && Tabled(r.table, last + DROP_STRIDE, rest) && Overlaid(copied, r.mem, last + DROP_STRIDE, rest)
    ensures Tabled([Module(last, |modules[0]|)] + r.table, last, modules)
    ensures Overlaid(mem, r.mem, last, modules)
  {
    forall p: nat | p < |mem| ensures r.mem[p] == Expected(mem, last, modules, p) {
      assert r.mem[p] == Expected(copied, last + DROP_STRIDE, rest, p);
      if last <= p < last + |modules[0]| {
        assert copied[p] == copied[last..last + |modules[0]|][p - last];
      }
    }
  }

  // --- When the modules survive ------------------------------------------------------------------------------

  /** Module j covers the address `a` bytes into the drop area. */
  predicate Covers(modules: seq<seq<byte>>, j: nat, a: nat) {
    j < |modules| && j * DROP_STRIDE <= a < j * DROP_STRIDE + |modules[j]|
  }

  /** The byte on top is that of the last module to cover the address. */
  lemma {:induction false} TopIsLast(modules: seq<seq<byte>>, a: nat) returns (j: nat)
    ensures Top(modules, a).Some? ==> Covers(modules, j, a) && Top(modules, a) == Some(modules[j][a - j * DROP_STRIDE])
    ensures Top(modules, a).Some? ==> forall i: nat | j < i :: !Covers(modules, i, a)
    ensures Top(modules, a).None? ==> forall i: nat :: !Covers(modules, i, a)
    decreases modules
  {
    j := 0;
    if modules != [] && a >= DROP_STRIDE {
      var rest := modules[1..];
      var k := TopIsLast(rest, a - DROP_STRIDE);
      forall i: nat | 0 < i ensures Covers(modules, i, a) <==> Covers(rest, i - 1, a - DROP_STRIDE) {}
      if Top(rest, a - DROP_STRIDE).Some? {
        j := k + 1;
      }
    }
  }

  /** Every module's own byte is on top at each of its addresses. */
  ghost predicate OnTop(modules: seq<seq<byte>>) {
    forall i, k: nat | 0 <= i < |modules| && k < |modules[i]| ::
        Top(modules, i * DROP_STRIDE + k) == Some(modules[i][k])
  }

  lemma OnTopIffCompatible(modules: seq<seq<byte>>)
    ensures OnTop(modules) <==> Compatible(modules)
  {
    if OnTop(modules) {
      forall i, j, k: nat | 0 <= i < j < |modules| && k < |modules[j]| && (j - i) * DROP_STRIDE + k < |modules[i]|
        ensures modules[i][(j - i) * DROP_STRIDE + k] == modules[j][k]
      {
        var d: nat := (j - i) * DROP_STRIDE + k;
        assert i * DROP_STRIDE + d == j * DROP_STRIDE + k;
        assert Top(modules, i * DROP_STRIDE + d) == Some(modules[i][d]);
        assert Top(modules, j * DROP_STRIDE + k) == Some(modules[j][k]);
      }
    }
    if Compatible(modules) {
      forall i, k: nat | 0 <= i < |modules| && k < |modules[i]|
        ensures Top(modules, i * DROP_STRIDE + k) == Some(modules[i][k])
      {
        TopOfCompatible(modules, i, k);
      }
    }
  }

  lemma TopOfCompatible(modules: seq<seq<byte>>, i: nat, k: nat)
    requires Compatible(modules) && i < |modules| && k < |modules[i]|
    ensures Top(modules, i * DROP_STRIDE + k) == Some(modules[i][k])
  {
    var a := i * DROP_STRIDE + k;
    assert Covers(modules, i, a);
    var j := TopIsLast(modules, a);
    hide Top;
    assert j >= i;
    if j > i {
      var d: nat := a - j * DROP_STRIDE;
      assert (j - i) * DROP_STRIDE + d == k;
    }
  }

  /** Module i is in its slot of the drop area, and its table entry says so. */
  ghost predicate InPlace(mem: seq<byte>, table: seq<Module>, drop: nat, modules: seq<seq<byte>>, i: nat) {
    && i < |modules| && i < |table|
    && HasBytes(mem, drop + i * DROP_STRIDE, modules[i])
    && table[i] == Module(drop + i * DROP_STRIDE, |modules[i]|)
  }

  ghost predicate AllInPlace(mem: seq<byte>, table: seq<Module>, drop: nat, modules: seq<seq<byte>>) {
    |table| == |modules| && forall i | 0 <= i < |modules| :: InPlace(mem, table, drop, modules, i)
  }

  lemma {:induction false} ExtentReaches(modules: seq<seq<byte>>, i: nat)
    requires i < |modules|
    ensures i * DROP_STRIDE + |modules[i]| <= Extent(modules)
    decreases modules
  {
    if i > 0 {
      ExtentReaches(modules[1..], i - 1);
    }
  }

  lemma InPlaceIffOnTop(mem: seq<byte>, mem': seq<byte>, table: seq<Module>, drop: nat, modules: seq<seq<byte>>)
    requires drop + Extent(modules) <= |mem| && Tabled(table, drop, modules) && Overlaid(mem, mem', drop, modules)
    ensures AllInPlace(mem', table, drop, modules) <==> OnTop(modules)
  {
    forall i | 0 <= i < |modules|
      ensures InPlace(mem', table, drop, modules, i) <==>
              forall k: nat | k < |modules[i]| :: Top(modules, i * DROP_STRIDE + k) == Some(modules[i][k])
    {
      OneInPlace(mem, mem', table, drop, modules, i);
    }
    hide InPlace, Top;
  }

  lemma OneInPlace(mem: seq<byte>, mem': seq<byte>, table: seq<Module>, drop: nat, modules: seq<seq<byte>>, i: nat)
    requires drop + Extent(modules) <= |mem| && Tabled(table, drop, modules) && Overlaid(mem, mem', drop, modules)
    requires i < |modules|
    ensures InPlace(mem', table, drop, modules, i) <==>
            forall k: nat | k < |modules[i]| :: Top(modules, i * DROP_STRIDE + k) == Some(modules[i][k])
  {
    hide Top, Extent;
    var at := drop + i * DROP_STRIDE;
    ExtentReaches(modules, i);
    forall k: nat | k < |modules[i]|
      ensures mem'[at..at + |modules[i]|][k] == modules[i][k] <==>
              Top(modules, i * DROP_STRIDE + k) == Some(modules[i][k])
    {
      var a := i * DROP_STRIDE + k;
      assert Covers(modules, i, a);
      var j := TopIsLast(modules, a);
      assert Top(modules, a).Some?;
      assert mem'[at + k] == Expected(mem, drop, modules, at + k);
    }
  }

  /** The bytes between the payload and where loading may write do not matter. In any memory that holds the packed
      payload, apart from the whole area written, loading gives every module back, exact bytes and size in its
      slot, if and only if no later module is copied over different bytes of an earlier one; everything outside
      the area keeps its bytes in any case. */
  lemma LoadGivesBackIff(mem: seq<byte>, payload: nat, drop: nat, modules: seq<seq<byte>>)
    requires Sizes(modules) && HasBytes(mem, payload, Payload(modules)) && drop + Extent(modules) <= |mem|
    requires payload + |Payload(modules)| <= drop || drop + Extent(modules) <= payload
    ensures var o := Load(mem, payload, drop);
      && o.Done? && Tabled(o.table, drop, modules) && Overlaid(mem, o.mem, drop, modules)
      && SameOutside(mem, o.mem, drop, drop + Extent(modules))
      && (AllInPlace(o.mem, o.table, drop, modules) <==> Compatible(modules))
  {
    hide ReadUint32, WriteUint32, LoadFrom, Body, Extent, HasBytes, Overlaid, Tabled, AllInPlace, SameOutside;
    hide OnTop, Compatible, Sizes;
    PayloadHeader(mem, payload, modules);
    LoadBody(mem, payload + 4, drop, modules);
    var o := Load(mem, payload, drop);
    OverlayIsInside(mem, o.mem, drop, modules);
    InPlaceIffOnTop(mem, o.mem, o.table, drop, modules);
    OnTopIffCompatible(modules);
  }

  lemma PayloadHeader(mem: seq<byte>, payload: nat, modules: seq<seq<byte>>)
    requires Sizes(modules) && HasBytes(mem, payload, Payload(modules))
    ensures payload + 4 <= |mem| && ReadUint32(mem, payload) == |modules|
    ensures HasBytes(mem, payload + 4, Body(modules)) && |Payload(modules)| == 4 + |Body(modules)|
  {
    SplitBytes(mem, payload, WriteUint32(|modules|), Body(modules));
    Uint32RoundTrip(mem, payload, |modules|);
  }

  lemma OverlayIsInside(mem: seq<byte>, mem': seq<byte>, drop: nat, modules: seq<seq<byte>>)
    requires Overlaid(mem, mem', drop, modules)
    ensures SameOutside(mem, mem', drop, drop + Extent(modules))
  {
    hide Top, Extent;
    forall p | 0 <= p < |mem| && !(drop <= p < drop + Extent(modules)) ensures mem'[p] == mem[p] {
      if p >= drop {
        var j := TopIsLast(modules, p - drop);
        if Top(modules, p - drop).Some? {
          ExtentReaches(modules, j);
        }
      }
      assert mem'[p] == Expected(mem, drop, modules, p);
    }
  }

  lemma FittingIsCompatible(modules: seq<seq<byte>>)
    ensures Fitting(modules) ==> Compatible(modules)
  {}

  /** So modules that, but for the last, fit their slots always come back, whatever their bytes. */
  lemma LoadGivesBack(mem: seq<byte>, payload: nat, drop: nat, modules: seq<seq<byte>>)
    requires Fitting(modules) && HasBytes(mem, payload, Payload(modules)) && drop + Extent(modules) <= |mem|
    requires payload + |Payload(modules)| <= drop || drop + Extent(modules) <= payload
    ensures var o := Load(mem, payload, drop);
      && o.Done? && AllInPlace(o.mem, o.table, drop, modules)
      && SameOutside(mem, o.mem, drop, drop + Extent(modules))
  {
    hide Load, HasBytes, Extent, Payload, AllInPlace, SameOutside;
    LoadGivesBackIff(mem, payload, drop, modules);
    FittingIsCompatible(modules);
  }

  /** The failing input: a module over its slot is damaged by a next one that starts with another byte. */
  lemma TooBigIsDamaged(mem: seq<byte>, payload: nat, drop: nat, big: seq<byte>, next: seq<byte>)
    requires DROP_STRIDE < |big| < UINT32 && 1 <= |next| < UINT32 && next[0] != big[DROP_STRIDE]
    requires HasBytes(mem, payload, Payload([big, next])) && drop + Extent([big, next]) <= |mem|
    requires payload + |Payload([big, next])| <= drop || drop + Extent([big, next]) <= payload
    ensures var o := Load(mem, payload, drop); o.Done? && !InPlace(o.mem, o.table, drop, [big, next], 0)
  {
    hide Load, HasBytes, Extent, Payload, AllInPlace, SameOutside, Overlaid, Tabled, InPlace;
    var modules := [big, next];
    LoadGivesBackIff(mem, payload, drop, modules);
    var o := Load(mem, payload, drop);
    OneInPlace(mem, o.mem, o.table, drop, modules, 0);
    assert modules[1..] == [next] && Top([next], 0) == Some(next[0]);
    assert Top(modules, 0 * DROP_STRIDE + DROP_STRIDE) == Some(next[0]);
  }

  /** An oversized module before an empty one comes back all the same. */
  lemma TooBigMaySurvive(mem: seq<byte>, payload: nat, drop: nat, big: seq<byte>)
    requires DROP_STRIDE < |big| < UINT32
    requires HasBytes(mem, payload, Payload([big, []])) && drop + Extent([big, []]) <= |mem|
    requires payload + |Payload([big, []])| <= drop || drop + Extent([big, []]) <= payload
    ensures var o := Load(mem, payload, drop);
      !Fitting([big, []]) && o.Done? && AllInPlace(o.mem, o.table, drop, [big, []])
  {
    hide Load, HasBytes, Extent, Payload, AllInPlace, SameOutside;
    var modules := [big, []];
    assert |modules[0]| > DROP_STRIDE;
    LoadGivesBackIff(mem, payload, drop, modules);
  }
}
