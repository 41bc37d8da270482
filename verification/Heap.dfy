// heap_alloc() and heap_reconfig() (mm.c:614-670) on top of the page tables, over any sequence of calls.
module Heap {
  import Bytes
  import opened Freemap
  import opened PageTable
  import opened AddressSpace

  // mm.h:54-55
  const MM_WRITE_THROUGH: bv32 := 0x10
  const MM_CACHE_DISABLE: bv32 := 0x20

  // The caching that a caller asks for.
  datatype Caching = Caching(writeThrough: bool, disabled: bool)

  function Requested(flags: bv32): Caching
  {
    Caching(IsMaskSet(flags, MM_WRITE_THROUGH), IsMaskSet(flags, MM_CACHE_DISABLE))
  }

  // map_flags of mm.c:629-630 and mm.c:657-658.
  function MapFlags(flags: bv32): bv32
  {
    var none: bv32 := 0;
    var some := if IsMaskSet(flags, MM_WRITE_THROUGH) then MaskSet(none, MAP_PWT) else none;
    if IsMaskSet(flags, MM_CACHE_DISABLE) then MaskSet(some, MAP_PCD) else some
  }

  // The flags passed on ask for the same caching, and neither for huge pages nor for anything unsupported.
  lemma MapFlagsMean(flags: bv32)
    ensures Caching(IsMaskSet(MapFlags(flags), MAP_PWT), IsMaskSet(MapFlags(flags), MAP_PCD)) == Requested(flags)
    ensures !IsMaskSet(MapFlags(flags), MAP_HUGE) && !IsMaskSet(MapFlags(flags), !(MAP_PWT | MAP_PCD))
  {
  }

  // ---------------------------------------------------------------- the invariant

  // A heap page is mapped, with the caching asked for, to a data frame that is neither a table nor free.
  predicate PageOk(e: Entry, c: Caching, data: set<nat>)
  {
    e.p && e.rw && e.frame in data && e.pwt == c.writeThrough && e.pcd == c.disabled
  }

  ghost predicate DataOk(data: set<nat>, level: map<nat, nat>, boot: set<nat>, free: set<nat>)
  {
    forall f | f in data :: PAGE_START <= f < MAX_FRAMES && f in boot && f !in free && f !in level
  }

  predicate IsHeapPage(q: nat, next: nat)
  {
    HEAP_START <= q < next
  }

  ghost predicate PagesOk(lay: Layout, mem: Memory, next: nat, caching: map<nat, Caching>, data: set<nat>)
  {
    && (forall q: nat :: q in caching <==> IsHeapPage(q, next))
    && (forall q: nat | q in caching :: PageOk(Leaf(lay, mem, q), caching[q], data))
    && (forall q: nat, r: nat | q in caching && r in caching && q != r ::
        Leaf(lay, mem, q).frame != Leaf(lay, mem, r).frame)
    && (forall q: nat | IsHeapPage(q, HEAP_END) && q >= next :: Leaf(lay, mem, q) == EMPTY)
  }

  // p is on the way to a page of the heap, and not on the way to the window page.
  ghost predicate HeapPrefix(lay: Layout, p: seq<nat>)
  {
    0 < |p| < lay.Levels() && !(p <= lay.WindowPath()) && exists q: nat :: IsHeapPage(q, HEAP_END) && p <= lay.PathOf(q)
  }

  ghost predicate HeapOk(lay: Layout, t: TableState, boot: set<nat>, next: nat, caching: map<nat, Caching>,
          data: set<nat>)
  {
    && HEAP_START <= next <= HEAP_END && |data| == next - HEAP_START
    && DataOk(data, t.level, boot, t.free)
    && PagesOk(lay, t.mem, next, caching, data)
    && (forall p | p in t.made :: HeapPrefix(lay, p))
  }

  // ---------------------------------------------------------------- the table reserve

  // The most tables that the heap can need (config.h:78, mm.c:135-139).
  function TableLimit(lay: Layout): nat
  {
    if lay.Bits64? then 1021 else 510
  }

  // Paths of the directory entries that point to page tables for the page numbers below n tables.
  function TableKeys(lay: Layout, n: nat): (r: set<seq<nat>>)
    ensures |r| <= n
  {
    if n == 0 then {} else
    TableKeys(lay, n - 1) + {if lay.Bits64? then [0, (n + 1) / 512, (n + 1) % 512] else [n]}
  }

  lemma {:induction false} KeyIsIn(lay: Layout, n: nat, k: nat)
    requires 1 <= k <= n
    ensures (if lay.Bits64? then [0, (k + 1) / 512, (k + 1) % 512] else [k]) in TableKeys(lay, n)
  {
    if k < n { KeyIsIn(lay, n - 1, k); }
  }

  // p is on the way to page q, in indices.
  lemma PrefixIndices(lay: Layout, p: seq<nat>, q: nat)
    requires 0 < |p| < lay.Levels() && IsHeapPage(q, HEAP_END) && p <= lay.PathOf(q)
    ensures lay.Bits32? ==> p == [q / 1024]
    ensures lay.Bits64? ==> p == [0] || p == [0, q / 512 / 512] || p == [0, q / 512 / 512, q / 512 % 512]
  {
    hide Path;
    HeapIndices(q);
    if lay.Bits64? {
      var all := [0, q / 512 / 512, q / 512 % 512, q % 512];
      assert p == all[..|p|];
    } else {
      assert p == [q / 1024, q % 1024][..1];
    }
  }

  lemma HeapNumbers(q: nat)
    requires q < HEAP_END
    ensures q / 512 / 512 / 512 % 512 == 0 && q / 512 / 512 % 512 == q / 512 / 512 && q / 1024 % 1024 == q / 1024
  {
    var table := q / 512;
    assert table < 1024 && table / 512 < 2;
    assert table / 512 / 512 == 0;
    assert q / 1024 < 1024;
  }

  lemma HeapIndices(q: nat)
    requires IsHeapPage(q, HEAP_END)
    ensures Bits64.PathOf(q) == [0, q / 512 / 512, q / 512 % 512, q % 512]
    ensures Bits32.PathOf(q) == [q / 1024, q % 1024]
  {
    hide Path;
    PathIndices(q);
    HeapNumbers(q);
  }

  lemma PrefixKey(lay: Layout, p: seq<nat>)
    requires HeapPrefix(lay, p)
    ensures p in (if lay.Bits64? then TableKeys(lay, 1020) + {[0, 1]} else TableKeys(lay, 510))
  {
    hide Path, TableKeys;
    var q: nat :| IsHeapPage(q, HEAP_END) && p <= lay.PathOf(q);
    PrefixIndices(lay, p, q);
    PathIndices(WINDOW);
    if lay.Bits64? {
      KeyIsIn(lay, 1020, q / 512 - 1);
      assert lay.WindowPath() == [0, 0, 0, 511];
      assert [0] <= lay.WindowPath() && [0, 0] <= lay.WindowPath();
    } else {
      KeyIsIn(lay, 510, q / 1024);
    }
  }

  // At most 1021 tables are made in the 64-bit layout, at most 510 in the 32-bit layout.
  lemma ReserveBound(lay: Layout, made: set<seq<nat>>)
    requires forall p | p in made :: HeapPrefix(lay, p)
    ensures |made| <= TableLimit(lay) == if lay.Bits64? then 1021 else 510
  {
    var keys := if lay.Bits64? then TableKeys(lay, 1020) + {[0, 1]} else TableKeys(lay, 510);
    forall p | p in made ensures p in keys {
      PrefixKey(lay, p);
    }
    SubsetSize(made, keys);
  }

  lemma SubsetSize<T>(a: set<T>, b: set<T>)
    requires a <= b
    ensures |a| <= |b|
  {
    assert b == a + (b - a);
  }

  // When the reserve is free at boot, every table that the heap made lies in it, and one more would fit.
  lemma TablesInReserve(lay: Layout, t: TableState, boot: set<nat>)
    requires TablesOk(lay, t.mem, t.level, t.made, boot, t.free) && ReserveFree(boot)
    requires forall p | p in t.made :: HeapPrefix(lay, p)
    ensures forall f | f in t.level :: f < PAGE_START
    ensures !Exhausted(t.free, PT_START)
  {
    ReserveBound(lay, t.made);
    assert PT_START + |t.made| in t.free;
  }

  lemma WindowWayPresent(lay: Layout, mem: Memory, level: map<nat, nat>, window: nat, p: seq<nat>)
    requires SpaceOk(lay, mem, level, window) && 0 < |p| < lay.Levels() && p <= lay.WindowPath()
    ensures At(mem, ROOT, p).p
  {
    hide Path;
    assert lay.WindowPath()[..|p|] == p;
    assert At(mem, ROOT, lay.WindowPath()).p;
    if !At(mem, ROOT, p).p { AbsentPrefix(mem, lay.WindowPath(), |p|); }
  }

  // What is made on the way to a heap page is a heap prefix: the way to the window page is there.
  lemma NewPrefixIsHeap(lay: Layout, mem: Memory, level: map<nat, nat>, window: nat, q: nat, p: seq<nat>)
    requires SpaceOk(lay, mem, level, window) && IsHeapPage(q, HEAP_END) && NewPrefix(mem, lay.PathOf(q), p)
    ensures HeapPrefix(lay, p)
  {
    hide Path, At, SpaceOk;
    if p <= lay.WindowPath() { WindowWayPresent(lay, mem, level, window, p); }
  }

  // ---------------------------------------------------------------- what the calls keep

  // A table is made for page q: the heap loses nothing, and no frame of it becomes a table.
  lemma TablesKeepData(a: TableState, b: TableState, data: set<nat>, boot: set<nat>)
    requires DataOk(data, a.level, boot, a.free) && Took(a.level, b.level, a.free, b.free)
    ensures DataOk(data, b.level, boot, b.free)
  {
  }

  lemma HeapPaths(lay: Layout, q: nat)
    requires IsHeapPage(q, HEAP_END)
    ensures lay.PathOf(q) != lay.WindowPath()
    ensures forall r: nat | IsHeapPage(r, HEAP_END) && r != q :: lay.PathOf(r) != lay.PathOf(q)
  {
    hide Path;
    forall r: nat | (r == WINDOW || IsHeapPage(r, HEAP_END)) && r != q ensures lay.PathOf(r) != lay.PathOf(q) {
      SmallPages(lay, q);
      SmallPages(lay, r);
      PathsDiffer(lay, r, q);
    }
  }

  // One page is mapped to a fresh frame.
  lemma PageMapped(lay: Layout, mem: Memory, after: Memory, next: nat, caching: map<nat, Caching>, data: set<nat>,
          f: nat, c: Caching)
    requires PagesOk(lay, mem, next, caching, data) && HEAP_START <= next < HEAP_END && f !in data
    requires LeavesBut(lay, mem, after, lay.PathOf(next))
    requires Leaf(lay, after, next) == Entry(true, true, c.writeThrough, c.disabled, false, f)
    ensures PagesOk(lay, after, next + 1, caching[next := c], data + {f})
    ensures forall q | q in caching :: Leaf(lay, after, q) == Leaf(lay, mem, q)
  {
    hide Path, At;
    HeapPaths(lay, next);
    forall q: nat | IsHeapPage(q, HEAP_END) && q != next ensures Leaf(lay, after, q) == Leaf(lay, mem, q) {
      HeapPaths(lay, q);
    }
  }

  // One page has its caching changed; one that is not mapped keeps its clear entry.
  lemma AnyPageReconfigured(lay: Layout, mem: Memory, after: Memory, next: nat, caching: map<nat, Caching>,
          data: set<nat>, page: nat, flags: bv32)
    requires PagesOk(lay, mem, next, caching, data) && HEAP_START <= next <= HEAP_END
    requires LeavesBut(lay, mem, after, lay.PathOf(page))
    requires lay.PathOf(page) != lay.WindowPath() ==>
        Leaf(lay, after, page) == ReconfEntry(Leaf(lay, mem, page), MapFlags(flags))
    ensures PagesOk(lay, after, next, Recached(lay, caching, page, 1, Requested(flags)), data)
    ensures forall q | q in caching :: Leaf(lay, after, q).frame == Leaf(lay, mem, q).frame
  {
    hide *;
    PathWraps(lay, page);
    var q := page % lay.PageCount();
    SamePathSameLeaf(lay, mem, q, page);
    SamePathSameLeaf(lay, after, q, page);
    OneRecached(lay, caching, page, Requested(flags));
    OneRecached(lay, caching, q, Requested(flags));
    PageReconfigured(lay, mem, after, next, caching, data, q, flags);
  }

  lemma SamePathSameLeaf(lay: Layout, mem: Memory, page: nat, other: nat)
    requires lay.PathOf(page) == lay.PathOf(other)
    ensures Leaf(lay, mem, page) == Leaf(lay, mem, other)
  {
  }

  lemma OneRecached(lay: Layout, caching: map<nat, Caching>, page: nat, c: Caching)
    requires lay.PageCount() > 0
    ensures var q := page % lay.PageCount();
            && Recached(lay, caching, page, 1, c) == (if q in caching then caching[q := c] else caching)
            && q < lay.PageCount() && (page < lay.PageCount() ==> q == page)
  {
    hide Pages;
    assert Recached(lay, caching, page, 0, c) == caching;
    ModBounds(page, lay.PageCount());
  }

  lemma ModBounds(x: nat, m: nat)
    requires m > 0
    ensures x % m < m && (x < m ==> x % m == x) && x % m % m == x % m
  {
    SmallMod(x % m, m);
    if x < m { SmallMod(x, m); }
  }

  lemma SmallMod(x: nat, m: nat)
    requires x < m
    ensures x % m == x
  {
  }

  lemma PageReconfigured(lay: Layout, mem: Memory, after: Memory, next: nat, caching: map<nat, Caching>, data: set<nat>,
          page: nat, flags: bv32)
    requires PagesOk(lay, mem, next, caching, data) && HEAP_START <= next <= HEAP_END && page < lay.PageCount()
    requires LeavesBut(lay, mem, after, lay.PathOf(page))
    requires lay.PathOf(page) != lay.WindowPath() ==>
        Leaf(lay, after, page) == ReconfEntry(Leaf(lay, mem, page), MapFlags(flags))
    ensures PagesOk(lay, after, next, Recached(lay, caching, page, 1, Requested(flags)), data)
    ensures forall q | q in caching :: Leaf(lay, after, q).frame == Leaf(lay, mem, q).frame
  {
    hide Path, Pages, At, IsMaskSet, MapFlags, PageOk, Recached;
    MapFlagsMean(flags);
    var c := Requested(flags);
    OneRecached(lay, caching, page, c);
    forall q: nat | IsHeapPage(q, HEAP_END)
      ensures Leaf(lay, after, q) == if q == page then ReconfEntry(Leaf(lay, mem, q), MapFlags(flags))
          else Leaf(lay, mem, q)
    {
      HeapPaths(lay, q);
      SmallPages(lay, q);
      if q != page { PathsDiffer(lay, q, page); }
    }
    forall q: nat | q in caching
      ensures PageOk(Leaf(lay, after, q), if q == page then c else caching[q], data)
      ensures Leaf(lay, after, q).frame == Leaf(lay, mem, q).frame
    {
      ReconfPage(Leaf(lay, mem, q), caching[q], data, flags);
    }
  }

  lemma ReconfPage(e: Entry, c: Caching, data: set<nat>, flags: bv32)
    requires PageOk(e, c, data)
    ensures PageOk(ReconfEntry(e, MapFlags(flags)), Requested(flags), data)
        && ReconfEntry(e, MapFlags(flags)).frame == e.frame
  {
    hide IsMaskSet, MapFlags;
    MapFlagsMean(flags);
  }

  // The caching of each page once n pages from page `from` on have been given out, or reconfigured.
  function Granted(caching: map<nat, Caching>, from: nat, n: nat, c: Caching): map<nat, Caching>
  {
    if n == 0 then caching else Granted(caching, from, n - 1, c)[from + n - 1 := c]
  }

  function Recached(lay: Layout, caching: map<nat, Caching>, from: nat, n: nat, c: Caching): map<nat, Caching>
  {
    if n == 0 || lay.PageCount() == 0 then caching else
    var m := Recached(lay, caching, from, n - 1, c);
    var q := (from + n - 1) % lay.PageCount();
    if q in m then m[q := c] else m
  }

  // A data frame comes from above the table reserve.
  lemma TablesKeepFrame(lay: Layout, t: TableState, boot: set<nat>, f: nat)
    requires TablesOk(lay, t.mem, t.level, t.made, boot, t.free) && f >= PAGE_START
    ensures TablesOk(lay, t.mem, t.level, t.made, boot, t.free - {f})
  {
    hide At, BootTables, MadeOk, ReserveFree;
    assert TableFrames(lay, t.level, boot, t.free - {f}) && Registered(boot, t.free - {f});
    assert ReserveOk(t.level, |t.made|, t.free) ==> ReserveOk(t.level, |t.made|, t.free - {f});
    hide TableFrames, Registered, ReserveOk;
  }

  lemma FrameIsNew(lay: Layout, t: TableState, boot: set<nat>, f: nat)
    requires TablesOk(lay, t.mem, t.level, t.made, boot, t.free) && FirstFree(t.free, PAGE_START, f)
    ensures PAGE_START <= f < MAX_FRAMES && f in boot && f in t.free && f !in t.level
  {
    hide At, BootTables, MadeOk, ReserveFree, ReserveOk;
  }

  lemma DataBound(data: set<nat>, level: map<nat, nat>, boot: set<nat>, free: set<nat>, f: nat)
    requires DataOk(data, level, boot, free) && PAGE_START <= f < MAX_FRAMES && f in free
    ensures f !in data && |data| < MAX_FRAMES - PAGE_START
  {
    hide DataFrames;
    SubsetSize(data + {f}, DataFrames(MAX_FRAMES));
  }

  lemma DataFrameTaken(lay: Layout, t: TableState, boot: set<nat>, data: set<nat>, f: nat)
    requires TablesOk(lay, t.mem, t.level, t.made, boot, t.free) && DataOk(data, t.level, boot, t.free)
    requires FirstFree(t.free, PAGE_START, f)
    ensures TablesOk(lay, t.mem, t.level, t.made, boot, t.free - {f})
    ensures f !in data && |data| < MAX_FRAMES - PAGE_START
    ensures DataOk(data + {f}, t.level, boot, t.free - {f}) && DataOk(data, t.level, boot, t.free - {f})
  {
    hide At, BootTables, TablesOk, FirstFree;
    FrameIsNew(lay, t, boot, f);
    TablesKeepFrame(lay, t, boot, f);
    DataBound(data, t.level, boot, t.free, f);
  }

  lemma NoneRecached(lay: Layout, caching: map<nat, Caching>, from: nat, c: Caching)
    ensures Recached(lay, caching, from, 0, c) == caching
  {
  }

  lemma OneMoreRecached(lay: Layout, caching: map<nat, Caching>, from: nat, n: nat, c: Caching)
    ensures Recached(lay, Recached(lay, caching, from, n, c), from + n, 1, c) == Recached(lay, caching, from, n + 1, c)
  {
    PathWraps(lay, 0);
    OneRecached(lay, Recached(lay, caching, from, n, c), from + n, c);
  }

  function DataFrames(n: nat): (r: set<nat>)
    requires PAGE_START <= n
    ensures |r| == n - PAGE_START && forall f: nat :: f in r <==> PAGE_START <= f < n
  {
    if n == PAGE_START then {} else DataFrames(n - 1) + {n - 1}
  }

  // ---------------------------------------------------------------- the heap

  datatype Request = Alloc(pages: nat, flags: bv32) | Reconfigure(adr: nat, size: nat, flags: bv32) | Lookup(adr: nat)

  function RoundUp(size: nat): nat
  {
    (size + 4095) / 4096 * 4096
  }

  // A sum of two values of a pointer's type.
  function Wrapped(lay: Layout, x: nat): nat
  {
    if x < lay.AdrLimit() then x else x - lay.AdrLimit()
  }

  // How many pages the loops of mm.c:666 and mm.c:678 visit, from page adr / 4096 on.
  function VisitedCount(lay: Layout, adr: nat, size: nat): nat
  {
    var from := adr - adr % 4096;
    var end := Wrapped(lay, from + Wrapped(lay, RoundUp(size)));
    if from < end then (end - from) / 4096 else 0
  }

  // Pointer and size are values of their types.
  predicate IsTyped(lay: Layout, r: Request)
  {
    r.Reconfigure? ==> r.adr < lay.AdrLimit() && r.size < lay.AdrLimit()
  }

  lemma EndIsAligned(lay: Layout, adr: nat, size: nat)
    ensures var from := adr - adr % 4096;
            var end := Wrapped(lay, from + Wrapped(lay, RoundUp(size)));
            if from < end then end == from + VisitedCount(lay, adr, size) * 4096 else VisitedCount(lay, adr, size) == 0
  {
    assert lay.AdrLimit() % 4096 == 0;
  }

  // The next page and the caching of all pages after some calls.
  function After(lay: Layout, next: nat, caching: map<nat, Caching>, requests: seq<Request>): (nat, map<nat, Caching>)
    decreases |requests|
  {
    if requests == [] then (next, caching) else
    var (n, m) := After(lay, next, caching, requests[..|requests| - 1]);
    match requests[|requests| - 1]
    case Alloc(pages, flags) => (n + pages, Granted(m, n, pages, Requested(flags)))
    case Reconfigure(adr, size, flags) =>
      (n, Recached(lay, m, adr / 4096, VisitedCount(lay, adr, size), Requested(flags)))
    case Lookup(_) => (n, m)
  }

  class Heap {
    const space: Space
    var nextVirtPage: nat
    ghost var caching: map<nat, Caching>
    ghost var data: set<nat>

    ghost predicate Valid()
      reads this, space, space.frames, space.frames.freemap
    {
      space.Valid() && HeapOk(space.lay, Tables(space), space.boot, nextVirtPage, caching, data)
    }

    // After mm_init().
    constructor (space: Space)
      requires space.Valid() && space.made == {} && space.boot == space.frames.Free()
      requires forall page | HEAP_START <= page < HEAP_END :: Leaf(space.lay, space.mem, page) == EMPTY
      ensures Valid() && this.space == space && nextVirtPage == HEAP_START && caching == map[] && data == {}
    {
      hide SpaceOk, TablesOk, At, Path, FreeSet;
      this.space := space;
      nextVirtPage, caching, data := HEAP_START, map[], {};
    }

    // One turn of the loop of mm.c:635-640.
    method AllocPage(flags: bv32)
      requires Valid() && !space.frames.halted
      modifies this, space, space.frames, space.frames.freemap
      ensures Valid() && space.boot == old(space.boot)
      ensures !space.frames.halted ==>
        nextVirtPage == old(nextVirtPage) + 1 && caching == old(caching)[old(nextVirtPage) := Requested(flags)]
      ensures space.frames.halted ==> nextVirtPage == old(nextVirtPage) && caching == old(caching)
      ensures space.frames.halted ==>
        Exhausted(space.frames.Free(), PAGE_START)
            || (Exhausted(space.frames.Free(), PT_START) && !ReserveFree(space.boot))
      ensures forall q | q in old(caching) :: Leaf(space.lay, space.mem, q) == Leaf(space.lay, old(space.mem), q)
    {
      hide SpaceOk, TablesOk, At, Path, FreeSet, IsMaskSet, MapFlags, PagesOk, DataOk, HeapPrefix, FirstFree, Exhausted,
          Took, LeavesBut, MappedEntry, ReserveFree, KeepsLinks;
      ghost var t0 := Tables(space);
      var r := space.frames.GetFreeFrame(FrameType.Page4k);
      if r.None? { return; }
      var frame := r.value;
      DataFrameTaken(space.lay, t0, space.boot, data, frame);
      ghost var t1 := Tables(space);
      var adr := nextVirtPage * 4096;
      space.MapFrameToAdr(frame, adr, MapFlags(flags));
      MapFlagsMean(flags);
      ghost var t2 := Tables(space);
      TablesKeepData(t1, t2, data, space.boot);
      TablesKeepData(t1, t2, data + {frame}, space.boot);
      MadeForHeap(space.lay, t1, t2, old(space.window), nextVirtPage);
      HeapPaths(space.lay, nextVirtPage);
      if space.frames.halted {
        NothingMapped(space.lay, t1.mem, t2.mem, nextVirtPage, caching, data);
        StillReserved(space.lay, t2, space.boot);
        return;
      }
      FreshPage(space.lay, t1.mem, nextVirtPage, caching, data, frame, flags);
      PageMapped(space.lay, t1.mem, t2.mem, nextVirtPage, caching, data, frame, Requested(flags));
      caching, data := caching[nextVirtPage := Requested(flags)], data + {frame};
      nextVirtPage := nextVirtPage + 1;
    }

    // Gives out n pages; when it runs out of memory it stops for ever, with pt_mutex locked.
    method HeapAlloc(nbrPages: nat, flags: bv32) returns (res: nat)
      requires Valid() && !space.frames.halted
      modifies this, space, space.frames, space.frames.freemap
      ensures Valid() && space.boot == old(space.boot)
      ensures !space.frames.halted ==>
        && res == old(nextVirtPage) * 4096 && nextVirtPage == old(nextVirtPage) + nbrPages
        && caching == Granted(old(caching), old(nextVirtPage), nbrPages, Requested(flags))
      ensures space.frames.halted ==>
        Exhausted(space.frames.Free(), PAGE_START)
            || (Exhausted(space.frames.Free(), PT_START) && !ReserveFree(space.boot))
      ensures forall q | q in old(caching) :: Leaf(space.lay, space.mem, q) == Leaf(space.lay, old(space.mem), q)
    {
      hide SpaceOk, TablesOk, At, Path, FreeSet, IsMaskSet, PagesOk, DataOk, HeapPrefix, Exhausted, ReserveFree;
      res := nextVirtPage * 4096;
      var i := 0;
      ghost var pages := caching.Keys;
      while i < nbrPages
        invariant i <= nbrPages && Valid() && !space.frames.halted && space.boot == old(space.boot)
        invariant nextVirtPage == old(nextVirtPage) + i
        invariant caching == Granted(old(caching), old(nextVirtPage), i, Requested(flags))
        invariant pages <= caching.Keys
        invariant forall q | q in pages :: Leaf(space.lay, space.mem, q) == Leaf(space.lay, old(space.mem), q)
      {
        AllocPage(flags);
        if space.frames.halted { return; }
        i := i + 1;
      }
    }

    method HeapReconfig(adr: nat, size: nat, flags: bv32)
      requires Valid() && IsTyped(space.lay, Reconfigure(adr, size, flags))
      modifies this`caching, space`mem, space`window
      ensures Valid()
      ensures caching
              == Recached(space.lay, old(caching), adr / 4096, VisitedCount(space.lay, adr, size), Requested(flags))
      ensures forall q | q in old(caching) ::
          Leaf(space.lay, space.mem, q).frame == Leaf(space.lay, old(space.mem), q).frame
    {
      hide SpaceOk, TablesOk, At, Path, FreeSet, IsMaskSet, PagesOk, DataOk, HeapPrefix, LeavesBut, KeepsLinks,
          ReconfEntry, MapFlags, Leaf, Tables, HeapOk, VisitedCount, Recached, RoundUp, Requested;
      NoneRecached(space.lay, caching, adr / 4096, Requested(flags));
      var from := adr - adr % 4096;
      var rounded := Wrapped(space.lay, RoundUp(size));
      var end := Wrapped(space.lay, from + rounded);
      EndIsAligned(space.lay, adr, size);
      var p := from;
      ghost var n := 0;
      while p < end
        invariant p == from + n * 4096 && n <= VisitedCount(space.lay, adr, size) && Valid()
        invariant caching == Recached(space.lay, old(caching), adr / 4096, n, Requested(flags))
        invariant caching.Keys == old(caching.Keys)
        invariant forall q | q in old(caching) ::
            Leaf(space.lay, space.mem, q).frame == Leaf(space.lay, old(space.mem), q).frame
        decreases end - p
      {
        assert p / 4096 == adr / 4096 + n;
        OneMoreRecached(space.lay, old(caching), adr / 4096, n, Requested(flags));
        ReconfPageAt(p, flags);
        n := n + 1;
        p := p + 4096;
      }
    }

    // One turn of that loop.
    method ReconfPageAt(p: nat, flags: bv32)
      requires Valid()
      modifies this`caching, space`mem, space`window
      ensures Valid() && caching == Recached(space.lay, old(caching), p / 4096, 1, Requested(flags))
      ensures caching.Keys == old(caching.Keys)
      ensures forall q | q in old(caching) ::
          Leaf(space.lay, space.mem, q).frame == Leaf(space.lay, old(space.mem), q).frame
    {
      hide SpaceOk, TablesOk, At, Path, FreeSet, IsMaskSet, PagesOk, DataOk, HeapPrefix, LeavesBut, KeepsLinks,
          ReconfEntry, MapFlags;
      MapFlagsMean(flags);
      PathWraps(space.lay, p / 4096);
      OneRecached(space.lay, caching, p / 4096, Requested(flags));
      space.ReconfAdr(p, MapFlags(flags));
      AnyPageReconfigured(space.lay, old(space.mem), space.mem, nextVirtPage, caching, data, p / 4096, flags);
      caching := Recached(space.lay, caching, p / 4096, 1, Requested(flags));
    }

    method Find(adr: nat) returns (result: nat)
      requires Valid()
      modifies space`mem, space`window
      ensures Valid()
      ensures adr / 4096 in caching ==> result == Leaf(space.lay, space.mem, adr / 4096).frame * 4096 + adr % 4096
    {
      hide SpaceOk, TablesOk, At, Path, FreeSet, PagesOk, DataOk, HeapPrefix, KeepsLeaves, KeepsLinks, Translate;
      result := space.VirtToPhys(adr);
      NothingMapped(space.lay, old(space.mem), space.mem, nextVirtPage, caching, data);
      HeapPageFound(space.lay, space.mem, space.level, space.window, nextVirtPage, caching, data, adr / 4096);
    }

    // Whole runs: whatever is asked for, as long as memory lasts every heap page has the caching last asked for.
    method Serve(requests: seq<Request>)
      requires Valid() && !space.frames.halted && forall r | r in requests :: IsTyped(space.lay, r)
      modifies this, space, space.frames, space.frames.freemap
      ensures Valid() && space.boot == old(space.boot)
      ensures !space.frames.halted ==>
          (nextVirtPage, caching) == After(space.lay, old(nextVirtPage), old(caching), requests)
    {
      hide SpaceOk, TablesOk, At, Path, FreeSet, IsMaskSet, PagesOk, DataOk, HeapPrefix, HeapOk, Exhausted, Recached,
          Granted, VisitedCount;
      var i := 0;
      while i < |requests|
        invariant i <= |requests| && Valid() && !space.frames.halted && space.boot == old(space.boot)
        invariant (nextVirtPage, caching) == After(space.lay, old(nextVirtPage), old(caching), requests[..i])
        decreases |requests| - i
      {
        assert requests[..i + 1][..i] == requests[..i];
        match requests[i] {
          case Alloc(pages, flags) =>
            var res := HeapAlloc(pages, flags);
            if space.frames.halted { return; }
          case Reconfigure(adr, size, flags) =>
            HeapReconfig(adr, size, flags);
          case Lookup(adr) =>
            var res := Find(adr);
        }
        i := i + 1;
      }
      assert requests[..|requests|] == requests;
    }
  }

  lemma MadeForHeap(lay: Layout, a: TableState, b: TableState, window: nat, q: nat)
    requires SpaceOk(lay, a.mem, a.level, window) && IsHeapPage(q, HEAP_END) && MadeTables(lay, lay.PathOf(q), a, b)
    requires forall p | p in a.made :: HeapPrefix(lay, p)
    ensures forall p | p in b.made :: HeapPrefix(lay, p)
  {
    hide SpaceOk, At, Path, HeapPrefix;
    forall p | p in b.made ensures HeapPrefix(lay, p) {
      if p !in a.made { NewPrefixIsHeap(lay, a.mem, a.level, window, q, p); }
    }
  }

  lemma NothingMapped(lay: Layout, mem: Memory, after: Memory, next: nat, caching: map<nat, Caching>, data: set<nat>)
    requires PagesOk(lay, mem, next, caching, data) && KeepsLeaves(lay, mem, after) && next <= HEAP_END
    ensures PagesOk(lay, after, next, caching, data)
    ensures forall q | q in caching :: Leaf(lay, after, q) == Leaf(lay, mem, q)
  {
    hide At, Path;
    forall q: nat | IsHeapPage(q, HEAP_END) ensures Leaf(lay, after, q) == Leaf(lay, mem, q) {
      HeapPaths(lay, q);
    }
  }

  // When the reserve was free at boot, there is always a frame for a table.
  lemma StillReserved(lay: Layout, t: TableState, boot: set<nat>)
    requires TablesOk(lay, t.mem, t.level, t.made, boot, t.free) && forall p | p in t.made :: HeapPrefix(lay, p)
    ensures ReserveFree(boot) ==> !Exhausted(t.free, PT_START)
  {
    hide At, HeapPrefix, TablesOk, Exhausted;
    if ReserveFree(boot) { TablesInReserve(lay, t, boot); }
  }

  // What map_frame_to_adr() writes for the next page.
  lemma FreshPage(lay: Layout, mem: Memory, next: nat, caching: map<nat, Caching>, data: set<nat>, frame: nat,
          flags: bv32)
    requires PagesOk(lay, mem, next, caching, data) && IsHeapPage(next, HEAP_END)
    ensures var c := Requested(flags);
            MappedEntry(Leaf(lay, mem, next), frame, MapFlags(flags)) == Entry(true, true, c.writeThrough, c.disabled,
                false, frame)
  {
    hide IsMaskSet, MapFlags;
    MapFlagsMean(flags);
  }

  lemma HeapPageFound(lay: Layout, mem: Memory, level: map<nat, nat>, window: nat, next: nat,
          caching: map<nat, Caching>, data: set<nat>, q: nat)
    requires SpaceOk(lay, mem, level, window) && PagesOk(lay, mem, next, caching, data)
    ensures q in caching ==> Translate(mem, ROOT, lay.PathOf(q)) == Page(Leaf(lay, mem, q), true)
  {
    hide At, Path, SpaceOk, Translate;
    ProcessorFinds(lay, mem, level, window, q);
  }

  // ---------------------------------------------------------------- what a caller may rely on

  // The processor finds each heap page in a registered frame from 0x800 on, writable and with the caching last asked
  // for; no two pages share a frame, none shares one with a table, and none is free.
  ghost predicate PagesMapped(lay: Layout, t: TableState, boot: set<nat>, caching: map<nat, Caching>)
  {
    && (forall q: nat | q in caching :: PageMappedWell(Translate(t.mem, ROOT, lay.PathOf(q)), caching[q], t, boot))
    && (forall q: nat, r: nat | q in caching && r in caching && q != r ::
        Leaf(lay, t.mem, q).frame != Leaf(lay, t.mem, r).frame)
  }

  predicate PageMappedWell(w: Walk, c: Caching, t: TableState, boot: set<nat>)
  {
    w.Page? && w.writable && w.e.pwt == c.writeThrough && w.e.pcd == c.disabled
    && w.e.frame >= PAGE_START && w.e.frame in boot && w.e.frame !in t.free && w.e.frame !in t.level
  }

  // At most TableLimit tables beside those of the boot, below 0x800 if the reserve was free then; the heap ends
  // before the pages of the APICs at 0xFEC00.
  ghost predicate WithinLimits(lay: Layout, t: TableState, boot: set<nat>, next: nat)
  {
    && |t.level.Keys| <= |BootTables(lay)| + TableLimit(lay)
    && (ReserveFree(boot) ==> forall f | f in t.level :: f < PAGE_START)
    && next <= 0x7FC00
  }

  lemma PagesPromise(lay: Layout, t: TableState, boot: set<nat>, window: nat, next: nat, caching: map<nat, Caching>,
          data: set<nat>)
    requires SpaceOk(lay, t.mem, t.level, window) && HeapOk(lay, t, boot, next, caching, data)
    ensures PagesMapped(lay, t, boot, caching)
  {
    hide At, Path, Translate, SpaceOk, HeapPrefix;
    forall q: nat | q in caching ensures PageMappedWell(Translate(t.mem, ROOT, lay.PathOf(q)), caching[q], t, boot) {
      HeapPageFound(lay, t.mem, t.level, window, next, caching, data, q);
      assert PageOk(Leaf(lay, t.mem, q), caching[q], data);
    }
  }

  lemma HeapPromise(h: Heap)
    requires h.Valid()
    ensures PagesMapped(h.space.lay, Tables(h.space), h.space.boot, h.caching)
    ensures WithinLimits(h.space.lay, Tables(h.space), h.space.boot, h.nextVirtPage)
    ensures forall q: nat :: q in h.caching <==> HEAP_START <= q < h.nextVirtPage
  {
    hide SpaceOk, TablesOk, DataOk, HeapPrefix, FreeSet, PagesMapped, WithinLimits, Leaf;
    PagesPromise(h.space.lay, Tables(h.space), h.space.boot, h.space.window, h.nextVirtPage, h.caching, h.data);
    HeapLimits(h.space.lay, Tables(h.space), h.space.boot, h.nextVirtPage);
  }

  // From the boot loader to any sequence of calls: unless the registration of a memory region does not end, the heap
  // keeps its promise, for the frames of the boot loader's memory description, and as long as memory lasts every page
  // has the caching last asked for.
  method BootAndServe(lay: Layout, raw: Memory, flags: bv32, memUpper: nat, mmap: seq<Bytes.Byte>,
          ghost es: seq<MmapEntry>, requests: seq<Request>) returns (h: Heap?)
    requires RawMemory(lay, raw) && memUpper < U32
    requires IsMaskSet(flags, Mask(6)) ==> mmap == EncodeMmap(es) && forall e | e in es :: e.Valid()
    requires forall r | r in requests :: IsTyped(lay, r)
    ensures h == null <==> IsMaskSet(flags, Mask(6)) && exists e :: e in es && Endless(e)
    ensures h != null ==>
      && h.space.lay == lay && h.space.boot == BootFrames(flags, memUpper, es)
      && h.space.frames.freemap.Length == WORDS
      && PagesMapped(lay, Tables(h.space), h.space.boot, h.caching)
      && WithinLimits(lay, Tables(h.space), h.space.boot, h.nextVirtPage)
      && (!h.space.frames.halted ==> (h.nextVirtPage, h.caching) == After(lay, HEAP_START, map[], requests))
  {
    hide IsMaskSet, Mask, IsBoot64, SpaceOk, TablesOk, Leaf, BootFrames, FreeSet, RawMemory, Endless, HeapOk,
        PagesMapped, WithinLimits, After, Path, At;
    var space := new Space(lay, raw);
    space.MmInit(flags, memUpper, mmap, es);
    if space.frames.halted { return null; }
    var heap := new Heap(space);
    heap.Serve(requests);
    HeapPromise(heap);
    return heap;
  }

  lemma HeapLimits(lay: Layout, t: TableState, boot: set<nat>, next: nat)
    requires TablesOk(lay, t.mem, t.level, t.made, boot, t.free) && next <= HEAP_END
    requires forall p | p in t.made :: HeapPrefix(lay, p)
    ensures WithinLimits(lay, t, boot, next)
  {
    hide At, HeapPrefix, BootTables, ReserveOk;
    ReserveBound(lay, t.made);
    if ReserveFree(boot) { TablesInReserve(lay, t, boot); }
  }

  // ---------------------------------------------------------------- the caching last asked for

  lemma RequestedIs(flags: bv32)
    ensures Requested(flags) == Caching(flags & 0x10 != 0, flags & 0x20 != 0)
  {
  }

  lemma {:induction false} GrantedAt(caching: map<nat, Caching>, from: nat, n: nat, c: Caching, q: nat)
    ensures var m := Granted(caching, from, n, c);
            && (q in m <==> q in caching || from <= q < from + n)
            && (q in m ==> m[q] == if from <= q < from + n then c else caching[q])
  {
    if n > 0 { GrantedAt(caching, from, n - 1, c, q); }
  }

  lemma {:induction false} RecachedAt(lay: Layout, caching: map<nat, Caching>, from: nat, n: nat, c: Caching, q: nat)
    ensures var m := Recached(lay, caching, from, n, c);
            && (q in m <==> q in caching)
            && (q in m ==> m[q] == if exists p: nat :: from <= p < from + n && p % lay.PageCount() == q then c
                                   else caching[q])
  {
    PathWraps(lay, 0);
    if n > 0 {
      RecachedAt(lay, caching, from, n - 1, c, q);
      hide Layout.PageCount;
      assert (exists p: nat :: from <= p < from + n && p % lay.PageCount() == q) <==>
          || (from + n - 1) % lay.PageCount() == q
          || exists p: nat :: from <= p < from + n - 1 && p % lay.PageCount() == q;
    }
  }

  // How many pages some calls have allocated.
  function Allocated(requests: seq<Request>): nat
  {
    if requests == [] then 0 else
    var last := requests[|requests| - 1];
    Allocated(requests[..|requests| - 1]) + if last.Alloc? then last.pages else 0
  }

  // Call j is about heap page q: it allocates the page or visits it.
  predicate IsAbout(lay: Layout, requests: seq<Request>, j: nat, q: nat)
    requires j < |requests|
  {
    match requests[j]
    case Alloc(pages, _) =>
      HEAP_START + Allocated(requests[..j]) <= q < HEAP_START + Allocated(requests[..j]) + pages
    case Reconfigure(adr, size, _) =>
      exists p: nat :: adr / 4096 <= p < adr / 4096 + VisitedCount(lay, adr, size) && p % lay.PageCount() == q
    case Lookup(_) => false
  }

  // Call j is the last one about page q, and c is what it asked for.
  predicate LastAsked(lay: Layout, requests: seq<Request>, j: nat, q: nat, c: Caching)
  {
    && j < |requests| && IsAbout(lay, requests, j, q) && c == Requested(requests[j].flags)
    && forall k: nat | j < k < |requests| :: !IsAbout(lay, requests, k, q)
  }

  // After any sequence of calls the heap holds as many pages as were asked for, each with the caching last asked for.
  lemma {:induction false} AfterIsLastAsked(lay: Layout, requests: seq<Request>, q: nat)
    ensures var (n, m) := After(lay, HEAP_START, map[], requests);
            && n == 0x400 + Allocated(requests)
            && (q in m <==> 0x400 <= q < n)
            && (q in m ==> exists j :: LastAsked(lay, requests, j, q, m[q]))
    decreases |requests|
  {
    if requests != [] {
      var last, less := |requests| - 1, requests[..|requests| - 1];
      AfterIsLastAsked(lay, less, q);
      AskedBefore(lay, requests, q);
      var (n0, m0) := After(lay, HEAP_START, map[], less);
      var (n, m) := After(lay, HEAP_START, map[], requests);
      match requests[last] {
        case Alloc(pages, flags) => GrantedAt(m0, n0, pages, Requested(flags), q);
        case Reconfigure(adr, size, flags) =>
          RecachedAt(lay, m0, adr / 4096, VisitedCount(lay, adr, size), Requested(flags), q);
        case Lookup(_) =>
      }
      hide After, Granted, Recached, VisitedCount;
      if q in m {
        if IsAbout(lay, requests, last, q) {
          assert LastAsked(lay, requests, last, q, m[q]);
        } else {
          var j :| LastAsked(lay, less, j, q, m0[q]);
          assert LastAsked(lay, requests, j, q, m[q]);
        }
      }
    }
  }

  // A call is about the same pages whatever comes after it.
  lemma AskedBefore(lay: Layout, requests: seq<Request>, q: nat)
    requires requests != []
    ensures var less := requests[..|requests| - 1];
            forall j: nat | j < |less| :: IsAbout(lay, requests, j, q) == IsAbout(lay, less, j, q)
  {
    var less := requests[..|requests| - 1];
    forall j: nat | j < |less| ensures IsAbout(lay, requests, j, q) == IsAbout(lay, less, j, q) {
      assert requests[..j] == less[..j];
    }
  }

  // ---------------------------------------------------------------- which buffers are covered

  // The pages that heap_reconfig() and tlb_shootdown() visit.
  predicate Visited(lay: Layout, adr: nat, size: nat, page: nat)
  {
    adr / 4096 <= page < adr / 4096 + VisitedCount(lay, adr, size)
  }

  predicate Covered(lay: Layout, adr: nat, size: nat)
  {
    forall b: nat | adr <= b < adr + size :: Visited(lay, adr, size, b / 4096)
  }

  lemma VisitedBelowLimit(lay: Layout, adr: nat, size: nat)
    ensures adr - adr % 4096 + RoundUp(size) < lay.AdrLimit() ==> VisitedCount(lay, adr, size) == RoundUp(size) / 4096
    ensures adr + size <= lay.AdrLimit() <= adr - adr % 4096 + RoundUp(size) ==> VisitedCount(lay, adr, size) == 0
  {
  }

  lemma RoundUpIs(size: nat)
    ensures RoundUp(size) % 4096 == 0 && size <= RoundUp(size) < size + 4096
  {
  }

  lemma LeastMultiple(size: nat, up: nat)
    requires up % 4096 == 0 && size <= up < size + 4096
    ensures up == RoundUp(size)
  {
    RoundUpIs(size);
  }

  // The visited pages begin in [adr, adr + up), for the first address of a page and the least whole number of pages
  // that holds the size, in the arithmetic of pointers.
  lemma VisitedExactlyWhen(lay: Layout, adr: nat, size: nat, up: nat, page: nat)
    requires adr < lay.AdrLimit() && size < lay.AdrLimit() && up % 4096 == 0 && size <= up < size + 4096
    ensures Visited(lay, adr, size, page)
            <==> adr / 4096 <= page && page * 4096 < (adr / 4096 * 4096 + up) % lay.AdrLimit()
  {
    LeastMultiple(size, up);
    var from := adr / 4096 * 4096;
    assert from == adr - adr % 4096;
    assert up <= lay.AdrLimit() by { assert lay.AdrLimit() % 4096 == 0; }
    WrappedSum(lay, from, up);
    EndIsAligned(lay, adr, size);
    hide VisitedCount, RoundUp, Wrapped;
  }

  lemma WrappedSum(lay: Layout, x: nat, y: nat)
    requires x < lay.AdrLimit() && y <= lay.AdrLimit()
    ensures Wrapped(lay, x + Wrapped(lay, y)) == (x + y) % lay.AdrLimit()
  {
  }

  // For a buffer that begins with a page and ends before the last one of the address space, these are the pages that
  // hold a byte of it.
  lemma AlignedVisited(lay: Layout, adr: nat, size: nat, page: nat)
    requires adr % 4096 == 0 && adr + size <= lay.AdrLimit() - 4096
    ensures Visited(lay, adr, size, page) <==> exists b: nat :: adr <= b < adr + size && b / 4096 == page
  {
    RoundUpIs(size);
    VisitedBelowLimit(lay, adr, size);
    hide VisitedCount, RoundUp;
    if Visited(lay, adr, size, page) {
      var b := page * 4096;
      assert adr <= b < adr + size && b / 4096 == page;
    }
  }

  // Two bytes across a page boundary: only the first page is visited.
  lemma BoundaryMissed(lay: Layout)
    ensures !Covered(lay, 0xFFF, 2) && VisitedCount(lay, 0xFFF, 2) == 1
  {
    assert !Visited(lay, 0xFFF, 2, 0x1000 / 4096);
  }

  // Address and size are rounded separately: every byte of a buffer is covered exactly when its offset in the first
  // page fits the room that rounding up the size leaves, as it does for aligned buffers, and its last page is not the
  // last of the address space.
  lemma CoveredExactlyWhen(lay: Layout, adr: nat, size: nat)
    requires adr + size <= lay.AdrLimit()
    ensures Covered(lay, adr, size) <==>
              size == 0 || (adr % 4096 + size <= RoundUp(size) && adr - adr % 4096 + RoundUp(size) < lay.AdrLimit())
  {
    VisitedBelowLimit(lay, adr, size);
    hide VisitedCount;
    if size > 0 && Covered(lay, adr, size) {
      assert Visited(lay, adr, size, (adr + size - 1) / 4096);
    }
    if adr % 4096 + size <= RoundUp(size) && adr - adr % 4096 + RoundUp(size) < lay.AdrLimit() {
      forall b: nat | adr <= b < adr + size ensures Visited(lay, adr, size, b / 4096) {
        assert b < (adr / 4096 + RoundUp(size) / 4096) * 4096;
      }
    }
  }
}
