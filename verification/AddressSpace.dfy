// The page tables of mm.c: the window page (mm.c:181-204), mapping (mm.c:220-338), reconfiguring (mm.c:340-446),
// the walk virt_to_phys() (mm.c:684-791), and the tables that boot leaves (start64.asm:121-161, mm.c:482-513).
// One CPU uses them at a time.
module AddressSpace {
  import Bytes
  import opened Freemap
  import opened PageTable

  datatype Layout = Bits64 | Bits32
  {
    function Levels(): nat { if Bits64? then 4 else 2 }

    function Entries(): nat { if Bits64? then 512 else 1024 }

    // The frame of the page table that holds the entry of the window page: MM64_MAP_TEMPORARY, MM32_MAP_TEMPORARY.
    function WindowTable(): nat { if Bits64? then 5 else 2 }

    function PathOf(page: nat): (r: seq<nat>)
      ensures |r| == Levels()
    {
      Path(Entries(), Levels(), page)
    }

    function PageCount(): nat { Pages(Entries(), Levels()) }

    function WindowPath(): seq<nat> { PathOf(WINDOW) }

    // The number of values of a pointer.
    function AdrLimit(): nat { if Bits64? then 0x1_0000_0000_0000_0000 else 0x1_0000_0000 }
  }

  const ROOT := 1          // pd1 is at 0x1000
  const WINDOW := 0x1FF    // tmp_page
  const HEAP_START := 0x400    // next_virt_page at first (mm.c:614)
  const HEAP_END := 0x7FC00    // HEAP_START + MAX_FRAMES - PAGE_START

  // mm.c:216-218
  const MAP_HUGE: bv32 := 7
  const MAP_PWT: bv32 := 8
  const MAP_PCD: bv32 := 16

  // The index functions of mm.c:69-100, for a page number.
  lemma PathIndices(page: nat)
    ensures Bits64.PathOf(page) == [page / 512 / 512 / 512 % 512, page / 512 / 512 % 512, page / 512 % 512, page % 512]
    ensures Bits32.PathOf(page) == [page / 1024 % 1024, page % 1024]
  {
    var a, b, c := page / 512, page / 512 / 512, page / 512 / 512 / 512;
    assert Path(512, 0, c / 512) == [] && Path(1024, 0, page / 1024 / 1024) == [];
    assert Path(512, 1, c) == [c % 512];
    assert Path(512, 2, b) == [c % 512, b % 512];
    assert Path(512, 3, a) == [c % 512, b % 512, a % 512];
    assert Path(512, 4, page) == [c % 512, b % 512, a % 512, page % 512];
    assert Path(1024, 1, page / 1024) == [page / 1024 % 1024];
    assert Path(1024, 2, page) == [page / 1024 % 1024, page % 1024];
  }

  // The index functions drop what is beyond the pages of the address space.
  lemma PathWraps(lay: Layout, page: nat)
    ensures lay.PageCount() == (if lay.Bits64? then 0x10_0000_0000 else 0x10_0000)
    ensures lay.PathOf(page % lay.PageCount()) == lay.PathOf(page)
  {
    assert Pages(512, 1) == 512 && Pages(512, 2) == 0x40000 && Pages(512, 3) == 0x8000000;
    assert Pages(1024, 1) == 1024;
    PathIndices(page);
    PathIndices(page % lay.PageCount());
    hide Path;
    if lay.Bits64? { Indices64(page); } else { Indices32(page); }
  }

  // One index down: a multiple of 512 * m becomes a multiple of m.
  lemma IndexDown(page: nat, k: nat, q: nat, m: nat)
    requires page == k * (512 * m) + q && q < 512 * m
    ensures q % 512 == page % 512 && page / 512 == k * m + q / 512 && q / 512 < m
  {
    assert k * (512 * m) == 512 * (k * m);
  }

  lemma Indices64(page: nat)
    ensures var q := page % 0x10_0000_0000;
            && q % 512 == page % 512 && q / 512 % 512 == page / 512 % 512
            && q / 512 / 512 % 512 == page / 512 / 512 % 512
                && q / 512 / 512 / 512 % 512 == page / 512 / 512 / 512 % 512
  {
    var k, q := page / 0x10_0000_0000, page % 0x10_0000_0000;
    IndexDown(page, k, q, 0x800_0000);
    IndexDown(page / 512, k, q / 512, 0x4_0000);
    IndexDown(page / 512 / 512, k, q / 512 / 512, 512);
    IndexDown(page / 512 / 512 / 512, k, q / 512 / 512 / 512, 1);
  }

  lemma Indices32(page: nat)
    ensures var q := page % 0x10_0000; q % 1024 == page % 1024 && q / 1024 % 1024 == page / 1024 % 1024
  {
  }

  // The entry that maps a page, or the one that would.
  function Leaf(lay: Layout, mem: Memory, page: nat): Entry
  {
    At(mem, ROOT, lay.PathOf(page))
  }

  // ---------------------------------------------------------------- the invariant

  predicate RawMemory(lay: Layout, mem: Memory)
  {
    |mem| == MAX_FRAMES && forall f: nat | f < |mem| :: |mem[f]| == lay.Entries()
  }

  ghost predicate SpaceOk(lay: Layout, mem: Memory, level: map<nat, nat>, window: nat)
  {
    && RawMemory(lay, mem)
    && TreeOk(mem, lay.Entries(), level)
    && ROOT in level && level[ROOT] == lay.Levels()
    && (forall f: nat | f in level :: level[f] <= lay.Levels())
    && WindowOk(lay, mem, window)
  }

  // The window page is mapped by the window table's entry. The window table, like pd1, is accessed where it is.
  ghost predicate WindowOk(lay: Layout, mem: Memory, window: nat)
    requires RawMemory(lay, mem)
  {
    && Slot(mem, ROOT, lay.WindowPath()) == Some((lay.WindowTable(), WINDOW))
    && mem[lay.WindowTable()][WINDOW].p && mem[lay.WindowTable()][WINDOW].rw
    && mem[lay.WindowTable()][WINDOW].frame == window
    && Leaf(lay, mem, ROOT).p && Leaf(lay, mem, ROOT).frame == ROOT
    && Leaf(lay, mem, lay.WindowTable()).p && Leaf(lay, mem, lay.WindowTable()).frame == lay.WindowTable()
  }

  // What the processor finds for a page is its entry, and no huge page.
  lemma ProcessorFinds(lay: Layout, mem: Memory, level: map<nat, nat>, window: nat, page: nat)
    requires SpaceOk(lay, mem, level, window)
    ensures Translate(mem, ROOT, lay.PathOf(page)) == var e := Leaf(lay, mem, page); if e.p then Page(e, e.rw)
        else Absent
  {
    TranslateFinds(mem, lay.Entries(), level, ROOT, lay.PathOf(page));
  }

  // A store through the window page reaches the frame shown, and one through its table's page that table.
  lemma WindowWalk(lay: Layout, mem: Memory, level: map<nat, nat>, window: nat)
    requires SpaceOk(lay, mem, level, window)
    ensures var w := Translate(mem, 1, lay.PathOf(0x1FF)); w.Page? && w.writable && w.e.frame == window
    ensures var pt := if lay.Bits64? then 5 else 2;
            var w := Translate(mem, 1, lay.PathOf(pt)); w.Page? && w.e.frame == pt
  {
    hide Path, TreeOk;
    ProcessorFinds(lay, mem, level, window, WINDOW);
    ProcessorFinds(lay, mem, level, window, lay.WindowTable());
  }

  // Different pages have different paths.
  lemma PathsDiffer(lay: Layout, page: nat, other: nat)
    requires page < lay.PageCount() && other < lay.PageCount() && page != other
    ensures lay.PathOf(page) != lay.PathOf(other)
  {
    if lay.PathOf(page) == lay.PathOf(other) { PathInjective(lay.Entries(), lay.Levels(), page, other); }
  }

  lemma SmallPages(lay: Layout, page: nat)
    requires page < 0x100000
    ensures page < lay.PageCount()
  {
    assert Pages(512, 1) == 512 && Pages(512, 2) == 0x40000 && Pages(512, 3) == 0x8000000;
    assert Pages(1024, 1) == 1024;
  }

  // All page table entries but the window's stay.
  ghost predicate KeepsLeaves(lay: Layout, mem: Memory, after: Memory)
  {
    forall path | |path| == lay.Levels() && path != lay.WindowPath() :: At(after, ROOT, path) == At(mem, ROOT, path)
  }

  // No present directory entry changes.
  ghost predicate KeepsLinks(lay: Layout, mem: Memory, after: Memory)
  {
    forall path | 0 < |path| < lay.Levels() && At(mem, ROOT, path).p :: At(after, ROOT, path) == At(mem, ROOT, path)
  }

  // ---------------------------------------------------------------- the window

  // Memory after map_temporary(f).
  function Shown(lay: Layout, mem: Memory, f: nat): Memory
  {
    var e := Get(mem, lay.WindowTable(), WINDOW);
    if e.frame == f then mem else Put(mem, lay.WindowTable(), WINDOW, WindowEntry(e, f))
  }

  function WindowEntry(e: Entry, f: nat): Entry
  {
    e.(frame := f, rw := true, p := true, pwt := true)
  }

  // The stores of map_temporary() and of a new directory entry: the entry points to the frame, present and writable,
  // and the window's is written through.
  lemma StoredEntriesAre(e: Entry, f: nat)
    ensures WindowEntry(e, f) == Entry(true, true, true, e.pcd, e.ps, f)
    ensures LinkEntry(e, f) == Entry(true, true, e.pwt, e.pcd, e.ps, f)
  {
  }

  lemma WindowTableLevel(lay: Layout, mem: Memory, level: map<nat, nat>, window: nat)
    requires SpaceOk(lay, mem, level, window)
    ensures lay.WindowTable() in level && level[lay.WindowTable()] == 1
  {
    SlotLevel(mem, lay.Entries(), level, ROOT, lay.WindowPath());
  }

  lemma ShownAt(lay: Layout, mem: Memory, level: map<nat, nat>, window: nat, f: nat, path: seq<nat>)
    requires SpaceOk(lay, mem, level, window) && 0 < |path| <= lay.Levels()
    ensures Slot(Shown(lay, mem, f), ROOT, path) == Slot(mem, ROOT, path)
    ensures path != lay.WindowPath() ==> At(Shown(lay, mem, f), ROOT, path) == At(mem, ROOT, path)
  {
    hide Path;
    WindowTableLevel(lay, mem, level, window);
    OnlyPathTo(lay, mem, level, window, lay.WindowPath(), path);
    var e := WindowEntry(Get(mem, lay.WindowTable(), WINDOW), f);
    PutAt(mem, lay.Entries(), level, lay.WindowTable(), WINDOW, e, ROOT, path);
  }

  // Turning the window to another frame changes the translation of the window page only.
  lemma ShownOk(lay: Layout, mem: Memory, level: map<nat, nat>, window: nat, f: nat)
    requires SpaceOk(lay, mem, level, window)
    ensures SpaceOk(lay, Shown(lay, mem, f), level, f)
    ensures KeepsLeaves(lay, mem, Shown(lay, mem, f)) && KeepsLinks(lay, mem, Shown(lay, mem, f))
    ensures forall path | 0 < |path| <= lay.Levels() :: Slot(Shown(lay, mem, f), ROOT, path) == Slot(mem, ROOT, path)
  {
    hide Path, Slot, At, TableOk, OneParent;
    forall path | 0 < |path| <= lay.Levels()
      ensures Slot(Shown(lay, mem, f), ROOT, path) == Slot(mem, ROOT, path)
      ensures path != lay.WindowPath() ==> At(Shown(lay, mem, f), ROOT, path) == At(mem, ROOT, path)
    {
      ShownAt(lay, mem, level, window, f, path);
    }
    LowPaths(lay);
    WindowTableLevel(lay, mem, level, window);
    PutTree(mem, lay.Entries(), level, lay.WindowTable(), WINDOW,
      WindowEntry(Get(mem, lay.WindowTable(), WINDOW), f));
  }

  lemma LowPaths(lay: Layout)
    ensures lay.PathOf(ROOT) != lay.WindowPath() && lay.PathOf(lay.WindowTable()) != lay.WindowPath()
  {
    SmallPages(lay, WINDOW);
    SmallPages(lay, ROOT);
    SmallPages(lay, lay.WindowTable());
    PathsDiffer(lay, ROOT, WINDOW);
    PathsDiffer(lay, lay.WindowTable(), WINDOW);
  }

  // No second path ends where a full path ends.
  lemma OnlyPathTo(lay: Layout, mem: Memory, level: map<nat, nat>, window: nat, path: seq<nat>, other: seq<nat>)
    requires SpaceOk(lay, mem, level, window) && |path| == lay.Levels() && 0 < |other| <= lay.Levels()
    requires Slot(mem, ROOT, path).Some?
    ensures Slot(mem, ROOT, path) == Slot(mem, ROOT, other) ==> path == other
  {
    SlotLevel(mem, lay.Entries(), level, ROOT, path);
    SlotLevel(mem, lay.Entries(), level, ROOT, other);
    if Slot(mem, ROOT, path) == Slot(mem, ROOT, other) {
      SlotInjective(mem, lay.Entries(), level, ROOT, ROOT, path, other);
    }
  }

  // ---------------------------------------------------------------- changing the tree

  ghost predicate SameLeaves(lay: Layout, mem: Memory, after: Memory)
  {
    forall p | |p| == lay.Levels() :: At(after, ROOT, p) == At(mem, ROOT, p)
  }

  lemma LinkedWindow(lay: Layout, mem: Memory, level: map<nat, nat>, window: nat, d: nat, k: nat, t: nat)
    requires SpaceOk(lay, mem, level, window) && CanLink(mem, lay.Entries(), level, d, k, t)
    requires SameLeaves(lay, mem, Linked(mem, d, k, t))
    ensures RawMemory(lay, Linked(mem, d, k, t)) && WindowOk(lay, Linked(mem, d, k, t), window)
  {
    hide Path, TreeOk, At, Slot;
    LinkedSlot(mem, lay.Entries(), level, d, k, t, ROOT, lay.WindowPath());
    WindowTableLevel(lay, mem, level, window);
  }

  lemma LinkedEntry(lay: Layout, mem: Memory, level: map<nat, nat>, d: nat, k: nat, t: nat, path: seq<nat>)
    requires CanLink(mem, lay.Entries(), level, d, k, t) && ROOT in level && 0 < |path| < lay.Levels() == level[ROOT]
    requires Slot(mem, ROOT, path) == Some((d, k))
    ensures At(Linked(mem, d, k, t), ROOT, path) == LinkEntry(At(mem, ROOT, path), t)
  {
    assert At(mem, ROOT, path) == Get(mem, d, k);
    hide Path, Slot, At, Linked, TreeOk;
    LinkedAt(mem, lay.Entries(), level, d, k, t, ROOT, path);
  }

  lemma LinkedKeeps(lay: Layout, mem: Memory, level: map<nat, nat>, window: nat, d: nat, k: nat, t: nat)
    requires SpaceOk(lay, mem, level, window) && CanLink(mem, lay.Entries(), level, d, k, t)
    ensures SameLeaves(lay, mem, Linked(mem, d, k, t)) && KeepsLinks(lay, mem, Linked(mem, d, k, t))
  {
    hide Path, Slot, At, SpaceOk, CanLink, Linked;
    forall p | 0 < |p| <= lay.Levels()
      ensures |p| == lay.Levels() || At(mem, ROOT, p).p ==> At(Linked(mem, d, k, t), ROOT, p) == At(mem, ROOT, p)
    {
      LinkedElsewhere(lay, mem, level, window, d, k, t, p);
    }
  }

  // A new table behind an absent directory entry: no page's entry changes, and no other directory entry.
  lemma LinkedOk(lay: Layout, mem: Memory, level: map<nat, nat>, window: nat, d: nat, k: nat, t: nat, path: seq<nat>)
    requires SpaceOk(lay, mem, level, window) && CanLink(mem, lay.Entries(), level, d, k, t)
    requires 0 < |path| < lay.Levels() && Slot(mem, ROOT, path) == Some((d, k))
    ensures SpaceOk(lay, Linked(mem, d, k, t), level[t := level[d] - 1], window)
    ensures SameLeaves(lay, mem, Linked(mem, d, k, t)) && KeepsLinks(lay, mem, Linked(mem, d, k, t))
    ensures At(Linked(mem, d, k, t), ROOT, path) == LinkEntry(At(mem, ROOT, path), t)
  {
    hide Path, Slot, At, TableOk, OneParent, Linked, LinkEntry, WindowOk, Get, KeepsLinks, SameLeaves, RawMemory,
        TreeOk;
    LinkedEntry(lay, mem, level, d, k, t, path);
    LinkedKeeps(lay, mem, level, window, d, k, t);
    LinkedTree(mem, lay.Entries(), level, d, k, t);
    LinkedWindow(lay, mem, level, window, d, k, t);
  }

  lemma LinkedElsewhere(lay: Layout, mem: Memory, level: map<nat, nat>, window: nat, d: nat, k: nat, t: nat,
          p: seq<nat>)
    requires SpaceOk(lay, mem, level, window) && CanLink(mem, lay.Entries(), level, d, k, t) && 0 < |p| <= lay.Levels()
    ensures |p| == lay.Levels() || At(mem, ROOT, p).p ==> At(Linked(mem, d, k, t), ROOT, p) == At(mem, ROOT, p)
  {
    LinkedAt(mem, lay.Entries(), level, d, k, t, ROOT, p);
    SlotLevel(mem, lay.Entries(), level, ROOT, p);
  }

  // Setting the entry, turning the window and clearing what it shows, in the order of mm.c:236-242.
  lemma LinkOrder(lay: Layout, mem: Memory, level: map<nat, nat>, window: nat, d: nat, k: nat, t: nat)
    requires SpaceOk(lay, mem, level, window) && CanLink(mem, lay.Entries(), level, d, k, t)
    ensures lay.WindowTable() != d && lay.WindowTable() != t
    ensures Cleared(Shown(lay, Put(mem, d, k, LinkEntry(Get(mem, d, k), t)), t), t)
            == Shown(lay, Linked(mem, d, k, t), t)
  {
    hide Path, Slot, At, OneParent, TableOk, SpaceOk, TreeOk;
    WindowTableLevel(lay, mem, level, window);
    LinkBesideWindow(lay, mem, d, k, t);
  }

  lemma LinkBesideWindow(lay: Layout, mem: Memory, d: nat, k: nat, t: nat)
    requires lay.WindowTable() != d && lay.WindowTable() != t
    ensures Cleared(Shown(lay, Put(mem, d, k, LinkEntry(Get(mem, d, k), t)), t), t)
            == Shown(lay, Linked(mem, d, k, t), t)
  {
    hide Path, Pages;
    var linked := Put(mem, d, k, LinkEntry(Get(mem, d, k), t));
    var w := lay.WindowTable();
    assert w < |mem| ==> linked[w] == mem[w] == Linked(mem, d, k, t)[w];
    assert Cleared(Shown(lay, linked, t), t) == Shown(lay, Cleared(linked, t), t);
  }

  lemma WrittenAt(lay: Layout, mem: Memory, level: map<nat, nat>, window: nat, t: nat, k: nat, e: Entry, path: seq<nat>,
          p: seq<nat>)
    requires SpaceOk(lay, mem, level, window) && t < MAX_FRAMES && k < lay.Entries()
    requires |path| == lay.Levels() && Slot(mem, ROOT, path) == Some((t, k)) && 0 < |p| <= lay.Levels()
    ensures t in level && level[t] == 1
    ensures Slot(Put(mem, t, k, e), ROOT, p) == Slot(mem, ROOT, p)
    ensures At(Put(mem, t, k, e), ROOT, p) == if p == path then e else At(mem, ROOT, p)
  {
    hide Path;
    SlotLevel(mem, lay.Entries(), level, ROOT, path);
    PutAt(mem, lay.Entries(), level, t, k, e, ROOT, p);
    OnlyPathTo(lay, mem, level, window, path, p);
  }

  // The entry at the full path becomes e, all other entries on the way to a page and of pages stay.
  ghost predicate Writes(lay: Layout, mem: Memory, after: Memory, path: seq<nat>, e: Entry)
  {
    forall p | 0 < |p| <= lay.Levels() :: At(after, ROOT, p) == if p == path then e else At(mem, ROOT, p)
  }

  lemma WindowKept(lay: Layout, mem: Memory, level: map<nat, nat>, window: nat, t: nat, k: nat, e: Entry,
          path: seq<nat>)
    requires SpaceOk(lay, mem, level, window) && t < MAX_FRAMES && k < lay.Entries()
    requires |path| == lay.Levels() && Slot(mem, ROOT, path) == Some((t, k))
    requires mem[t][k].p ==> e.p && e.rw == mem[t][k].rw && e.frame == mem[t][k].frame
    requires Writes(lay, mem, Put(mem, t, k, e), path, e)
    requires Slot(Put(mem, t, k, e), ROOT, lay.WindowPath()) == Slot(mem, ROOT, lay.WindowPath())
    ensures RawMemory(lay, Put(mem, t, k, e))
    ensures WindowOk(lay, Put(mem, t, k, e), window)
  {
    hide Path, Slot;
    assert At(mem, ROOT, path) == mem[t][k];
    hide At;
  }

  // A page table entry changes, and where it was present it stays so with its frame: one page's entry changes.
  lemma WrittenOk(lay: Layout, mem: Memory, level: map<nat, nat>, window: nat, t: nat, k: nat, e: Entry, path: seq<nat>)
    requires SpaceOk(lay, mem, level, window) && t < MAX_FRAMES && k < lay.Entries()
    requires |path| == lay.Levels() && Slot(mem, ROOT, path) == Some((t, k))
    requires mem[t][k].p ==> e.p && e.rw == mem[t][k].rw && e.frame == mem[t][k].frame
    ensures SpaceOk(lay, Put(mem, t, k, e), level, window) && Writes(lay, mem, Put(mem, t, k, e), path, e)
  {
    hide Path, Slot, At, TableOk, OneParent;
    forall p | 0 < |p| <= lay.Levels()
      ensures At(Put(mem, t, k, e), ROOT, p) == if p == path then e else At(mem, ROOT, p)
    {
      WrittenAt(lay, mem, level, window, t, k, e, path, p);
    }
    WrittenAt(lay, mem, level, window, t, k, e, path, lay.WindowPath());
    WindowKept(lay, mem, level, window, t, k, e, path);
    PutTree(mem, lay.Entries(), level, t, k, e);
    hide WindowOk, Writes, Put;
  }

  // ---------------------------------------------------------------- where tables come from

  // The tables that exist before the first mapping.
  function BootTables(lay: Layout): set<nat>
  {
    if lay.Bits64? then {1, 2, 3, 4, 5, 6, 7} else {1, 2, 3}
  }

  ghost predicate Registered(boot: set<nat>, free: set<nat>)
  {
    free <= boot && forall f | f in boot :: PT_START <= f < MAX_FRAMES
  }

  // A table is a boot table or a registered frame that is not free any more.
  ghost predicate TableFrames(lay: Layout, level: map<nat, nat>, boot: set<nat>, free: set<nat>)
  {
    forall f | f in level :: f !in free && (f in BootTables(lay) || f in boot)
  }

  // made holds the paths of the directory entries that map_frame_to_adr() has filled.
  ghost predicate MadeOk(lay: Layout, mem: Memory, made: set<seq<nat>>)
  {
    forall path | path in made :: 0 < |path| < lay.Levels() && At(mem, ROOT, path).p
  }

  // boot holds the frames that mm_init() registered; there is one new table for each path made.
  ghost predicate TablesOk(lay: Layout, mem: Memory, level: map<nat, nat>, made: set<seq<nat>>, boot: set<nat>,
          free: set<nat>)
  {
    && Registered(boot, free) && TableFrames(lay, level, boot, free) && MadeOk(lay, mem, made)
    && |level.Keys| == |BootTables(lay)| + |made|
    && (ReserveFree(boot) ==> ReserveOk(level, |made|, free))
  }

  // The frames 0x400 .. 0x800 are all free at boot.
  ghost predicate ReserveFree(boot: set<nat>)
  {
    forall f | PT_START <= f < PAGE_START :: f in boot
  }

  // The first count frames of the reserve are tables, the others are free.
  ghost predicate ReserveOk(level: map<nat, nat>, count: nat, free: set<nat>)
  {
    count <= PAGE_START - PT_START ==>
      && (forall f | f in level :: f < PT_START + count)
      && (forall f | PT_START + count <= f < PAGE_START :: f in free)
  }

  lemma ReserveShrinks(level: map<nat, nat>, l: nat, count: nat, free: set<nat>, t: nat)
    requires ReserveOk(level, count, free) && FirstFree(free, PT_START, t)
    ensures ReserveOk(level[t := l], count + 1, free - {t})
  {
    if count + 1 <= PAGE_START - PT_START {
      assert PT_START + count in free;
      assert t <= PT_START + count;
    }
  }

  lemma TableFramesGrow(lay: Layout, level: map<nat, nat>, l: nat, boot: set<nat>, free: set<nat>, t: nat)
    requires Registered(boot, free) && TableFrames(lay, level, boot, free) && t in free
    ensures t !in level && |level[t := l].Keys| == |level.Keys| + 1
    ensures Registered(boot, free - {t}) && TableFrames(lay, level[t := l], boot, free - {t})
  {
    hide BootTables;
    assert level[t := l].Keys == level.Keys + {t};
  }

  lemma MadeGrows(lay: Layout, mem: Memory, after: Memory, made: set<seq<nat>>, path: seq<nat>)
    requires MadeOk(lay, mem, made) && KeepsLinks(lay, mem, after)
    requires 0 < |path| < lay.Levels() && !At(mem, ROOT, path).p && At(after, ROOT, path).p
    ensures MadeOk(lay, after, made + {path}) && |made + {path}| == |made| + 1
  {
    hide At;
    assert path !in made;
  }

  lemma TablesGrow(lay: Layout, mem: Memory, after: Memory, level: map<nat, nat>, l: nat, made: set<seq<nat>>,
          boot: set<nat>, free: set<nat>, t: nat, path: seq<nat>)
    requires TablesOk(lay, mem, level, made, boot, free) && FirstFree(free, PT_START, t)
    requires 0 < |path| < lay.Levels() && !At(mem, ROOT, path).p && At(after, ROOT, path).p
        && KeepsLinks(lay, mem, after)
    ensures TablesOk(lay, after, level[t := l], made + {path}, boot, free - {t})
  {
    assert t in free;
    hide At, ReserveOk, FirstFree, BootTables, ReserveFree, Registered, TableFrames, MadeOk, KeepsLinks;
    TableFramesGrow(lay, level, l, boot, free, t);
    MadeGrows(lay, mem, after, made, path);
    if ReserveFree(boot) { ReserveShrinks(level, l, |made|, free, t); }
  }

  lemma TablesKept(lay: Layout, mem: Memory, after: Memory, level: map<nat, nat>, made: set<seq<nat>>, boot: set<nat>,
          free: set<nat>)
    requires TablesOk(lay, mem, level, made, boot, free) && KeepsLinks(lay, mem, after)
    ensures TablesOk(lay, after, level, made, boot, free)
  {
  }

  // Table d is where the directory entries along path lead.
  ghost predicate Position(mem: Memory, d: nat, path: seq<nat>)
  {
    if path == [] then d == ROOT else At(mem, ROOT, path).p && At(mem, ROOT, path).frame == d
  }

  lemma PositionSlot(lay: Layout, mem: Memory, level: map<nat, nat>, window: nat, d: nat, path: seq<nat>, k: nat)
    requires SpaceOk(lay, mem, level, window) && Position(mem, d, path) && |path| < lay.Levels() && k < lay.Entries()
    ensures d in level && level[d] + |path| == lay.Levels() && d < MAX_FRAMES
    ensures Slot(mem, ROOT, path + [k]) == Some((d, k)) && At(mem, ROOT, path + [k]) == Get(mem, d, k)
  {
    if path == [] {
      assert path + [k] == [k];
    } else {
      SlotLevel(mem, lay.Entries(), level, ROOT, path);
      var s := Slot(mem, ROOT, path);
      assert TableOk(mem, lay.Entries(), level, s.value.0);
      assert DirEntryOk(mem[s.value.0][s.value.1], level, level[s.value.0]);
      assert TableOk(mem, lay.Entries(), level, d);
      SlotSnoc(mem, ROOT, path, k);
    }
  }

  lemma DirectoryEntry(lay: Layout, mem: Memory, level: map<nat, nat>, window: nat, d: nat, path: seq<nat>, k: nat)
    requires SpaceOk(lay, mem, level, window) && Position(mem, d, path) && |path| + 1 < lay.Levels()
        && k < lay.Entries()
    ensures d in level && d < MAX_FRAMES && level[d] > 1 && !Get(mem, d, k).ps
    ensures Get(mem, d, k).p ==> Position(mem, Get(mem, d, k).frame, path + [k])
  {
    PositionSlot(lay, mem, level, window, d, path, k);
    assert TableOk(mem, lay.Entries(), level, d);
    assert DirEntryOk(mem[d][k], level, level[d]);
  }

  lemma PositionKept(lay: Layout, mem: Memory, after: Memory, t: nat, path: seq<nat>)
    requires Position(mem, t, path) && 0 < |path| < lay.Levels() && KeepsLinks(lay, mem, after)
    ensures Position(after, t, path)
  {
  }

  // map_temporary() of the frame that a present directory entry points to.
  lemma FollowOk(lay: Layout, mem: Memory, level: map<nat, nat>, window: nat, d: nat, path: seq<nat>, k: nat)
    requires SpaceOk(lay, mem, level, window) && Position(mem, d, path) && |path| + 1 < lay.Levels()
        && k < lay.Entries()
    requires Get(mem, d, k).p
    ensures var t := Get(mem, d, k).frame;
            && SpaceOk(lay, Shown(lay, mem, t), level, t) && Position(Shown(lay, mem, t), t, path + [k])
            && KeepsLeaves(lay, mem, Shown(lay, mem, t)) && KeepsLinks(lay, mem, Shown(lay, mem, t))
  {
    hide *;
    var t := Get(mem, d, k).frame;
    DirectoryEntry(lay, mem, level, window, d, path, k);
    ShownOk(lay, mem, level, window, t);
    PositionKept(lay, mem, Shown(lay, mem, t), t, path + [k]);
  }

  // A new table, as map_frame_to_adr() makes it.
  lemma NewTableOk(lay: Layout, mem: Memory, level: map<nat, nat>, window: nat, made: set<seq<nat>>, boot: set<nat>,
          free: set<nat>, d: nat, path: seq<nat>, k: nat, t: nat)
    requires SpaceOk(lay, mem, level, window) && TablesOk(lay, mem, level, made, boot, free)
    requires Position(mem, d, path) && |path| + 1 < lay.Levels() && k < lay.Entries()
    requires !Get(mem, d, k).p && FirstFree(free, PT_START, t)
    ensures d in level && level[d] > 1
    ensures var after, level' := Cleared(Shown(lay, Put(mem, d, k, LinkEntry(Get(mem, d, k), t)), t), t),
        level[t := level[d] - 1];
            && SpaceOk(lay, after, level', t)
            && TablesOk(lay, after, level', made + {path + [k]}, boot, free - {t})
            && KeepsLeaves(lay, mem, after) && KeepsLinks(lay, mem, after) && Position(after, t, path + [k])
  {
    hide *;
    DirectoryEntry(lay, mem, level, window, d, path, k);
    PositionSlot(lay, mem, level, window, d, path, k);
    CanLinkTo(lay, mem, level, window, made, boot, free, d, k, t);
    LinkOrder(lay, mem, level, window, d, k, t);
    LinkedOk(lay, mem, level, window, d, k, t, path + [k]);
    var linked, level' := Linked(mem, d, k, t), level[t := level[d] - 1];
    ShownOk(lay, linked, level', window, t);
    KeepsTwice(lay, mem, linked, Shown(lay, linked, t), path + [k], t);
    TablesGrow(lay, mem, Shown(lay, linked, t), level, level[d] - 1, made, boot, free, t, path + [k]);
  }

  lemma KeepsTwice(lay: Layout, mem: Memory, linked: Memory, after: Memory, path: seq<nat>, t: nat)
    requires 0 < |path| < lay.Levels() && At(linked, ROOT, path) == LinkEntry(At(mem, ROOT, path), t)
    requires SameLeaves(lay, mem, linked)
    requires KeepsLinks(lay, mem, linked) && KeepsLinks(lay, linked, after) && KeepsLeaves(lay, linked, after)
    ensures KeepsLinks(lay, mem, after) && KeepsLeaves(lay, mem, after)
    ensures At(after, ROOT, path).p && Position(after, t, path)
  {
    hide At;
  }

  lemma CanLinkTo(lay: Layout, mem: Memory, level: map<nat, nat>, window: nat, made: set<seq<nat>>, boot: set<nat>,
          free: set<nat>, d: nat, k: nat, t: nat)
    requires SpaceOk(lay, mem, level, window) && TablesOk(lay, mem, level, made, boot, free)
    requires d in level && level[d] > 1 && d < MAX_FRAMES && k < lay.Entries() && !Get(mem, d, k).p
        && FirstFree(free, PT_START, t)
    ensures CanLink(mem, lay.Entries(), level, d, k, t)
  {
  }

  // The entry after map_frame_to_adr(): a present one is never replaced.
  function MappedEntry(e: Entry, frame: nat, flags: bv32): Entry
  {
    if e.p then e else
    e.(frame := frame, rw := true, p := true,
       pwt := e.pwt || IsMaskSet(flags, MAP_PWT), pcd := e.pcd || IsMaskSet(flags, MAP_PCD))
  }

  // The entry after reconf_adr(), for supported flags.
  function ReconfEntry(e: Entry, flags: bv32): Entry
  {
    if e.p then e.(pwt := IsMaskSet(flags, MAP_PWT), pcd := IsMaskSet(flags, MAP_PCD)) else e
  }

  // A mapped page keeps its entry; a page that was not gets the frame, writable, and caching bits on top of those that
  // were there.
  lemma MappedEntryIs(e: Entry, frame: nat, flags: bv32)
    ensures e.p ==> MappedEntry(e, frame, flags) == e
    ensures !e.p ==>
      MappedEntry(e, frame, flags) == Entry(true, true, e.pwt || flags & 8 != 0, e.pcd || flags & 16 != 0, e.ps, frame)
  {
  }

  // A mapped page gets just the two caching bits, a page that is not gets nothing.
  lemma ReconfEntryIs(e: Entry, flags: bv32)
    ensures e.p ==> ReconfEntry(e, flags) == Entry(true, e.rw, flags & 8 != 0, flags & 16 != 0, e.ps, e.frame)
    ensures !e.p ==> ReconfEntry(e, flags) == e
  {
  }

  // New tables are taken from the free frames, and nothing else is.
  predicate Took(level: map<nat, nat>, level': map<nat, nat>, free: set<nat>, free': set<nat>)
  {
    level.Keys <= level'.Keys && level'.Keys - level.Keys <= free && free' == free - (level'.Keys - level.Keys)
  }

  // ---------------------------------------------------------------- the tables at boot

  // Entries that end in 003 and 013 (start64.asm:133-160).
  function Pte(frame: nat): Entry
  {
    Entry(true, true, false, false, false, frame)
  }

  function UncachedPte(frame: nat): Entry
  {
    Entry(true, true, false, true, false, frame)
  }

  // What start64.asm leaves in frames 1 to 7.
  predicate IsBoot64(mem: Memory)
  {
    && RawMemory(Bits64, mem)
    && mem[1] == Zeroes(512)[0 := Pte(2)]
    && mem[2] == Zeroes(512)[0 := Pte(3)][3 := Pte(4)]
    && mem[3] == Zeroes(512)[0 := Pte(5)]
    && mem[4] == Zeroes(512)[0x1F6 := Pte(6)][0x1F7 := Pte(7)]
    && (forall u: nat | u < 512 :: mem[5][u] == Pte(u))
    && mem[6] == Zeroes(512)[0 := UncachedPte(0xFEC00)]
    && mem[7] == Zeroes(512)[0 := UncachedPte(0xFEE00)]
  }

  const LEVEL64: map<nat, nat> := map[1 := 4, 2 := 3, 3 := 2, 4 := 2, 5 := 1, 6 := 1, 7 := 1]

  // What mm_init() leaves in frames 1 to 3 of the 32-bit layout; frame 3 is not cleared.
  predicate IsBoot32(mem: Memory)
  {
    && RawMemory(Bits32, mem)
    && mem[1] == Zeroes(1024)[0 := Pte(2)][1019 := Pte(3)]
    && (forall u: nat | u < 1024 :: mem[2][u] == Pte(u))
    && IsApic(mem[3][0], 0xFEC00) && IsApic(mem[3][512], 0xFEE00)
  }

  // Its caching bits are those that were there.
  predicate IsApic(e: Entry, frame: nat)
  {
    e.p && e.rw && e.frame == frame
  }

  const LEVEL32: map<nat, nat> := map[1 := 2, 2 := 1, 3 := 1]

  predicate IsBoot(lay: Layout, mem: Memory)
  {
    if lay.Bits64? then IsBoot64(mem) else IsBoot32(mem)
  }

  function BootLevel(lay: Layout): map<nat, nat>
  {
    if lay.Bits64? then LEVEL64 else LEVEL32
  }

  lemma Boot64Links(mem: Memory, f: nat, k: nat)
    requires IsBoot64(mem) && Link(mem, LEVEL64, f, k)
    ensures (f, k, mem[f][k].frame) in {(1, 0, 2), (2, 0, 3), (2, 3, 4), (3, 0, 5), (4, 0x1F6, 6), (4, 0x1F7, 7)}
  {
    assert f in {1, 2, 3, 4};
  }

  lemma Boot64Tree(mem: Memory)
    requires IsBoot64(mem)
    ensures TreeOk(mem, 512, LEVEL64)
  {
    forall f: nat | f in LEVEL64 ensures TableOk(mem, 512, LEVEL64, f) {
      assert f in {1, 2, 3, 4, 5, 6, 7};
    }
    forall f: nat, k: nat | Link(mem, LEVEL64, f, k)
      ensures (f, k, mem[f][k].frame) in {(1, 0, 2), (2, 0, 3), (2, 3, 4), (3, 0, 5), (4, 0x1F6, 6), (4, 0x1F7, 7)}
    {
      Boot64Links(mem, f, k);
    }
  }

  lemma Boot32Tree(mem: Memory)
    requires IsBoot32(mem)
    ensures TreeOk(mem, 1024, LEVEL32)
  {
    forall f: nat | f in LEVEL32 ensures TableOk(mem, 1024, LEVEL32, f) {
      assert f in {1, 2, 3};
    }
    forall f: nat, k: nat | Link(mem, LEVEL32, f, k) ensures (f, k, mem[f][k].frame) in {(1, 0, 2), (1, 1019, 3)} {
      assert f == 1;
    }
  }

  // The identity mapping of the first pages.
  lemma BootIdentity(lay: Layout, mem: Memory, page: nat)
    requires IsBoot(lay, mem) && page < lay.Entries()
    ensures Slot(mem, ROOT, lay.PathOf(page)) == Some((lay.WindowTable(), page)) && Leaf(lay, mem, page) == Pte(page)
  {
    PathIndices(page);
    if lay.Bits64? {
      assert lay.PathOf(page) == [0, 0, 0, page];
      assert Slot(mem, 5, [page]) == Some((5, page));
      assert Slot(mem, 3, [0, page]) == Some((5, page)) by { assert [0, page][1..] == [page]; }
      assert Slot(mem, 2, [0, 0, page]) == Some((5, page)) by { assert [0, 0, page][1..] == [0, page]; }
      assert [0, 0, 0, page][1..] == [0, 0, page];
    } else {
      assert lay.PathOf(page) == [0, page] && [0, page][1..] == [page];
      assert Slot(mem, 2, [page]) == Some((2, page));
    }
  }

  // The pages of the I/O APIC and of the local APICs, at 0xFEC00000 and 0xFEE00000.
  predicate IsApicPage(page: nat)
  {
    page == 0xFEC00 || page == 0xFEE00
  }

  lemma ApicLeaf(lay: Layout, mem: Memory, page: nat)
    requires IsBoot(lay, mem) && IsApicPage(page)
    ensures IsApic(Leaf(lay, mem, page), page)
    ensures lay.Bits64? ==> Leaf(lay, mem, page) == UncachedPte(page)
  {
    hide Path;
    PathIndices(page);
    var local := page == 0xFEE00;
    if lay.Bits64? {
      var k, t := if local then 0x1F7 else 0x1F6, if local then 7 else 6;
      assert lay.PathOf(page) == [0, 3, k, 0];
      assert Slot(mem, t, [0]) == Some((t, 0));
      assert Slot(mem, 4, [k, 0]) == Some((t, 0)) by { assert [k, 0][1..] == [0]; }
      assert Slot(mem, 2, [3, k, 0]) == Some((t, 0)) by { assert [3, k, 0][1..] == [k, 0]; }
      assert [0, 3, k, 0][1..] == [3, k, 0];
    } else {
      var k := if local then 512 else 0;
      assert lay.PathOf(page) == [1019, k] && [1019, k][1..] == [k];
      assert Slot(mem, 3, [k]) == Some((3, k));
    }
  }

  // In both layouts the processor's walk takes the pages of the first table and the APICs to themselves, writable, and
  // in the 64-bit layout it does not cache the APICs.
  lemma BootWalk(lay: Layout, mem: Memory, page: nat)
    requires IsBoot(lay, mem) && (page < (if lay.Bits64? then 512 else 1024) || page in {0xFEC00, 0xFEE00})
    ensures var w := Translate(mem, 1, lay.PathOf(page));
            && w.Page? && w.writable && w.e.p && w.e.frame == page
            && (lay.Bits64? ==> !w.e.ps && !w.e.pwt && w.e.pcd == (page >= 512))
  {
    BootOk(lay, mem);
    ProcessorFinds(lay, mem, BootLevel(lay), WINDOW, page);
    if page < lay.Entries() { BootIdentity(lay, mem, page); } else { ApicLeaf(lay, mem, page); }
  }

  // No page of the heap is mapped, and its entry is clear.
  lemma BootHeapEmpty(lay: Layout, mem: Memory, page: nat)
    requires IsBoot(lay, mem) && HEAP_START <= page < HEAP_END
    ensures Leaf(lay, mem, page) == EMPTY
  {
    PathIndices(page);
    var path := lay.PathOf(page);
    if lay.Bits64? {
      var rest, last := path[1..], path[1..][1..];
      assert path[0] == 0 && rest[0] == page / 0x40000 < 2;
      assert rest[0] == 0 ==> 2 <= last[0] == page / 512 < 512;
      assert Slot(mem, 3, last) == None || rest[0] != 0;
      assert Slot(mem, 2, rest) == None;
    } else {
      assert 1 <= path[0] == page / 1024 < 1019;
    }
  }

  lemma BootWindow(lay: Layout, mem: Memory)
    requires IsBoot(lay, mem)
    ensures RawMemory(lay, mem) && WindowOk(lay, mem, WINDOW)
  {
    hide Slot, Path, At;
    BootIdentity(lay, mem, WINDOW);
    BootIdentity(lay, mem, ROOT);
    BootIdentity(lay, mem, lay.WindowTable());
    assert Get(mem, lay.WindowTable(), WINDOW) == Pte(WINDOW);
  }

  lemma BootOk(lay: Layout, mem: Memory)
    requires IsBoot(lay, mem)
    ensures SpaceOk(lay, mem, BootLevel(lay), WINDOW)
  {
    hide IsBoot64, IsBoot32, TreeOk, WindowOk, RawMemory;
    if lay.Bits64? { Boot64Tree(mem); } else { Boot32Tree(mem); }
    BootWindow(lay, mem);
  }

  lemma BootLevelKeys(lay: Layout)
    ensures BootLevel(lay).Keys == BootTables(lay)
    ensures forall f | f in BootLevel(lay) :: f < PT_START
  {
    assert LEVEL64.Keys == {1, 2, 3, 4, 5, 6, 7} && LEVEL32.Keys == {1, 2, 3};
  }

  lemma BootTablesOk(lay: Layout, mem: Memory, free: set<nat>)
    requires forall f | f in free :: PT_START <= f < MAX_FRAMES
    ensures TablesOk(lay, mem, BootLevel(lay), {}, free, free)
  {
    BootLevelKeys(lay);
    hide BootLevel, BootTables, At;
    assert Registered(free, free) && TableFrames(lay, BootLevel(lay), free, free) && MadeOk(lay, mem, {});
  }

  // The tables as a value.
  datatype TableState = TableState(mem: Memory, level: map<nat, nat>, made: set<seq<nat>>, free: set<nat>)

  ghost function Tables(s: Space): TableState
    requires s.frames.freemap.Length == WORDS
    reads s, s.frames, s.frames.freemap
  {
    TableState(s.mem, s.level, s.made, s.frames.Free())
  }

  // p is a part of path whose directory entry was not present.
  predicate NewPrefix(mem: Memory, path: seq<nat>, p: seq<nat>)
  {
    0 < |p| < |path| && p <= path && !At(mem, ROOT, p).p
  }

  // From state a to state b, missing tables on the way along path have been made.
  ghost predicate MadeTables(lay: Layout, path: seq<nat>, a: TableState, b: TableState)
  {
    && KeepsLinks(lay, a.mem, b.mem) && Took(a.level, b.level, a.free, b.free)
    && a.made <= b.made && forall p | p in b.made :: p in a.made || NewPrefix(a.mem, path, p)
  }

  ghost predicate Entered(lay: Layout, path: seq<nat>, a: TableState, b: TableState)
  {
    KeepsLeaves(lay, a.mem, b.mem) && MadeTables(lay, path, a, b)
  }

  // All page table entries but the one at path and the window's stay.
  ghost predicate LeavesBut(lay: Layout, mem: Memory, after: Memory, path: seq<nat>)
  {
    forall p | |p| == lay.Levels() && p != path && p != lay.WindowPath() :: At(after, ROOT, p) == At(mem, ROOT, p)
  }

  class Space {
    const lay: Layout
    const frames: FrameAllocator
    var mem: Memory
    var window: nat                  // the frame that the TLB of the CPU holds for the window page
    ghost var level: map<nat, nat>
    ghost var made: set<seq<nat>>
    ghost var boot: set<nat>

    ghost predicate Valid()
      reads this, frames, frames.freemap
    {
      frames.Valid() && SpaceOk(lay, mem, level, window) && TablesOk(lay, mem, level, made, boot, frames.Free())
    }

    constructor (lay: Layout, raw: Memory)
      requires RawMemory(lay, raw)
      ensures this.lay == lay && fresh(frames) && fresh(frames.freemap)
      ensures frames.Valid() && !frames.halted && frames.lastPt == PT_START && frames.last4k == PAGE_START
      ensures RawMemory(lay, mem) && (lay.Bits64? ==> IsBoot64(mem))
    {
      this.lay := lay;
      frames := new FrameAllocator();
      mem, window := raw, WINDOW;
      level, made, boot := map[], {}, {};
      new;
      if lay.Bits64? { BuildTables64(); }
    }

    // start64.asm:121-161
    method BuildTables64()
      requires RawMemory(Bits64, mem)
      modifies this`mem
      ensures IsBoot64(mem)
    {
      var f := 1;
      while f < 8
        invariant 1 <= f <= 8 && RawMemory(Bits64, mem)
        invariant forall g: nat | 1 <= g < f :: mem[g] == Zeroes(512)
      {
        mem := mem[f := Zeroes(512)];
        f := f + 1;
      }
      mem := Put(mem, 1, 0, Pte(2));
      mem := Put(mem, 2, 0, Pte(3));
      mem := Put(mem, 2, 3, Pte(4));
      mem := Put(mem, 3, 0, Pte(5));
      mem := Put(mem, 4, 0x1F6, Pte(6));
      mem := Put(mem, 4, 0x1F7, Pte(7));
      IdentityMap(5, 512);
      mem := Put(mem, 6, 0, UncachedPte(0xFEC00));
      mem := Put(mem, 7, 0, UncachedPte(0xFEE00));
    }

    // start64.asm:144-150, mm.c:492-496
    method IdentityMap(pt: nat, n: nat)
      requires pt < |mem| && |mem[pt]| == n
      modifies this`mem
      ensures |mem| == |old(mem)| && forall g: nat | g < |mem| && g != pt :: mem[g] == old(mem)[g]
      ensures |mem[pt]| == n && forall u: nat | u < n :: mem[pt][u] == Pte(u)
    {
      var u := 0;
      while u < n
        invariant 0 <= u <= n && |mem| == |old(mem)| && |mem[pt]| == n
        invariant forall g: nat | g < |mem| && g != pt :: mem[g] == old(mem)[g]
        invariant forall v: nat | v < u :: mem[pt][v] == Pte(v)
      {
        mem := Put(mem, pt, u, Pte(u));
        u := u + 1;
      }
    }

    // mm.c:482-513
    method BuildTables32()
      requires RawMemory(Bits32, mem)
      modifies this`mem
      ensures IsBoot32(mem)
    {
      mem := mem[ROOT := Zeroes(1024)];
      mem := mem[2 := Zeroes(1024)];
      mem := Put(mem, ROOT, 0, mem[ROOT][0].(frame := 2, rw := true, p := true));
      IdentityMap(2, 1024);
      mem := Put(mem, ROOT, 1023 - 4, mem[ROOT][1023 - 4].(frame := 3, rw := true, p := true));
      mem := Put(mem, 3, 0, mem[3][0].(frame := 0xFEC00, rw := true, p := true));
      mem := Put(mem, 3, 512, mem[3][512].(frame := 0xFEE00, rw := true, p := true));
    }

    // mm_init(), up to the unlocking of pt_mutex.
    method MmInit(flags: bv32, memUpper: nat, mmap: seq<Bytes.Byte>, ghost es: seq<MmapEntry>)
      requires RawMemory(lay, mem) && (lay.Bits64? ==> IsBoot64(mem))
      requires frames.Valid() && !frames.halted && frames.lastPt == PT_START && frames.last4k == PAGE_START
      requires memUpper < U32
      requires IsMaskSet(flags, Mask(6)) ==> mmap == EncodeMmap(es) && forall e | e in es :: e.Valid()
      modifies this, frames.freemap, frames`halted
      ensures frames.halted <==> IsMaskSet(flags, Mask(6)) && exists e :: e in es && Endless(e)
      ensures !frames.halted ==> Valid() && made == {} && level == BootLevel(lay)
      ensures !frames.halted ==> boot == frames.Free() == BootFrames(flags, memUpper, es)
      ensures !frames.halted ==> forall page | HEAP_START <= page < HEAP_END :: Leaf(lay, mem, page) == EMPTY
      ensures !frames.halted ==> IsBoot(lay, mem)
    {
      hide IsMaskSet, Mask, IsBoot64, IsBoot32, SpaceOk, TablesOk, Leaf, BootFrames, FreeSet, RawMemory, Endless;
      if lay.Bits32? { BuildTables32(); }
      window := WINDOW;
      var count := frames.MmInit(flags, memUpper, mmap, es);
      if frames.halted { return; }
      level, made, boot := BootLevel(lay), {}, frames.Free();
      BootOk(lay, mem);
      RegisteredRange(flags, memUpper, es);
      BootTablesOk(lay, mem, boot);
      forall page | HEAP_START <= page < HEAP_END ensures Leaf(lay, mem, page) == EMPTY {
        BootHeapEmpty(lay, mem, page);
      }
    }

    method MapTemporary(f: nat)
      requires lay.WindowTable() < |mem| && WINDOW < |mem[lay.WindowTable()]|
      requires window == Get(mem, lay.WindowTable(), WINDOW).frame
      modifies this`mem, this`window
      ensures mem == Shown(lay, old(mem), f) && window == f
    {
      hide Put, Get;
      var pt := lay.WindowTable();
      ghost var e := Get(mem, pt, WINDOW);
      if Get(mem, pt, WINDOW).frame != f {
        PutTwice(mem, pt, WINDOW, e.(frame := f), e.(frame := f, rw := true));
        mem := Put(mem, pt, WINDOW, Get(mem, pt, WINDOW).(frame := f));
        PutTwice(old(mem), pt, WINDOW, e.(frame := f, rw := true), e.(frame := f, rw := true, p := true));
        mem := Put(mem, pt, WINDOW, Get(mem, pt, WINDOW).(rw := true));
        PutTwice(old(mem), pt, WINDOW, e.(frame := f, rw := true, p := true), WindowEntry(e, f));
        mem := Put(mem, pt, WINDOW, Get(mem, pt, WINDOW).(p := true));
        mem := Put(mem, pt, WINDOW, Get(mem, pt, WINDOW).(pwt := true));
        window := f;    // invlpg
      }
    }

    // One level down, by a present directory entry.
    method Follow(d: nat, k: nat, ghost path: seq<nat>, ghost j: nat) returns (t: nat)
      requires Valid() && j + 1 < lay.Levels() == |path| && Position(mem, d, path[..j]) && k == path[j] < lay.Entries()
      requires d == ROOT || d == window
      requires Get(mem, d, k).p
      modifies this`mem, this`window
      ensures Valid() && window == t && Position(mem, t, path[..j + 1])
      ensures KeepsLeaves(lay, old(mem), mem) && KeepsLinks(lay, old(mem), mem)
    {
      hide SpaceOk, TablesOk, Position, KeepsLeaves, KeepsLinks, Shown, Get;
      assert path[..j + 1] == path[..j] + [k];
      FollowOk(lay, mem, level, window, d, path[..j], k);
      t := Get(mem, d, k).frame;
      TablesKept(lay, mem, Shown(lay, mem, t), level, made, boot, frames.Free());
      WindowFits(lay, mem, level, window);
      MapTemporary(t);
    }

    // The missing table (mm.c:235-243).
    method MakeTable(d: nat, k: nat, ghost path: seq<nat>, ghost j: nat) returns (t: nat)
      requires Valid() && !frames.halted
      requires j + 1 < lay.Levels() == |path| && Position(mem, d, path[..j]) && k == path[j] < lay.Entries()
      requires !Get(mem, d, k).p
      modifies this, frames, frames.freemap
      ensures Valid() && boot == old(boot)
      ensures Entered(lay, path, old(Tables(this)), Tables(this))
      ensures !frames.halted ==> window == t && Position(mem, t, path[..j + 1])
      ensures frames.halted ==> Exhausted(frames.Free(), PT_START)
    {
      hide SpaceOk, TablesOk, Position, KeepsLeaves, KeepsLinks, Shown, Get, At, FirstFree, Exhausted, FreeSet, Put,
          Cleared, LinkEntry, Entered;
      assert path[..j + 1] == path[..j] + [k];
      PositionSlot(lay, mem, level, window, d, path[..j], k);
      WindowFits(lay, mem, level, window);
      var r := frames.GetFreeFrame(FrameType.PageTable);
      if r.None? {
        EnteredNothing(lay, path, Tables(this), mem);
        return 0;
      }
      t := r.value;
      NewTableOk(lay, mem, level, window, made, boot, old(frames.Free()), d, path[..j], k, t);
      NewTableNew(lay, mem, level, made, boot, old(frames.Free()), t, level[d] - 1);
      WindowStays(lay, mem, level, window, d, k, LinkEntry(Get(mem, d, k), t));
      mem := Put(mem, d, k, LinkEntry(Get(mem, d, k), t));
      MapTemporary(t);
      mem := Cleared(mem, window);    // memset(pd2, 0, 4096)
      level, made := level[t := level[d] - 1], made + {path[..j] + [k]};
      EnteredNew(lay, path, j, old(Tables(this)), Tables(this));
    }

    // One level down, making the table if the directory entry is not present.
    method Enter(d: nat, k: nat, ghost path: seq<nat>, ghost j: nat) returns (t: nat)
      requires Valid() && !frames.halted
      requires j + 1 < lay.Levels() == |path| && Position(mem, d, path[..j]) && k == path[j] < lay.Entries()
      requires d == ROOT || d == window
      modifies this, frames, frames.freemap
      ensures Valid() && boot == old(boot)
      ensures Entered(lay, path, old(Tables(this)), Tables(this))
      ensures !frames.halted ==> window == t && Position(mem, t, path[..j + 1])
      ensures frames.halted ==> Exhausted(frames.Free(), PT_START)
    {
      hide SpaceOk, TablesOk, Position, KeepsLeaves, KeepsLinks, Shown, Get, At, FirstFree, Exhausted, FreeSet, Put,
          Cleared, LinkEntry, Entered;
      assert path[..j + 1] == path[..j] + [k];
      PositionSlot(lay, mem, level, window, d, path[..j], k);
      WindowFits(lay, mem, level, window);
      if !Get(mem, d, k).p {
        t := MakeTable(d, k, path, j);
      } else {
        t := Follow(d, k, path, j);
        EnteredNothing(lay, path, old(Tables(this)), mem);
      }
    }

    // The page table entry of map_frame_to_adr() (mm.c:286-293, mm.c:321-329).
    method WritePage(pt: nat, k: nat, frame: nat, flags: bv32, ghost path: seq<nat>)
      requires Valid() && |path| == lay.Levels() && Position(mem, pt, path[..|path| - 1])
          && k == path[|path| - 1] < lay.Entries()
      requires pt == window
      modifies this`mem
      ensures Valid() && Writes(lay, old(mem), mem, path, MappedEntry(At(old(mem), ROOT, path), frame, flags))
    {
      hide SpaceOk, TablesOk, Position, Get, At, Put, Writes, IsMaskSet;
      EntryAtPath(lay, mem, level, window, pt, path);
      WriteOk(lay, mem, level, window, made, boot, frames.Free(), pt, path, MappedEntry(Get(mem, pt, k), frame, flags));
      if !Get(mem, pt, k).p {
        var e := Get(mem, pt, k);
        e := e.(frame := frame, rw := true, p := true);
        if IsMaskSet(flags, MAP_PWT) { e := e.(pwt := true); }
        if IsMaskSet(flags, MAP_PCD) { e := e.(pcd := true); }
        mem := Put(mem, pt, k, e);
      } else {
        PutSame(mem, pt, k);
      }
    }

    // The page table of an address, with the directories on the way; what is missing is made.
    method EnterAll(adr: nat) returns (pt: nat)
      requires Valid() && !frames.halted
      modifies this, frames, frames.freemap
      ensures Valid() && boot == old(boot)
      ensures Entered(lay, lay.PathOf(adr / 4096), old(Tables(this)), Tables(this))
      ensures !frames.halted ==> window == pt && var path := lay.PathOf(adr / 4096);
          Position(mem, pt, path[..|path| - 1])
      ensures frames.halted ==> Exhausted(frames.Free(), PT_START)
    {
      hide SpaceOk, TablesOk, At, Exhausted, FreeSet, Entered, Path;
      var page := adr / 4096;
      PathIndices(page);
      ghost var path := lay.PathOf(page);
      ghost var t0 := Tables(this);
      if lay.Bits64? {
        var pd2 := Enter(ROOT, page / 512 / 512 / 512 % 512, path, 0);
        if frames.halted { return 0; }
        ghost var t1 := Tables(this);
        var pd3 := Enter(pd2, page / 512 / 512 % 512, path, 1);
        EnteredBoth(lay, path, t0, t1, Tables(this));
        if frames.halted { return 0; }
        ghost var t2 := Tables(this);
        pt := Enter(pd3, page / 512 % 512, path, 2);
        EnteredBoth(lay, path, t0, t2, Tables(this));
      } else {
        pt := Enter(ROOT, page / 1024 % 1024, path, 0);
      }
    }

    method MapFrameToAdr(frame: nat, adr: nat, flags: bv32)
      requires Valid() && !frames.halted
      modifies this, frames, frames.freemap
      ensures Valid() && boot == old(boot)
      ensures MadeTables(lay, lay.PathOf(adr / 4096), old(Tables(this)), Tables(this))
      // every page but this one and the window keeps its entry, and this one is never replaced
      ensures LeavesBut(lay, old(mem), mem, lay.PathOf(adr / 4096))
      ensures !frames.halted && lay.PathOf(adr / 4096) != lay.WindowPath() ==>
        Leaf(lay, mem, adr / 4096) == MappedEntry(Leaf(lay, old(mem), adr / 4096), frame, flags)
      // it stops for a huge page, or when there is no frame for a table
      ensures IsMaskSet(flags, MAP_HUGE) ==> frames.halted && mem == old(mem)
      ensures frames.halted && !IsMaskSet(flags, MAP_HUGE) ==>
        Exhausted(frames.Free(), PT_START) && KeepsLeaves(lay, old(mem), mem)
    {
      hide SpaceOk, TablesOk, At, Exhausted, FreeSet, IsMaskSet, Position, Path, Took, MappedEntry, Writes, KeepsLeaves,
          KeepsLinks, LeavesBut;
      ghost var path := lay.PathOf(adr / 4096);
      MapNothing(lay, path, Tables(this));
      if IsMaskSet(flags, MAP_HUGE) {
        frames.Halt();
        return;
      }
      var pt := EnterAll(adr);
      ghost var mid := Tables(this);
      MapDone(lay, path, old(Tables(this)), mid, mem, frame, flags);
      if frames.halted { return; }
      PathIndices(adr / 4096);
      WritePage(pt, adr / 4096 % lay.Entries(), frame, flags, path);
      MapDone(lay, path, old(Tables(this)), mid, mem, frame, flags);
    }

    // The walk of reconf_adr() and virt_to_phys() over present directory entries.
    method FollowAll(adr: nat) returns (pt: Option<nat>)
      requires Valid()
      modifies this`mem, this`window
      ensures Valid() && KeepsLeaves(lay, old(mem), mem) && KeepsLinks(lay, old(mem), mem)
      ensures pt.Some? ==> window == pt.value && var path := lay.PathOf(adr / 4096);
          Position(mem, pt.value, path[..|path| - 1])
      ensures pt.None? ==> At(mem, ROOT, lay.PathOf(adr / 4096)) == EMPTY
    {
      hide SpaceOk, TablesOk, At, KeepsLeaves, KeepsLinks, Path, Get, Position;
      var page := adr / 4096;
      PathIndices(page);
      ghost var path := lay.PathOf(page);
      AtRoot(mem);
      KeepsSame(lay, mem);
      if lay.Bits64? {
        AbsentBelow(lay, mem, level, window, ROOT, path, 0);
        if !Get(mem, ROOT, page / 512 / 512 / 512 % 512).p { return None; }
        var pd2 := Follow(ROOT, page / 512 / 512 / 512 % 512, path, 0);
        ghost var m1 := mem;
        AbsentBelow(lay, mem, level, window, pd2, path, 1);
        if !Get(mem, pd2, page / 512 / 512 % 512).p { return None; }
        var pd3 := Follow(pd2, page / 512 / 512 % 512, path, 1);
        KeepsBoth(lay, old(mem), m1, mem);
        ghost var m2 := mem;
        AbsentBelow(lay, mem, level, window, pd3, path, 2);
        if !Get(mem, pd3, page / 512 % 512).p { return None; }
        var t := Follow(pd3, page / 512 % 512, path, 2);
        KeepsBoth(lay, old(mem), m2, mem);
        return Some(t);
      } else {
        AbsentBelow(lay, mem, level, window, ROOT, path, 0);
        if !Get(mem, ROOT, page / 1024 % 1024).p { return None; }
        var t := Follow(ROOT, page / 1024 % 1024, path, 0);
        return Some(t);
      }
    }

    method ReconfAdr(adr: nat, flags: bv32)
      requires Valid()
      modifies this`mem, this`window
      ensures Valid() && KeepsLinks(lay, old(mem), mem)
      ensures LeavesBut(lay, old(mem), mem, lay.PathOf(adr / 4096))
      ensures IsMaskSet(flags, !(MAP_PWT | MAP_PCD)) ==> mem == old(mem)
      ensures !IsMaskSet(flags, !(MAP_PWT | MAP_PCD)) && lay.PathOf(adr / 4096) != lay.WindowPath() ==>
        Leaf(lay, mem, adr / 4096) == ReconfEntry(Leaf(lay, old(mem), adr / 4096), flags)
    {
      hide SpaceOk, TablesOk, At, IsMaskSet, Position, Path, Writes, KeepsLeaves, KeepsLinks, LeavesBut, Get, Put;
      ghost var path := lay.PathOf(adr / 4096);
      KeepsSame(lay, mem);
      LeavesSame(lay, mem, path);
      if IsMaskSet(flags, !(MAP_PWT | MAP_PCD)) {
        return;
      }
      var found := FollowAll(adr);
      ghost var mid := mem;
      ReconfDone(lay, path, old(mem), mid, mem, flags);
      if found.None? { return; }
      var pt, k := found.value, adr / 4096 % lay.Entries();
      PathIndices(adr / 4096);
      EntryAtPath(lay, mem, level, window, pt, path);
      WriteOk(lay, mem, level, window, made, boot, frames.Free(), pt, path, ReconfEntry(Get(mem, pt, k), flags));
      if !Get(mem, pt, k).p { return; }
      var e := Get(mem, pt, k);
      if IsMaskSet(flags, MAP_PWT) { e := e.(pwt := true); } else { e := e.(pwt := false); }
      if IsMaskSet(flags, MAP_PCD) { e := e.(pcd := true); } else { e := e.(pcd := false); }
      mem := Put(mem, pt, k, e);
      ReconfDone(lay, path, old(mem), mid, mem, flags);
    }

    // The physical address that the processor finds, or 0; huge pages do not occur.
    method VirtToPhys(adr: nat) returns (result: nat)
      requires Valid()
      modifies this`mem, this`window
      ensures Valid() && KeepsLeaves(lay, old(mem), mem) && KeepsLinks(lay, old(mem), mem)
      ensures var w := Translate(mem, ROOT, lay.PathOf(adr / 4096));
              !w.Huge? && result == if w.Page? then w.e.frame * 4096 + adr % 4096 else 0
    {
      hide SpaceOk, TablesOk, At, Position, Path, KeepsLeaves, KeepsLinks, Get, Translate;
      var found := FollowAll(adr);
      ghost var path := lay.PathOf(adr / 4096);
      ProcessorFinds(lay, mem, level, window, adr / 4096);
      if found.None? { return 0; }
      var pt, k := found.value, adr / 4096 % lay.Entries();
      PathIndices(adr / 4096);
      EntryAtPath(lay, mem, level, window, pt, path);
      if Get(mem, pt, k).p {
        return Get(mem, pt, k).frame * 4096 + adr % 4096;
      }
      return 0;
    }
  }

  lemma EntryAtPath(lay: Layout, mem: Memory, level: map<nat, nat>, window: nat, pt: nat, path: seq<nat>)
    requires SpaceOk(lay, mem, level, window) && |path| == lay.Levels()
    requires Position(mem, pt, path[..|path| - 1]) && path[|path| - 1] < lay.Entries()
    ensures At(mem, ROOT, path) == Get(mem, pt, path[|path| - 1])
    ensures pt < MAX_FRAMES && Slot(mem, ROOT, path) == Some((pt, path[|path| - 1]))
  {
    hide Path, SpaceOk, Position, At, Slot, Get;
    PositionSlot(lay, mem, level, window, pt, path[..|path| - 1], path[|path| - 1]);
    assert path[..|path| - 1] + [path[|path| - 1]] == path;
  }

  lemma WriteOk(lay: Layout, mem: Memory, level: map<nat, nat>, window: nat, made: set<seq<nat>>, boot: set<nat>,
          free: set<nat>, pt: nat, path: seq<nat>, e: Entry)
    requires SpaceOk(lay, mem, level, window) && TablesOk(lay, mem, level, made, boot, free)
    requires |path| == lay.Levels() && Position(mem, pt, path[..|path| - 1]) && path[|path| - 1] < lay.Entries()
    requires var before := Get(mem, pt, path[|path| - 1]);
             before.p ==> e.p && e.rw == before.rw && e.frame == before.frame
    ensures var after := Put(mem, pt, path[|path| - 1], e);
            && SpaceOk(lay, after, level, window) && TablesOk(lay, after, level, made, boot, free)
            && Writes(lay, mem, after, path, e)
  {
    hide Path, Position, At, Slot, TablesOk, TreeOk, WindowOk, Put, Writes, KeepsLinks;
    EntryAtPath(lay, mem, level, window, pt, path);
    WrittenOk(lay, mem, level, window, pt, path[|path| - 1], e, path);
    WritesLinks(lay, mem, Put(mem, pt, path[|path| - 1], e), path, e);
    TablesKept(lay, mem, Put(mem, pt, path[|path| - 1], e), level, made, boot, free);
  }

  lemma WritesLinks(lay: Layout, mem: Memory, after: Memory, path: seq<nat>, e: Entry)
    requires Writes(lay, mem, after, path, e) && |path| == lay.Levels()
    ensures KeepsLinks(lay, mem, after)
  {
    hide At;
  }

  lemma PutSame(mem: Memory, f: nat, k: nat)
    ensures Put(mem, f, k, Get(mem, f, k)) == mem
  {
    if f < |mem| && k < |mem[f]| { assert mem[f][k := mem[f][k]] == mem[f]; }
  }

  lemma MapNothing(lay: Layout, path: seq<nat>, a: TableState)
    ensures MadeTables(lay, path, a, a) && LeavesBut(lay, a.mem, a.mem, path)
  {
    hide At, Path;
  }

  lemma MapDone(lay: Layout, path: seq<nat>, a: TableState, mid: TableState, after: Memory, frame: nat, flags: bv32)
    requires Entered(lay, path, a, mid) && |path| == lay.Levels()
    ensures LeavesBut(lay, a.mem, mid.mem, path)
    ensures Writes(lay, mid.mem, after, path, MappedEntry(At(mid.mem, ROOT, path), frame, flags)) ==>
              && MadeTables(lay, path, a, mid.(mem := after)) && LeavesBut(lay, a.mem, after, path)
              && (path != lay.WindowPath() ==>
                  At(after, ROOT, path) == MappedEntry(At(a.mem, ROOT, path), frame, flags))
  {
    hide At, Path, MappedEntry, Took, NewPrefix;
  }

  lemma LeavesSame(lay: Layout, mem: Memory, path: seq<nat>)
    ensures LeavesBut(lay, mem, mem, path)
  {
  }

  lemma ReconfDone(lay: Layout, path: seq<nat>, mem: Memory, mid: Memory, after: Memory, flags: bv32)
    requires KeepsLeaves(lay, mem, mid) && KeepsLinks(lay, mem, mid) && |path| == lay.Levels()
    ensures LeavesBut(lay, mem, mid, path) && (path != lay.WindowPath() ==> At(mid, ROOT, path) == At(mem, ROOT, path))
    ensures Writes(lay, mid, after, path, ReconfEntry(At(mid, ROOT, path), flags)) ==>
              && LeavesBut(lay, mem, after, path) && KeepsLinks(lay, mem, after)
              && (path != lay.WindowPath() ==> At(after, ROOT, path) == ReconfEntry(At(mem, ROOT, path), flags))
  {
    hide At, Path, ReconfEntry;
  }

  lemma AtRoot(mem: Memory)
    ensures Position(mem, ROOT, [])
  {
  }

  // Behind a directory entry that is not present there is nothing.
  lemma AbsentBelow(lay: Layout, mem: Memory, level: map<nat, nat>, window: nat, d: nat, path: seq<nat>, j: nat)
    requires SpaceOk(lay, mem, level, window) && j + 1 < |path| == lay.Levels() && Position(mem, d, path[..j])
        && path[j] < lay.Entries()
    ensures !Get(mem, d, path[j]).ps
    ensures !Get(mem, d, path[j]).p ==> At(mem, ROOT, path) == EMPTY
  {
    hide At, Slot, SpaceOk, Position, Path, Get;
    assert path[..j] + [path[j]] == path[..j + 1];
    DirectoryEntry(lay, mem, level, window, d, path[..j], path[j]);
    PositionSlot(lay, mem, level, window, d, path[..j], path[j]);
    if !Get(mem, d, path[j]).p { AbsentPrefix(mem, path, j + 1); }
  }

  lemma {:induction false} AbsentPrefix(mem: Memory, path: seq<nat>, j: nat)
    requires 0 < j < |path| && !At(mem, ROOT, path[..j]).p
    ensures At(mem, ROOT, path) == EMPTY
    decreases |path| - j
  {
    assert path[..j + 1] == path[..j] + [path[j]];
    SlotSnoc(mem, ROOT, path[..j], path[j]);
    if j + 1 < |path| { AbsentPrefix(mem, path, j + 1); } else { assert path[..j + 1] == path; }
  }

  lemma RegisteredRange(flags: bv32, memUpper: nat, es: seq<MmapEntry>)
    ensures forall f | f in BootFrames(flags, memUpper, es) :: PT_START <= f < MAX_FRAMES
  {
    hide IsMaskSet, Mask;
    forall f | f in MmapFrames(es) ensures PT_START <= f < MAX_FRAMES {
      MmapFramesAre(es, f);
    }
  }

  lemma WindowFits(lay: Layout, mem: Memory, level: map<nat, nat>, window: nat)
    requires SpaceOk(lay, mem, level, window)
    ensures lay.WindowTable() < |mem| && WINDOW < |mem[lay.WindowTable()]|
    ensures window == Get(mem, lay.WindowTable(), WINDOW).frame
  {
  }

  // Linking a directory entry leaves the window's entry alone.
  lemma WindowStays(lay: Layout, mem: Memory, level: map<nat, nat>, window: nat, d: nat, k: nat, e: Entry)
    requires SpaceOk(lay, mem, level, window) && d in level && level[d] > 1
    ensures lay.WindowTable() < |Put(mem, d, k, e)| && WINDOW < |Put(mem, d, k, e)[lay.WindowTable()]|
    ensures window == Get(Put(mem, d, k, e), lay.WindowTable(), WINDOW).frame
  {
    hide Path, Slot, At, OneParent, TableOk, TreeOk;
    WindowTableLevel(lay, mem, level, window);
    WindowFits(lay, mem, level, window);
    hide SpaceOk;
  }

  lemma NewTableNew(lay: Layout, mem: Memory, level: map<nat, nat>, made: set<seq<nat>>, boot: set<nat>, free: set<nat>,
          t: nat, l: nat)
    requires TablesOk(lay, mem, level, made, boot, free) && FirstFree(free, PT_START, t)
    ensures Took(level, level[t := l], free, free - {t})
  {
    assert level[t := l].Keys - level.Keys == {t};
  }

  lemma KeepsSame(lay: Layout, mem: Memory)
    ensures KeepsLeaves(lay, mem, mem) && KeepsLinks(lay, mem, mem)
  {
  }

  lemma KeepsBoth(lay: Layout, mem: Memory, mid: Memory, after: Memory)
    requires KeepsLeaves(lay, mem, mid) && KeepsLinks(lay, mem, mid) && KeepsLeaves(lay, mid, after)
        && KeepsLinks(lay, mid, after)
    ensures KeepsLeaves(lay, mem, after) && KeepsLinks(lay, mem, after)
  {
    hide At, Path;
  }

  lemma EnteredNothing(lay: Layout, path: seq<nat>, a: TableState, after: Memory)
    requires KeepsLeaves(lay, a.mem, after) && KeepsLinks(lay, a.mem, after)
    ensures Entered(lay, path, a, a.(mem := after))
  {
  }

  lemma EnteredNew(lay: Layout, path: seq<nat>, j: nat, a: TableState, b: TableState)
    requires KeepsLeaves(lay, a.mem, b.mem) && KeepsLinks(lay, a.mem, b.mem) && Took(a.level, b.level, a.free, b.free)
    requires j + 1 < |path| && b.made == a.made + {path[..j + 1]} && !At(a.mem, ROOT, path[..j + 1]).p
    ensures Entered(lay, path, a, b)
  {
  }

  lemma EnteredBoth(lay: Layout, path: seq<nat>, a: TableState, b: TableState, c: TableState)
    requires Entered(lay, path, a, b) && Entered(lay, path, b, c)
    requires |path| == lay.Levels()
    ensures Entered(lay, path, a, c)
  {
    hide At, Path, Took, KeepsLeaves;
    KeepsBoth(lay, a.mem, b.mem, c.mem);
    TookBoth(a, b, c);
  }

  lemma TookBoth(a: TableState, b: TableState, c: TableState)
    requires Took(a.level, b.level, a.free, b.free) && Took(b.level, c.level, b.free, c.free)
    ensures Took(a.level, c.level, a.free, c.free)
  {
    var x, y := b.level.Keys - a.level.Keys, c.level.Keys - b.level.Keys;
    assert c.level.Keys - a.level.Keys == x + y;
  }
}
