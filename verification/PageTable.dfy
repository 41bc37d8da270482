// Page tables in physical memory: the processor's walk (section 4.5 of the Intel SDM, Volume 3A), the tree that
// mm.c keeps, and what one changed entry does to every walk. Level 1 is the page table; pd3, pd2 and pd1 of mm.c
// have levels 2, 3 and 4 (in the 32-bit layout, pd1 has level 2).
module PageTable {
  import opened Freemap

  datatype Entry = Entry(p: bool, rw: bool, pwt: bool, pcd: bool, ps: bool, frame: nat)

  const EMPTY := Entry(false, false, false, false, false, 0)

  type Memory = seq<seq<Entry>>

  // writable: every entry on the way allows writing.
  datatype Walk = Absent | Page(e: Entry, writable: bool) | Huge(e: Entry, level: nat)

  // The processor's walk from table f along the indices path.
  function Translate(mem: Memory, f: nat, path: seq<nat>): Walk
    decreases |path|
  {
    if path == [] || f >= |mem| || path[0] >= |mem[f]| then Absent else
    var e := mem[f][path[0]];
    if !e.p then Absent
    else if |path| == 1 then Page(e, e.rw)
    else if e.ps then Huge(e, |path|)
    else
      match Translate(mem, e.frame, path[1..])
      case Page(leaf, writable) => Page(leaf, writable && e.rw)
      case other => other
  }

  // The walk ends with the first entry that is absent or huge, and allows writing only if every entry on the way does.
  lemma WalkStep(mem: Memory, f: nat, path: seq<nat>)
    requires path != [] && f < |mem| && path[0] < |mem[f]|
    ensures var e, w := mem[f][path[0]], Translate(mem, f, path);
            && (!e.p ==> w == Absent)
            && (e.p && |path| == 1 ==> w == Page(e, e.rw))
            && (e.p && |path| > 1 && e.ps ==> w == Huge(e, |path|))
            && (e.p && |path| > 1 && !e.ps ==>
                  var rest := Translate(mem, e.frame, path[1..]);
                  if rest.Page? then w == Page(rest.e, rest.writable && e.rw) else w == rest)
  {
  }

  // Where the entry selected by path lies, and that entry.
  function Slot(mem: Memory, f: nat, path: seq<nat>): Option<(nat, nat)>
    decreases |path|
  {
    if path == [] || f >= |mem| || path[0] >= |mem[f]| then None
    else if |path| == 1 then Some((f, path[0]))
    else if mem[f][path[0]].p then Slot(mem, mem[f][path[0]].frame, path[1..])
    else None
  }

  function At(mem: Memory, f: nat, path: seq<nat>): Entry
  {
    match Slot(mem, f, path)
    case Some((t, k)) => Get(mem, t, k)
    case None => EMPTY
  }

  // ---------------------------------------------------------------- the tree

  // level gives the level of each table frame; n is the number of entries of a table.
  ghost predicate Link(mem: Memory, level: map<nat, nat>, f: nat, k: nat)
  {
    f in level && level[f] > 1 && f < |mem| && k < |mem[f]| && mem[f][k].p
  }

  predicate TableOk(mem: Memory, n: nat, level: map<nat, nat>, f: nat)
  {
    && f < |mem| && f in level && |mem[f]| == n && level[f] >= 1
    && (level[f] > 1 ==> forall k: nat | k < n :: DirEntryOk(mem[f][k], level, level[f]))
  }

  // The page-size bit of a directory entry is clear, and a present one allows writing and points to a table one
  // level down.
  predicate DirEntryOk(e: Entry, level: map<nat, nat>, l: nat)
  {
    !e.ps && (e.p ==> e.rw && e.frame in level && level[e.frame] + 1 == l)
  }

  // No two directory entries point to the same table.
  ghost predicate OneParent(mem: Memory, level: map<nat, nat>)
  {
    forall f: nat, k: nat, g: nat, l: nat | Link(mem, level, f, k) && Link(mem, level, g, l)
        && mem[f][k].frame == mem[g][l].frame ::
      f == g && k == l
  }

  ghost predicate TreeOk(mem: Memory, n: nat, level: map<nat, nat>)
  {
    (forall f: nat | f in level :: TableOk(mem, n, level, f)) && OneParent(mem, level)
  }

  lemma {:induction false} SlotLevel(mem: Memory, n: nat, level: map<nat, nat>, f: nat, path: seq<nat>)
    requires TreeOk(mem, n, level) && f in level && 0 < |path| <= level[f]
    ensures var s := Slot(mem, f, path);
            s.Some? ==> s.value.0 in level && level[s.value.0] + |path| == level[f] + 1
                        && s.value.0 < |mem| && s.value.1 == path[|path| - 1] < |mem[s.value.0]| == n
    decreases |path|
  {
    assert TableOk(mem, n, level, f);
    if |path| > 1 && path[0] < n && mem[f][path[0]].p {
      assert DirEntryOk(mem[f][path[0]], level, level[f]);
      SlotLevel(mem, n, level, mem[f][path[0]].frame, path[1..]);
    }
  }

  // Different paths end in different entries.
  lemma {:induction false} SlotInjective(mem: Memory, n: nat, level: map<nat, nat>, f: nat, g: nat, path: seq<nat>,
          other: seq<nat>)
    requires TreeOk(mem, n, level) && f in level && g in level && level[f] == level[g] && |path| == |other| <= level[f]
    requires Slot(mem, f, path).Some? && Slot(mem, f, path) == Slot(mem, g, other)
    ensures f == g && path == other
    decreases |path|
  {
    assert TableOk(mem, n, level, f) && TableOk(mem, n, level, g);
    if |path| > 1 {
      var e, d := mem[f][path[0]], mem[g][other[0]];
      assert DirEntryOk(e, level, level[f]) && DirEntryOk(d, level, level[g]);
      SlotInjective(mem, n, level, e.frame, d.frame, path[1..], other[1..]);
      assert Link(mem, level, f, path[0]) && Link(mem, level, g, other[0]);
      assert path == [path[0]] + path[1..] && other == [other[0]] + other[1..];
    }
  }

  lemma {:induction false} SlotSnoc(mem: Memory, f: nat, path: seq<nat>, k: nat)
    requires path != []
    ensures var e := At(mem, f, path);
            Slot(mem, f, path + [k]) == if e.p && e.frame < |mem| && k < |mem[e.frame]| then Some((e.frame, k))
                else None
    decreases |path|
  {
    if |path| == 1 {
      assert (path + [k])[1..] == [k];
    } else if f < |mem| && path[0] < |mem[f]| && mem[f][path[0]].p {
      assert (path + [k])[1..] == path[1..] + [k];
      SlotSnoc(mem, mem[f][path[0]].frame, path[1..], k);
    }
  }

  // In the tree the processor's walk meets no huge page: it finds the selected entry, or that it is not present.
  lemma {:induction false} TranslateFinds(mem: Memory, n: nat, level: map<nat, nat>, f: nat, path: seq<nat>)
    requires TreeOk(mem, n, level) && f in level && |path| == level[f]
    ensures Translate(mem, f, path) == var e := At(mem, f, path); if e.p then Page(e, e.rw) else Absent
    decreases |path|
  {
    assert TableOk(mem, n, level, f);
    if |path| > 1 && path[0] < n && mem[f][path[0]].p {
      assert DirEntryOk(mem[f][path[0]], level, level[f]);
      TranslateFinds(mem, n, level, mem[f][path[0]].frame, path[1..]);
    }
  }

  // ---------------------------------------------------------------- one changed entry

  function Put(mem: Memory, f: nat, k: nat, e: Entry): Memory
  {
    if f < |mem| && k < |mem[f]| then mem[f := mem[f][k := e]] else mem
  }

  lemma PutTwice(mem: Memory, f: nat, k: nat, e: Entry, d: Entry)
    ensures Put(Put(mem, f, k, e), f, k, d) == Put(mem, f, k, d)
    ensures f < |mem| && k < |mem[f]| ==> Get(Put(mem, f, k, e), f, k) == e
  {
    if f < |mem| && k < |mem[f]| {
      assert mem[f][k := e][k := d] == mem[f][k := d];
      assert mem[f := mem[f][k := e]][f := mem[f][k := d]] == mem[f := mem[f][k := d]];
    }
  }

  function Get(mem: Memory, f: nat, k: nat): Entry
  {
    if f < |mem| && k < |mem[f]| then mem[f][k] else EMPTY
  }

  // A changed page table entry is found by the walks that end there and by no other.
  lemma {:induction false} PutAt(mem: Memory, n: nat, level: map<nat, nat>, t: nat, k: nat, e: Entry, f: nat,
          path: seq<nat>)
    requires TreeOk(mem, n, level) && t in level && level[t] == 1 && t < |mem| && k < |mem[t]|
    requires f in level && 0 < |path| <= level[f]
    ensures Slot(Put(mem, t, k, e), f, path) == Slot(mem, f, path)
    ensures At(Put(mem, t, k, e), f, path) == if Slot(mem, f, path) == Some((t, k)) then e else At(mem, f, path)
    decreases |path|
  {
    assert TableOk(mem, n, level, f);
    if |path| > 1 && path[0] < n && mem[f][path[0]].p {
      assert DirEntryOk(mem[f][path[0]], level, level[f]);
      PutAt(mem, n, level, t, k, e, mem[f][path[0]].frame, path[1..]);
    }
  }

  lemma PutTree(mem: Memory, n: nat, level: map<nat, nat>, t: nat, k: nat, e: Entry)
    requires TreeOk(mem, n, level) && t in level && level[t] == 1 && t < |mem| && k < |mem[t]|
    ensures TreeOk(Put(mem, t, k, e), n, level)
  {
    var after := Put(mem, t, k, e);
    forall f: nat | f in level ensures TableOk(after, n, level, f) {
      assert TableOk(mem, n, level, f);
    }
    assert forall f: nat, l: nat :: Link(after, level, f, l) ==> Link(mem, level, f, l) && after[f] == mem[f];
  }

  // ---------------------------------------------------------------- a new table

  function Zeroes(n: nat): seq<Entry>
  {
    seq(n, i => EMPTY)
  }

  // Directory entry (d, k) now points to frame t, which is cleared.
  function Linked(mem: Memory, d: nat, k: nat, t: nat): Memory
  {
    Cleared(Put(mem, d, k, LinkEntry(Get(mem, d, k), t)), t)
  }

  function LinkEntry(e: Entry, t: nat): Entry
  {
    e.(p := true, rw := true, frame := t)
  }

  // Memory after memset(table, 0, 4096).
  function Cleared(mem: Memory, t: nat): Memory
  {
    if t < |mem| then mem[t := Zeroes(|mem[t]|)] else mem
  }

  ghost predicate CanLink(mem: Memory, n: nat, level: map<nat, nat>, d: nat, k: nat, t: nat)
  {
    && TreeOk(mem, n, level) && d in level && level[d] > 1 && d < |mem| && k < |mem[d]| && !mem[d][k].p
    && t !in level && t < |mem| && |mem[t]| == n
  }

  lemma LinkedTree(mem: Memory, n: nat, level: map<nat, nat>, d: nat, k: nat, t: nat)
    requires CanLink(mem, n, level, d, k, t)
    ensures TreeOk(Linked(mem, d, k, t), n, level[t := level[d] - 1])
  {
    var after, level' := Linked(mem, d, k, t), level[t := level[d] - 1];
    assert TableOk(mem, n, level, d);
    forall f: nat | f in level' ensures TableOk(after, n, level', f) {
      if f != t {
        assert TableOk(mem, n, level, f);
        forall i: nat | i < n && level[f] > 1 ensures DirEntryOk(after[f][i], level', level'[f]) {
          assert DirEntryOk(mem[f][i], level, level[f]);
        }
      }
    }
    forall f: nat, i: nat | Link(after, level', f, i)
      ensures (f == d && i == k) || (Link(mem, level, f, i) && after[f][i] == mem[f][i] && mem[f][i].frame != t)
    {
      if f != t && !(f == d && i == k) {
        assert TableOk(mem, n, level, f) && DirEntryOk(mem[f][i], level, level[f]);
      }
    }
  }

  lemma ClearTable(mem: Memory, f: nat, path: seq<nat>)
    requires f < |mem| && forall i: nat | i < |mem[f]| :: mem[f][i] == EMPTY
    ensures At(mem, f, path) == EMPTY
  {
  }

  // Linking a cleared table changes the one directory entry and nothing that any walk finds behind it.
  lemma {:induction false} LinkedAt(mem: Memory, n: nat, level: map<nat, nat>, d: nat, k: nat, t: nat, f: nat,
          path: seq<nat>)
    requires CanLink(mem, n, level, d, k, t) && f in level && 0 < |path| <= level[f]
    ensures At(Linked(mem, d, k, t), f, path)
            == if Slot(mem, f, path) == Some((d, k)) then LinkEntry(Get(mem, d, k), t) else At(mem, f, path)
    decreases |path|
  {
    var after := Linked(mem, d, k, t);
    assert TableOk(mem, n, level, f);
    assert f != t && |after[f]| == n;
    if |path| > 1 && path[0] < n {
      if f == d && path[0] == k {
        ClearTable(after, t, path[1..]);
      } else if mem[f][path[0]].p {
        assert DirEntryOk(mem[f][path[0]], level, level[f]);
        LinkedAt(mem, n, level, d, k, t, mem[f][path[0]].frame, path[1..]);
      }
    }
  }

  // An entry that was there before the link is found in its old place.
  lemma {:induction false} LinkedSlot(mem: Memory, n: nat, level: map<nat, nat>, d: nat, k: nat, t: nat, f: nat,
          path: seq<nat>)
    requires CanLink(mem, n, level, d, k, t) && f in level && 0 < |path| <= level[f]
    requires Slot(mem, f, path).Some?
    ensures Slot(Linked(mem, d, k, t), f, path) == Slot(mem, f, path)
    decreases |path|
  {
    assert TableOk(mem, n, level, f);
    if |path| > 1 {
      assert DirEntryOk(mem[f][path[0]], level, level[f]);
      LinkedSlot(mem, n, level, d, k, t, mem[f][path[0]].frame, path[1..]);
    }
  }

  // ---------------------------------------------------------------- page numbers

  // The indices of a page number, most significant first.
  function Path(n: nat, levels: nat, page: nat): (r: seq<nat>)
    requires n > 0
    ensures |r| == levels
    decreases levels
  {
    if levels == 0 then [] else Path(n, levels - 1, page / n) + [page % n]
  }

  function Pages(n: nat, levels: nat): nat
    decreases levels
  {
    if levels == 0 then 1 else n * Pages(n, levels - 1)
  }

  lemma {:induction false} PathInjective(n: nat, levels: nat, page: nat, other: nat)
    requires n > 0 && page < Pages(n, levels) && other < Pages(n, levels)
    requires Path(n, levels, page) == Path(n, levels, other)
    ensures page == other
    decreases levels
  {
    hide Path, Pages;
    if levels == 0 {
      NoLevels(n, page);
      NoLevels(n, other);
    } else {
      LastIndex(n, levels, page);
      LastIndex(n, levels, other);
      PathInjective(n, levels - 1, page / n, other / n);
      assert page == n * (page / n) + page % n;
    }
  }

  lemma NoLevels(n: nat, page: nat)
    requires n > 0 && page < Pages(n, 0)
    ensures page == 0
  {
  }

  lemma LastIndex(n: nat, levels: nat, page: nat)
    requires n > 0 && levels > 0 && page < Pages(n, levels)
    ensures page / n < Pages(n, levels - 1) && page == n * (page / n) + page % n
    ensures Path(n, levels, page)[..levels - 1] == Path(n, levels - 1, page / n)
    ensures Path(n, levels, page)[levels - 1] == page % n
  {
    Quotient(n, page, Pages(n, levels - 1));
    hide Pages;
  }

  lemma Quotient(n: nat, x: nat, m: nat)
    requires n > 0 && x < n * m
    ensures x / n < m && x == n * (x / n) + x % n
  {
    var q := x / n;
    assert x == n * q + x % n;
    assert q >= m ==> n * q >= n * m;
  }
}
