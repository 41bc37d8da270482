// The bitmap of free page frames and its two cursors (mm.c:115-171), and its construction from the
// boot loader's memory description (mm.c:546-589). Words have 32 bits, as in the 32-bit build.
module Freemap {
  import opened Bytes

  const MAX_FRAMES := 0x80000   // MAX_MEM / PAGE_SIZE (config.h:78)
  const WORDS := 0x4000         // MAX_FRAMES / 32
  const PT_START := 0x400       // mm.c:135
  const PAGE_START := 0x800     // mm.c:136

  datatype Option<T> = None | Some(value: T)

  // The macros of lib.h:49-56; a bit macro is the mask macro for 1 << bit.
  function Mask(bit: nat): bv32
    requires bit < 32
  {
    (1 as bv32) << bit
  }

  function MaskSet(w: bv32, m: bv32): bv32
  {
    w | m
  }

  function MaskClear(w: bv32, m: bv32): bv32
  {
    w & !m
  }

  predicate IsMaskSet(w: bv32, m: bv32)
  {
    (w & m) != 0
  }

  // A mask without a common bit is not seen.
  lemma OrOther(w: bv32, m: bv32, k: bv32)
    requires !IsMaskSet(m, k)
    ensures IsMaskSet(w | m, k) <==> IsMaskSet(w, k)
  {
  }

  lemma AndNotOther(w: bv32, m: bv32, k: bv32)
    requires !IsMaskSet(m, k)
    ensures IsMaskSet(w & !m, k) <==> IsMaskSet(w, k)
  {
  }

  lemma SetOther(w: bv32, m: bv32, k: bv32)
    requires !IsMaskSet(m, k)
    ensures IsMaskSet(MaskSet(w, m), k) <==> IsMaskSet(w, k)
  {
    hide IsMaskSet;
    OrOther(w, m, k);
  }

  lemma ClearOther(w: bv32, m: bv32, k: bv32)
    requires !IsMaskSet(m, k)
    ensures IsMaskSet(MaskClear(w, m), k) <==> IsMaskSet(w, k)
  {
    hide IsMaskSet;
    AndNotOther(w, m, k);
  }

  lemma SetOwn(w: bv32, m: bv32)
    requires m != 0
    ensures IsMaskSet(MaskSet(w, m), m)
  {
  }

  lemma ClearOwn(w: bv32, m: bv32)
    ensures !IsMaskSet(MaskClear(w, m), m)
  {
  }

  lemma MaskNotZero(b: nat)
    requires b < 32
    ensures Mask(b) != 0
  {
  }

  lemma MasksApart(b: nat, c: nat)
    requires b < c < 32
    ensures Mask(b) & Mask(c) == 0
  {
  }

  lemma NotSet(m: bv32, k: bv32)
    requires m & k == 0
    ensures !IsMaskSet(m, k) && !IsMaskSet(k, m)
  {
  }

  lemma DistinctMasks(b: nat, c: nat)
    requires b < 32 && c < 32 && b != c
    ensures !IsMaskSet(Mask(b), Mask(c))
  {
    hide Mask, IsMaskSet;
    var low, high := if b < c then b else c, if b < c then c else b;
    MasksApart(low, high);
    NotSet(Mask(low), Mask(high));
  }

  // Setting or clearing a bit of a 32-bit word changes that bit alone.
  lemma BitUpdate(w: bv32, b: nat, c: nat)
    requires b < 32 && c < 32
    ensures IsMaskSet(MaskSet(w, Mask(b)), Mask(c)) <==> b == c || IsMaskSet(w, Mask(c))
    ensures IsMaskSet(MaskClear(w, Mask(b)), Mask(c)) <==> b != c && IsMaskSet(w, Mask(c))
  {
    hide Mask, MaskSet, MaskClear, IsMaskSet;
    if b == c {
      MaskNotZero(b);
      SetOwn(w, Mask(b));
      ClearOwn(w, Mask(b));
    } else {
      DistinctMasks(b, c);
      SetOther(w, Mask(b), Mask(c));
      ClearOther(w, Mask(b), Mask(c));
    }
  }

  predicate InMap(freemap: seq<bv32>, f: nat)
    requires |freemap| == WORDS
  {
    f < MAX_FRAMES && IsMaskSet(freemap[f / 32], Mask(f % 32))
  }

  function FreeSet(freemap: seq<bv32>): set<nat>
    requires |freemap| == WORDS
  {
    set f: nat | f < MAX_FRAMES && InMap(freemap, f)
  }

  lemma SetOne(freemap: seq<bv32>, f: nat)
    requires |freemap| == WORDS && f < MAX_FRAMES
    ensures FreeSet(freemap[f / 32 := MaskSet(freemap[f / 32], Mask(f % 32))]) == FreeSet(freemap) + {f}
  {
    hide Mask, MaskSet, MaskClear, IsMaskSet;
    var after := freemap[f / 32 := MaskSet(freemap[f / 32], Mask(f % 32))];
    forall g: nat | g < MAX_FRAMES ensures InMap(after, g) <==> g == f || InMap(freemap, g) {
      BitUpdate(freemap[f / 32], f % 32, g % 32);
    }
  }

  lemma ClearOne(freemap: seq<bv32>, f: nat)
    requires |freemap| == WORDS && f < MAX_FRAMES
    ensures FreeSet(freemap[f / 32 := MaskClear(freemap[f / 32], Mask(f % 32))]) == FreeSet(freemap) - {f}
  {
    hide Mask, MaskSet, MaskClear, IsMaskSet;
    var after := freemap[f / 32 := MaskClear(freemap[f / 32], Mask(f % 32))];
    forall g: nat | g < MAX_FRAMES ensures InMap(after, g) <==> g != f && InMap(freemap, g) {
      BitUpdate(freemap[f / 32], f % 32, g % 32);
    }
  }

  datatype FrameType = PageTable | Page4k | Unsupported

  function Start(t: FrameType): nat
  {
    if t == Page4k then PAGE_START else PT_START
  }

  // Frames for tables are taken from 4 MB on, frames for pages from 8 MB on.
  lemma StartIs()
    ensures Start(PageTable) == 0x400 && Start(Page4k) == 0x800
  {
  }

  // f is the least free frame at or above start.
  predicate FirstFree(free: set<nat>, start: nat, f: nat)
  {
    f in free && start <= f && forall g | g in free && start <= g :: f <= g
  }

  predicate Exhausted(free: set<nat>, start: nat)
  {
    forall g | g in free :: g < start
  }

  // ---------------------------------------------------------------- the boot loader's memory description

  // One entry of the memory map (section 3.3 of the Multiboot specification 0.6.96): size counts the bytes behind
  // the size field itself, of which rest are beyond the four fields read here.
  datatype MmapEntry = MmapEntry(addr: nat, len: nat, kind: nat, rest: seq<Byte>)
  {
    predicate Valid()
    {
      addr < Pow256(8) && len < Pow256(8) && kind < Pow256(4) && 20 + |rest| < Pow256(4)
    }
  }

  const U32 := 0x1_0000_0000
  const U64 := 0x1_0000_0000_0000_0000

  function EncodeEntry(e: MmapEntry): (r: seq<Byte>)
    ensures |r| == 24 + |e.rest|
  {
    ToLe(20 + |e.rest|, 4) + ToLe(e.addr, 8) + ToLe(e.len, 8) + ToLe(e.kind, 4) + e.rest
  }

  function EncodeMmap(es: seq<MmapEntry>): seq<Byte>
  {
    if es == [] then [] else EncodeEntry(es[0]) + EncodeMmap(es[1..])
  }

  predicate InRange(f: nat, lo: nat, hi: nat)
  {
    PT_START <= f < MAX_FRAMES && lo <= f < hi
  }

  function Frames(lo: nat, hi: nat): set<nat>
  {
    set f: nat | f < MAX_FRAMES && InRange(f, lo, hi)
  }

  lemma FramesStep(lo: nat, u: nat)
    ensures Frames(lo, u + 1) == Frames(lo, u) + if InRange(u, lo, u + 1) then {u} else {}
    ensures u !in Frames(lo, u)
  {
    assert forall f: nat | f < MAX_FRAMES :: InRange(f, lo, u + 1) <==>
        InRange(f, lo, u) || (f == u && InRange(u, lo, u + 1));
  }

  // The first frame of a region, in the 32-bit loop variable of mm.c:575, and the bound of the loop in 64 bits.
  function FirstFrame(addr: nat): nat
  {
    LoopVariable(addr / 4096, 0)
  }

  function EndFrame(addr: nat, len: nat): nat
  {
    (addr + len) % U64 / 4096
  }

  lemma FirstFrameIs(addr: nat)
    ensures FirstFrame(addr) == LoopVariable(addr / 4096, 0)
  {
  }

  // The loop over the frames of a region ends: its variable reaches the bound.
  ghost predicate LoopEnds(addr: nat, len: nat)
  {
    exists k: nat :: LoopVariable(addr / 4096, k) >= EndFrame(addr, len)
  }

  // The registration of an available region does not end.
  ghost predicate Endless(e: MmapEntry)
  {
    e.kind == 1 && !LoopEnds(e.addr, e.len)
  }

  lemma LoopEndsIs(addr: nat, len: nat)
    ensures LoopEnds(addr, len) <==> EndFrame(addr, len) < U32
  {
    FrameLoopEndsExactlyWhen(addr / 4096, EndFrame(addr, len));
  }

  // An available region of 2^44 bytes.
  lemma RegionWithoutEnd()
    ensures MmapEntry(0, 0x1000_0000_0000, 1, []).Valid() && Endless(MmapEntry(0, 0x1000_0000_0000, 1, []))
  {
    LoopEndsIs(0, 0x1000_0000_0000);
  }

  function EntryFrames(e: MmapEntry): set<nat>
  {
    if e.kind == 1 then Frames(FirstFrame(e.addr), EndFrame(e.addr, e.len)) else {}
  }

  // Below 2^44 bytes these are the frames that the region covers.
  lemma PlainRegion(addr: nat, len: nat)
    requires addr + len < 0x1000_0000_0000
    ensures FirstFrame(addr) == addr / 4096 && EndFrame(addr, len) == (addr + len) / 4096 && LoopEnds(addr, len)
  {
    LoopEndsIs(addr, len);
    hide LoopEnds;
  }

  function MmapFrames(es: seq<MmapEntry>): set<nat>
  {
    if es == [] then {} else EntryFrames(es[0]) + MmapFrames(es[1..])
  }

  // What mm_init() registers.
  function BootFrames(flags: bv32, memUpper: nat, es: seq<MmapEntry>): set<nat>
  {
    (if IsMaskSet(flags, Mask(0)) then Frames(0, memUpper / 4) else {})
    + (if IsMaskSet(flags, Mask(6)) then MmapFrames(es) else {})
  }

  // Some region of available memory covers frame f.
  predicate CoveredBy(es: seq<MmapEntry>, f: nat)
  {
    exists i: nat :: i < |es| && es[i].kind == 1
                     && FirstFrame(es[i].addr) <= f < EndFrame(es[i].addr, es[i].len)
  }

  lemma {:induction false} MmapFramesAre(es: seq<MmapEntry>, f: nat)
    ensures f in MmapFrames(es) <==>
            PT_START <= f < MAX_FRAMES && CoveredBy(es, f)
  {
    hide LoopVariable, FirstFrame, EndFrame;
    if es != [] {
      assert f in EntryFrames(es[0]) <==>
          es[0].kind == 1 && InRange(f, FirstFrame(es[0].addr), EndFrame(es[0].addr, es[0].len));
      MmapFramesAre(es[1..], f);
      if CoveredBy(es[1..], f) {
        var i: nat :| i < |es[1..]| && es[1..][i].kind == 1
                      && FirstFrame(es[1..][i].addr) <= f < EndFrame(es[1..][i].addr, es[1..][i].len);
        assert es[i + 1] == es[1..][i];
      }
      if CoveredBy(es, f) {
        var i: nat :| i < |es| && es[i].kind == 1 && FirstFrame(es[i].addr) <= f < EndFrame(es[i].addr, es[i].len);
        if i > 0 { assert es[1..][i - 1] == es[i]; }
      }
    }
  }

  // Bits 0 and 6 of the flags.
  lemma FlagBits(flags: bv32)
    ensures IsMaskSet(flags, Mask(0)) <==> flags & 1 != 0
    ensures IsMaskSet(flags, Mask(6)) <==> flags & 0x40 != 0
  {
    assert Mask(0) == 1 && Mask(6) == 0x40;
  }

  // A frame is registered exactly if it ends within the upper memory, in kilobytes, or lies in an available region of
  // the map, whichever of the two descriptions there are.
  lemma BootFramesAre(flags: bv32, memUpper: nat, es: seq<MmapEntry>, f: nat)
    ensures f in BootFrames(flags, memUpper, es) <==>
              && 0x400 <= f < 0x80000
              && (|| (flags & 1 != 0 && 4 * (f + 1) <= memUpper)
                  || (flags & 0x40 != 0 && exists i: nat ::
                        && i < |es| && es[i].kind == 1 && es[i].addr / 0x1000 % 0x1_0000_0000 <= f
                        && f < (es[i].addr + es[i].len) % 0x1_0000_0000_0000_0000 / 0x1000))
  {
    FlagBits(flags);
    MmapFramesAre(es, f);
    hide IsMaskSet, Mask, MmapFrames;
    assert f in Frames(0, memUpper / 4) <==> 0x400 <= f < 0x80000 && 4 * (f + 1) <= memUpper;
    hide Frames;
    if i: nat :| i < |es| && es[i].kind == 1 && FirstFrame(es[i].addr) <= f < EndFrame(es[i].addr, es[i].len) {
      assert es[i].addr / 0x1000 % 0x1_0000_0000 <= f;
    }
  }

  // The fields read at the start of an encoded entry.
  lemma EntryFields(mem: seq<Byte>, p: nat, e: MmapEntry)
    requires e.Valid() && p + |EncodeEntry(e)| <= |mem| && mem[p..p + |EncodeEntry(e)|] == EncodeEntry(e)
    ensures p + 24 <= |mem|
    ensures Le(mem, p, 4) == 20 + |e.rest| && Le(mem, p + 4, 8) == e.addr && Le(mem, p + 12, 8) == e.len
        && Le(mem, p + 20, 4) == e.kind
  {
    var enc := EncodeEntry(e);
    assert enc[0..4] == ToLe(20 + |e.rest|, 4) && enc[4..12] == ToLe(e.addr, 8);
    assert enc[12..20] == ToLe(e.len, 8) && enc[20..24] == ToLe(e.kind, 4);
    SubSlice(mem, p, enc, 0, 4);
    SubSlice(mem, p, enc, 4, 12);
    SubSlice(mem, p, enc, 12, 20);
    SubSlice(mem, p, enc, 20, 24);
    LeToLe(20 + |e.rest|, 4, mem, p);
    LeToLe(e.addr, 8, mem, p + 4);
    LeToLe(e.len, 8, mem, p + 12);
    LeToLe(e.kind, 4, mem, p + 20);
  }

  lemma EntryAt(mem: seq<Byte>, p: nat, left: seq<MmapEntry>)
    requires p < |mem| && mem[p..] == EncodeMmap(left)
    ensures left != [] && p + |EncodeEntry(left[0])| <= |mem|
    ensures mem[p..p + |EncodeEntry(left[0])|] == EncodeEntry(left[0])
    ensures mem[p + |EncodeEntry(left[0])|..] == EncodeMmap(left[1..])
  {
    var first, rest := EncodeEntry(left[0]), EncodeMmap(left[1..]);
    assert |mem[p..]| == |first| + |rest|;
    assert mem[p..][..|first|] == first && mem[p..][|first|..] == rest;
    assert mem[p..p + |first|] == mem[p..][..|first|];
    assert mem[p + |first|..] == mem[p..][|first|..];
  }

  // Frames below PT_START or beyond the bitmap never count.
  lemma FramesCut(a: nat, b: nat)
    requires a == b || (a == MAX_FRAMES <= b) || (a <= PT_START && b <= PT_START)
    ensures Frames(0, a) == Frames(0, b)
  {
    assert forall f: nat | f < MAX_FRAMES :: InRange(f, 0, a) <==> InRange(f, 0, b);
  }

  lemma NoFrames(lo: nat, hi: nat)
    requires hi <= PT_START || hi <= lo
    ensures Frames(lo, hi) == {}
  {
    assert forall f: nat | f < MAX_FRAMES :: !InRange(f, lo, hi);
  }

  lemma MmapFramesStep(left: seq<MmapEntry>)
    requires left != []
    ensures MmapFrames(left) == EntryFrames(left[0]) + MmapFrames(left[1..])
  {
  }

  lemma EndlessIs(e: MmapEntry)
    ensures Endless(e) <==> e.kind == 1 && !LoopEnds(e.addr, e.len)
  {
  }

  lemma EndlessRest(left: seq<MmapEntry>)
    requires left != [] && !Endless(left[0])
    ensures (exists e :: e in left && Endless(e)) <==> exists e :: e in left[1..] && Endless(e)
  {
    hide Endless;
    assert left == [left[0]] + left[1..];
  }

  lemma NothingLeft(left: seq<MmapEntry>)
    ensures EncodeMmap(left) == [] ==> left == [] && MmapFrames(left) == {}
  {
    if left != [] { assert |EncodeMmap(left)| >= |EncodeEntry(left[0])|; }
  }

  lemma FreeBit(freemap: seq<bv32>, f: nat)
    requires |freemap| == WORDS && f < MAX_FRAMES
    ensures f in FreeSet(freemap) <==> IsMaskSet(freemap[f / 32], Mask(f % 32))
  {
    hide Mask, IsMaskSet;
    assert f in FreeSet(freemap) <==> InMap(freemap, f);
  }

  // The 32-bit loop variable of mm.c:578 after k iterations.
  function LoopVariable(start: nat, k: nat): nat
  {
    (start + k) % U32
  }

  lemma NoWrap(u: nat, k: nat)
    requires u + k < U32
    ensures LoopVariable(u, k) == u + k
  {
  }

  // That loop ends exactly when its bound fits 32 bits.
  lemma FrameLoopEndsExactlyWhen(start: nat, bound: nat)
    ensures (exists k: nat :: LoopVariable(start, k) >= bound) <==> bound < U32
  {
    if bound < U32 {
      var k := U32 - 1 - start % U32;
      assert LoopVariable(start, k) == U32 - 1;
    }
  }

  class FrameAllocator {
    const freemap: array<bv32>
    var lastPt: nat     // last_frame_pt
    var last4k: nat     // last_frame_4k
    var halted: bool    // the CPU has printed an error and stopped (mm.c:146-148, mm.c:159-161, mm.c:168-170)

    ghost function Free(): set<nat>
      requires freemap.Length == WORDS
      reads freemap
    {
      FreeSet(freemap[..])
    }

    ghost predicate Valid()
      reads this, freemap
    {
      && freemap.Length == WORDS
      && PT_START <= lastPt && PAGE_START <= last4k
      && (!halted ==> lastPt < MAX_FRAMES && last4k < MAX_FRAMES)
      // no free frame lies between a type's start and its cursor
      && (forall f | f in Free() :: !(PT_START <= f < lastPt) && !(PAGE_START <= f < last4k))
    }

    // The static variables before mm_init(): every bit clear (mm.c:550).
    constructor ()
      ensures Valid() && !halted && Free() == {} && fresh(freemap)
      ensures lastPt == PT_START && last4k == PAGE_START
    {
      freemap := new bv32[WORDS](_ => 0);
      lastPt, last4k, halted := PT_START, PAGE_START, false;
      new;
      assert forall f: nat | f < MAX_FRAMES :: freemap[..][f / 32] == 0;
    }

    method SetFrame(f: nat)
      requires freemap.Length == WORDS && f < MAX_FRAMES
      modifies freemap
      ensures Free() == old(Free()) + {f}
    {
      hide Mask, MaskSet, MaskClear, IsMaskSet;
      SetOne(freemap[..], f);
      freemap[f / 32] := MaskSet(freemap[f / 32], Mask(f % 32));
      assert freemap[..] == old(freemap[..])[f / 32 := MaskSet(old(freemap[f / 32]), Mask(f % 32))];
    }

    method ClearFrame(f: nat)
      requires freemap.Length == WORDS && f < MAX_FRAMES
      modifies freemap
      ensures Free() == old(Free()) - {f}
    {
      hide Mask, MaskSet, MaskClear, IsMaskSet;
      ClearOne(freemap[..], f);
      freemap[f / 32] := MaskClear(freemap[f / 32], Mask(f % 32));
      assert freemap[..] == old(freemap[..])[f / 32 := MaskClear(old(freemap[f / 32]), Mask(f % 32))];
    }

    // The scan of mm.c:143-150 and mm.c:156-163.
    method Scan(start: nat) returns (last: nat)
      requires freemap.Length == WORDS && start < MAX_FRAMES
      ensures start <= last <= MAX_FRAMES
      ensures last < MAX_FRAMES ==> last in Free()
      ensures forall f | f in Free() :: !(start <= f < last)
    {
      hide Mask, MaskSet, MaskClear, IsMaskSet;
      last := start;
      while !IsMaskSet(freemap[last / 32], Mask(last % 32))
        invariant start <= last < MAX_FRAMES
        invariant forall f | f in Free() :: !(start <= f < last)
        decreases MAX_FRAMES - last
      {
        assert !InMap(freemap[..], last);
        last := last + 1;
        if last >= MAX_FRAMES {
          return;
        }
      }
      assert InMap(freemap[..], last);
    }

    method GetFreeFrame(t: FrameType) returns (r: Option<nat>)
      requires Valid() && !halted
      modifies this, freemap
      ensures Valid()
      ensures halted <==> r.None?
      ensures r.Some? ==>
        t != Unsupported && FirstFree(old(Free()), Start(t), r.value) && Free() == old(Free()) - {r.value}
      ensures r.None? ==> Free() == old(Free()) && (t == Unsupported || Exhausted(old(Free()), Start(t)))
    {
      hide Mask, MaskSet, MaskClear, IsMaskSet;
      if t == Page4k {
        last4k := Scan(last4k);
        if last4k >= MAX_FRAMES {
          halted := true;
          return None;
        }
        ClearFrame(last4k);
        return Some(last4k);
      } else if t == PageTable {
        lastPt := Scan(lastPt);
        if lastPt >= MAX_FRAMES {
          halted := true;
          return None;
        }
        ClearFrame(lastPt);
        return Some(lastPt);
      }
      halted := true;
      return None;
    }

    // An error message and the end, as at mm.c:168-170 and mm.c:223-225.
    method Halt()
      modifies this`halted
      ensures halted
    {
      halted := true;
    }

    // The freemap part of mm_init(). mmap is the memory from mmap_addr on, mmap_length bytes long.
    method MmInit(flags: bv32, memUpper: nat, mmap: seq<Byte>, ghost es: seq<MmapEntry>) returns (count: nat)
      requires Valid() && !halted
      requires memUpper < U32
      requires IsMaskSet(flags, Mask(6)) ==> mmap == EncodeMmap(es) && forall e | e in es :: e.Valid()
      requires lastPt == PT_START && last4k == PAGE_START
      modifies freemap, this`halted
      ensures halted <==> IsMaskSet(flags, Mask(6)) && exists e :: e in es && Endless(e)
      ensures !halted ==> Valid() && Free() == BootFrames(flags, memUpper, es) && count == |Free()|
    {
      hide Mask, MaskSet, MaskClear, IsMaskSet, Endless;
      count := 0;
      ClearAll();
      if IsMaskSet(flags, Mask(0)) {
        count := RegisterLow(memUpper);
      }
      if IsMaskSet(flags, Mask(6)) {
        count := WalkMmap(mmap, es, count);
      }
    }

    // memset(freemap, 0, sizeof(freemap))
    method ClearAll()
      requires freemap.Length == WORDS
      modifies freemap
      ensures Free() == {}
    {
      forall i | 0 <= i < freemap.Length {
        freemap[i] := 0;
      }
      assert forall f: nat | f < MAX_FRAMES :: freemap[..][f / 32] == 0;
    }

    // mm.c:554-566
    method RegisterLow(memUpper: nat) returns (count: nat)
      requires freemap.Length == WORDS && Free() == {}
      modifies freemap
      ensures Free() == Frames(0, memUpper / 4) && count == |Free()|
    {
      hide Mask, MaskSet, MaskClear, IsMaskSet, FreeSet, InMap, Frames;
      count := 0;
      var limit := memUpper / 4;
      if limit > MAX_FRAMES { limit := MAX_FRAMES; }
      FramesCut(limit, memUpper / 4);
      var u := PT_START;
      NoFrames(0, u);
      while u < limit
        invariant PT_START <= u && (u <= limit || u == PT_START)
        invariant Free() == Frames(0, u)
        invariant count == |Free()|
      {
        FramesStep(0, u);
        count := count + 1;
        SetFrame(u);
        u := u + 1;
      }
      FramesCut(limit, u);
    }

    // mm.c:569-588: the walk over entries of different sizes.
    method WalkMmap(mmap: seq<Byte>, ghost es: seq<MmapEntry>, count0: nat) returns (count: nat)
      requires freemap.Length == WORDS && count0 == |Free()| && !halted
      requires mmap == EncodeMmap(es) && forall e | e in es :: e.Valid()
      modifies freemap, this`halted
      ensures halted <==> exists e :: e in es && Endless(e)
      ensures !halted ==> Free() == old(Free()) + MmapFrames(es) && count == |Free()|
    {
      hide Mask, MaskSet, MaskClear, IsMaskSet, FreeSet, InMap, Frames, EncodeMmap, EncodeEntry, MmapFrames, Endless;
      hide FirstFrame, EndFrame;
      count := count0;
      var p := 0;
      ghost var left := es;
      while p < |mmap|
        invariant p <= |mmap| && mmap[p..] == EncodeMmap(left) && !halted
        invariant forall e | e in left :: e.Valid()
        invariant (exists e :: e in es && Endless(e)) <==> exists e :: e in left && Endless(e)
        invariant Free() + MmapFrames(left) == old(Free()) + MmapFrames(es)
        invariant count == |Free()|
        decreases |mmap| - p
      {
        EntryAt(mmap, p, left);
        MmapFramesStep(left);
        ghost var e := left[0];
        EntryFields(mmap, p, e);
        var size, addr, len, kind := Le(mmap, p, 4), Le(mmap, p + 4, 8), Le(mmap, p + 12, 8), Le(mmap, p + 20, 4);
        EndlessIs(e);
        if kind == 1 {
          count := RegisterRegion(addr, len, count);
          if halted {
            assert e in left;
            return;
          }
        }
        p := p + size + 4;
        EndlessRest(left);
        left := left[1..];
      }
      NothingLeft(left);
    }

    // mm.c:578-585, for one region of available memory. The source does not get past a region without end
    // (FrameLoopEndsExactlyWhen).
    method RegisterRegion(addr: nat, len: nat, count0: nat) returns (count: nat)
      requires freemap.Length == WORDS && count0 == |Free()| && !halted
      modifies freemap, this`halted
      ensures halted <==> !LoopEnds(addr, len)
      ensures !halted ==> Free() == old(Free()) + Frames(FirstFrame(addr), EndFrame(addr, len)) && count == |Free()|
    {
      hide Mask, MaskSet, MaskClear, IsMaskSet, FreeSet, InMap, Frames, LoopVariable, FirstFrame, EndFrame, LoopEnds,
          FrameAllocator.Free;
      count := count0;
      ghost var lo := FirstFrame(addr);
      var bound := EndFrame(addr, len);
      LoopEndsIs(addr, len);
      if bound >= U32 {
        Halt();
        return;
      }
      var u := LoopVariable(addr / 4096, 0);
      FirstFrameIs(addr);
      NoFrames(lo, u);
      if u >= bound { NoFrames(lo, bound); }
      while u < bound
        invariant lo <= u && (u <= bound || u == lo) && bound < U32 && !halted
        invariant Free() == old(Free()) + Frames(lo, u)
        invariant count == |Free()|
        decreases bound - u
      {
        FramesStep(lo, u);
        if u >= PT_START && u < MAX_FRAMES {
          count := RegisterFrame(u, count);
        }
        NoWrap(u, 1);
        u := LoopVariable(u, 1);
      }
    }

    // mm.c:580-583
    method RegisterFrame(u: nat, count0: nat) returns (count: nat)
      requires freemap.Length == WORDS && u < MAX_FRAMES && count0 == |Free()|
      modifies freemap
      ensures Free() == old(Free()) + {u} && count == |Free()|
    {
      hide Mask, MaskSet, MaskClear, IsMaskSet, FreeSet, InMap;
      count := count0;
      FreeBit(freemap[..], u);
      if !IsMaskSet(freemap[u / 32], Mask(u % 32)) {
        count := count + 1;
        SetFrame(u);
      }
    }
  }
}
