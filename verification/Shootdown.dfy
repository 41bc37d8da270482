// Changing the caching of shared buffers on all CPUs (payload.c:120-130): CPU 0 rewrites the page table entries
// (mm.c:391-408), a barrier, the other CPUs drop their cached translations (mm.c:672-682), a barrier. Every CPU may
// load any current entry into its translation cache (TLB), or drop one, at any time.
module Shootdown {
  import opened Machine
  import opened AddressSpace
  import opened Heap

  // A translation, in the page table or in a TLB.
  datatype Attr = Attr(frame: nat, pwt: bool, pcd: bool)

  // A page to be reconfigured.
  datatype Target = Target(page: nat, c: Caching)

  datatype Pc =
    | Pwt | Pcd | Inval       // CPU 0: mm.c:392-396, mm.c:397-401, mm.c:408
    | ArriveFirst | WaitFirst
    | Shoot                   // the others: mm.c:678-680
    | ArriveSecond | WaitSecond
    | Done

  // k counts the pages worked on.
  datatype Cpu = Cpu(pc: Pc, k: nat, tlb: map<nat, Attr>)

  datatype State = State(targets: seq<Target>, pt: map<nat, Attr>, cpus: seq<Cpu>)

  datatype Action = Go(cpu: nat) | Fill(cpu: nat, page: nat) | Evict(cpu: nat, page: nat)

  // tlbs holds what each CPU has cached at the start.
  function Init(targets: seq<Target>, pt: map<nat, Attr>, tlbs: seq<map<nat, Attr>>): State
  {
    State(targets, pt, seq(|tlbs|, i requires 0 <= i < |tlbs| => Cpu(if i == 0 then Pwt else ArriveFirst, 0, tlbs[i])))
  }

  // Program order.
  function Phase(pc: Pc): nat
  {
    match pc
    case Pwt => 0
    case Pcd => 0
    case Inval => 0
    case ArriveFirst => 1
    case WaitFirst => 2
    case Shoot => 3
    case ArriveSecond => 4
    case WaitSecond => 5
    case Done => 6
  }

  predicate AllReached(cpus: seq<Cpu>, phase: nat)
  {
    forall j: nat | j < |cpus| :: Phase(cpus[j].pc) >= phase
  }

  function SetPwt(pt: map<nat, Attr>, t: Target): map<nat, Attr>
  {
    if t.page in pt then pt[t.page := pt[t.page].(pwt := t.c.writeThrough)] else pt
  }

  function SetPcd(pt: map<nat, Attr>, t: Target): map<nat, Attr>
  {
    if t.page in pt then pt[t.page := pt[t.page].(pcd := t.c.disabled)] else pt
  }

  function Step(s: State, a: Action): State
  {
    if a.cpu >= |s.cpus| then s else
    var i, p := a.cpu, s.cpus[a.cpu];
    match a
    case Fill(_, page) => if page in s.pt then s.(cpus := s.cpus[i := p.(tlb := p.tlb[page := s.pt[page]])]) else s
    case Evict(_, page) => s.(cpus := s.cpus[i := p.(tlb := p.tlb - {page})])
    case Go(_) =>
      match p.pc
      case Pwt =>
        if p.k >= |s.targets| then s.(cpus := s.cpus[i := p.(pc := ArriveFirst)])
        else s.(pt := SetPwt(s.pt, s.targets[p.k]), cpus := s.cpus[i := p.(pc := Pcd)])
      case Pcd =>
        if p.k >= |s.targets| then s
        else s.(pt := SetPcd(s.pt, s.targets[p.k]), cpus := s.cpus[i := p.(pc := Inval)])
      case Inval =>
        if p.k >= |s.targets| then s
        else s.(cpus := s.cpus[i := p.(pc := Pwt, k := p.k + 1, tlb := p.tlb - {s.targets[p.k].page})])
      case ArriveFirst => s.(cpus := s.cpus[i := p.(pc := WaitFirst)])
      case WaitFirst =>
        if AllReached(s.cpus, 2) then s.(cpus := s.cpus[i := if i == 0 then p.(pc := ArriveSecond)
            else p.(pc := Shoot, k := 0)])
        else s
      case Shoot =>
        if p.k >= |s.targets| then s.(cpus := s.cpus[i := p.(pc := ArriveSecond)])
        else s.(cpus := s.cpus[i := p.(k := p.k + 1, tlb := p.tlb - {s.targets[p.k].page})])
      case ArriveSecond => s.(cpus := s.cpus[i := p.(pc := WaitSecond)])
      case WaitSecond => if AllReached(s.cpus, 5) then s.(cpus := s.cpus[i := p.(pc := Done)]) else s
      case Done => s
  }

  // The page table once the first n targets are done.
  function Updated(pt: map<nat, Attr>, targets: seq<Target>, n: nat): map<nat, Attr>
    requires n <= |targets|
  {
    if n == 0 then pt else SetPcd(SetPwt(Updated(pt, targets, n - 1), targets[n - 1]), targets[n - 1])
  }

  lemma {:induction false} UpdatedFrames(pt: map<nat, Attr>, targets: seq<Target>, n: nat)
    requires n <= |targets|
    ensures Updated(pt, targets, n).Keys == pt.Keys
    ensures forall page | page in pt :: Updated(pt, targets, n)[page].frame == pt[page].frame
  {
    if n > 0 { UpdatedFrames(pt, targets, n - 1); }
  }

  // ---------------------------------------------------------------- the invariant

  // A cached translation has the frame of the page table.
  predicate SameFrames(tlb: map<nat, Attr>, pt: map<nat, Attr>)
  {
    forall page | page in tlb :: page in pt && tlb[page].frame == pt[page].frame
  }

  predicate Fresh(tlb: map<nat, Attr>, pt: map<nat, Attr>, page: nat)
  {
    page in tlb ==> page in pt && tlb[page] == pt[page]
  }

  predicate IsTarget(targets: seq<Target>, n: nat, page: nat)
    requires n <= |targets|
  {
    exists k: nat :: k < n && targets[k].page == page
  }

  // What CPU i may still have cached from before.
  predicate MayBeOld(s: State, i: nat, page: nat)
    requires i < |s.cpus|
  {
    var p := s.cpus[i];
    if i == 0 then (p.pc == Pcd || p.pc == Inval) && p.k < |s.targets| && s.targets[p.k].page == page
    else
      && IsTarget(s.targets, |s.targets|, page)
      && (Phase(p.pc) <= 2 || (p.pc == Shoot && p.k <= |s.targets| && !IsTarget(s.targets, p.k, page)))
  }

  predicate CpuOk(s: State, i: nat)
    requires i < |s.cpus|
  {
    var p := s.cpus[i];
    && p.k <= |s.targets| && (p.pc == Pcd || p.pc == Inval ==> p.k < |s.targets|)
    && (i == 0 ==> p.pc != Shoot && (Phase(p.pc) > 0 ==> p.k == |s.targets|))
    && (i > 0 ==> Phase(p.pc) > 0)
    && SameFrames(p.tlb, s.pt)
    && (forall page | page in p.tlb && !MayBeOld(s, i, page) :: Fresh(p.tlb, s.pt, page))
    && (Phase(p.pc) >= 3 ==> AllReached(s.cpus, 2))
    && (Phase(p.pc) == 6 ==> AllReached(s.cpus, 5))
  }

  ghost predicate TableOk(s: State, pt0: map<nat, Attr>)
  {
    |s.cpus| > 0 && s.cpus[0].k <= |s.targets| &&
    var p := s.cpus[0];
    var u := Updated(pt0, s.targets, p.k);
    match p.pc
    case Pcd => p.k < |s.targets| && s.pt == SetPwt(u, s.targets[p.k])
    case Inval => p.k < |s.targets| && s.pt == SetPcd(SetPwt(u, s.targets[p.k]), s.targets[p.k])
    case _ => s.pt == u
  }

  ghost predicate Inv(s: State, pt0: map<nat, Attr>)
  {
    TableOk(s, pt0) && forall i: nat | i < |s.cpus| :: CpuOk(s, i)
  }

  // A step that leaves the page table alone.
  predicate Quiet(s: State, s': State, i: nat)
  {
    && i < |s.cpus| == |s'.cpus| && s'.pt == s.pt && s'.targets == s.targets
    && forall j: nat | j < |s.cpus| && j != i :: s'.cpus[j] == s.cpus[j]
  }

  lemma QuietOthers(s: State, s': State, i: nat, j: nat)
    requires Quiet(s, s', i) && Phase(s'.cpus[i].pc) >= Phase(s.cpus[i].pc) && j < |s.cpus| && j != i && CpuOk(s, j)
    ensures CpuOk(s', j)
  {
    assert forall page :: MayBeOld(s', j, page) == MayBeOld(s, j, page);
    hide MayBeOld, SameFrames, Fresh;
  }

  // One more target has been dropped from the TLB.
  lemma OneMoreTarget(targets: seq<Target>, k: nat, page: nat)
    requires k < |targets|
    ensures IsTarget(targets, k + 1, page) <==> IsTarget(targets, k, page) || page == targets[k].page
  {
    if IsTarget(targets, k, page) {
      var l: nat :| l < k && targets[l].page == page;
      assert l < k + 1 && targets[l].page == page;
    }
    if page == targets[k].page { assert k < k + 1 && targets[k].page == page; }
  }

  // Everything but CPU 0's two stores leaves the page table alone.
  predicate Stores(s: State, a: Action)
  {
    a.Go? && a.cpu < |s.cpus| && s.cpus[a.cpu].k < |s.targets| && (s.cpus[a.cpu].pc == Pwt || s.cpus[a.cpu].pc == Pcd)
  }

  lemma QuietShape(s: State, a: Action)
    requires a.cpu < |s.cpus| && !Stores(s, a)
    ensures Quiet(s, Step(s, a), a.cpu) && Phase(Step(s, a).cpus[a.cpu].pc) >= Phase(s.cpus[a.cpu].pc)
  {
  }

  lemma GoSelf(s: State, a: Action)
    requires a.cpu < |s.cpus| && CpuOk(s, a.cpu) && a.Go? && !Stores(s, a) && s.cpus[a.cpu].pc != Shoot
    ensures |Step(s, a).cpus| == |s.cpus| && CpuOk(Step(s, a), a.cpu)
  {
    QuietShape(s, a);
    hide IsTarget;
  }

  lemma ShootSelf(s: State, a: Action)
    requires a.cpu < |s.cpus| && CpuOk(s, a.cpu) && a.Go? && s.cpus[a.cpu].pc == Shoot
    ensures |Step(s, a).cpus| == |s.cpus| && CpuOk(Step(s, a), a.cpu)
  {
    QuietShape(s, a);
    var p := s.cpus[a.cpu];
    if p.k < |s.targets| {
      forall page: nat ensures IsTarget(s.targets, p.k + 1, page) <==>
          IsTarget(s.targets, p.k, page) || page == s.targets[p.k].page {
        OneMoreTarget(s.targets, p.k, page);
      }
    }
    hide IsTarget;
  }

  lemma CacheSelf(s: State, a: Action)
    requires a.cpu < |s.cpus| && CpuOk(s, a.cpu) && !a.Go?
    ensures |Step(s, a).cpus| == |s.cpus| && CpuOk(Step(s, a), a.cpu)
  {
    QuietShape(s, a);
    assert forall page :: MayBeOld(Step(s, a), a.cpu, page) == MayBeOld(s, a.cpu, page);
    hide IsTarget, MayBeOld;
  }

  // CPU 0's stores: nobody is past the first barrier, so every other CPU may still hold what is overwritten.
  lemma StoreOthers(s: State, a: Action, j: nat)
    requires Stores(s, a) && a.cpu == 0 && CpuOk(s, 0) && j < |s.cpus| && CpuOk(s, j)
    ensures |Step(s, a).cpus| == |s.cpus| && CpuOk(Step(s, a), j)
  {
    var k := s.cpus[0].k;
    assert Phase(s.cpus[0].pc) == 0;
    assert k < |s.targets| && s.targets[k].page == s.targets[k].page;
    assert IsTarget(s.targets, |s.targets|, s.targets[k].page);
    assert forall page | page != s.targets[k].page :: MayBeOld(Step(s, a), j, page) <== MayBeOld(s, j, page);
    hide IsTarget;
  }

  lemma TableStep(s: State, pt0: map<nat, Attr>, a: Action)
    requires TableOk(s, pt0) && a.cpu < |s.cpus| && CpuOk(s, a.cpu)
    ensures TableOk(Step(s, a), pt0)
  {
    hide MayBeOld, SameFrames, Fresh, IsTarget, SetPwt, SetPcd, AllReached;
  }

  lemma StepInv(s: State, pt0: map<nat, Attr>, a: Action)
    requires Inv(s, pt0)
    ensures Inv(Step(s, a), pt0) && |Step(s, a).cpus| == |s.cpus| && Step(s, a).targets == s.targets
  {
    hide TableOk, MayBeOld, SameFrames, Fresh, IsTarget, SetPwt, SetPcd, AllReached, Stores;
    if a.cpu < |s.cpus| {
      TableStep(s, pt0, a);
      assert CpuOk(s, a.cpu) && CpuOk(s, 0);
      if Stores(s, a) {
        StoresByZero(s, a);
        forall j: nat | j < |s.cpus| ensures |Step(s, a).cpus| == |s.cpus| && CpuOk(Step(s, a), j) {
          StoreOthers(s, a, j);
        }
      } else {
        QuietShape(s, a);
        if !a.Go? { CacheSelf(s, a); } else if s.cpus[a.cpu].pc == Shoot { ShootSelf(s, a); } else { GoSelf(s, a); }
        forall j: nat | j < |s.cpus| && j != a.cpu ensures CpuOk(Step(s, a), j) {
          QuietOthers(s, Step(s, a), a.cpu, j);
        }
      }
      hide CpuOk, Step;
    } else {
      assert Step(s, a) == s;
    }
  }

  lemma StoresByZero(s: State, a: Action)
    requires Stores(s, a) && CpuOk(s, a.cpu)
    ensures a.cpu == 0 && Step(s, a).targets == s.targets
  {
  }

  // At the start every TLB holds current translations.
  ghost predicate StartOk(pt: map<nat, Attr>, tlbs: seq<map<nat, Attr>>)
  {
    |tlbs| > 0 && forall i: nat, page | i < |tlbs| && page in tlbs[i] :: page in pt && tlbs[i][page] == pt[page]
  }

  lemma Reachable(targets: seq<Target>, pt: map<nat, Attr>, tlbs: seq<map<nat, Attr>>, schedule: seq<Action>)
    requires StartOk(pt, tlbs)
    ensures var s := Run(Step, Init(targets, pt, tlbs), schedule);
            Inv(s, pt) && |s.cpus| == |tlbs| && s.targets == targets
  {
    var s0 := Init(targets, pt, tlbs);
    forall i: nat | i < |s0.cpus| ensures CpuOk(s0, i) {
      assert s0.cpus[i].tlb == tlbs[i];
    }
    forall s, a | Inv(s, pt) && |s.cpus| == |tlbs| && s.targets == targets
      ensures Inv(Step(s, a), pt) && |Step(s, a).cpus| == |tlbs| && Step(s, a).targets == targets
    {
      StepInv(s, pt, a);
    }
    Invariance(Step, (s: State) => Inv(s, pt) && |s.cpus| == |tlbs| && s.targets == targets, s0, schedule);
  }

  // ---------------------------------------------------------------- what holds behind the second barrier

  // At any time, a CPU's cached translations lead to the frames they always led to. Once some CPU is behind the
  // second barrier, every CPU's cached translations are those of the updated page table.
  lemma NoStaleTranslation(targets: seq<Target>, pt: map<nat, Attr>, tlbs: seq<map<nat, Attr>>, schedule: seq<Action>,
          i: nat, page: nat)
    requires StartOk(pt, tlbs) && i < |tlbs|
    ensures var s := Run(Step, Init(targets, pt, tlbs), schedule);
            && |s.cpus| == |tlbs|
            && (page in s.cpus[i].tlb ==> page in pt && s.cpus[i].tlb[page].frame == pt[page].frame)
            && ((exists j: nat :: j < |tlbs| && s.cpus[j].pc == Done) ==>
                  s.pt == Updated(pt, targets, |targets|)
                      && (page in s.cpus[i].tlb ==> page in s.pt && s.cpus[i].tlb[page] == s.pt[page]))
  {
    Reachable(targets, pt, tlbs, schedule);
    var s := Run(Step, Init(targets, pt, tlbs), schedule);
    FramesStay(s, pt);
    assert CpuOk(s, i) && CpuOk(s, 0);
    if exists j: nat :: j < |tlbs| && s.cpus[j].pc == Done {
      var j: nat :| j < |tlbs| && s.cpus[j].pc == Done;
      assert CpuOk(s, j);
      assert Phase(s.cpus[i].pc) >= 5 && Phase(s.cpus[0].pc) >= 5;
      assert !MayBeOld(s, i, page);
    }
  }

  lemma FramesStay(s: State, pt0: map<nat, Attr>)
    requires TableOk(s, pt0)
    ensures s.pt.Keys == pt0.Keys && forall page | page in pt0 :: s.pt[page].frame == pt0[page].frame
  {
    UpdatedFrames(pt0, s.targets, s.cpus[0].k);
  }

  // At any time any CPU can come to hold the current entry of any page, or none, and holds the others as before.
  lemma CachesAtWill(s: State, i: nat, page: nat, other: nat)
    requires i < |s.cpus|
    ensures var t := Step(s, Evict(i, page)).cpus;
            |t| == |s.cpus| && page !in t[i].tlb && (other != page ==> (other in t[i].tlb <==> other in s.cpus[i].tlb))
    ensures var t := Step(s, Fill(i, page)).cpus;
            |t| == |s.cpus| && (page in s.pt ==> page in t[i].tlb && t[i].tlb[page] == s.pt[page])
                && (other != page ==> (other in t[i].tlb <==> other in s.cpus[i].tlb))
  {
  }

  // Until then a CPU can go on with an old translation that it loaded before the store.
  lemma StaleUntilShot(frame: nat)
    ensures var s0 := Init([Target(0, Caching(true, true))], map[0 := Attr(frame, false, false)], [map[], map[]]);
            var s := Run(Step, s0, [Fill(1, 0), Go(0)]);
            && |s.cpus| == 2 && 0 in s.pt && 0 in s.cpus[1].tlb
            && s.pt[0] == Attr(frame, true, false) && s.cpus[1].tlb[0] == Attr(frame, false, false)
  {
    var s0 := Init([Target(0, Caching(true, true))], map[0 := Attr(frame, false, false)], [map[], map[]]);
    var s1 := Step(s0, Fill(1, 0));
    RunCons(Step, s0, Fill(1, 0), [Go(0)]);
    RunCons(Step, s1, Go(0), []);
    assert [Fill(1, 0)] + [Go(0)] == [Fill(1, 0), Go(0)] && [Go(0)] + [] == [Go(0)];
  }

  // ---------------------------------------------------------------- every switch comes to its end

  // Steps of its own until the CPU is behind the second barrier.
  function ToGo(p: Cpu, n: nat): nat
  {
    var left := if p.k < n then n - p.k else 0;
    match p.pc
    case Pwt => 10 + n + 3 * left
    case Pcd => 9 + n + 3 * left
    case Inval => 8 + n + 3 * left
    case ArriveFirst => 9 + n
    case WaitFirst => 8 + n
    case Shoot => 4 + left
    case ArriveSecond => 2
    case WaitSecond => 1
    case Done => 0
  }

  function TotalToGo(cpus: seq<Cpu>, n: nat): nat
  {
    if cpus == [] then 0 else TotalToGo(cpus[..|cpus| - 1], n) + ToGo(cpus[|cpus| - 1], n)
  }

  lemma {:induction false} ToGoUpdate(cpus: seq<Cpu>, n: nat, i: nat, p: Cpu)
    requires i < |cpus|
    ensures TotalToGo(cpus[i := p], n) - TotalToGo(cpus, n) == ToGo(p, n) - ToGo(cpus[i], n)
  {
    hide ToGo;
    var less := cpus[..|cpus| - 1];
    if i < |less| {
      ToGoUpdate(less, n, i, p);
      assert cpus[i := p][..|cpus| - 1] == less[i := p];
    } else {
      assert cpus[i := p][..|cpus| - 1] == less;
    }
  }

  function AllToGo(s: State): nat
  {
    TotalToGo(s.cpus, |s.targets|)
  }

  lemma OneToGo(s: State, a: Action)
    requires a.cpu < |s.cpus| && CpuOk(s, a.cpu)
    ensures var s' := Step(s, a);
            && s'.targets == s.targets && |s'.cpus| == |s.cpus| && s'.cpus == s.cpus[a.cpu := s'.cpus[a.cpu]]
            && if a.Go? && s' != s then ToGo(s'.cpus[a.cpu], |s.targets|) < ToGo(s.cpus[a.cpu], |s.targets|)
               else ToGo(s'.cpus[a.cpu], |s.targets|) == ToGo(s.cpus[a.cpu], |s.targets|)
  {
    hide MayBeOld, SameFrames, Fresh, IsTarget, SetPwt, SetPcd, AllReached;
    assert s.cpus == s.cpus[a.cpu := s.cpus[a.cpu]];
  }

  // The CPUs' own steps bring the end nearer, and caching leaves it where it is.
  lemma StepToGo(s: State, pt0: map<nat, Attr>, a: Action)
    requires Inv(s, pt0)
    ensures if a.Go? && Step(s, a) != s then AllToGo(Step(s, a)) < AllToGo(s) else AllToGo(Step(s, a)) == AllToGo(s)
  {
    if a.cpu < |s.cpus| {
      OneToGo(s, a);
      ToGoUpdate(s.cpus, |s.targets|, a.cpu, Step(s, a).cpus[a.cpu]);
    } else {
      assert Step(s, a) == s;
    }
  }

  // How many of the CPUs' own steps did something.
  function Moves(s: State, schedule: seq<Action>): nat
    decreases |schedule|
  {
    if schedule == [] then 0 else
    (if schedule[0].Go? && Step(s, schedule[0]) != s then 1 else 0) + Moves(Step(s, schedule[0]), schedule[1..])
  }

  lemma {:induction false} MovesBound(s: State, pt0: map<nat, Attr>, schedule: seq<Action>)
    requires Inv(s, pt0)
    ensures Moves(s, schedule) + AllToGo(Run(Step, s, schedule)) <= AllToGo(s)
    decreases |schedule|
  {
    hide Inv, Step, AllToGo;
    if schedule != [] {
      StepToGo(s, pt0, schedule[0]);
      StepInv(s, pt0, schedule[0]);
      MovesBound(Step(s, schedule[0]), pt0, schedule[1..]);
    }
  }

  predicate AllDone(s: State)
  {
    forall i: nat | i < |s.cpus| :: s.cpus[i].pc == Done
  }

  predicate CanGo(s: State, i: nat)
  {
    i < |s.cpus| && Step(s, Go(i)) != s
  }

  lemma GoesUnlessWaiting(s: State, i: nat)
    requires i < |s.cpus| && CpuOk(s, i)
    ensures s.cpus[i].pc !in {WaitFirst, WaitSecond, Done} ==> CanGo(s, i)
    ensures s.cpus[i].pc == WaitFirst && AllReached(s.cpus, 2) ==> CanGo(s, i)
    ensures s.cpus[i].pc == WaitSecond && AllReached(s.cpus, 5) ==> CanGo(s, i)
  {
    hide MayBeOld, SameFrames, Fresh, IsTarget, SetPwt, SetPcd, AllReached;
    var s' := Step(s, Go(i));
    assert s'.cpus != [] ==> s' == s || s'.cpus[i].pc != s.cpus[i].pc || s'.cpus[i].k != s.cpus[i].k;
  }

  lemma SomeoneGoes(s: State, pt0: map<nat, Attr>) returns (i: nat)
    requires Inv(s, pt0) && !AllDone(s)
    ensures CanGo(s, i)
  {
    hide TableOk, CpuOk, CanGo;
    forall j: nat | j < |s.cpus|
      ensures s.cpus[j].pc !in {WaitFirst, WaitSecond, Done} ==> CanGo(s, j)
      ensures s.cpus[j].pc == WaitFirst && AllReached(s.cpus, 2) ==> CanGo(s, j)
      ensures s.cpus[j].pc == WaitSecond && AllReached(s.cpus, 5) ==> CanGo(s, j)
    {
      GoesUnlessWaiting(s, j);
    }
    if j: nat :| j < |s.cpus| && s.cpus[j].pc !in {WaitFirst, WaitSecond, Done} {
      i := j;
    } else if j: nat :| j < |s.cpus| && s.cpus[j].pc == WaitFirst {
      i := j;
    } else {
      i :| i < |s.cpus| && s.cpus[i].pc != Done;
    }
  }

  lemma {:induction false} BringToEnd(s: State, pt0: map<nat, Attr>) returns (more: seq<Action>)
    requires Inv(s, pt0)
    ensures AllDone(Run(Step, s, more))
    decreases AllToGo(s)
  {
    hide Inv, AllDone, Step, AllToGo;
    if AllDone(s) {
      more := [];
    } else {
      var i := SomeoneGoes(s, pt0);
      StepInv(s, pt0, Go(i));
      StepToGo(s, pt0, Go(i));
      var rest := BringToEnd(Step(s, Go(i)), pt0);
      more := [Go(i)] + rest;
      RunCons(Step, s, Go(i), rest);
    }
  }

  // Whatever is cached or dropped meanwhile: the CPUs' own steps are bounded, a state in which none of them can do
  // anything is the end, and from everywhere all CPUs can still get behind the second barrier.
  lemma SwitchCompletes(targets: seq<Target>, pt: map<nat, Attr>, tlbs: seq<map<nat, Attr>>, schedule: seq<Action>)
    requires StartOk(pt, tlbs)
    ensures var s0 := Init(targets, pt, tlbs);
            && Moves(s0, schedule) <= AllToGo(s0)
            && ((forall i: nat :: !CanGo(Run(Step, s0, schedule), i)) ==> AllDone(Run(Step, s0, schedule)))
            && exists more :: AllDone(Run(Step, s0, schedule + more))
  {
    hide Inv, AllDone, Step, AllToGo, CanGo, Init;
    var s0 := Init(targets, pt, tlbs);
    Reachable(targets, pt, tlbs, []);
    Reachable(targets, pt, tlbs, schedule);
    var s := Run(Step, s0, schedule);
    MovesBound(s0, pt, schedule);
    if !AllDone(s) { var i := SomeoneGoes(s, pt); }
    var more := BringToEnd(s, pt);
    RunConcat(Step, s0, schedule, more);
  }

  // ---------------------------------------------------------------- a buffer

  // The pages that heap_reconfig(adr, size, flags) visits, in turn.
  function Targets(lay: Layout, adr: nat, size: nat, c: Caching): seq<Target>
  {
    seq(VisitedCount(lay, adr, size), i requires i >= 0 => Target(adr / 4096 + i, c))
  }

  lemma {:induction false} UpdatedKeeps(pt: map<nat, Attr>, targets: seq<Target>, n: nat, page: nat, c: Caching)
    requires n <= |targets| && page in pt
    requires forall k: nat | k < n && targets[k].page == page :: targets[k].c == c
    ensures page in Updated(pt, targets, n)
    ensures IsTarget(targets, n, page) || (pt[page].pwt == c.writeThrough && pt[page].pcd == c.disabled) ==>
              Updated(pt, targets, n)[page] == Attr(pt[page].frame, c.writeThrough, c.disabled)
  {
    if n > 0 {
      UpdatedFrames(pt, targets, n - 1);
      UpdatedKeeps(pt, targets, n - 1, page, c);
      OneMoreTarget(targets, n - 1, page);
    }
  }

  // Two page-aligned, mapped buffers in different pages, as p_buffer and p_contender: behind the second barrier no
  // CPU has a byte of either cached under anything but the caching just requested for it.
  lemma BuffersSwitched(lay: Layout, adr: nat, size: nat, c: Caching, adr2: nat, size2: nat, c2: Caching,
          pt: map<nat, Attr>, tlbs: seq<map<nat, Attr>>, schedule: seq<Action>, i: nat, b: nat)
    requires StartOk(pt, tlbs) && i < |tlbs|
    requires Apart(lay, adr, size, adr2, size2)
    requires b / 4096 in pt && (adr <= b < adr + size || adr2 <= b < adr2 + size2)
    ensures var s := Run(Step, Init(Targets(lay, adr, size, c) + Targets(lay, adr2, size2, c2), pt, tlbs), schedule);
            var asked := if b < adr2 then c else c2;
            && |s.cpus| == |tlbs|
            && ((exists j: nat :: j < |tlbs| && s.cpus[j].pc == Done) && b / 4096 in s.cpus[i].tlb ==>
                  s.cpus[i].tlb[b / 4096] == Attr(pt[b / 4096].frame, asked.writeThrough, asked.disabled))
  {
    hide Run, Step, RoundUp, VisitedCount;
    var targets := Targets(lay, adr, size, c) + Targets(lay, adr2, size2, c2);
    NoStaleTranslation(targets, pt, tlbs, schedule, i, b / 4096);
    ByteIsTarget(lay, adr, size, c, adr2, size2, c2, b);
    UpdatedKeeps(pt, targets, |targets|, b / 4096, if b < adr2 then c else c2);
  }

  // Page-aligned buffers, one behind the other and before the last page of the address space.
  predicate Apart(lay: Layout, adr: nat, size: nat, adr2: nat, size2: nat)
  {
    && adr % 4096 == 0 && adr2 % 4096 == 0
    && adr + RoundUp(size) <= adr2 && adr2 + RoundUp(size2) < lay.AdrLimit()
  }

  lemma PagesOfBuffer(lay: Layout, adr: nat, size: nat, b: nat)
    requires adr % 4096 == 0 && adr + RoundUp(size) < lay.AdrLimit()
    ensures VisitedCount(lay, adr, size) == RoundUp(size) / 4096
    ensures adr <= b < adr + size ==> adr / 4096 <= b / 4096 < adr / 4096 + VisitedCount(lay, adr, size)
  {
    VisitedBelowLimit(lay, adr, size);
  }

  lemma ByteIsTarget(lay: Layout, adr: nat, size: nat, c: Caching, adr2: nat, size2: nat, c2: Caching, b: nat)
    requires Apart(lay, adr, size, adr2, size2) && (adr <= b < adr + size || adr2 <= b < adr2 + size2)
    ensures var targets := Targets(lay, adr, size, c) + Targets(lay, adr2, size2, c2);
            && IsTarget(targets, |targets|, b / 4096)
            && forall k: nat | k < |targets| && targets[k].page == b / 4096 ::
                 targets[k].c == if b < adr2 then c else c2
  {
    var targets := Targets(lay, adr, size, c) + Targets(lay, adr2, size2, c2);
    PagesOfBuffer(lay, adr, size, b);
    PagesOfBuffer(lay, adr2, size2, b);
    var n := VisitedCount(lay, adr, size);
    assert adr / 4096 + n <= adr2 / 4096;
    assert b < adr2 <==> b / 4096 < adr2 / 4096;
    hide VisitedCount, RoundUp;
    forall k: nat | k < |targets|
      ensures targets[k] == if k < n then Target(adr / 4096 + k, c) else Target(adr2 / 4096 + (k - n), c2)
    {
    }
    if b < adr2 {
      assert targets[b / 4096 - adr / 4096].page == b / 4096;
    } else {
      assert targets[n + b / 4096 - adr2 / 4096].page == b / 4096;
    }
  }

  // ---------------------------------------------------------------- the same as in the heap

  function CachingOf(pt: map<nat, Attr>): map<nat, Caching>
  {
    map page | page in pt :: Caching(pt[page].pwt, pt[page].pcd)
  }

  lemma OneUpdated(pt: map<nat, Attr>, t: Target)
    ensures CachingOf(SetPcd(SetPwt(pt, t), t)) == if t.page in pt then CachingOf(pt)[t.page := t.c] else CachingOf(pt)
  {
  }

  // What the stores of CPU 0 make of the page table is what Heap.HeapReconfig promises, page by page.
  lemma {:induction false} UpdatedAsRecached(lay: Layout, pt: map<nat, Attr>, adr: nat, size: nat, c: Caching, n: nat)
    requires n <= VisitedCount(lay, adr, size) && adr / 4096 + n <= lay.PageCount()
    ensures CachingOf(Updated(pt, Targets(lay, adr, size, c), n)) == Recached(lay, CachingOf(pt), adr / 4096, n, c)
    ensures Updated(pt, Targets(lay, adr, size, c), n).Keys == pt.Keys
    decreases n
  {
    hide VisitedCount, Recached, Layout.PageCount, SetPwt, SetPcd, CachingOf;
    if n == 0 {
      NoneRecached(lay, CachingOf(pt), adr / 4096, c);
    } else {
      UpdatedAsRecached(lay, pt, adr, size, c, n - 1);
      var targets := Targets(lay, adr, size, c);
      assert targets[n - 1] == Target(adr / 4096 + n - 1, c);
      SetKeys(Updated(pt, targets, n - 1), targets[n - 1]);
      OneUpdated(Updated(pt, targets, n - 1), targets[n - 1]);
      OneMoreRecached(lay, CachingOf(pt), adr / 4096, n - 1, c);
      PathWraps(lay, 0);
      OneRecached(lay, Recached(lay, CachingOf(pt), adr / 4096, n - 1, c), adr / 4096 + n - 1, c);
    }
  }

  lemma SetKeys(pt: map<nat, Attr>, t: Target)
    ensures SetPcd(SetPwt(pt, t), t).Keys == pt.Keys && CachingOf(pt).Keys == pt.Keys
  {
  }
}
