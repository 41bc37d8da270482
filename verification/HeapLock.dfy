// pt_mutex around heap_alloc(), heap_reconfig() and virt_to_phys() (mm.c:455, mm.c:596, mm.c:622-775): it starts
// locked, mm_init() unlocks it when the bitmap is built, and every CPU calls as often as it likes. Whatever the
// interleaving, the calls have the effect of serving their requests one after the other, in the order of the lock.
module HeapLock {
  import opened Machine
  import opened AddressSpace
  import opened Heap

  datatype Pc =
    | Build       // CPU 0 in mm_init(), before the bitmap is complete
    | Release     // mm.c:596
    | Idle        // between calls
    | Lock        // mutex_lock(&pt_mutex) (mm.c:632, mm.c:665, mm.c:688)
    | Base        // heap_alloc(): about to load next_virt_page for the result (mm.c:634)
    | Head        // loop head (mm.c:635, mm.c:666)
    | Body        // get_free_frame() and map_frame_to_adr() (mm.c:636-637), or reconf_adr() (mm.c:667)
    | Load        // next_virt_page++ (mm.c:638): load
    | Store       //                              store
    | Unlock      // mm.c:642, mm.c:669, mm.c:772
    | Stopped     // out of memory: halted for ever (mm.c:146-148, mm.c:159-161)

  // i pages of the request are done; t is the loaded next_virt_page.
  datatype Cpu = Cpu(pc: Pc, ask: Request, i: nat, base: nat, t: nat)

  // A finished call; base is the first page of an allocation.
  datatype Grant = Grant(cpu: nat, ask: Request, base: nat)

  datatype State = State(lay: Layout, free: bool, built: bool, next: nat, caching: map<nat, Caching>, cpus: seq<Cpu>,
                         grants: seq<Grant>)

  // What a scheduled CPU asks for if it starts a call, and whether memory runs out if it needs a frame.
  datatype Action = Action(cpu: nat, ask: Request, oom: bool)

  // locked tells how pt_mutex is initialised.
  function Init(lay: Layout, n: nat, locked: bool): State
  {
    State(lay, !locked, false, HEAP_START, map[],
        seq(n, i => Cpu(if i == 0 then Build else Idle, Lookup(0), 0, 0, 0)), [])
  }

  // How often the loop of a call runs.
  function Turns(lay: Layout, ask: Request): nat
  {
    match ask
    case Alloc(pages, _) => pages
    case Reconfigure(adr, size, _) => VisitedCount(lay, adr, size)
    case Lookup(_) => 0
  }

  function Step(s: State, a: Action): State
  {
    if a.cpu >= |s.cpus| then s else
    var i, p := a.cpu, s.cpus[a.cpu];
    match p.pc
    case Build => s.(built := true, cpus := s.cpus[i := p.(pc := Release)])
    case Release => s.(free := true, cpus := s.cpus[i := p.(pc := Idle)])
    case Idle => s.(cpus := s.cpus[i := p.(pc := Lock, ask := a.ask)])
    case Lock =>
      if s.free then s.(free := false, cpus := s.cpus[i := p.(pc := if p.ask.Alloc? then Base else Head, i := 0)])
      else s
    case Base => s.(cpus := s.cpus[i := p.(pc := Head, base := s.next)])
    case Head => s.(cpus := s.cpus[i := p.(pc := if p.i < Turns(s.lay, p.ask) then Body else Unlock)])
    case Body => DoPage(s, i, p, a.oom)
    case Load => s.(cpus := s.cpus[i := p.(pc := Store, t := s.next)])
    case Store => s.(next := p.t + 1, cpus := s.cpus[i := p.(pc := Head, i := p.i + 1)])
    case Unlock => s.(free := true, grants := s.grants + [Grant(i, p.ask, p.base)], cpus := s.cpus[i := p.(pc := Idle)])
    case Stopped => s
  }

  function DoPage(s: State, i: nat, p: Cpu, oom: bool): State
    requires i < |s.cpus|
  {
    match p.ask
    case Alloc(_, flags) =>
      if oom then s.(cpus := s.cpus[i := p.(pc := Stopped)])
      else s.(caching := s.caching[s.next := Requested(flags)], cpus := s.cpus[i := p.(pc := Load)])
    case Reconfigure(adr, _, flags) =>
      s.(caching := Recached(s.lay, s.caching, adr / 4096 + p.i, 1, Requested(flags)),
         cpus := s.cpus[i := p.(pc := Head, i := p.i + 1)])
    case Lookup(_) => s
  }

  predicate Inside(pc: Pc)
  {
    pc != Build && pc != Release && pc != Idle && pc != Lock
  }

  predicate Holds(pc: Pc)
  {
    pc != Idle && pc != Lock
  }

  // ---------------------------------------------------------------- the calls, one after the other

  function Requests(grants: seq<Grant>): (r: seq<Request>)
    ensures |r| == |grants|
  {
    seq(|grants|, k requires 0 <= k < |grants| => grants[k].ask)
  }

  // The next page and the caching once the finished calls have been served.
  function Served(lay: Layout, grants: seq<Grant>): (nat, map<nat, Caching>)
  {
    After(lay, HEAP_START, map[], Requests(grants))
  }

  // Once i turns of another one have been.
  function Partly(lay: Layout, before: (nat, map<nat, Caching>), ask: Request, i: nat): (nat, map<nat, Caching>)
  {
    var (n, m) := before;
    match ask
    case Alloc(_, flags) => (n + i, Granted(m, n, i, Requested(flags)))
    case Reconfigure(adr, _, flags) => (n, Recached(lay, m, adr / 4096, i, Requested(flags)))
    case Lookup(_) => (n, m)
  }

  lemma ServedSnoc(lay: Layout, grants: seq<Grant>, g: Grant)
    ensures Served(lay, grants + [g]) == Partly(lay, Served(lay, grants), g.ask, Turns(lay, g.ask))
  {
    hide Granted, Recached, VisitedCount;
    var all := Requests(grants + [g]);
    assert all[..|all| - 1] == Requests(grants) && all[|all| - 1] == g.ask;
  }

  lemma OneMoreTurn(lay: Layout, before: (nat, map<nat, Caching>), ask: Request, i: nat)
    ensures var (n, m) := Partly(lay, before, ask, i);
            Partly(lay, before, ask, i + 1) ==
              match ask
              case Alloc(_, flags) => (n + 1, m[n := Requested(flags)])
              case Reconfigure(adr, _, flags) => (n, Recached(lay, m, adr / 4096 + i, 1, Requested(flags)))
              case Lookup(_) => (n, m)
  {
    if ask.Reconfigure? { OneMoreRecached(lay, before.1, ask.adr / 4096, i, Requested(ask.flags)); }
  }

  lemma NoTurn(lay: Layout, before: (nat, map<nat, Caching>), ask: Request)
    ensures Partly(lay, before, ask, 0) == before
  {
  }

  // ---------------------------------------------------------------- the invariant

  // What the holder of the mutex has done of its request, from where the finished calls have left the heap.
  predicate HolderOk(s: State, p: Cpu)
  {
    var before := Served(s.lay, s.grants);
    match p.pc
    case Idle => true
    case Lock => true
    case Build => (s.next, s.caching) == before
    case Release => (s.next, s.caching) == before
    case Base => (s.next, s.caching) == before && p.i == 0 && p.ask.Alloc?
    case _ =>
      && p.i <= Turns(s.lay, p.ask)
      && (p.ask.Alloc? ==> p.base == before.0)
      && (p.pc in {Body, Load, Store, Stopped} ==> p.i < Turns(s.lay, p.ask))
      && (p.pc in {Load, Store, Stopped} ==> p.ask.Alloc?)
      && (p.pc == Unlock ==> p.i == Turns(s.lay, p.ask))
      && s.next == Partly(s.lay, before, p.ask, p.i).0
      && s.caching == Partly(s.lay, before, p.ask, if p.pc == Load || p.pc == Store then p.i + 1 else p.i).1
      && (p.pc == Store ==> p.t == s.next)
  }

  predicate CpuOk(s: State, p: Cpu)
  {
    && (p.pc == Build <==> !s.built && Holds(p.pc))
    && (Holds(p.pc) ==> !s.free)
    && HolderOk(s, p)
  }

  // Each allocation starts where the calls before it have left the next page.
  ghost predicate Serial(lay: Layout, grants: seq<Grant>)
  {
    forall k: nat | k < |grants| && grants[k].ask.Alloc? :: grants[k].base == Served(lay, grants[..k]).0
  }

  ghost predicate Inv(s: State)
  {
    && (forall i: nat | i < |s.cpus| :: CpuOk(s, s.cpus[i]))
    && (forall i: nat, j: nat | i < |s.cpus| && j < |s.cpus| && Holds(s.cpus[i].pc) && Holds(s.cpus[j].pc) :: i == j)
    && (s.free ==> s.built && (s.next, s.caching) == Served(s.lay, s.grants))
    && (!s.free && |s.cpus| > 0 ==> exists i: nat :: i < |s.cpus| && Holds(s.cpus[i].pc))
    && Serial(s.lay, s.grants)
  }

  lemma SerialSnoc(lay: Layout, grants: seq<Grant>, g: Grant)
    requires Serial(lay, grants) && (g.ask.Alloc? ==> g.base == Served(lay, grants).0)
    ensures Serial(lay, grants + [g])
  {
    hide Served;
    assert forall k: nat | k <= |grants| :: (grants + [g])[..k] == grants[..k];
    assert grants[..|grants|] == grants;
  }

  lemma StepSelf(s: State, a: Action)
    requires a.cpu < |s.cpus| && CpuOk(s, s.cpus[a.cpu])
    requires s.free ==> s.built && (s.next, s.caching) == Served(s.lay, s.grants)
    ensures |Step(s, a).cpus| == |s.cpus| && CpuOk(Step(s, a), Step(s, a).cpus[a.cpu])
  {
    if s.cpus[a.cpu].pc == Body {
      PageSelf(s, a);
    } else if s.cpus[a.cpu].pc in {Head, Load, Store, Unlock} {
      TurnSelf(s, a);
    } else {
      EntrySelf(s, a);
    }
  }

  lemma EntrySelf(s: State, a: Action)
    requires a.cpu < |s.cpus| && CpuOk(s, s.cpus[a.cpu]) && s.cpus[a.cpu].pc !in {Head, Body, Load, Store, Unlock}
    requires s.free ==> s.built && (s.next, s.caching) == Served(s.lay, s.grants)
    ensures |Step(s, a).cpus| == |s.cpus| && CpuOk(Step(s, a), Step(s, a).cpus[a.cpu])
  {
    hide Served, Partly, Turns, DoPage;
    NoTurn(s.lay, Served(s.lay, s.grants), s.cpus[a.cpu].ask);
  }

  lemma TurnSelf(s: State, a: Action)
    requires a.cpu < |s.cpus| && CpuOk(s, s.cpus[a.cpu]) && s.cpus[a.cpu].pc in {Head, Load, Store, Unlock}
    ensures |Step(s, a).cpus| == |s.cpus| && CpuOk(Step(s, a), Step(s, a).cpus[a.cpu])
  {
    hide Served, Partly, Turns, DoPage;
    var p := s.cpus[a.cpu];
    OneMoreTurn(s.lay, Served(s.lay, s.grants), p.ask, p.i);
  }

  lemma PageSelf(s: State, a: Action)
    requires a.cpu < |s.cpus| && CpuOk(s, s.cpus[a.cpu]) && s.cpus[a.cpu].pc == Body
    ensures |Step(s, a).cpus| == |s.cpus| && CpuOk(Step(s, a), Step(s, a).cpus[a.cpu])
  {
    hide Served, Partly, Turns, Recached;
    var p := s.cpus[a.cpu];
    OneMoreTurn(s.lay, Served(s.lay, s.grants), p.ask, p.i);
    TurnsBelow(s.lay, p.ask);
  }

  lemma TurnsBelow(lay: Layout, ask: Request)
    ensures ask.Lookup? ==> Turns(lay, ask) == 0
  {
  }

  lemma StepShared(s: State, a: Action)
    requires a.cpu < |s.cpus| && CpuOk(s, s.cpus[a.cpu]) && Serial(s.lay, s.grants)
    requires s.free ==> s.built && (s.next, s.caching) == Served(s.lay, s.grants)
    ensures var s' := Step(s, a);
            && s'.lay == s.lay && Serial(s'.lay, s'.grants)
            && (s'.free ==> s'.built && (s'.next, s'.caching) == Served(s'.lay, s'.grants))
            && (Holds(s'.cpus[a.cpu].pc) ==> Holds(s.cpus[a.cpu].pc) || s.free)
            && (!s'.free ==> Holds(s'.cpus[a.cpu].pc) || (!s.free && !Holds(s.cpus[a.cpu].pc)))
  {
    hide Serial, Served, Partly, Turns, Recached;
    var p := s.cpus[a.cpu];
    if p.pc == Unlock {
      SerialSnoc(s.lay, s.grants, Grant(a.cpu, p.ask, p.base));
      ServedSnoc(s.lay, s.grants, Grant(a.cpu, p.ask, p.base));
    }
  }

  // The holder of the mutex keeps the others from all that CpuOk says.
  lemma StepOther(s: State, a: Action, j: nat)
    requires a.cpu < |s.cpus| && j < |s.cpus| && j != a.cpu && CpuOk(s, s.cpus[a.cpu]) && CpuOk(s, s.cpus[j])
    requires !(Holds(s.cpus[a.cpu].pc) && Holds(s.cpus[j].pc))
    ensures |Step(s, a).cpus| == |s.cpus| && Step(s, a).cpus[j] == s.cpus[j] && CpuOk(Step(s, a), s.cpus[j])
  {
    hide Served, Partly, Turns, Recached;
  }

  lemma StepInv(s: State, a: Action)
    requires Inv(s)
    ensures Inv(Step(s, a)) && |Step(s, a).cpus| == |s.cpus| && Step(s, a).lay == s.lay
  {
    hide Step, HolderOk, Serial, Served, Partly, Turns;
    if a.cpu < |s.cpus| {
      assert forall j: nat | j < |s.cpus| :: CpuOk(s, s.cpus[j]);
      StepSelf(s, a);
      StepShared(s, a);
      FreeMeansUnheld(s);
      forall j: nat | j < |s.cpus| && j != a.cpu ensures Step(s, a).cpus[j] == s.cpus[j]
          && CpuOk(Step(s, a), s.cpus[j]) {
        StepOther(s, a, j);
      }
      hide CpuOk;
    } else {
      NobodySteps(s, a);
    }
  }

  lemma NobodySteps(s: State, a: Action)
    requires a.cpu >= |s.cpus|
    ensures Step(s, a) == s
  {
  }

  lemma FreeMeansUnheld(s: State)
    requires Inv(s)
    ensures s.free ==> forall j: nat | j < |s.cpus| :: !Holds(s.cpus[j].pc)
  {
    hide Serial, Served, HolderOk;
    assert forall j: nat | j < |s.cpus| :: CpuOk(s, s.cpus[j]);
  }

  lemma Reachable(lay: Layout, n: nat, schedule: seq<Action>)
    requires n > 0
    ensures var s := Run(Step, Init(lay, n, true), schedule); Inv(s) && |s.cpus| == n && s.lay == lay
  {
    assert Holds(Init(lay, n, true).cpus[0].pc);
    hide Step, Run;
    forall s, a | Inv(s) && |s.cpus| == n && s.lay == lay
      ensures Inv(Step(s, a)) && |Step(s, a).cpus| == n && Step(s, a).lay == lay
    {
      StepInv(s, a);
    }
    Invariance(Step, (s: State) => Inv(s) && |s.cpus| == n && s.lay == lay, Init(lay, n, true), schedule);
  }

  // ---------------------------------------------------------------- what a caller may rely on

  // Nobody works on the page tables or the bitmap before mm_init() has built the bitmap.
  ghost predicate NobodyEarly(s: State)
  {
    forall i: nat | i < |s.cpus| && Inside(s.cpus[i].pc) :: s.built
  }

  function Pages(g: Grant): nat
  {
    if g.ask.Alloc? then g.ask.pages else 0
  }

  // One caller works at a time; the pages of finished allocations are disjoint, and the page that a caller maps is
  // beyond them.
  ghost predicate Exclusive(s: State)
  {
    && (forall i: nat, j: nat | i < |s.cpus| && j < |s.cpus| && Inside(s.cpus[i].pc) && Inside(s.cpus[j].pc) :: i == j)
    && (forall k: nat, m: nat | k < m < |s.grants| && s.grants[k].ask.Alloc? && s.grants[m].ask.Alloc? ::
          HEAP_START <= s.grants[k].base && s.grants[k].base + Pages(s.grants[k]) <= s.grants[m].base)
    && (forall i: nat, k: nat | i < |s.cpus| && s.cpus[i].pc == Body && s.cpus[i].ask.Alloc? && k < |s.grants|
                                && s.grants[k].ask.Alloc? ::
          s.grants[k].base + Pages(s.grants[k]) <= s.cpus[i].base <= s.next == s.cpus[i].base + s.cpus[i].i)
  }

  lemma {:induction false} ServedGrows(lay: Layout, grants: seq<Grant>, k: nat)
    requires k < |grants|
    ensures HEAP_START <= Served(lay, grants[..k]).0
    ensures Served(lay, grants[..k]).0 + Pages(grants[k]) <= Served(lay, grants).0
  {
    hide Served;
    var less, g := grants[..|grants| - 1], grants[|grants| - 1];
    assert grants == less + [g];
    ServedSnoc(lay, less, g);
    if k < |less| {
      assert grants[..k] == less[..k];
      ServedGrows(lay, less, k);
    } else {
      NeverBelow(lay, less);
    }
  }

  lemma {:induction false} NeverBelow(lay: Layout, grants: seq<Grant>)
    ensures HEAP_START <= Served(lay, grants).0
  {
    if grants != [] {
      var less, g := grants[..|grants| - 1], grants[|grants| - 1];
      assert grants == less + [g];
      NeverBelow(lay, less);
      ServedSnoc(lay, less, g);
      hide Served;
    }
  }

  lemma GrantsApart(lay: Layout, grants: seq<Grant>, k: nat, m: nat)
    requires Serial(lay, grants) && k < m < |grants| && grants[k].ask.Alloc? && grants[m].ask.Alloc?
    ensures HEAP_START <= grants[k].base && grants[k].base + Pages(grants[k]) <= grants[m].base
  {
    hide Served;
    assert grants[..m][..k] == grants[..k];
    ServedGrows(lay, grants[..m], k);
  }

  // In every interleaving of any number of calls.
  lemma CallsAreSerial(lay: Layout, n: nat, schedule: seq<Action>)
    requires n > 0
    ensures NobodyEarly(Run(Step, Init(lay, n, true), schedule)) && Exclusive(Run(Step, Init(lay, n, true), schedule))
  {
    hide Run, Step, Served, Serial;
    Reachable(lay, n, schedule);
    var s := Run(Step, Init(lay, n, true), schedule);
    forall i: nat | i < |s.cpus| && Inside(s.cpus[i].pc) ensures s.built {
      assert CpuOk(s, s.cpus[i]);
    }
    forall k: nat, m: nat | k < m < |s.grants| && s.grants[k].ask.Alloc? && s.grants[m].ask.Alloc?
      ensures HEAP_START <= s.grants[k].base && s.grants[k].base + Pages(s.grants[k]) <= s.grants[m].base
    {
      GrantsApart(s.lay, s.grants, k, m);
    }
    forall i: nat, k: nat | i < |s.cpus| && s.cpus[i].pc == Body && s.cpus[i].ask.Alloc? && k < |s.grants|
                            && s.grants[k].ask.Alloc?
      ensures s.grants[k].base + Pages(s.grants[k]) <= s.cpus[i].base <= s.next == s.cpus[i].base + s.cpus[i].i
    {
      assert CpuOk(s, s.cpus[i]);
      GrantBelow(s.lay, s.grants, k);
    }
  }

  lemma GrantBelow(lay: Layout, grants: seq<Grant>, k: nat)
    requires Serial(lay, grants) && k < |grants| && grants[k].ask.Alloc?
    ensures grants[k].base + Pages(grants[k]) <= Served(lay, grants).0
  {
    hide Served;
    ServedGrows(lay, grants, k);
  }

  // The heap is where serving the finished calls one after the other, in the order in which they had the mutex, and
  // part of the call that has it now would have left it; and each allocation returned what it would have returned.
  ghost predicate AsServed(s: State)
  {
    var requests := Requests(s.grants);
    && (forall k: nat | k < |s.grants| && s.grants[k].ask.Alloc? ::
          s.grants[k].base == After(s.lay, HEAP_START, map[], requests[..k]).0)
    && (s.free ==> (s.next, s.caching) == After(s.lay, HEAP_START, map[], requests))
    && (forall i: nat | i < |s.cpus| && s.cpus[i].pc == Head ::
          (s.next, s.caching) == Partly(s.lay, After(s.lay, HEAP_START, map[], requests), s.cpus[i].ask, s.cpus[i].i))
  }

  // In every interleaving of allocations, reconfigurations and lookups by any number of CPUs.
  lemma CallsAreServed(lay: Layout, n: nat, schedule: seq<Action>)
    requires n > 0
    ensures AsServed(Run(Step, Init(lay, n, true), schedule))
  {
    hide Run, Step, After;
    Reachable(lay, n, schedule);
    var s := Run(Step, Init(lay, n, true), schedule);
    forall k: nat | k < |s.grants| && s.grants[k].ask.Alloc?
      ensures s.grants[k].base == After(s.lay, HEAP_START, map[], Requests(s.grants)[..k]).0
    {
      assert Requests(s.grants)[..k] == Requests(s.grants[..k]);
    }
    forall i: nat | i < |s.cpus| && s.cpus[i].pc == Head
      ensures (s.next, s.caching) == Partly(s.lay, Served(s.lay, s.grants), s.cpus[i].ask, s.cpus[i].i)
    {
      assert CpuOk(s, s.cpus[i]);
    }
  }

  // ---------------------------------------------------------------- every call comes to its end

  predicate InCall(pc: Pc)
  {
    pc == Lock || Inside(pc)
  }

  // Steps of its own until the CPU is between calls.
  function ToGo(lay: Layout, p: Cpu): nat
  {
    var left := if p.i < Turns(lay, p.ask) then Turns(lay, p.ask) - p.i else 0;
    match p.pc
    case Build => 2
    case Release => 1
    case Idle => 0
    case Lock => 4 + 4 * Turns(lay, p.ask)
    case Base => 3 + 4 * Turns(lay, p.ask)
    case Head => 2 + 4 * left
    case Body => 1 + 4 * left
    case Load => 4 * left
    case Store => if left > 0 then 4 * left - 1 else 0
    case Unlock => 1
    case Stopped => 0
  }

  lemma HolderTurns(s: State, p: Cpu)
    requires CpuOk(s, p)
    ensures p.pc in {Body, Load, Store, Stopped} ==> p.i < Turns(s.lay, p.ask)
    ensures p.pc in {Load, Store, Stopped} ==> p.ask.Alloc?
    ensures p.pc == Base ==> p.i == 0
  {
    hide Served, Partly, Turns;
  }

  // A step of its own brings a CPU nearer to the end of its call, and nothing but a taken mutex keeps it from one.
  lemma OwnStep(s: State, a: Action)
    requires a.cpu < |s.cpus| && CpuOk(s, s.cpus[a.cpu]) && s.cpus[a.cpu].pc != Idle
    ensures var p, s' := s.cpus[a.cpu], Step(s, a);
            && |s'.cpus| == |s.cpus| && s'.cpus == s.cpus[a.cpu := s'.cpus[a.cpu]] && s'.cpus[a.cpu].ask == p.ask
            && (s' == s <==> p.pc == Stopped || (p.pc == Lock && !s.free))
            && (s' != s ==> ToGo(s.lay, s'.cpus[a.cpu]) < ToGo(s.lay, p))
  {
    HolderTurns(s, s.cpus[a.cpu]);
    TurnsBelow(s.lay, s.cpus[a.cpu].ask);
    hide CpuOk, HolderOk, Recached, Turns;
  }

  // Where it leads.
  lemma OwnPlace(s: State, a: Action)
    requires a.cpu < |s.cpus| && CpuOk(s, s.cpus[a.cpu]) && Holds(s.cpus[a.cpu].pc) && s.cpus[a.cpu].pc != Stopped
    requires !a.oom
    ensures var p, s' := s.cpus[a.cpu], Step(s, a);
            && |s'.cpus| == |s.cpus| && s'.cpus[a.cpu].pc != Stopped && s'.cpus[a.cpu].pc != Lock
            && (s'.cpus[a.cpu].pc == Idle ==> s'.free && (p.pc == Release || p.pc == Unlock))
            && (Inside(p.pc) && p.pc != Unlock <==> Inside(s'.cpus[a.cpu].pc))
            && s'.grants == s.grants + if p.pc == Unlock then [Grant(a.cpu, p.ask, p.base)] else []
  {
    HolderTurns(s, s.cpus[a.cpu]);
    TurnsBelow(s.lay, s.cpus[a.cpu].ask);
    hide CpuOk, HolderOk, Recached, Turns;
  }

  // The call has been answered: the CPU is between calls, the mutex is free, and the request is the last one served.
  predicate Answered(s: State, t: State, i: nat, ask: Request)
  {
    && i < |t.cpus| && t.cpus[i].pc == Idle && t.free
    && |s.grants| < |t.grants| && s.grants <= t.grants
    && t.grants[|t.grants| - 1].cpu == i && t.grants[|t.grants| - 1].ask == ask
  }

  predicate NoOom(trace: seq<Action>)
  {
    forall a | a in trace :: !a.oom
  }

  // The holder of the mutex, left to itself, gives it back.
  lemma {:induction false} GivesBack(s: State, i: nat) returns (more: seq<Action>)
    requires Inv(s) && i < |s.cpus| && Holds(s.cpus[i].pc) && s.cpus[i].pc != Stopped
    ensures NoOom(more)
    ensures var t := Run(Step, s, more);
            && Inv(t) && t.free && t.lay == s.lay
            && |t.cpus| == |s.cpus| && t.cpus == s.cpus[i := t.cpus[i]] && t.cpus[i].pc == Idle
            && (if Inside(s.cpus[i].pc) then
                  |t.grants| == |s.grants| + 1 && Answered(s, t, i, s.cpus[i].ask)
                else t.grants == s.grants)
    decreases ToGo(s.lay, s.cpus[i])
  {
    var a := Action(i, Lookup(0), false);
    var s' := Step(s, a);
    assert CpuOk(s, s.cpus[i]);
    OwnStep(s, a);
    OwnPlace(s, a);
    StepInv(s, a);
    hide Step, Inv, CpuOk, ToGo, Run;
    if s'.cpus[i].pc == Idle {
      more := [a];
      RunNothing(s');
      RunCons(Step, s, a, []);
      assert [a] + [] == more;
    } else {
      var rest := GivesBack(s', i);
      more := [a] + rest;
      RunCons(Step, s, a, rest);
      assert s.cpus[i := s'.cpus[i]][i := Run(Step, s', rest).cpus[i]] == s.cpus[i := Run(Step, s', rest).cpus[i]];
    }
  }

  lemma RunNothing(s: State)
    ensures Run(Step, s, []) == s
  {
  }

  ghost predicate NobodyStopped(s: State)
  {
    forall i: nat | i < |s.cpus| :: s.cpus[i].pc != Stopped
  }

  lemma TakesMutex(s: State, i: nat)
    requires i < |s.cpus| && s.cpus[i].pc == Lock && s.free
    ensures var s' := Step(s, Action(i, Lookup(0), false));
            && |s'.cpus| == |s.cpus| && s'.cpus == s.cpus[i := s'.cpus[i]] && s'.grants == s.grants
            && Inside(s'.cpus[i].pc) && s'.cpus[i].pc != Stopped && s'.cpus[i].ask == s.cpus[i].ask
  {
  }

  lemma MutexFreed(s: State) returns (more: seq<Action>)
    requires Inv(s) && NobodyStopped(s)
    ensures NoOom(more)
    ensures var t := Run(Step, s, more);
            && Inv(t) && (t.free || |t.cpus| == 0) && t.lay == s.lay && NobodyStopped(t)
            && |t.cpus| == |s.cpus| && s.grants <= t.grants
            && forall j: nat | j < |s.cpus| && !Holds(s.cpus[j].pc) :: t.cpus[j] == s.cpus[j]
  {
    if s.free || |s.cpus| == 0 {
      more := [];
      RunNothing(s);
    } else {
      var h: nat :| h < |s.cpus| && Holds(s.cpus[h].pc);
      more := GivesBack(s, h);
      hide Inv, Run;
    }
  }

  lemma Answers(s: State, i: nat) returns (more: seq<Action>)
    requires Inv(s) && NobodyStopped(s) && i < |s.cpus| && InCall(s.cpus[i].pc)
    ensures NoOom(more) && Answered(s, Run(Step, s, more), i, s.cpus[i].ask)
    ensures Inside(s.cpus[i].pc) ==> |Run(Step, s, more).grants| == |s.grants| + 1
  {
    hide Inv, Step, Run;
    if s.cpus[i].pc == Lock {
      var first := MutexFreed(s);
      var t := Run(Step, s, first);
      var a := Action(i, Lookup(0), false);
      TakesMutex(t, i);
      StepInv(t, a);
      var rest := GivesBack(Step(t, a), i);
      more := first + ([a] + rest);
      RunCons(Step, t, a, rest);
      RunConcat(Step, s, first, [a] + rest);
    } else {
      more := GivesBack(s, i);
    }
  }

  // In every reachable state in which no CPU has stopped for want of memory, every call can be answered as long as
  // memory lasts: the mutex is free again and the request has been served.
  lemma CallsAreAnswered(lay: Layout, n: nat, schedule: seq<Action>, i: nat)
    requires n > 0 && i < n
    ensures var s := Run(Step, Init(lay, n, true), schedule);
            && |s.cpus| == n
            && (NobodyStopped(s) && InCall(s.cpus[i].pc) ==>
                  exists more :: NoOom(more)
                      && Answered(s, Run(Step, Init(lay, n, true), schedule + more), i, s.cpus[i].ask)
                      && (Inside(s.cpus[i].pc) ==>
                            |Run(Step, Init(lay, n, true), schedule + more).grants| == |s.grants| + 1))
  {
    hide Step, Run, Inv, Init, InCall, Inside, NobodyStopped, Answered;
    Reachable(lay, n, schedule);
    var s := Run(Step, Init(lay, n, true), schedule);
    if NobodyStopped(s) && InCall(s.cpus[i].pc) {
      var more := Answers(s, i);
      RunConcat(Step, Init(lay, n, true), schedule, more);
    }
  }

  // And every CPU between calls can have any request served.
  lemma RequestsAreAnswered(lay: Layout, n: nat, schedule: seq<Action>, i: nat, ask: Request)
    requires n > 0 && i < n
    ensures var s := Run(Step, Init(lay, n, true), schedule);
            && |s.cpus| == n
            && (NobodyStopped(s) && s.cpus[i].pc == Idle ==>
                  exists more :: NoOom(more) && Answered(s, Run(Step, Init(lay, n, true), schedule + more), i, ask))
  {
    hide Run, Inv, Init;
    Reachable(lay, n, schedule);
    var s := Run(Step, Init(lay, n, true), schedule);
    if NobodyStopped(s) && s.cpus[i].pc == Idle {
      var a := Action(i, ask, false);
      StepInv(s, a);
      var rest := Answers(Step(s, a), i);
      RunCons(Step, s, a, rest);
      RunConcat(Step, Init(lay, n, true), schedule, [a] + rest);
      assert Answered(s, Run(Step, Init(lay, n, true), schedule + ([a] + rest)), i, ask);
    }
  }

  // How many steps CPU i does until its present call ends.
  function CallSteps(s: State, i: nat, trace: seq<Action>): nat
    decreases |trace|
  {
    if trace == [] || i >= |s.cpus| || !InCall(s.cpus[i].pc) then 0 else
    (if trace[0].cpu == i && Step(s, trace[0]) != s then 1 else 0) + CallSteps(Step(s, trace[0]), i, trace[1..])
  }

  lemma {:induction false} CallBound(s: State, i: nat, trace: seq<Action>)
    requires Inv(s) && i < |s.cpus|
    ensures InCall(s.cpus[i].pc) ==> CallSteps(s, i, trace) <= ToGo(s.lay, s.cpus[i])
    decreases |trace|
  {
    if trace != [] && InCall(s.cpus[i].pc) {
      var a := trace[0];
      StepInv(s, a);
      assert CpuOk(s, s.cpus[i]);
      if a.cpu == i {
        OwnStep(s, a);
      } else {
        OthersStay(s, a, i);
      }
      CallBound(Step(s, a), i, trace[1..]);
      hide Step, Inv, CpuOk, ToGo, InCall;
    }
  }

  lemma OthersStay(s: State, a: Action, i: nat)
    requires i < |s.cpus| && a.cpu != i
    ensures |Step(s, a).cpus| == |s.cpus| && Step(s, a).cpus[i] == s.cpus[i]
  {
  }

  // Four steps for each turn of its loop, and four more, in every interleaving.
  lemma CallsAreShort(lay: Layout, n: nat, schedule: seq<Action>, i: nat, trace: seq<Action>)
    requires n > 0 && i < n
    ensures var s := Run(Step, Init(lay, n, true), schedule);
            |s.cpus| == n && CallSteps(s, i, trace) <= 4 * Turns(lay, s.cpus[i].ask) + 4
  {
    hide Step, Run, Inv, Init, Turns;
    Reachable(lay, n, schedule);
    var s := Run(Step, Init(lay, n, true), schedule);
    if InCall(s.cpus[i].pc) { CallBound(s, i, trace); }
  }

  // When nobody can do anything but start a call, and there is a call under way, memory has run out in one.
  lemma StuckMeansStopped(lay: Layout, n: nat, schedule: seq<Action>)
    requires n > 0
    ensures var s := Run(Step, Init(lay, n, true), schedule);
            (exists i: nat :: i < |s.cpus| && InCall(s.cpus[i].pc))
            && (forall a: Action :: a.cpu < |s.cpus| && s.cpus[a.cpu].pc != Idle ==> Step(s, a) == s) ==>
              !NobodyStopped(s)
  {
    hide Run, Init, Step;
    Reachable(lay, n, schedule);
    var s := Run(Step, Init(lay, n, true), schedule);
    if i: nat :| i < |s.cpus| && InCall(s.cpus[i].pc) {
      if NobodyStopped(s) {
        var h: nat := i;
        if s.cpus[i].pc == Lock && !s.free { h :| h < |s.cpus| && Holds(s.cpus[h].pc); }
        assert CpuOk(s, s.cpus[h]);
        hide Inv, CpuOk;
        OwnStep(s, Action(h, Lookup(0), false));
        assert Step(s, Action(h, Lookup(0), false)) != s;
      }
    }
  }

  // Once a CPU has stopped for want of memory nobody ever gets pt_mutex again.
  lemma StoppedForGood(lay: Layout, n: nat, schedule: seq<Action>, more: seq<Action>)
    requires n > 0
    ensures var s, t := Run(Step, Init(lay, n, true), schedule), Run(Step, Init(lay, n, true), schedule + more);
            !NobodyStopped(s) ==> !NobodyStopped(t) && !t.free && t.grants == s.grants
  {
    hide Run, Init, Step;
    Reachable(lay, n, schedule);
    var s := Run(Step, Init(lay, n, true), schedule);
    if !NobodyStopped(s) {
      var i: nat :| i < |s.cpus| && s.cpus[i].pc == Stopped;
      var g := s.grants;
      assert HasStopped(s, i, g);
      forall u, a | HasStopped(u, i, g) ensures HasStopped(Step(u, a), i, g) {
        StopStays(u, i, g, a);
      }
      Invariance(Step, (u: State) => HasStopped(u, i, g), s, more);
      RunConcat(Step, Init(lay, n, true), schedule, more);
      assert CpuOk(Run(Step, s, more), Run(Step, s, more).cpus[i]);
    }
  }

  ghost predicate HasStopped(s: State, i: nat, grants: seq<Grant>)
  {
    Inv(s) && i < |s.cpus| && s.cpus[i].pc == Stopped && s.grants == grants
  }

  lemma StopStays(s: State, i: nat, grants: seq<Grant>, a: Action)
    requires HasStopped(s, i, grants)
    ensures HasStopped(Step(s, a), i, grants)
  {
    StepInv(s, a);
    assert CpuOk(s, s.cpus[i]);
    hide Inv, CpuOk, DoPage;
    if a.cpu < |s.cpus| && a.cpu != i { OnlyHolder(s, i, a.cpu); }
  }

  lemma OnlyHolder(s: State, i: nat, j: nat)
    requires Inv(s) && i < |s.cpus| && j < |s.cpus| && i != j && Holds(s.cpus[i].pc)
    ensures !Holds(s.cpus[j].pc) && !s.free
  {
    assert CpuOk(s, s.cpus[i]);
    hide CpuOk;
  }

  // It comes about when an allocation finds no frame.
  lemma RunsDry(lay: Layout)
    ensures exists schedule :: !NobodyStopped(Run(Step, Init(lay, 1, true), schedule))
  {
    var a := Action(0, Alloc(1, 0), true);
    var built := [a, a, a];
    var s := Init(lay, 1, true);
    assert s.cpus == [Cpu(Build, Lookup(0), 0, 0, 0)];
    ToLock(s, a);
    ToStop(Run(Step, s, built), a);
    RunConcat(Step, s, built, [a, a, a, a]);
    assert !NobodyStopped(Run(Step, s, built + [a, a, a, a]));
  }

  lemma ToLock(s: State, a: Action)
    requires a.cpu == 0 && |s.cpus| == 1 && s.cpus[0].pc == Build
    ensures var t := Run(Step, s, [a, a, a]);
            t.free && |t.cpus| == 1 && t.cpus[0] == s.cpus[0].(pc := Lock, ask := a.ask)
  {
    var s1 := Step(s, a);
    var s2 := Step(s1, a);
    assert s2.free && s2.cpus == [s.cpus[0].(pc := Idle)];
    RunTwice(s, a);
    RunSnoc(Step, s, [a, a], a);
    assert [a, a] + [a] == [a, a, a];
  }

  lemma ToStop(s: State, a: Action)
    requires a.cpu == 0 && a.oom && |s.cpus| == 1 && s.free && s.cpus[0].pc == Lock
    requires s.cpus[0].ask.Alloc? && s.cpus[0].ask.pages > 0
    ensures var t := Run(Step, s, [a, a, a, a]); |t.cpus| == 1 && t.cpus[0].pc == Stopped
  {
    var t := Step(Step(s, a), a);
    assert |t.cpus| == 1 && t.cpus[0].pc == Head && t.cpus[0].i == 0 && t.cpus[0].ask == s.cpus[0].ask;
    RunTwice(s, a);
    RunTwice(t, a);
    RunConcat(Step, s, [a, a], [a, a]);
    assert [a, a] + [a, a] == [a, a, a, a];
  }

  lemma RunTwice(s: State, a: Action)
    ensures Run(Step, s, [a, a]) == Step(Step(s, a), a)
  {
    hide Step;
    RunCons(Step, s, a, [a]);
    RunCons(Step, Step(s, a), a, []);
    assert [a] + [a] == [a, a] && [a] + [] == [a];
  }

  // Nobody comes too early exactly because the mutex starts locked, unless there is but one CPU.
  lemma NobodyEarlyExactlyWhenLocked(lay: Layout, n: nat, locked: bool)
    requires n > 0
    ensures (forall schedule :: NobodyEarly(Run(Step, Init(lay, n, locked), schedule))) <==> locked || n == 1
  {
    if locked {
      forall schedule ensures NobodyEarly(Run(Step, Init(lay, n, locked), schedule)) {
        CallsAreSerial(lay, n, schedule);
      }
    } else if n == 1 {
      forall schedule ensures NobodyEarly(Run(Step, Init(lay, n, locked), schedule)) {
        AloneIsInTime(lay, schedule);
      }
    } else {
      ComesEarly(lay, n);
    }
  }

  lemma ComesEarly(lay: Layout, n: nat)
    requires n > 1
    ensures exists schedule :: !NobodyEarly(Run(Step, Init(lay, n, false), schedule))
  {
    var a := Action(1, Lookup(0), false);
    var s := Step(Init(lay, n, false), a);
    var t := Step(s, a);
    RunSnoc(Step, Init(lay, n, false), [], a);
    RunSnoc(Step, Init(lay, n, false), [a], a);
    assert [] + [a] == [a];
    assert Inside(t.cpus[1].pc) && !t.built;
    assert !NobodyEarly(Run(Step, Init(lay, n, false), [a] + [a]));
  }

  lemma AloneIsInTime(lay: Layout, schedule: seq<Action>)
    ensures NobodyEarly(Run(Step, Init(lay, 1, false), schedule))
  {
    Invariance(Step, (s: State) => |s.cpus| == 1 && (s.built || s.cpus[0].pc == Build), Init(lay, 1, false), schedule);
  }
}
