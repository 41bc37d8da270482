// The wake-up of the application processors (apic.c:288-322) and the rendezvous of all CPUs at the first
// global barrier (main.c:166-170, main.c:180-199). CPU 0 is the bootstrap processor (BSP).
module BootRendezvous {
  import opened Machine
  import B = Barrier

  datatype Pc =
    | Off          // an application processor before its start-up IPI
    | CallNext     // BSP: loop head (apic.c:288-289), then the start-up IPIs
    | TryWake      // BSP: mutex_trylock(wakelock) (apic.c:314)
    | OnlineLoad   // cpu_online++ (main.c:166, main.c:182): load
    | OnlineStore  //                                        store
    | TakeLock     // AP: mutex_lock(wakelock) (main.c:188)
    | MaxLoad      // BSP: global_barrier.max = cpu_online (main.c:167): load
    | MaxStore     //                                                    store
    | AwaitOthers  // BSP: main.c:169
    | AtBarrier    // barrier(&global_barrier), and main() behind it

  datatype Cpu = Cpu(pc: Pc, t: nat)

  // u is the BSP's loop variable; free[v] tells whether wakelock v is free; skip holds the CPUs that the command
  // line excludes; late collects the CPUs whose wakelock the BSP obtained.
  datatype State = State(u: nat, online: nat, free: seq<bool>, skip: set<nat>, late: set<nat>, cpus: seq<Cpu>,
      bar: B.State)

  // maxCpu is MAX_CPU; the barrier starts with max = MAX_CPU + 1 (sync.c:109).
  function Init(n: nat, skip: set<nat>, maxCpu: nat): State
  {
    State(1, 0, seq(n, i => true), skip, {}, seq(n, i => Cpu(if i == 0 then CallNext else Off, 0)),
          B.Init(n, 0).(max := maxCpu + 1))
  }

  function Move(s: State, i: nat, p: Cpu): State
    requires i < |s.cpus|
  {
    s.(cpus := s.cpus[i := p])
  }

  function Step(s: State, i: nat): State
  {
    if i >= |s.cpus| then s else
    var p := s.cpus[i];
    match p.pc
    case Off => s
    case CallNext =>
      if s.u >= |s.cpus| then Move(s, i, p.(pc := OnlineLoad))
      else if s.u in s.skip then s.(u := s.u + 1)
      else Move(Move(s, s.u, s.cpus[s.u].(pc := OnlineLoad)), i, p.(pc := TryWake))
    case TryWake =>
      if s.u >= |s.free| then s
      else if s.free[s.u] then Move(s, i, p.(pc := CallNext)).(u := s.u + 1, free := s.free[s.u := false],
          late := s.late + {s.u})
      else Move(s, i, p.(pc := CallNext)).(u := s.u + 1)
    case OnlineLoad => Move(s, i, p.(pc := OnlineStore, t := s.online))
    case OnlineStore => Move(s, i, p.(pc := if i == 0 then MaxLoad else TakeLock)).(online := p.t + 1)
    case TakeLock =>
      if i < |s.free| && s.free[i] then Move(s, i, p.(pc := AtBarrier)).(free := s.free[i := false]) else s
    case MaxLoad => Move(s, i, p.(pc := MaxStore, t := s.online))
    case MaxStore => Move(s, i, p.(pc := AwaitOthers)).(bar := s.bar.(max := p.t))
    case AwaitOthers => if s.bar.cnt + 1 < s.bar.max then s else Move(s, i, p.(pc := AtBarrier))
    case AtBarrier => if InMain(s, i) then s else s.(bar := B.Step(s.bar, i))
  }

  predicate InMain(s: State, i: nat)
  {
    i < |s.bar.cpus| && s.bar.cpus[i].passed > 0
  }

  // The CPU has drawn its count at the first global barrier.
  predicate EnteredBarrier(s: State, i: nat)
  {
    i < |s.bar.cpus| && B.Entered(s.bar.cpus[i]) > 0
  }

  // The application processors that got their own wakelock.
  ghost function Winners(s: State): set<nat>
  {
    set v: nat | 0 < v < |s.cpus| && s.cpus[v].pc == AtBarrier
  }

  ghost function Inside(s: State): set<nat>
  {
    set v: nat | v < |s.cpus| && EnteredBarrier(s, v)
  }

  // ---------------------------------------------------------------- the wakelocks

  predicate Looping(s: State)
  {
    |s.cpus| > 0 && (s.cpus[0].pc == CallNext || s.cpus[0].pc == TryWake)
  }

  predicate BspOk(s: State)
  {
    && |s.cpus| == |s.free| == |s.bar.cpus| > 0 && s.u >= 1
    && s.cpus[0].pc != Off && s.cpus[0].pc != TakeLock
    && (s.cpus[0].pc == TryWake ==> s.u < |s.cpus| && s.u !in s.skip)
    && (!Looping(s) ==> s.u >= |s.cpus|)
    && s.bar.modulus == 0
    && (forall v: nat | v in s.late :: 0 < v < s.u && v < |s.cpus|)
  }

  // Exactly one of the BSP and the AP takes a called AP's wakelock.
  predicate ApLock(s: State, v: nat)
    requires 0 < v < |s.cpus| == |s.free|
  {
    var pc := s.cpus[v].pc;
    && pc in {Off, OnlineLoad, OnlineStore, TakeLock, AtBarrier}
    && (s.free[v] <==> pc != AtBarrier && v !in s.late)
    && (pc == AtBarrier ==> v !in s.late)
    && (pc == Off <==> v in s.skip || v > s.u || (v == s.u && s.cpus[0].pc != TryWake))
    && (v < s.u && v !in s.skip ==> !s.free[v])
  }

  ghost predicate Locks(s: State)
  {
    BspOk(s) && forall v: nat | 0 < v < |s.cpus| :: ApLock(s, v)
  }

  lemma LockStep(s: State, i: nat)
    requires Locks(s)
    ensures Locks(Step(s, i))
  {
    BspStep(s, i);
    if 0 < i < |s.cpus| { assert ApLock(s, i); }
    forall v: nat | 0 < v < |s.cpus| ensures |Step(s, i).free| == |s.free| && ApLock(Step(s, i), v) {
      assert ApLock(s, v);
      ApStep(s, i, v);
    }
    hide Step, ApLock;
  }

  lemma ApStep(s: State, i: nat, v: nat)
    requires BspOk(s) && 0 < v < |s.cpus| && ApLock(s, v) && (0 < i < |s.cpus| ==> ApLock(s, i))
    ensures |Step(s, i).cpus| == |Step(s, i).free| == |s.cpus| && ApLock(Step(s, i), v)
  {
  }

  lemma BspStep(s: State, i: nat)
    requires Locks(s)
    ensures BspOk(Step(s, i)) && |Step(s, i).cpus| == |s.cpus|
  {
    if 0 < i < |s.cpus| { assert ApLock(s, i); }
  }

  // ---------------------------------------------------------------- the barrier while its max changes

  predicate MaxSet(s: State)
  {
    |s.cpus| > 0 && (s.cpus[0].pc == AwaitOthers || s.cpus[0].pc == AtBarrier)
  }

  // max counts the BSP and the APs that got their wakelock.
  ghost predicate Exact(s: State)
  {
    MaxSet(s) ==> s.bar.max == |Winners(s)| + 1
  }

  predicate Fresh(p: B.Cpu)
  {
    p == B.Cpu(B.Outside, 0, 0, 0, 0)
  }

  ghost predicate Counting(s: State, maxCpu: nat)
  {
    && |s.cpus| == |s.bar.cpus| <= maxCpu
    && (!MaxSet(s) ==> s.bar.max == maxCpu + 1)
    && (forall v: nat | v < |s.cpus| && s.cpus[v].pc != AtBarrier :: Fresh(s.bar.cpus[v]))
    && s.bar.cnt <= |Inside(s)|
    && (|s.cpus| > 0 && s.cpus[0].pc == AtBarrier ==> s.bar.max <= |Winners(s)| + 1)
  }

  lemma InsideBound(s: State)
    requires |s.cpus| == |s.bar.cpus| > 0
    requires forall v: nat | v < |s.cpus| && s.cpus[v].pc != AtBarrier :: Fresh(s.bar.cpus[v])
    ensures Inside(s) <= Winners(s) + {0}
    ensures !EnteredBarrier(s, 0) ==> Inside(s) <= Winners(s) && |Inside(s)| <= |Winners(s)|
    ensures |Inside(s) - {0}| <= |Winners(s)|
    ensures |Inside(s)| <= |Winners(s)| + 1
  {
    B.Subset(Inside(s) - {0}, Winners(s));
    if EnteredBarrier(s, 0) {
      assert Inside(s) == (Inside(s) - {0}) + {0};
    } else {
      assert Inside(s) == Inside(s) - {0};
    }
  }

  lemma LateLocksFail(s: State, i: nat)
    requires Locks(s) && i < |s.cpus|
    ensures MaxSet(s) ==> Winners(Step(s, i)) == Winners(s)
  {
    if i > 0 { assert ApLock(s, i); }
    if MaxSet(s) {
      assert forall v: nat | 0 < v < |s.cpus| :: ApLock(s, v);
      assert forall v: nat | v < |s.cpus| && v > 0 :: Step(s, i).cpus[v].pc == AtBarrier <==> s.cpus[v].pc == AtBarrier;
    }
  }

  predicate Draws(s: State, i: nat)
  {
    i < |s.cpus| == |s.bar.cpus| && s.cpus[i].pc == AtBarrier && !InMain(s, i) && s.bar.cpus[i].pc == B.Loaded
  }

  lemma InsideStep(s: State, i: nat)
    requires |s.cpus| == |s.bar.cpus|
    ensures |Step(s, i).cpus| == |Step(s, i).bar.cpus| == |s.cpus|
    ensures Draws(s, i) ==> i !in Inside(s) && Inside(Step(s, i)) == Inside(s) + {i}
    ensures !Draws(s, i) ==> Inside(Step(s, i)) == Inside(s)
    ensures Step(s, i).bar.cnt == (if Draws(s, i) then s.bar.cnt + 1 else if Step(s, i).bar.cnt == 0 then 0
        else s.bar.cnt)
  {
    var s' := Step(s, i);
    assert forall v: nat | v < |s.cpus| && v != i :: s'.bar.cpus[v] == s.bar.cpus[v];
    assert forall v: nat | v < |s.cpus| && v != i :: EnteredBarrier(s', v) == EnteredBarrier(s, v);
  }

  lemma CountingBarrierStep(s: State, maxCpu: nat, i: nat)
    requires Counting(s, maxCpu) && i < |s.cpus| && s.cpus[i].pc == AtBarrier
    ensures Counting(Step(s, i), maxCpu)
  {
    InsideStep(s, i);
    assert Winners(Step(s, i)) == Winners(s);
    assert forall v: nat | v < |s.cpus| && s.cpus[v].pc != AtBarrier :: Step(s, i).bar.cpus[v] == s.bar.cpus[v];
  }

  // What a step before the barrier does to what Counting looks at.
  lemma BootShape(s: State, i: nat)
    requires Locks(s) && i < |s.cpus| && s.cpus[i].pc != AtBarrier
    ensures var s' := Step(s, i);
            && |s'.cpus| == |s.cpus| && s'.bar == s.bar.(max := s'.bar.max)
            && (forall v: nat | v < |s.cpus| && s'.cpus[v].pc != AtBarrier :: s.cpus[v].pc != AtBarrier)
            && (MaxSet(s) ==> MaxSet(s') && s'.bar.max == s.bar.max)
            && (!MaxSet(s') ==> !MaxSet(s) && s'.bar.max == s.bar.max)
            && (s.cpus[0].pc == AtBarrier ==> s'.cpus[0].pc == AtBarrier)
            && (s'.cpus[0].pc == AtBarrier ==>
                s.cpus[0].pc == AtBarrier || (s.cpus[0].pc == AwaitOthers && s.bar.max <= s.bar.cnt + 1))
  {
    if i > 0 { assert ApLock(s, i); }
    if s.u < |s.cpus| { assert ApLock(s, s.u); }
  }

  lemma CountingBootStep(s: State, maxCpu: nat, i: nat)
    requires Locks(s) && Counting(s, maxCpu) && i < |s.cpus| && s.cpus[i].pc != AtBarrier
    ensures Counting(Step(s, i), maxCpu)
  {
    BootShape(s, i);
    LateLocksFail(s, i);
    InsideBound(s);
    CountingKept(s, Step(s, i), maxCpu);
  }

  lemma CountingKept(s: State, s': State, maxCpu: nat)
    requires Counting(s, maxCpu) && |s'.cpus| == |s.cpus| > 0 && s'.bar == s.bar.(max := s'.bar.max)
    requires forall v: nat | v < |s.cpus| && s'.cpus[v].pc != AtBarrier :: s.cpus[v].pc != AtBarrier
    requires MaxSet(s) ==> MaxSet(s') && s'.bar.max == s.bar.max && Winners(s') == Winners(s)
    requires !MaxSet(s') ==> s'.bar.max == s.bar.max
    requires s'.cpus[0].pc == AtBarrier ==> MaxSet(s) && (s.cpus[0].pc == AtBarrier || s.bar.max <= |Winners(s)| + 1)
    ensures Counting(s', maxCpu)
  {
    assert Inside(s') == Inside(s);
  }

  lemma CountingStep(s: State, maxCpu: nat, i: nat)
    requires Locks(s) && Counting(s, maxCpu)
    ensures Counting(Step(s, i), maxCpu)
  {
    if i < |s.cpus| {
      if s.cpus[i].pc == AtBarrier { CountingBarrierStep(s, maxCpu, i); } else { CountingBootStep(s, maxCpu, i); }
    }
  }

  // ---------------------------------------------------------------- the rendezvous when max is exact

  // Before the release: counts are drawn in turn, an AP never draws max, and the BSP enters after all of them.
  ghost predicate Gathering(s: State)
    requires |s.cpus| == |s.bar.cpus| > 0
  {
    && s.bar.epoch == 0 && s.bar.releasers == []
    && (forall v: nat | v < |s.cpus| :: GatheringCpu(s, v))
    && (forall v: nat, w: nat | v < |s.cpus| && w < |s.cpus| && v != w && EnteredBarrier(s, v)
        && EnteredBarrier(s, w) ::
          s.bar.cpus[v].c != s.bar.cpus[w].c)
    && (if B.Releasing(s.bar.cpus[0]) then s.bar.cnt == 0 else s.bar.cnt == |Inside(s)|)
    && (s.cpus[0].pc == AtBarrier ==> Winners(s) <= Inside(s))
  }

  ghost predicate GatheringCpu(s: State, v: nat)
    requires |s.cpus| == |s.bar.cpus| && v < |s.cpus|
  {
    var p := s.bar.cpus[v];
    && p.passed == 0 && p.e == 0 && p.t == 0
    && (EnteredBarrier(s, v) ==> 1 <= p.c <= |Inside(s)|)
    && (if v == 0 then p.pc != B.Spinning && (EnteredBarrier(s, 0) ==> p.c == s.bar.max)
        else p.pc in {B.Outside, B.Loaded, B.Drawn, B.Spinning})
  }

  // After the release by the BSP.
  ghost predicate Released(s: State)
    requires |s.cpus| == |s.bar.cpus| > 0
  {
    && s.bar.epoch == 1 && s.bar.releasers == [0]
    && s.cpus[0].pc == AtBarrier && s.bar.cpus[0].passed == 1 && s.bar.cpus[0].c == s.bar.max
    && (forall v: nat | 0 < v < |s.cpus| && s.cpus[v].pc == AtBarrier :: ReleasedCpu(s, v))
  }

  predicate ReleasedCpu(s: State, v: nat)
    requires v < |s.bar.cpus|
  {
    var p := s.bar.cpus[v];
    p.passed == 1 || (p.passed == 0 && p.e == 0 && ((p.pc == B.Drawn && p.c != s.bar.max) || p.pc == B.Spinning))
  }

  ghost predicate Meeting(s: State)
  {
    |s.cpus| == |s.bar.cpus| > 0 && s.bar.modulus == 0 && (Gathering(s) || Released(s))
  }

  // Steps before the barrier leave the meeting alone; the BSP joins it last.
  lemma MeetingKept(s: State, s': State)
    requires Meeting(s) && |s'.cpus| == |s.cpus| && s'.bar == s.bar.(max := s'.bar.max) && Inside(s') == Inside(s)
    requires s.cpus[0].pc == AtBarrier ==>
      s'.cpus[0].pc == AtBarrier && s'.bar.max == s.bar.max && Winners(s') == Winners(s)
    requires s.cpus[0].pc != AtBarrier ==> Fresh(s.bar.cpus[0])
    requires s.cpus[0].pc != AtBarrier && s'.cpus[0].pc == AtBarrier ==> Winners(s') <= Inside(s)
    ensures Meeting(s')
  {
    if Gathering(s) {
      assert forall v: nat :: EnteredBarrier(s', v) == EnteredBarrier(s, v);
      assert GatheringCpu(s, 0);
      forall v: nat | v < |s'.cpus| ensures GatheringCpu(s', v) {
        assert GatheringCpu(s, v);
      }
    } else {
      forall v: nat | 0 < v < |s'.cpus| && s'.cpus[v].pc == AtBarrier ensures ReleasedCpu(s', v) {
        assert v in Winners(s') && v in Winners(s);
        assert ReleasedCpu(s, v);
      }
    }
  }

  lemma MeetingBootStep(s: State, maxCpu: nat, i: nat)
    requires Locks(s) && Counting(s, maxCpu) && Exact(s) && Meeting(s)
    requires i < |s.cpus| && s.cpus[i].pc != AtBarrier
    ensures Meeting(Step(s, i))
  {
    BootShape(s, i);
    LateLocksFail(s, i);
    InsideBound(s);
    InsideStep(s, i);
    if s.cpus[0].pc == AwaitOthers && s.bar.max <= s.bar.cnt + 1 {
      B.Subset(Inside(s), Winners(s));
    }
    MeetingKept(s, Step(s, i));
  }

  lemma WinnersBound(s: State)
    ensures |Winners(s)| <= |s.cpus|
  {
    B.Subset(Winners(s), B.Below(|s.cpus|));
  }

  // An AP's count is never max, neither the initial one nor the one that the BSP stores.
  lemma ApNeverDrawsMax(s: State, maxCpu: nat, i: nat)
    requires Counting(s, maxCpu) && Exact(s) && Meeting(s) && Gathering(s)
    requires 0 < i < |s.cpus| && EnteredBarrier(s, i)
    ensures s.bar.cpus[i].c != s.bar.max
  {
    assert GatheringCpu(s, i) && GatheringCpu(s, 0);
    InsideBound(s);
    WinnersBound(s);
  }

  // Drawing a count, before the release.
  lemma DrawKeeps(s: State, s': State, i: nat)
    requires Meeting(s) && Gathering(s) && Draws(s, i) && !B.Releasing(s.bar.cpus[0])
    requires s' == s.(bar := s.bar.(cnt := s.bar.cnt + 1,
                                    cpus := s.bar.cpus[i := s.bar.cpus[i].(pc := B.Drawn, c := s.bar.cnt + 1)]))
    requires i !in Inside(s) && Inside(s') == Inside(s) + {i}
    requires i == 0 ==> s.bar.cnt + 1 == s.bar.max
    ensures Meeting(s') && Gathering(s')
  {
    assert GatheringCpu(s, i) && GatheringCpu(s, 0);
    assert Winners(s') == Winners(s);
    assert forall v: nat | v < |s.cpus| && v != i :: s'.bar.cpus[v] == s.bar.cpus[v];
    forall v: nat | v < |s'.cpus| ensures GatheringCpu(s', v) {
      assert GatheringCpu(s, v);
      assert v != i ==> EnteredBarrier(s', v) == EnteredBarrier(s, v);
    }
    forall v: nat, w: nat | v < |s'.cpus| && w < |s'.cpus| && v != w && EnteredBarrier(s', v) && EnteredBarrier(s', w)
      ensures s'.bar.cpus[v].c != s'.bar.cpus[w].c
    {
      assert GatheringCpu(s, v) && GatheringCpu(s, w);
      assert v != i ==> EnteredBarrier(s, v);
      assert w != i ==> EnteredBarrier(s, w);
    }
  }

  lemma DrawShape(s: State, i: nat)
    requires Draws(s, i)
    ensures Step(s, i) == s.(bar := s.bar.(cnt := s.bar.cnt + 1,
                                           cpus := s.bar.cpus[i := s.bar.cpus[i].(pc := B.Drawn, c := s.bar.cnt + 1)]))
  {
  }

  // An AP still draws only while the BSP has not reset the counter.
  lemma ApDraws(s: State, maxCpu: nat, i: nat)
    requires Counting(s, maxCpu) && Exact(s) && Meeting(s) && 0 < i && Draws(s, i)
    ensures Meeting(Step(s, i))
  {
    hide Step;
    DrawShape(s, i);
    InsideStep(s, i);
    assert i in Winners(s);
    assert Released(s) ==> ReleasedCpu(s, i);
    assert GatheringCpu(s, i) && GatheringCpu(s, 0);
    assert s.cpus[0].pc == AtBarrier ==> i in Inside(s);
    DrawKeeps(s, Step(s, i), i);
  }

  lemma ApWaits(s: State, maxCpu: nat, i: nat)
    requires Counting(s, maxCpu) && Exact(s) && Meeting(s)
    requires 0 < i < |s.cpus| && s.cpus[i].pc == AtBarrier && !Draws(s, i)
    ensures Meeting(Step(s, i))
  {
    hide Exact, Counting;
    if Gathering(s) { ApGathers(s, maxCpu, i); } else { ApLeaves(s, i); }
  }

  lemma ApGathers(s: State, maxCpu: nat, i: nat)
    requires Counting(s, maxCpu) && Exact(s) && Meeting(s) && Gathering(s)
    requires 0 < i < |s.cpus| && s.cpus[i].pc == AtBarrier && !Draws(s, i)
    ensures Meeting(Step(s, i))
  {
    var s' := Step(s, i);
    InsideStep(s, i);
    assert Winners(s') == Winners(s);
    assert forall v: nat | v < |s.cpus| && v != i :: s'.bar.cpus[v] == s.bar.cpus[v];
    assert GatheringCpu(s, i);
    if EnteredBarrier(s, i) { ApNeverDrawsMax(s, maxCpu, i); }
    forall v: nat | v < |s'.cpus| ensures GatheringCpu(s', v) {
      assert GatheringCpu(s, v);
    }
  }

  lemma ApLeaves(s: State, i: nat)
    requires Meeting(s) && Released(s)
    requires 0 < i < |s.cpus| && s.cpus[i].pc == AtBarrier && !Draws(s, i)
    ensures Meeting(Step(s, i))
  {
    var s' := Step(s, i);
    assert forall v: nat | v < |s.cpus| && v != i :: s'.bar.cpus[v] == s.bar.cpus[v];
    forall v: nat | 0 < v < |s'.cpus| && s'.cpus[v].pc == AtBarrier ensures ReleasedCpu(s', v) {
      assert ReleasedCpu(s, v);
    }
  }

  // The BSP draws max, which is one more than the APs inside.
  lemma BspDraws(s: State, maxCpu: nat)
    requires Counting(s, maxCpu) && Exact(s) && Meeting(s) && Draws(s, 0)
    ensures Meeting(Step(s, 0)) && |Step(s, 0).bar.cpus| > 0 && Step(s, 0).bar.cpus[0].c == s.bar.max
  {
    hide Step;
    DrawShape(s, 0);
    InsideStep(s, 0);
    InsideBound(s);
    assert Inside(s) == Winners(s);
    DrawKeeps(s, Step(s, 0), 0);
  }

  // The BSP's other steps but the last keep what the APs see.
  lemma BspGathers(s: State)
    requires Meeting(s) && Gathering(s)
    requires s.cpus[0].pc == AtBarrier && !Draws(s, 0) && s.bar.cpus[0].pc != B.BumpStore
    ensures |Step(s, 0).cpus| == |Step(s, 0).bar.cpus| == |s.cpus| && Gathering(Step(s, 0))
  {
    var s' := Step(s, 0);
    InsideStep(s, 0);
    assert GatheringCpu(s, 0);
    assert Winners(s') == Winners(s);
    assert forall v: nat | 0 < v < |s.cpus| :: s'.bar.cpus[v] == s.bar.cpus[v];
    forall v: nat | v < |s'.cpus| ensures GatheringCpu(s', v) && s'.bar.cpus[v].c == s.bar.cpus[v].c {
      assert GatheringCpu(s, v);
    }
    assert forall v: nat :: EnteredBarrier(s', v) == EnteredBarrier(s, v);
    hide GatheringCpu, EnteredBarrier;
  }

  lemma BspIsIn(s: State)
    requires Meeting(s) && Released(s)
    ensures Step(s, 0) == s
  {
  }

  lemma SameModulus(s: State, i: nat)
    ensures Step(s, i).bar.modulus == s.bar.modulus
  {
  }

  // The BSP's last step releases the APs, all of which are waiting.
  lemma BspMeets(s: State, maxCpu: nat)
    requires Counting(s, maxCpu) && Exact(s) && Meeting(s)
    requires s.cpus[0].pc == AtBarrier && !Draws(s, 0)
    ensures Meeting(Step(s, 0))
  {
    hide Counting, Step, Gathering, Released;
    SameModulus(s, 0);
    if Gathering(s) {
      if s.bar.cpus[0].pc == B.BumpStore {
        BspReleases(s, maxCpu);
      } else {
        BspGathers(s);
      }
    } else {
      BspIsIn(s);
    }
  }

  lemma BspReleases(s: State, maxCpu: nat)
    requires Counting(s, maxCpu) && Exact(s) && Meeting(s) && Gathering(s)
    requires s.cpus[0].pc == AtBarrier && s.bar.cpus[0].pc == B.BumpStore
    ensures |Step(s, 0).cpus| == |Step(s, 0).bar.cpus| == |s.cpus| && Released(Step(s, 0))
  {
    var s' := Step(s, 0);
    assert GatheringCpu(s, 0);
    forall v: nat | 0 < v < |s'.cpus| && s'.cpus[v].pc == AtBarrier ensures ReleasedCpu(s', v) {
      assert v in Winners(s) && v in Inside(s);
      assert GatheringCpu(s, v) && EnteredBarrier(s, v);
      ApNeverDrawsMax(s, maxCpu, v);
    }
  }

  lemma MeetingStep(s: State, maxCpu: nat, i: nat)
    requires Locks(s) && Counting(s, maxCpu) && Exact(s) && Meeting(s)
    ensures Meeting(Step(s, i))
  {
    if i < |s.cpus| {
      if s.cpus[i].pc != AtBarrier {
        MeetingBootStep(s, maxCpu, i);
      } else if i == 0 {
        if Draws(s, 0) { BspDraws(s, maxCpu); } else { BspMeets(s, maxCpu); }
      } else {
        if Draws(s, i) { ApDraws(s, maxCpu, i); } else { ApWaits(s, maxCpu, i); }
      }
    }
  }

  // What is exact after a step was exact before it: neither max nor the winners change any more.
  lemma ExactBefore(s: State, i: nat)
    requires Locks(s) && Exact(Step(s, i))
    ensures Exact(s)
  {
    if i < |s.cpus| {
      LateLocksFail(s, i);
      if s.cpus[i].pc != AtBarrier { BootShape(s, i); }
    }
  }

  ghost predicate BootInv(s: State, maxCpu: nat)
  {
    Locks(s) && Counting(s, maxCpu) && (Exact(s) ==> Meeting(s))
  }

  lemma BootStep(s: State, maxCpu: nat, i: nat)
    requires BootInv(s, maxCpu)
    ensures BootInv(Step(s, i), maxCpu)
  {
    LockStep(s, i);
    CountingStep(s, maxCpu, i);
    if Exact(Step(s, i)) {
      ExactBefore(s, i);
      MeetingStep(s, maxCpu, i);
    }
  }

  lemma BootReachable(n: nat, skip: set<nat>, maxCpu: nat, schedule: seq<nat>)
    requires 0 < n <= maxCpu
    ensures var s := Run(Step, Init(n, skip, maxCpu), schedule); BootInv(s, maxCpu) && |s.cpus| == n && s.skip == skip
  {
    var s0 := Init(n, skip, maxCpu);
    assert Inside(s0) == {};
    forall s, i | BootInv(s, maxCpu) && |s.cpus| == n && s.skip == skip
      ensures BootInv(Step(s, i), maxCpu) && |Step(s, i).cpus| == n && Step(s, i).skip == skip
    {
      BootStep(s, maxCpu, i);
    }
    Invariance(Step, s => BootInv(s, maxCpu) && |s.cpus| == n && s.skip == skip, s0, schedule);
  }

  // ---------------------------------------------------------------- what the boot code may rely on

  // In every interleaving: an AP and the BSP never both obtain the AP's wakelock, and once the BSP has gone through
  // its list, one of them has obtained the wakelock of each AP that was called.
  lemma WakelockEitherOr(n: nat, skip: set<nat>, maxCpu: nat, schedule: seq<nat>, v: nat)
    requires 0 < v < n <= maxCpu
    ensures var s := Run(Step, Init(n, skip, maxCpu), schedule);
            && !(v in Winners(s) && v in s.late)
            && (!Looping(s) && v !in skip ==> v in Winners(s) || v in s.late)
  {
    BootReachable(n, skip, maxCpu, schedule);
    var s := Run(Step, Init(n, skip, maxCpu), schedule);
    assert ApLock(s, v);
  }

  ghost predicate BspLast(s: State)
  {
    && (forall v: nat :: InMain(s, v) ==> InMain(s, 0) && Winners(s) <= Inside(s))
    && (EnteredBarrier(s, 0) ==> s.bar.cpus[0].c == s.bar.max && Winners(s) <= Inside(s))
    && (s.bar.releasers == [] || s.bar.releasers == [0])
  }

  lemma GatheringIsSafe(s: State, maxCpu: nat)
    requires Counting(s, maxCpu) && Meeting(s) && Gathering(s)
    ensures BspLast(s)
  {
    forall v: nat ensures !InMain(s, v) {
      if v < |s.cpus| { assert GatheringCpu(s, v); }
    }
    assert GatheringCpu(s, 0);
    assert s.cpus[0].pc != AtBarrier ==> Fresh(s.bar.cpus[0]);
  }

  lemma ReleasedIsSafe(s: State)
    requires Meeting(s) && Released(s)
    ensures BspLast(s)
  {
    forall v: nat | v in Winners(s) ensures v in Inside(s) {
      assert ReleasedCpu(s, v);
    }
  }

  // If max counts the BSP and the APs that got their wakelock: an AP is in main() only after the BSP, which entered
  // the barrier last, drew max and released everybody.
  lemma RendezvousSafe(n: nat, skip: set<nat>, maxCpu: nat, schedule: seq<nat>)
    requires 0 < n <= maxCpu
    ensures var s := Run(Step, Init(n, skip, maxCpu), schedule);
            Exact(s) ==> BspLast(s)
  {
    BootReachable(n, skip, maxCpu, schedule);
    var s := Run(Step, Init(n, skip, maxCpu), schedule);
    if Exact(s) {
      if Gathering(s) { GatheringIsSafe(s, maxCpu); } else { ReleasedIsSafe(s); }
    }
  }

  predicate CanMove(s: State, i: nat)
  {
    Step(s, i) != s
  }

  // After the release, every AP that is not yet in main() sees the new epoch.
  lemma ReleasedApMoves(s: State, v: nat)
    requires Meeting(s) && Released(s) && v in Winners(s) && !InMain(s, v)
    ensures CanMove(s, v)
  {
    assert ReleasedCpu(s, v);
    assert Step(s, v).bar.cpus[v] != s.bar.cpus[v];
  }

  lemma GatheringBspMoves(s: State)
    requires Meeting(s) && Gathering(s) && s.cpus[0].pc == AtBarrier
    ensures CanMove(s, 0)
  {
    assert GatheringCpu(s, 0);
    assert Step(s, 0).bar.cpus[0].pc != s.bar.cpus[0].pc;
  }

  lemma GatheringApMoves(s: State, v: nat)
    requires Meeting(s) && Gathering(s) && v in Winners(s) && v !in Inside(s)
    ensures CanMove(s, v)
  {
    assert GatheringCpu(s, v);
    assert Step(s, v).bar.cpus[v].pc != s.bar.cpus[v].pc;
  }

  // With all APs inside, the counter lets the BSP go on to the barrier.
  lemma WaitingBspMoves(s: State, maxCpu: nat)
    requires Counting(s, maxCpu) && Meeting(s) && Gathering(s) && Exact(s)
    requires s.cpus[0].pc == AwaitOthers && Winners(s) <= Inside(s)
    ensures CanMove(s, 0)
  {
    InsideBound(s);
    assert Fresh(s.bar.cpus[0]);
    assert Inside(s) == Winners(s);
    assert Step(s, 0).cpus[0].pc == AtBarrier;
  }

  // Until all of them are in main(), one of them can move on.
  lemma MeetingMoves(s: State, maxCpu: nat) returns (i: nat)
    requires BootInv(s, maxCpu) && MaxSet(s) && Exact(s) && !(forall v: nat | v == 0 || v in Winners(s) :: InMain(s, v))
    ensures (i == 0 || i in Winners(s)) && CanMove(s, i)
  {
    hide Locks, Counting, CanMove, Step;
    if Released(s) {
      i :| (i == 0 || i in Winners(s)) && !InMain(s, i);
      ReleasedApMoves(s, i);
    } else if s.cpus[0].pc == AtBarrier {
      i := 0;
      GatheringBspMoves(s);
    } else if v: nat :| v in Winners(s) && v !in Inside(s) {
      i := v;
      GatheringApMoves(s, v);
    } else {
      i := 0;
      WaitingBspMoves(s, maxCpu);
    }
  }

  // And it comes about.
  lemma RendezvousNotStuck(n: nat, skip: set<nat>, maxCpu: nat, schedule: seq<nat>)
    requires 0 < n <= maxCpu
    ensures var s := Run(Step, Init(n, skip, maxCpu), schedule);
            MaxSet(s) && Exact(s) && !(forall v: nat | v == 0 || v in Winners(s) :: InMain(s, v)) ==>
              exists i: nat :: (i == 0 || i in Winners(s)) && CanMove(s, i)
  {
    hide Run, BootInv, CanMove, Step;
    BootReachable(n, skip, maxCpu, schedule);
    var s := Run(Step, Init(n, skip, maxCpu), schedule);
    if MaxSet(s) && Exact(s) && !(forall v: nat | v == 0 || v in Winners(s) :: InMain(s, v)) {
      var i := MeetingMoves(s, maxCpu);
    }
  }

  // ---------------------------------------------------------------- when max is exact

  // The APs that have counted themselves.
  ghost function Counted(s: State): set<nat>
  {
    set v: nat | 0 < v < |s.cpus| && (s.cpus[v].pc == TakeLock || s.cpus[v].pc == AtBarrier)
  }

  // As long as no AP is late, only the AP just called is between its start and its wakelock.
  ghost predicate InTime(s: State)
  {
    && |s.cpus| > 0
    && (forall v: nat | 0 < v < |s.cpus| && s.cpus[v].pc != Off && s.cpus[v].pc != AtBarrier ::
          s.cpus[0].pc == TryWake && v == s.u)
    && s.online == |Counted(s)| + (if s.cpus[0].pc in {MaxLoad, MaxStore, AwaitOthers, AtBarrier} then 1 else 0)
    && (forall v: nat | v < |s.cpus| && s.cpus[v].pc == OnlineStore :: s.cpus[v].t == s.online)
    && (s.cpus[0].pc == MaxStore ==> s.cpus[0].t == s.online)
    && (MaxSet(s) ==> s.bar.max == s.online)
  }

  lemma ApCounted(s: State, i: nat)
    requires 0 < i < |s.cpus| && s.cpus[i].pc in {Off, OnlineLoad, OnlineStore, TakeLock}
    ensures Counted(Step(s, i)) == Counted(s) + if s.cpus[i].pc == OnlineStore then {i} else {}
    ensures s.cpus[i].pc == OnlineStore ==> i !in Counted(s)
  {
    hide B.Step;
    var s' := Step(s, i);
    assert s'.cpus == s.cpus[i := s'.cpus[i]];
    assert s.cpus[i].pc == OnlineStore ==> s'.cpus[i].pc == TakeLock;
    assert s.cpus[i].pc == TakeLock ==> s'.cpus[i].pc in {TakeLock, AtBarrier};
    assert forall v: nat | v != i :: v in Counted(s') <==> v in Counted(s);
  }

  lemma ApCounts(s: State, i: nat)
    requires 0 < i < |s.cpus| && s.cpus[i].pc in {Off, OnlineLoad, OnlineStore, TakeLock}
    ensures |Counted(Step(s, i))| == |Counted(s)| + if s.cpus[i].pc == OnlineStore then 1 else 0
  {
    hide Counted, Step;
    ApCounted(s, i);
    assert Counted(s) + {} == Counted(s);
  }

  lemma ApShape(s: State, i: nat)
    requires 0 < i < |s.cpus| && s.cpus[i].pc in {Off, OnlineLoad, OnlineStore, TakeLock}
    ensures var p, s' := s.cpus[i], Step(s, i);
            && |s'.cpus| == |s.cpus| && s'.cpus == s.cpus[i := s'.cpus[i]] && s'.u == s.u && s'.bar == s.bar
            && s'.online == (if p.pc == OnlineStore then p.t + 1 else s.online)
            && (match p.pc
                case Off => s'.cpus[i] == p
                case OnlineLoad => s'.cpus[i] == Cpu(OnlineStore, s.online)
                case OnlineStore => s'.cpus[i].pc == TakeLock
                case _ => s'.cpus[i].pc in {TakeLock, AtBarrier})
  {
    assert s.cpus[i := s.cpus[i]] == s.cpus;
  }

  lemma MaxSetIs(s: State)
    requires |s.cpus| > 0
    ensures MaxSet(s) <==> s.cpus[0].pc == AwaitOthers || s.cpus[0].pc == AtBarrier
  {
  }

  lemma InTimeAp(s: State, i: nat)
    requires Locks(s) && InTime(s) && 0 < i < |s.cpus| && s.cpus[i].pc != AtBarrier
    ensures InTime(Step(s, i))
  {
    assert ApLock(s, i);
    hide Locks, ApLock, Counted, Step, MaxSet;
    ApCounts(s, i);
    ApShape(s, i);
    assert MaxSet(Step(s, i)) == MaxSet(s) by { MaxSetIs(s); MaxSetIs(Step(s, i)); }
    assert s.cpus[i].pc == Off || (s.cpus[0].pc == TryWake && i == s.u);
  }

  lemma InTimeBsp(s: State)
    requires Locks(s) && InTime(s) && s.cpus[0].pc in {OnlineLoad, OnlineStore, MaxLoad, MaxStore, AwaitOthers}
    ensures InTime(Step(s, 0))
  {
    assert Counted(Step(s, 0)) == Counted(s);
  }

  lemma InTimeCall(s: State)
    requires Locks(s) && InTime(s) && s.cpus[0].pc in {CallNext, TryWake} && Step(s, 0).late == {}
    ensures InTime(Step(s, 0))
  {
    if s.u < |s.cpus| { assert ApLock(s, s.u); }
    assert Counted(Step(s, 0)) == Counted(s);
  }

  lemma InTimeBarrier(s: State, i: nat)
    requires InTime(s) && i < |s.cpus| && s.cpus[i].pc == AtBarrier
    ensures InTime(Step(s, i))
  {
    assert Counted(Step(s, i)) == Counted(s);
  }

  lemma InTimeStep(s: State, i: nat)
    requires Locks(s) && InTime(s) && Step(s, i).late == {}
    ensures InTime(Step(s, i))
  {
    hide InTime, Step, ApLock;
    if i < |s.cpus| {
      if s.cpus[i].pc == AtBarrier {
        InTimeBarrier(s, i);
      } else if i > 0 {
        InTimeAp(s, i);
      } else if s.cpus[0].pc in {CallNext, TryWake} {
        InTimeCall(s);
      } else {
        InTimeBsp(s);
      }
    } else {
      StepsNoOther(s, i);
    }
  }

  lemma StepsNoOther(s: State, i: nat)
    requires i >= |s.cpus|
    ensures Step(s, i) == s
  {
  }

  lemma InTimeRun(s: State, schedule: seq<nat>)
    requires Locks(s) && InTime(s) && Run(Step, s, schedule).late == {}
    ensures InTime(Run(Step, s, schedule))
    decreases |schedule|
  {
    if schedule != [] {
      LateGrows(Step(s, schedule[0]), schedule[1..]);
      LockStep(s, schedule[0]);
      InTimeStep(s, schedule[0]);
      InTimeRun(Step(s, schedule[0]), schedule[1..]);
    }
  }

  lemma LateGrows(s: State, schedule: seq<nat>)
    ensures s.late <= Run(Step, s, schedule).late
    decreases |schedule|
  {
    if schedule != [] {
      LateGrows(Step(s, schedule[0]), schedule[1..]);
    }
  }

  // If every AP called got its wakelock in time, no increment of cpu_online is lost and max is exact.
  lemma InTimeIsExact(n: nat, skip: set<nat>, maxCpu: nat, schedule: seq<nat>)
    requires 0 < n <= maxCpu
    ensures var s := Run(Step, Init(n, skip, maxCpu), schedule); s.late == {} ==> Exact(s)
  {
    var s0 := Init(n, skip, maxCpu);
    var s := Run(Step, s0, schedule);
    BootReachable(n, skip, maxCpu, schedule);
    BootReachable(n, skip, maxCpu, []);
    assert Counted(s0) == {};
    if s.late == {} {
      InTimeRun(s0, schedule);
      if MaxSet(s) { assert Counted(s) == Winners(s); }
    }
  }

  // If max counts an AP that did not get its wakelock, the BSP waits for ever.
  ghost predicate Overcounted(s: State, maxCpu: nat)
  {
    BootInv(s, maxCpu) && MaxSet(s) && s.bar.max > |Winners(s)| + 1
  }

  lemma OvercountedStep(s: State, maxCpu: nat, i: nat)
    requires Overcounted(s, maxCpu)
    ensures Overcounted(Step(s, i), maxCpu)
  {
    BootStep(s, maxCpu, i);
    if i < |s.cpus| {
      LateLocksFail(s, i);
      if s.cpus[i].pc != AtBarrier { BootShape(s, i); }
    }
  }

  lemma BspWaitsForever(s: State, maxCpu: nat, more: seq<nat>)
    requires Overcounted(s, maxCpu)
    ensures !EnteredBarrier(Run(Step, s, more), 0)
  {
    forall s, i | Overcounted(s, maxCpu) ensures Overcounted(Step(s, i), maxCpu) {
      OvercountedStep(s, maxCpu, i);
    }
    Invariance(Step, s => Overcounted(s, maxCpu), s, more);
  }

  // Two CPUs: the BSP gives AP 1 up, then AP 1 counts itself all the same.
  const LATE_AP: seq<nat> := [0, 0, 1, 1] + [0, 0, 0] + [0, 0]

  function LateState(u: nat, online: nat, free: seq<bool>, late: set<nat>, bsp: Cpu, ap: Cpu, max: nat): State
  {
    Init(2, {}, 16).(u := u, online := online, free := free, late := late, cpus := [bsp, ap],
        bar := B.Init(2, 0).(max := max))
  }

  lemma LateGivenUp()
    ensures Run(Step, Init(2, {}, 16), [0, 0, 1, 1])
            == LateState(2, 1, [true, false], {1}, Cpu(CallNext, 0), Cpu(TakeLock, 0), 17)
  {
    assert Init(2, {}, 16) == LateState(1, 0, [true, true], {}, Cpu(CallNext, 0), Cpu(Off, 0), 17);
  }

  lemma LateOnline()
    ensures Run(Step, LateState(2, 1, [true, false], {1}, Cpu(CallNext, 0), Cpu(TakeLock, 0), 17), [0, 0, 0])
            == LateState(2, 2, [true, false], {1}, Cpu(MaxLoad, 1), Cpu(TakeLock, 0), 17)
  {
  }

  lemma LateMax()
    ensures Run(Step, LateState(2, 2, [true, false], {1}, Cpu(MaxLoad, 1), Cpu(TakeLock, 0), 17), [0, 0])
            == LateState(2, 2, [true, false], {1}, Cpu(AwaitOthers, 2), Cpu(TakeLock, 0), 2)
  {
  }

  lemma LateButCounted(more: seq<nat>)
    ensures !EnteredBarrier(Run(Step, Init(2, {}, 16), LATE_AP + more), 0)
  {
    var s0 := Init(2, {}, 16);
    BootReachable(2, {}, 16, LATE_AP);
    LateGivenUp();
    LateOnline();
    LateMax();
    RunConcat(Step, s0, [0, 0, 1, 1], [0, 0, 0]);
    RunConcat(Step, s0, [0, 0, 1, 1] + [0, 0, 0], [0, 0]);
    RunConcat(Step, s0, LATE_AP, more);
    var s := Run(Step, s0, LATE_AP);
    assert Winners(s) == {};
    BspWaitsForever(s, 16, more);
  }

  // Four CPUs: the BSP gives AP 1 up in the middle of its increment of cpu_online, and AP 1's store then undoes the
  // increments of AP 2 and AP 3. max is too small, AP 3 draws it and is in main() before the BSP has entered.
  const LOST_COUNT: seq<nat> := [0, 1, 0] + [0, 2, 2, 2, 0] + [0, 3, 3, 3, 0] + [1, 0, 0, 0] + [0, 0]
      + [2, 2, 2] + [3, 3] + [3] + [3, 3, 3]

  function Four(u: nat, online: nat, free: seq<bool>, cpus: seq<Cpu>, max: nat): State
  {
    State(u, online, free, {}, {1}, cpus, B.Init(4, 0).(max := max))
  }

  const WAITING: Cpu := Cpu(TakeLock, 0)
  const IN2: Cpu := Cpu(AtBarrier, 0)
  const IN3: Cpu := Cpu(AtBarrier, 1)

  lemma LostFirst()
    ensures Run(Step, Init(4, {}, 16), [0, 1, 0])
            == Four(2, 0, [true, false, true, true], [Cpu(CallNext, 0), Cpu(OnlineStore, 0), Cpu(Off, 0), Cpu(Off, 0)],
                17)
  {
    assert Init(4, {}, 16).cpus == [Cpu(CallNext, 0), Cpu(Off, 0), Cpu(Off, 0), Cpu(Off, 0)];
    assert Init(4, {}, 16).free == [true, true, true, true];
  }

  lemma LostSecond()
    ensures Run(Step, Four(2, 0, [true, false, true, true],
        [Cpu(CallNext, 0), Cpu(OnlineStore, 0), Cpu(Off, 0), Cpu(Off, 0)], 17),
                [0, 2, 2, 2, 0])
            == Four(3, 1, [true, false, false, true], [Cpu(CallNext, 0), Cpu(OnlineStore, 0), IN2, Cpu(Off, 0)], 17)
  {
  }

  lemma LostThird()
    ensures Run(Step, Four(3, 1, [true, false, false, true], [Cpu(CallNext, 0), Cpu(OnlineStore, 0), IN2, Cpu(Off, 0)],
        17),
                [0, 3, 3, 3, 0])
            == Four(4, 2, [true, false, false, false], [Cpu(CallNext, 0), Cpu(OnlineStore, 0), IN2, IN3], 17)
  {
  }

  lemma LostOnline()
    ensures Run(Step, Four(4, 2, [true, false, false, false], [Cpu(CallNext, 0), Cpu(OnlineStore, 0), IN2, IN3], 17),
        [1, 0, 0, 0])
            == Four(4, 2, [true, false, false, false], [Cpu(MaxLoad, 1), WAITING, IN2, IN3], 17)
  {
  }

  lemma LostMax()
    ensures Run(Step, Four(4, 2, [true, false, false, false], [Cpu(MaxLoad, 1), WAITING, IN2, IN3], 17), [0, 0])
            == Four(4, 2, [true, false, false, false], [Cpu(AwaitOthers, 2), WAITING, IN2, IN3], 2)
  {
  }

  function LostBar(cnt: nat, ap2: B.Cpu, ap3: B.Cpu): State
  {
    var idle := B.Cpu(B.Outside, 0, 0, 0, 0);
    Four(4, 2, [true, false, false, false], [Cpu(AwaitOthers, 2), WAITING, IN2, IN3], 2)
    .(bar := B.State(cnt, 0, 2, 0, [idle, idle, ap2, ap3], []))
  }

  lemma LostDraw2()
    ensures Run(Step, LostBar(0, B.Cpu(B.Outside, 0, 0, 0, 0), B.Cpu(B.Outside, 0, 0, 0, 0)), [2, 2, 2])
            == LostBar(1, B.Cpu(B.Spinning, 0, 1, 0, 0), B.Cpu(B.Outside, 0, 0, 0, 0))
  {
  }

  lemma LostDraw3()
    ensures Run(Step, LostBar(1, B.Cpu(B.Spinning, 0, 1, 0, 0), B.Cpu(B.Outside, 0, 0, 0, 0)), [3, 3])
            == LostBar(2, B.Cpu(B.Spinning, 0, 1, 0, 0), B.Cpu(B.Drawn, 0, 2, 0, 0))
  {
  }

  lemma LostLast()
    ensures Run(Step, LostBar(2, B.Cpu(B.Spinning, 0, 1, 0, 0), B.Cpu(B.Drawn, 0, 2, 0, 0)), [3])
            == LostBar(2, B.Cpu(B.Spinning, 0, 1, 0, 0), B.Cpu(B.Last, 0, 2, 0, 0))
  {
  }

  lemma LostRelease()
    ensures var s := Run(Step, LostBar(2, B.Cpu(B.Spinning, 0, 1, 0, 0), B.Cpu(B.Last, 0, 2, 0, 0)), [3, 3, 3]);
            InMain(s, 3) && !EnteredBarrier(s, 0)
  {
  }

  lemma LateStoreLosesCount()
    ensures var s := Run(Step, Init(4, {}, 16), LOST_COUNT); InMain(s, 3) && !EnteredBarrier(s, 0)
  {
    hide Run;
    var s0 := Init(4, {}, 16);
    LostFirst();
    LostSecond();
    RunConcat(Step, s0, [0, 1, 0], [0, 2, 2, 2, 0]);
    LostThird();
    RunConcat(Step, s0, [0, 1, 0] + [0, 2, 2, 2, 0], [0, 3, 3, 3, 0]);
    LostOnline();
    RunConcat(Step, s0, [0, 1, 0] + [0, 2, 2, 2, 0] + [0, 3, 3, 3, 0], [1, 0, 0, 0]);
    LostMax();
    RunConcat(Step, s0, [0, 1, 0] + [0, 2, 2, 2, 0] + [0, 3, 3, 3, 0] + [1, 0, 0, 0], [0, 0]);
    assert B.Init(4, 0).cpus == [B.Cpu(B.Outside, 0, 0, 0, 0), B.Cpu(B.Outside, 0, 0, 0, 0),
        B.Cpu(B.Outside, 0, 0, 0, 0), B.Cpu(B.Outside, 0, 0, 0, 0)];
    LostDraw2();
    RunConcat(Step, s0, [0, 1, 0] + [0, 2, 2, 2, 0] + [0, 3, 3, 3, 0] + [1, 0, 0, 0] + [0, 0], [2, 2, 2]);
    LostDraw3();
    var early := [0, 1, 0] + [0, 2, 2, 2, 0] + [0, 3, 3, 3, 0] + [1, 0, 0, 0] + [0, 0] + [2, 2, 2];
    RunConcat(Step, s0, early, [3, 3]);
    LostLast();
    RunConcat(Step, s0, early + [3, 3], [3]);
    LostRelease();
    RunConcat(Step, s0, early + [3, 3] + [3], [3, 3, 3]);
  }
}
