// Exactly when the rendezvous at the first global barrier (main.c:166-199) succeeds, seen from the moment at which the
// BSP has stored max: nobody is in main() before the BSP has let them, and all can get there.
module RendezvousExact {
  import opened Machine
  import B = Barrier
  import opened BootRendezvous

  // The BSP and the APs that got their wakelock have left the barrier.
  ghost predicate AllInMain(s: State)
  {
    forall v: nat | v == 0 || v in Winners(s) :: InMain(s, v)
  }

  ghost predicate MeetsWell(s: State)
  {
    && (forall more: seq<nat> :: BspLast(Run(Step, s, more)))
    && (exists more: seq<nat> :: AllInMain(Run(Step, s, more)))
  }

  // ---------------------------------------------------------------- as long as no AP has drawn max

  predicate TidyCpu(p: B.Cpu)
  {
    p.passed == 0 && p.e == 0 && p.pc in {B.Outside, B.Loaded, B.Drawn, B.Spinning}
  }

  // Everybody is on the way to the count or waiting with it, and the counter says how many.
  ghost predicate Tidy(s: State)
  {
    && |s.cpus| == |s.bar.cpus| > 0 && s.bar.epoch == 0 && s.bar.releasers == [] && s.bar.modulus == 0
    && s.bar.cnt == |Inside(s)|
    && forall v: nat | v < |s.cpus| :: TidyCpu(s.bar.cpus[v])
  }

  // An AP ends the episode, or has ended it.
  predicate BrokenBy(s: State, v: nat)
  {
    && 0 < v < |s.cpus| == |s.bar.cpus| && s.cpus[v].pc == AtBarrier
    && (|| v in s.bar.releasers
        || (s.bar.cpus[v].passed == 0 && (s.bar.cpus[v].pc == B.Last || B.Releasing(s.bar.cpus[v]))))
  }

  ghost predicate Broken(s: State)
  {
    exists v: nat :: BrokenBy(s, v)
  }

  ghost predicate BeforeBsp(s: State)
  {
    !EnteredBarrier(s, 0) ==> Tidy(s) || Broken(s)
  }

  // The step of a CPU at the barrier leaves the others' places alone.
  lemma BarrierShape(s: State, i: nat, v: nat)
    requires |s.cpus| == |s.bar.cpus| && i < |s.cpus| && s.cpus[i].pc == AtBarrier && v < |s.cpus|
    ensures var s' := Step(s, i);
            && s'.cpus == s.cpus && |s'.bar.cpus| == |s.bar.cpus| && (v != i ==> s'.bar.cpus[v] == s.bar.cpus[v])
            && (s.bar.releasers <= s'.bar.releasers)
            && (s.bar.cpus[i].pc != B.BumpStore ==> s'.bar.releasers == s.bar.releasers)
            && s'.bar.modulus == s.bar.modulus && s'.bar.max == s.bar.max
  {
  }

  lemma BrokenStays(s: State, i: nat, v: nat)
    requires Locks(s) && BrokenBy(s, v)
    ensures BrokenBy(Step(s, i), v)
  {
    if i < |s.cpus| {
      if s.cpus[i].pc == AtBarrier {
        BarrierShape(s, i, v);
        BrokenMoves(s, i, v);
      } else {
        BootShape(s, i);
      }
    } else {
      StepsNoOther(s, i);
    }
  }

  lemma BrokenMoves(s: State, i: nat, v: nat)
    requires BrokenBy(s, v) && i < |s.cpus| && s.cpus[i].pc == AtBarrier
    ensures BrokenBy(Step(s, i), v)
  {
    BarrierShape(s, i, v);
    if i == v && v !in s.bar.releasers {
      var p, q := s.bar.cpus[v], Step(s, i).bar.cpus[v];
      assert !InMain(s, v);
      assert p.pc == B.BumpStore ==> Step(s, i).bar.releasers == s.bar.releasers + [v];
      assert p.pc != B.BumpStore ==> q.passed == 0 && B.Releasing(q);
    } else if v in s.bar.releasers {
      assert v in Step(s, i).bar.releasers;
    }
  }

  lemma TidyBoot(s: State, i: nat)
    requires Locks(s) && Tidy(s) && i < |s.cpus| && s.cpus[i].pc != AtBarrier
    ensures Tidy(Step(s, i))
  {
    BootShape(s, i);
    InsideStep(s, i);
    hide Step, Locks;
  }

  // A step of the CPU itself, from a tidy state.
  lemma TidySelf(s: State, i: nat)
    requires Tidy(s) && i < |s.cpus| && s.cpus[i].pc == AtBarrier
        && !(s.bar.cpus[i].pc == B.Drawn && s.bar.cpus[i].c == s.bar.max)
    ensures |Step(s, i).bar.cpus| == |s.cpus| && TidyCpu(Step(s, i).bar.cpus[i])
    ensures Step(s, i).bar.epoch == 0 && Step(s, i).bar.releasers == []
    ensures Step(s, i).bar.cnt == s.bar.cnt + if Draws(s, i) then 1 else 0
  {
    assert TidyCpu(s.bar.cpus[i]);
  }

  lemma TidyBarrier(s: State, i: nat)
    requires Tidy(s) && i < |s.cpus| && s.cpus[i].pc == AtBarrier && !EnteredBarrier(s, 0)
    ensures Tidy(Step(s, i)) || Broken(Step(s, i))
  {
    BarrierShape(s, i, i);
    InsideStep(s, i);
    assert TidyCpu(s.bar.cpus[i]);
    if s.bar.cpus[i].pc == B.Drawn && s.bar.cpus[i].c == s.bar.max {
      assert BrokenBy(Step(s, i), i);
    } else {
      TidySelf(s, i);
      forall v: nat | v < |s.cpus| ensures TidyCpu(Step(s, i).bar.cpus[v]) {
        BarrierShape(s, i, v);
        assert TidyCpu(s.bar.cpus[v]);
      }
      hide Step, Inside;
    }
  }

  lemma BeforeStep(s: State, i: nat)
    requires Locks(s) && BeforeBsp(s)
    ensures BeforeBsp(Step(s, i))
  {
    if i < |s.cpus| {
      EnteredStays(s, i);
      if !EnteredBarrier(s, 0) {
        if Broken(s) {
          var v: nat :| BrokenBy(s, v);
          BrokenStays(s, i, v);
        } else if s.cpus[i].pc == AtBarrier {
          TidyBarrier(s, i);
        } else {
          TidyBoot(s, i);
        }
      }
      hide Step, Locks, BrokenBy, Tidy;
    } else {
      StepsNoOther(s, i);
    }
  }

  lemma EnteredStays(s: State, i: nat)
    requires Locks(s)
    ensures EnteredBarrier(s, 0) ==> EnteredBarrier(Step(s, i), 0)
  {
    InsideStep(s, i);
    assert 0 in Inside(s) <==> EnteredBarrier(s, 0);
    assert 0 in Inside(Step(s, i)) <==> EnteredBarrier(Step(s, i), 0);
    hide Step;
  }

  lemma BeforeReachable(n: nat, skip: set<nat>, maxCpu: nat, schedule: seq<nat>)
    requires 0 < n <= maxCpu
    ensures var s := Run(Step, Init(n, skip, maxCpu), schedule); BootInv(s, maxCpu) && BeforeBsp(s)
  {
    var s0 := Init(n, skip, maxCpu);
    BootReachable(n, skip, maxCpu, []);
    assert Inside(s0) == {};
    assert Tidy(s0);
    forall s, i | BootInv(s, maxCpu) && BeforeBsp(s) ensures BootInv(Step(s, i), maxCpu) && BeforeBsp(Step(s, i)) {
      BootStep(s, maxCpu, i);
      BeforeStep(s, i);
    }
    hide BootInv, BeforeBsp, Step, Init;
    Invariance(Step, s => BootInv(s, maxCpu) && BeforeBsp(s), s0, schedule);
  }

  // ---------------------------------------------------------------- max too small

  // An AP that ends the episode takes three steps at most to be logged as the one that did.
  lemma {:induction false} BrokenFails(s: State, v: nat) returns (more: seq<nat>)
    requires BrokenBy(s, v)
    ensures !BspLast(Run(Step, s, more))
    decreases v !in s.bar.releasers, StepsLeft(s, v)
  {
    if v in s.bar.releasers {
      more := [];
    } else {
      BrokenMoves(s, v, v);
      BrokenNearer(s, v);
      var rest := BrokenFails(Step(s, v), v);
      more := [v] + rest;
      RunCons(Step, s, v, rest);
    }
  }

  function StepsLeft(s: State, v: nat): nat
  {
    if v >= |s.bar.cpus| then 0 else
    match s.bar.cpus[v].pc
    case Last => 3
    case BumpLoad => 2
    case _ => 1
  }

  lemma BrokenNearer(s: State, v: nat)
    requires BrokenBy(s, v) && v !in s.bar.releasers
    ensures v in Step(s, v).bar.releasers || StepsLeft(Step(s, v), v) < StepsLeft(s, v)
  {
    assert !InMain(s, v);
  }

  // max counts fewer than the BSP and the APs at the barrier, and the BSP has not drawn its count.
  ghost predicate Short(s: State, maxCpu: nat)
  {
    && BootInv(s, maxCpu) && BeforeBsp(s) && MaxSet(s) && s.bar.max <= |Winners(s)| && !EnteredBarrier(s, 0)
  }

  // The BSP's count would have to be max, and that all APs are inside, but then it is more than max.
  lemma BspDrawsTooMuch(s: State, maxCpu: nat)
    requires Short(s, maxCpu) && Tidy(s) && Draws(s, 0)
    ensures !BspLast(Step(s, 0))
  {
    InsideStep(s, 0);
    DrawShape(s, 0);
    var s' := Step(s, 0);
    hide Step, BootInv, BeforeBsp, Tidy;
    assert s.bar.cnt == |Inside(s)| by { TidyCount(s); }
    assert Winners(s') == Winners(s);
    if Winners(s) <= Inside(s') {
      assert Winners(s) <= Inside(s);
      B.Subset(Winners(s), Inside(s));
    }
  }

  lemma TidyCount(s: State)
    requires Tidy(s)
    ensures s.bar.cnt == |Inside(s)|
  {
  }

  lemma DrawsOrNot(s: State)
    requires Locks(s) && !EnteredBarrier(s, 0) && EnteredBarrier(Step(s, 0), 0)
    ensures Draws(s, 0)
  {
    InsideStep(s, 0);
    assert 0 !in Inside(s) && 0 in Inside(Step(s, 0));
  }

  lemma OthersDoNotDraw(s: State, i: nat)
    requires Locks(s) && !EnteredBarrier(s, 0) && i != 0
    ensures !EnteredBarrier(Step(s, i), 0)
  {
    InsideStep(s, i);
    assert 0 !in Inside(s);
    assert 0 !in Inside(Step(s, i));
  }

  lemma ShortStep(s: State, maxCpu: nat, i: nat)
    requires Short(s, maxCpu) && Tidy(s) && BspLast(Step(s, i)) && !Broken(Step(s, i))
    ensures Short(Step(s, i), maxCpu) && Tidy(Step(s, i))
  {
    hide Step, BspLast, Broken, Tidy, Locks, Counting, Meeting, Winners;
    BootStep(s, maxCpu, i);
    BeforeStep(s, i);
    MaxStays(s, i);
    if EnteredBarrier(Step(s, i), 0) {
      if i == 0 {
        DrawsOrNot(s);
        BspDrawsTooMuch(s, maxCpu);
      } else {
        OthersDoNotDraw(s, i);
      }
    }
  }

  // Once max is stored, neither max nor the set of APs at the barrier changes.
  lemma MaxStays(s: State, i: nat)
    requires Locks(s)
    ensures MaxSet(s) ==> MaxSet(Step(s, i)) && Step(s, i).bar.max == s.bar.max && Winners(Step(s, i)) == Winners(s)
  {
    if i < |s.cpus| {
      LateLocksFail(s, i);
      if s.cpus[i].pc != AtBarrier { BootShape(s, i); } else { BarrierShape(s, i, i); }
      hide Step, Locks, Winners;
    } else {
      StepsNoOther(s, i);
    }
  }

  // If nothing ever goes wrong, the BSP never draws its count.
  lemma {:induction false} ShortNeverMeets(s: State, maxCpu: nat, more: seq<nat>)
    requires Short(s, maxCpu) && Tidy(s) && forall t: seq<nat> :: BspLast(Run(Step, s, t))
    ensures !EnteredBarrier(Run(Step, s, more), 0)
    decreases |more|
  {
    if more != [] {
      var i, s' := more[0], Step(s, more[0]);
      forall t: seq<nat> ensures BspLast(Run(Step, s', t)) {
        RunCons(Step, s, i, t);
      }
      assert BspLast(s') by { assert Run(Step, s', []) == s'; }
      NotBroken(s');
      ShortStep(s, maxCpu, i);
      ShortNeverMeets(s', maxCpu, more[1..]);
    }
  }

  lemma NotBroken(s: State)
    requires forall t: seq<nat> :: BspLast(Run(Step, s, t))
    ensures !Broken(s)
  {
    if v: nat :| BrokenBy(s, v) {
      var more := BrokenFails(s, v);
    }
  }

  lemma ShortFails(s: State, maxCpu: nat)
    requires Short(s, maxCpu)
    ensures !MeetsWell(s)
  {
    hide BspLast, Short, Tidy, AllInMain;
    if MeetsWell(s) {
      NotBroken(s);
      assert Tidy(s) by { ShortIsTidy(s, maxCpu); }
      var more: seq<nat> :| AllInMain(Run(Step, s, more));
      ShortNeverMeets(s, maxCpu, more);
      NotAllIn(Run(Step, s, more));
    }
  }

  lemma NotAllIn(s: State)
    requires !EnteredBarrier(s, 0)
    ensures !AllInMain(s)
  {
    assert !InMain(s, 0);
  }

  lemma ShortIsTidy(s: State, maxCpu: nat)
    requires Short(s, maxCpu) && !Broken(s)
    ensures Tidy(s)
  {
  }

  // ---------------------------------------------------------------- max too large

  lemma LargeFails(s: State, maxCpu: nat)
    requires Overcounted(s, maxCpu)
    ensures !MeetsWell(s)
  {
    hide AllInMain, EnteredBarrier, Overcounted;
    forall more: seq<nat> ensures !AllInMain(Run(Step, s, more)) {
      BspWaitsForever(s, maxCpu, more);
      NotAllIn(Run(Step, s, more));
    }
  }

  // ---------------------------------------------------------------- max exact

  ghost predicate Ready(s: State, maxCpu: nat)
  {
    BootInv(s, maxCpu) && MaxSet(s) && Exact(s)
  }

  lemma ReadyStep(s: State, maxCpu: nat, i: nat)
    requires Ready(s, maxCpu)
    ensures Ready(Step(s, i), maxCpu)
  {
    BootStep(s, maxCpu, i);
    MaxStays(s, i);
    hide Step, BootInv, Winners;
  }

  lemma ReadyIsSafe(s: State, maxCpu: nat)
    requires Ready(s, maxCpu)
    ensures BspLast(s)
  {
    if Gathering(s) { GatheringIsSafe(s, maxCpu); } else { ReleasedIsSafe(s); }
  }

  lemma {:induction false} ReadyForever(s: State, maxCpu: nat, more: seq<nat>)
    requires Ready(s, maxCpu)
    ensures BspLast(Run(Step, s, more))
    decreases |more|
  {
    if more == [] {
      ReadyIsSafe(s, maxCpu);
    } else {
      ReadyStep(s, maxCpu, more[0]);
      ReadyForever(Step(s, more[0]), maxCpu, more[1..]);
    }
  }

  // How far a CPU is from main().
  function Todo(s: State, v: nat): nat
  {
    if v >= |s.cpus| || v >= |s.bar.cpus| then 0
    else if s.cpus[v].pc == AwaitOthers then 8
    else if s.cpus[v].pc != AtBarrier || InMain(s, v) then 0
    else
      match s.bar.cpus[v].pc
      case Outside => 7
      case Loaded => 6
      case Drawn => 5
      case Last => 4
      case BumpLoad => 3
      case BumpStore => 2
      case Spinning => 1
  }

  function AllTodo(s: State, n: nat): nat
  {
    if n == 0 then 0 else AllTodo(s, n - 1) + Todo(s, n - 1)
  }

  lemma {:induction false} LessTodo(s: State, s': State, n: nat, i: nat)
    requires forall v: nat | v != i :: Todo(s', v) == Todo(s, v)
    requires Todo(s', i) < Todo(s, i)
    ensures i < n ==> AllTodo(s', n) < AllTodo(s, n)
    ensures i >= n ==> AllTodo(s', n) == AllTodo(s, n)
  {
    if n > 0 { LessTodo(s, s', n - 1, i); }
  }

  lemma OwnTodo(s: State, i: nat)
    requires |s.cpus| == |s.bar.cpus| && i < |s.cpus| && (s.cpus[i].pc == AwaitOthers || s.cpus[i].pc == AtBarrier)
    requires s.cpus[i].pc == AwaitOthers ==> Fresh(s.bar.cpus[i])
    ensures CanMove(s, i) ==> Todo(Step(s, i), i) < Todo(s, i)
  {
    assert s.bar.cpus[i := s.bar.cpus[i]] == s.bar.cpus;
  }

  lemma OtherTodo(s: State, i: nat, v: nat)
    requires |s.cpus| == |s.bar.cpus| && i < |s.cpus| && (s.cpus[i].pc == AwaitOthers || s.cpus[i].pc == AtBarrier)
        && v != i
    ensures Todo(Step(s, i), v) == Todo(s, v)
  {
  }

  lemma ProgressMade(s: State, maxCpu: nat, i: nat)
    requires Ready(s, maxCpu) && (i == 0 || i in Winners(s)) && CanMove(s, i)
    ensures |Step(s, i).cpus| == |s.cpus| && AllTodo(Step(s, i), |s.cpus|) < AllTodo(s, |s.cpus|)
  {
    InsideStep(s, i);
    hide Step, Locks, Meeting, Todo, AllTodo;
    OwnTodo(s, i);
    forall v: nat | v != i ensures Todo(Step(s, i), v) == Todo(s, v) {
      OtherTodo(s, i, v);
    }
    LessTodo(s, Step(s, i), |s.cpus|, i);
  }

  lemma {:induction false} AllGetThere(s: State, maxCpu: nat) returns (more: seq<nat>)
    requires Ready(s, maxCpu)
    ensures AllInMain(Run(Step, s, more))
    decreases AllTodo(s, |s.cpus|)
  {
    hide BootInv, Exact, CanMove, Winners, InMain, Todo, AllTodo;
    if AllInMain(s) {
      more := [];
    } else {
      var i := MeetingMoves(s, maxCpu);
      ProgressMade(s, maxCpu, i);
      ReadyStep(s, maxCpu, i);
      var rest := AllGetThere(Step(s, i), maxCpu);
      more := [i] + rest;
      RunCons(Step, s, i, rest);
    }
  }

  lemma ExactMeets(s: State, maxCpu: nat)
    requires Ready(s, maxCpu)
    ensures MeetsWell(s)
  {
    hide Ready, BspLast, AllInMain;
    forall more: seq<nat> ensures BspLast(Run(Step, s, more)) {
      ReadyForever(s, maxCpu, more);
    }
    var more := AllGetThere(s, maxCpu);
  }

  // ---------------------------------------------------------------- the condition

  // In every state that the boot reaches with the BSP waiting at main.c:169: whatever happens next, nobody is in main()
  // before the BSP, which draws max after all others and alone releases them, and all can get there, if and only if max
  // counts the BSP and the APs that got their wakelock.
  lemma MeetsExactlyWhenExact(n: nat, skip: set<nat>, maxCpu: nat, schedule: seq<nat>)
    requires 0 < n <= maxCpu
    ensures var s := Run(Step, Init(n, skip, maxCpu), schedule);
            |s.cpus| > 0 && (s.cpus[0].pc == AwaitOthers ==> (MeetsWell(s) <==> Exact(s)))
  {
    BeforeReachable(n, skip, maxCpu, schedule);
    var s := Run(Step, Init(n, skip, maxCpu), schedule);
    hide Run, MeetsWell, BspLast, Locks, Meeting, Winners, Tidy, Broken;
    if s.cpus[0].pc == AwaitOthers {
      assert Fresh(s.bar.cpus[0]);
      if s.bar.max > |Winners(s)| + 1 {
        LargeFails(s, maxCpu);
      } else if s.bar.max <= |Winners(s)| {
        ShortFails(s, maxCpu);
      } else {
        ExactMeets(s, maxCpu);
      }
    }
  }

  // ---------------------------------------------------------------- two more runs

  // Being late does no harm to the others as long as it does not count: the BSP gives AP 1 up before AP 1 has touched
  // cpu_online.
  const LATE_UNCOUNTED: seq<nat> := [0, 0, 0] + [0, 0] + [0, 0]

  lemma LateGivenUpEarly()
    ensures Run(Step, Init(2, {}, 16), [0, 0, 0])
            == LateState(2, 0, [true, false], {1}, Cpu(OnlineLoad, 0), Cpu(OnlineLoad, 0), 17)
  {
    assert Init(2, {}, 16) == LateState(1, 0, [true, true], {}, Cpu(CallNext, 0), Cpu(Off, 0), 17);
  }

  lemma LateBspCounts()
    ensures Run(Step, LateState(2, 0, [true, false], {1}, Cpu(OnlineLoad, 0), Cpu(OnlineLoad, 0), 17), [0, 0])
            == LateState(2, 1, [true, false], {1}, Cpu(MaxLoad, 0), Cpu(OnlineLoad, 0), 17)
  {
  }

  lemma LateBspStores()
    ensures Run(Step, LateState(2, 1, [true, false], {1}, Cpu(MaxLoad, 0), Cpu(OnlineLoad, 0), 17), [0, 0])
            == LateState(2, 1, [true, false], {1}, Cpu(AwaitOthers, 1), Cpu(OnlineLoad, 0), 1)
  {
  }

  lemma LateYetExact()
    ensures var s := Run(Step, Init(2, {}, 16), LATE_UNCOUNTED); s.late == {1} && MaxSet(s) && Exact(s)
  {
    hide Run, Step;
    var s0 := Init(2, {}, 16);
    LateGivenUpEarly();
    LateBspCounts();
    LateBspStores();
    RunConcat(Step, s0, [0, 0, 0], [0, 0]);
    RunConcat(Step, s0, [0, 0, 0] + [0, 0], [0, 0]);
    assert Winners(LateState(2, 1, [true, false], {1}, Cpu(AwaitOthers, 1), Cpu(OnlineLoad, 0), 1)) == {};
  }

  // As in LateStoreLosesCount, but AP 2 and AP 3 compare their counts with the initial max before the BSP stores its
  // own: all three wait with counts that are not 2, and AP 1 waits for its wakelock.
  const LOST_AND_STUCK: seq<nat> :=
    [0, 1, 0] + [0, 2, 2, 2, 0] + [0, 3, 3, 3, 0] + [2, 2, 2] + [3, 3, 3] + [1, 0, 0, 0] + [0, 0, 0] + [0, 0, 0]

  function Stage(online: nat, bsp: Cpu, late: Cpu, cnt: nat, max: nat, bars: seq<B.Cpu>): State
  {
    Four(4, online, [true, false, false, false], [bsp, late, IN2, IN3], max).(bar := B.State(cnt, 0, max, 0, bars, []))
  }

  const IDLE: B.Cpu := B.Cpu(B.Outside, 0, 0, 0, 0)
  const CALLING: Cpu := Cpu(CallNext, 0)
  const STORING: Cpu := Cpu(OnlineStore, 0)

  function Spins(c: nat): B.Cpu
  {
    B.Cpu(B.Spinning, 0, c, 0, 0)
  }

  lemma StuckSecond()
    ensures Run(Step, Stage(2, CALLING, STORING, 0, 17, [IDLE, IDLE, IDLE, IDLE]), [2, 2, 2])
            == Stage(2, CALLING, STORING, 1, 17, [IDLE, IDLE, Spins(1), IDLE])
  {
  }

  lemma StuckThird()
    ensures Run(Step, Stage(2, CALLING, STORING, 1, 17, [IDLE, IDLE, Spins(1), IDLE]), [3, 3, 3])
            == Stage(2, CALLING, STORING, 2, 17, [IDLE, IDLE, Spins(1), Spins(2)])
  {
  }

  lemma StuckOnline()
    ensures Run(Step, Stage(2, CALLING, STORING, 2, 17, [IDLE, IDLE, Spins(1), Spins(2)]), [1, 0, 0, 0])
            == Stage(2, Cpu(MaxLoad, 1), WAITING, 2, 17, [IDLE, IDLE, Spins(1), Spins(2)])
  {
  }

  lemma StuckMax()
    ensures Run(Step, Stage(2, Cpu(MaxLoad, 1), WAITING, 2, 17, [IDLE, IDLE, Spins(1), Spins(2)]), [0, 0, 0])
            == Stage(2, Cpu(AtBarrier, 2), WAITING, 2, 2, [IDLE, IDLE, Spins(1), Spins(2)])
  {
  }

  lemma StuckBsp()
    ensures Run(Step, Stage(2, Cpu(AtBarrier, 2), WAITING, 2, 2, [IDLE, IDLE, Spins(1), Spins(2)]), [0, 0, 0])
            == Stage(2, Cpu(AtBarrier, 2), WAITING, 3, 2, [Spins(3), IDLE, Spins(1), Spins(2)])
  {
  }

  lemma NobodyMoves(i: nat)
    ensures !CanMove(Stage(2, Cpu(AtBarrier, 2), WAITING, 3, 2, [Spins(3), IDLE, Spins(1), Spins(2)]), i)
    ensures !InMain(Stage(2, Cpu(AtBarrier, 2), WAITING, 3, 2, [Spins(3), IDLE, Spins(1), Spins(2)]), i)
  {
  }

  lemma LateStoreLeavesAllStuck(i: nat)
    ensures !CanMove(Run(Step, Init(4, {}, 16), LOST_AND_STUCK), i)
    ensures !InMain(Run(Step, Init(4, {}, 16), LOST_AND_STUCK), i)
  {
    hide Run, Step, CanMove, InMain;
    var s0 := Init(4, {}, 16);
    var called := [0, 1, 0] + [0, 2, 2, 2, 0] + [0, 3, 3, 3, 0];
    LostFirst();
    LostSecond();
    LostThird();
    RunConcat(Step, s0, [0, 1, 0], [0, 2, 2, 2, 0]);
    RunConcat(Step, s0, [0, 1, 0] + [0, 2, 2, 2, 0], [0, 3, 3, 3, 0]);
    assert Run(Step, s0, called) == Stage(2, CALLING, STORING, 0, 17, [IDLE, IDLE, IDLE, IDLE]) by {
      assert B.Init(4, 0).cpus == [IDLE, IDLE, IDLE, IDLE];
    }
    StuckSecond();
    RunConcat(Step, s0, called, [2, 2, 2]);
    StuckThird();
    RunConcat(Step, s0, called + [2, 2, 2], [3, 3, 3]);
    StuckOnline();
    RunConcat(Step, s0, called + [2, 2, 2] + [3, 3, 3], [1, 0, 0, 0]);
    StuckMax();
    RunConcat(Step, s0, called + [2, 2, 2] + [3, 3, 3] + [1, 0, 0, 0], [0, 0, 0]);
    StuckBsp();
    RunConcat(Step, s0, called + [2, 2, 2] + [3, 3, 3] + [1, 0, 0, 0] + [0, 0, 0], [0, 0, 0]);
    NobodyMoves(i);
  }
}
