// The counter/epoch barrier of sync.c:116-148, called any number of times by exactly `max` CPUs.
module Barrier {
  import opened Machine

  // The next shared access of a CPU that is calling barrier().
  datatype Pc =
    | Outside   // not inside; its next step loads the epoch (sync.c:121)
    | Loaded    // about to add to the counter (sync.c:124)
    | Drawn     // about to compare its count with max (sync.c:133)
    | Spinning  // about to load the epoch again (sync.c:144)
    | Last      // drew max; about to reset the counter (sync.c:137)
    | BumpLoad  // about to load the epoch for the increment (sync.c:140)
    | BumpStore // about to store the incremented epoch (sync.c:140)

  // e, c are the locals of barrier(), t the value loaded by `epoch++`; passed counts completed calls.
  datatype Cpu = Cpu(pc: Pc, e: nat, c: nat, t: nat, passed: nat)

  // modulus 0 stands for an epoch that never wraps; releasers logs which CPU ended each episode.
  datatype State = State(cnt: nat, epoch: nat, max: nat, modulus: nat, cpus: seq<Cpu>, releasers: seq<nat>)

  function Init(n: nat, modulus: nat): State
  {
    State(0, 0, n, modulus, seq(n, i => Cpu(Outside, 0, 0, 0, 0)), [])
  }

  function Wrap(x: nat, modulus: nat): nat
  {
    if modulus == 0 then x else x % modulus
  }

  // One shared access by CPU i; an i that is no CPU changes nothing.
  function Step(s: State, i: nat): (r: State)
    ensures |r.cpus| == |s.cpus|
  {
    if i >= |s.cpus| then s else
    var p := s.cpus[i];
    match p.pc
    case Outside => s.(cpus := s.cpus[i := p.(pc := Loaded, e := s.epoch)])
    case Loaded => s.(cnt := s.cnt + 1, cpus := s.cpus[i := p.(pc := Drawn, c := s.cnt + 1)])
    case Drawn => s.(cpus := s.cpus[i := p.(pc := if p.c == s.max then Last else Spinning)])
    case Spinning =>
      if p.e == s.epoch then s
      else s.(cpus := s.cpus[i := p.(pc := Outside, passed := p.passed + 1)])
    case Last => s.(cnt := 0, cpus := s.cpus[i := p.(pc := BumpLoad)])
    case BumpLoad => s.(cpus := s.cpus[i := p.(pc := BumpStore, t := s.epoch)])
    case BumpStore =>
      s.(epoch := Wrap(p.t + 1, s.modulus),
         cpus := s.cpus[i := p.(pc := Outside, passed := p.passed + 1)],
         releasers := s.releasers + [i])
  }

  predicate Inside(p: Cpu)
  {
    p.pc != Outside && p.pc != Loaded
  }

  // How many episodes a CPU has entered, by adding itself to the counter.
  function Entered(p: Cpu): nat
  {
    p.passed + if Inside(p) then 1 else 0
  }

  // ---------------------------------------------------------------- the invariant, for an epoch that never wraps

  predicate Releasing(p: Cpu)
  {
    p.pc == BumpLoad || p.pc == BumpStore
  }

  predicate SameEpisode(p: Cpu, q: Cpu)
  {
    Inside(p) && Inside(q) && p.passed == q.passed
  }

  predicate Arrived(s: State, i: nat)
  {
    i < |s.cpus| && Inside(s.cpus[i]) && s.cpus[i].passed == s.epoch
  }

  ghost function ArrivedSet(s: State): set<nat>
  {
    set i: nat | i < |s.cpus| && Arrived(s, i)
  }

  predicate CpuOk(s: State, p: Cpu)
  {
    match p.pc
    case Outside => p.passed == s.epoch
    case Loaded => p.passed == s.epoch && p.e == s.epoch
    case Drawn => p.e == p.passed && 1 <= p.c <= s.max
        && (p.passed == s.epoch || (p.passed + 1 == s.epoch && p.c != s.max))
    case Spinning => p.e == p.passed && 1 <= p.c < s.max && (p.passed == s.epoch || p.passed + 1 == s.epoch)
    case _ => p.passed == p.e == s.epoch && p.c == s.max && (p.pc == BumpStore ==> p.t == s.epoch)
  }

  ghost predicate ResetDone(s: State)
  {
    exists i: nat :: i < |s.cpus| && Releasing(s.cpus[i])
  }

  predicate AllOk(s: State)
  {
    forall i: nat | i < |s.cpus| :: CpuOk(s, s.cpus[i])
  }

  // A CPU in the current episode drew no more than the number that arrived, and one of them drew just that.
  ghost predicate Counted(s: State)
  {
    && (forall i: nat | Arrived(s, i) :: s.cpus[i].c <= |ArrivedSet(s)|)
    && (ArrivedSet(s) != {} ==> exists i: nat :: Arrived(s, i) && s.cpus[i].c == |ArrivedSet(s)|)
  }

  predicate Distinct(s: State)
  {
    forall i: nat, j: nat | i < |s.cpus| && j < |s.cpus| && i != j && SameEpisode(s.cpus[i], s.cpus[j]) ::
      s.cpus[i].c != s.cpus[j].c
  }

  // The counter holds the number of arrivals until the last of them resets it.
  ghost predicate CounterOk(s: State)
  {
    if ResetDone(s) then s.cnt == 0 && |ArrivedSet(s)| == s.max else s.cnt == |ArrivedSet(s)|
  }

  ghost predicate Inv(s: State)
  {
    && s.modulus == 0 && |s.cpus| == s.max && s.epoch == |s.releasers|
    && AllOk(s) && Counted(s) && Distinct(s) && CounterOk(s)
  }

  ghost function Below(n: nat): (r: set<nat>)
    ensures |r| == n
    ensures forall i: nat :: i in r <==> i < n
  {
    if n == 0 then {} else Below(n - 1) + {n - 1}
  }

  // All CPUs have arrived exactly when the arrival set is as large as the machine.
  lemma ArrivedBound(s: State)
    ensures |ArrivedSet(s)| <= |s.cpus|
    ensures |ArrivedSet(s)| == |s.cpus| <==> forall i: nat | i < |s.cpus| :: Arrived(s, i)
  {
    var all := Below(|s.cpus|);
    Subset(ArrivedSet(s), all);
    if |ArrivedSet(s)| == |s.cpus| {
      forall i: nat | i < |s.cpus| ensures Arrived(s, i) {
        assert i in all;
      }
    }
    if forall i: nat | i < |s.cpus| :: Arrived(s, i) {
      assert ArrivedSet(s) == all;
    }
  }

  lemma {:induction false} Subset(a: set<nat>, b: set<nat>)
    requires a <= b
    ensures |a| <= |b|
    ensures |a| == |b| <==> a == b
  {
    assert b == a + (b - a);
    assert |b| == |a| + |b - a|;
  }

  // A step by CPU i leaves the others and the number of participants alone.
  predicate Beside(s: State, s': State, i: nat)
  {
    && i < |s.cpus| == |s'.cpus| && s'.max == s.max && s'.modulus == s.modulus
    && forall j: nat | j < |s.cpus| && j != i :: s'.cpus[j] == s.cpus[j]
  }

  // A step by which CPU i neither enters nor leaves an episode and keeps its count.
  predicate Inner(s: State, s': State, i: nat)
  {
    && Beside(s, s', i) && s'.epoch == s.epoch && s'.releasers == s.releasers
    && var p, q := s.cpus[i], s'.cpus[i];
       q.passed == p.passed && q.c == p.c && Inside(q) == Inside(p)
  }

  lemma InnerKeepsArrivals(s: State, s': State, i: nat)
    requires Inner(s, s', i)
    ensures ArrivedSet(s') == ArrivedSet(s)
    ensures Counted(s) ==> Counted(s')
    ensures Distinct(s) ==> Distinct(s')
  {
    assert forall j: nat :: Arrived(s', j) == Arrived(s, j);
    assert forall j: nat | j < |s.cpus| :: s'.cpus[j].c == s.cpus[j].c;
    assert forall j: nat, k: nat | j < |s.cpus| && k < |s.cpus| ::
        SameEpisode(s'.cpus[j], s'.cpus[k]) == SameEpisode(s.cpus[j], s.cpus[k]);
    if Counted(s) && ArrivedSet(s) != {} {
      var j: nat :| Arrived(s, j) && s.cpus[j].c == |ArrivedSet(s)|;
      assert Arrived(s', j);
    }
  }

  // CPU i starts, compares its count, finds a new epoch or reloads the epoch.
  lemma StepQuiet(s: State, i: nat)
    requires Inv(s) && i < |s.cpus| && s.cpus[i].pc in {Outside, Drawn, BumpLoad}
    ensures Inv(Step(s, i))
  {
    hide Counted, Distinct;
    var s' := Step(s, i);
    assert CpuOk(s, s.cpus[i]);
    InnerKeepsArrivals(s, s', i);
    assert forall j: nat | j < |s.cpus| :: CpuOk(s', s'.cpus[j]) by {
      assert forall j: nat | j < |s.cpus| :: CpuOk(s, s.cpus[j]);
    }
    SameResets(s, s', i);
  }

  lemma SameResets(s: State, s': State, i: nat)
    requires Beside(s, s', i) && Releasing(s'.cpus[i]) == Releasing(s.cpus[i])
    ensures ResetDone(s') == ResetDone(s)
  {
    assert forall j: nat | j < |s.cpus| :: Releasing(s'.cpus[j]) == Releasing(s.cpus[j]);
  }

  lemma StepSpinning(s: State, i: nat)
    requires Inv(s) && i < |s.cpus| && s.cpus[i].pc == Spinning
    ensures Inv(Step(s, i))
  {
    hide Counted, Distinct;
    var s' := Step(s, i);
    var p := s.cpus[i];
    assert CpuOk(s, p);
    if p.e != s.epoch {
      assert Beside(s, s', i);
      assert forall j: nat | j < |s.cpus| :: CpuOk(s', s'.cpus[j]) by {
        assert forall j: nat | j < |s.cpus| :: CpuOk(s, s.cpus[j]);
      }
      LeavesKeepsRest(s, s', i);
      SameResets(s, s', i);
    }
  }

  // A CPU that was not among the arrivals leaves.
  lemma LeavesKeepsRest(s: State, s': State, i: nat)
    requires Beside(s, s', i) && !Inside(s'.cpus[i]) && !Arrived(s, i) && s'.epoch == s.epoch
    requires Counted(s) && Distinct(s)
    ensures ArrivedSet(s') == ArrivedSet(s) && Counted(s') && Distinct(s')
  {
    assert forall j: nat :: Arrived(s', j) == Arrived(s, j);
    if ArrivedSet(s) != {} {
      var j: nat :| Arrived(s, j) && s.cpus[j].c == |ArrivedSet(s)|;
      assert Arrived(s', j);
    }
    forall j: nat, k: nat | j < |s.cpus| && k < |s.cpus| && j != k && SameEpisode(s'.cpus[j], s'.cpus[k])
      ensures s'.cpus[j].c != s'.cpus[k].c
    {
      assert SameEpisode(s.cpus[j], s.cpus[k]);
    }
  }

  // CPU i draws the next count.
  predicate Draws(s: State, s': State, i: nat)
  {
    && Beside(s, s', i) && s'.epoch == s.epoch && !Inside(s.cpus[i]) && Arrived(s', i)
  }

  lemma DrawsArrives(s: State, s': State, i: nat)
    requires Draws(s, s', i)
    ensures i !in ArrivedSet(s) && ArrivedSet(s') == ArrivedSet(s) + {i}
    ensures |ArrivedSet(s')| == |ArrivedSet(s)| + 1 <= |s.cpus|
  {
    assert forall j: nat | j != i :: Arrived(s', j) == Arrived(s, j);
    ArrivedBound(s');
  }

  lemma DrawsCounted(s: State, s': State, i: nat)
    requires Draws(s, s', i) && Counted(s) && Distinct(s)
    requires s'.cpus[i].c == |ArrivedSet(s)| + 1
    ensures Counted(s') && Distinct(s')
  {
    DrawsArrives(s, s', i);
    forall j: nat | Arrived(s', j) && j != i ensures s'.cpus[j].c <= |ArrivedSet(s)| {
      assert Arrived(s, j);
    }
    assert Arrived(s', i);
    forall j: nat, k: nat | j < |s.cpus| && k < |s.cpus| && j != k && SameEpisode(s'.cpus[j], s'.cpus[k])
      ensures s'.cpus[j].c != s'.cpus[k].c
    {
      if j == i {
        assert Arrived(s', k);
      } else if k == i {
        assert Arrived(s', j);
      } else {
        assert SameEpisode(s.cpus[j], s.cpus[k]);
      }
    }
  }

  // While a CPU has not arrived, the counter has not been reset.
  lemma NotYetReset(s: State, i: nat)
    requires Inv(s) && i < |s.cpus| && !Arrived(s, i)
    ensures !ResetDone(s)
  {
    hide Counted, Distinct, AllOk;
    ArrivedBound(s);
  }

  lemma StepLoaded(s: State, i: nat)
    requires Inv(s) && i < |s.cpus| && s.cpus[i].pc == Loaded
    ensures Inv(Step(s, i))
  {
    hide Counted, Distinct;
    var s' := Step(s, i);
    assert CpuOk(s, s.cpus[i]);
    DrawsArrives(s, s', i);
    NotYetReset(s, i);
    DrawsCounted(s, s', i);
    assert forall j: nat | j < |s.cpus| :: CpuOk(s', s'.cpus[j]) by {
      assert forall j: nat | j < |s.cpus| :: CpuOk(s, s.cpus[j]);
    }
    SameResets(s, s', i);
  }

  lemma StepLast(s: State, i: nat)
    requires Inv(s) && i < |s.cpus| && s.cpus[i].pc == Last
    ensures Inv(Step(s, i))
  {
    hide Counted, Distinct;
    var s' := Step(s, i);
    assert CpuOk(s, s.cpus[i]);
    ArrivedBound(s);
    assert Arrived(s, i);
    InnerKeepsArrivals(s, s', i);
    assert forall j: nat | j < |s.cpus| :: CpuOk(s', s'.cpus[j]) by {
      assert forall j: nat | j < |s.cpus| :: CpuOk(s, s.cpus[j]);
    }
    assert Releasing(s'.cpus[i]);
  }

  // The CPU that ends the episode finds every CPU inside it, and all but itself with a count below max.
  lemma AllArrived(s: State, i: nat, j: nat)
    requires Inv(s) && i < |s.cpus| && Releasing(s.cpus[i]) && j < |s.cpus|
    ensures Arrived(s, j) && (j != i ==> s.cpus[j].c != s.max && (s.cpus[j].pc == Drawn || s.cpus[j].pc == Spinning))
  {
    assert CpuOk(s, s.cpus[i]) && CpuOk(s, s.cpus[j]);
    ArrivedBound(s);
    assert ResetDone(s);
    assert Arrived(s, i) && Arrived(s, j);
    assert SameEpisode(s.cpus[i], s.cpus[j]);
  }

  lemma StepBumpStore(s: State, i: nat)
    requires Inv(s) && i < |s.cpus| && s.cpus[i].pc == BumpStore
    ensures Inv(Step(s, i))
  {
    var s' := Step(s, i);
    assert CpuOk(s, s.cpus[i]);
    assert s'.epoch == s.epoch + 1 && Beside(s, s', i);
    forall j: nat | j < |s.cpus|
      ensures CpuOk(s', s'.cpus[j]) && !Arrived(s', j) && !Releasing(s'.cpus[j])
    {
      AllArrived(s, i, j);
      assert CpuOk(s, s.cpus[j]);
    }
    assert ArrivedSet(s') == {};
    assert !ResetDone(s');
    forall j: nat, k: nat | j < |s.cpus| && k < |s.cpus| && j != k && SameEpisode(s'.cpus[j], s'.cpus[k])
      ensures s'.cpus[j].c != s'.cpus[k].c
    {
      assert SameEpisode(s.cpus[j], s.cpus[k]);
    }
  }

  lemma StepInv(s: State, i: nat)
    requires Inv(s)
    ensures Inv(Step(s, i))
  {
    if i < |s.cpus| {
      match s.cpus[i].pc
      case Loaded => StepLoaded(s, i);
      case Last => StepLast(s, i);
      case BumpStore => StepBumpStore(s, i);
      case Spinning => StepSpinning(s, i);
      case _ => StepQuiet(s, i);
    }
  }

  // Every state that n CPUs reach with an epoch that never wraps.
  lemma Reachable(n: nat, schedule: seq<nat>)
    ensures Inv(Run(Step, Init(n, 0), schedule)) && |Run(Step, Init(n, 0), schedule).cpus| == n
  {
    assert ArrivedSet(Init(n, 0)) == {};
    forall s, i | Inv(s) && |s.cpus| == n ensures Inv(Step(s, i)) && |Step(s, i).cpus| == n {
      StepInv(s, i);
    }
    Invariance(Step, (s: State) => Inv(s) && |s.cpus| == n, Init(n, 0), schedule);
  }

  // ---------------------------------------------------------------- the wrapping epoch

  // The same state as an epoch register of the given modulus shows it.
  function Bounded(s: State, modulus: nat): State
  {
    s.(modulus := modulus, epoch := Wrap(s.epoch, modulus),
       cpus := seq(|s.cpus|, i requires 0 <= i < |s.cpus| =>
         s.cpus[i].(e := Wrap(s.cpus[i].e, modulus), t := Wrap(s.cpus[i].t, modulus))))
  }

  lemma WrapSuccessor(x: nat, modulus: nat)
    requires modulus >= 2
    ensures (x % modulus + 1) % modulus == (x + 1) % modulus != x % modulus
  {
    var q, r := x / modulus, x % modulus;
    assert x == q * modulus + r;
    if r + 1 < modulus {
      Remainder(x + 1, modulus, q, r + 1);
      Remainder(r + 1, modulus, 0, r + 1);
    } else {
      assert x + 1 == (q + 1) * modulus;
      Remainder(x + 1, modulus, q + 1, 0);
      Remainder(r + 1, modulus, 1, 0);
    }
  }

  lemma Remainder(x: nat, modulus: nat, q: nat, r: nat)
    requires modulus > 0 && x == q * modulus + r && r < modulus
    ensures x % modulus == r
  {
    var d := x / modulus - q;
    assert x == (x / modulus) * modulus + x % modulus;
    assert d * modulus == r - x % modulus;
    assert d >= 1 ==> d * modulus >= modulus;
    assert d <= -1 ==> d * modulus + modulus <= 0;
  }

  lemma StepCommutes(s: State, i: nat, modulus: nat)
    requires Inv(s) && modulus >= 2
    ensures Step(Bounded(s, modulus), i) == Bounded(Step(s, i), modulus)
  {
    if i < |s.cpus| {
      var p := s.cpus[i];
      assert CpuOk(s, p);
      if p.pc == Spinning && p.e != s.epoch {
        WrapSuccessor(p.e, modulus);
      } else if p.pc == BumpStore {
        WrapSuccessor(p.t, modulus);
      }
      assert Step(Bounded(s, modulus), i).cpus == Bounded(Step(s, i), modulus).cpus;
    }
  }

  lemma {:induction false} RunCommutes(s: State, schedule: seq<nat>, modulus: nat)
    requires Inv(s) && modulus >= 2
    ensures Run(Step, Bounded(s, modulus), schedule) == Bounded(Run(Step, s, schedule), modulus)
    decreases |schedule|
  {
    if schedule != [] {
      StepInv(s, schedule[0]);
      StepCommutes(s, schedule[0], modulus);
      RunCommutes(Step(s, schedule[0]), schedule[1..], modulus);
    }
  }

  lemma WrapIsInvisible(n: nat, modulus: nat, schedule: seq<nat>)
    requires modulus >= 2
    ensures Run(Step, Init(n, modulus), schedule) == Bounded(Run(Step, Init(n, 0), schedule), modulus)
  {
    Reachable(n, []);
    assert Init(n, modulus) == Bounded(Init(n, 0), modulus);
    RunCommutes(Init(n, 0), schedule, modulus);
  }

  // How many episodes CPU 0 has completed at the end of a run.
  function PassedFirst(n: nat, modulus: nat, schedule: seq<nat>): nat
  {
    var s := Run(Step, Init(n, modulus), schedule);
    if s.cpus == [] then 0 else s.cpus[0].passed
  }

  // CPU 0 waits in the first episode, then CPU 1 goes through it.
  const WAIT_THEN_PASS: seq<nat> := [0, 0, 0] + [1, 1, 1] + [1, 1, 1] + [0]

  function Pair(modulus: nat, cnt: nat, epoch: nat, first: Cpu, second: Cpu, releasers: seq<nat>): State
  {
    State(cnt, epoch, 2, modulus, [first, second], releasers)
  }

  const FRESH: Cpu := Cpu(Outside, 0, 0, 0, 0)
  const WAITS: Cpu := Cpu(Spinning, 0, 1, 0, 0)

  lemma FirstWaits(modulus: nat)
    ensures Run(Step, Pair(modulus, 0, 0, FRESH, FRESH, []), [0, 0, 0]) == Pair(modulus, 1, 0, WAITS, FRESH, [])
  {
  }

  lemma SecondDraws(modulus: nat)
    ensures Run(Step, Pair(modulus, 1, 0, WAITS, FRESH, []), [1, 1, 1])
            == Pair(modulus, 2, 0, WAITS, Cpu(Last, 0, 2, 0, 0), [])
  {
  }

  lemma SecondReleases(modulus: nat)
    ensures Run(Step, Pair(modulus, 2, 0, WAITS, Cpu(Last, 0, 2, 0, 0), []), [1, 1, 1])
            == Pair(modulus, 0, Wrap(1, modulus), WAITS, Cpu(Outside, 0, 2, 0, 1), [1])
  {
  }

  // CPU 0 notices exactly if the register has another value than before.
  lemma FirstLooksAgain(modulus: nat)
    ensures PassedFirst(2, modulus, WAIT_THEN_PASS) == if Wrap(1, modulus) != 0 then 1 else 0
  {
    hide Run, Wrap, Step;
    var s0 := Init(2, modulus);
    assert s0.cpus == [FRESH, FRESH];
    FirstWaits(modulus);
    SecondDraws(modulus);
    SecondReleases(modulus);
    RunConcat(Step, s0, [0, 0, 0], [1, 1, 1]);
    RunConcat(Step, s0, [0, 0, 0] + [1, 1, 1], [1, 1, 1]);
    RunSnoc(Step, s0, [0, 0, 0] + [1, 1, 1] + [1, 1, 1], 0);
    LooksOnce(Pair(modulus, 0, Wrap(1, modulus), WAITS, Cpu(Outside, 0, 2, 0, 1), [1]));
  }

  lemma LooksOnce(s: State)
    requires s.cpus != [] && s.cpus[0] == WAITS
    ensures Step(s, 0).cpus != [] && Step(s, 0).cpus[0].passed == if s.epoch != 0 then 1 else 0
  {
  }

  // With a one-valued epoch two CPUs already part ways: CPU 1 ends the episode, CPU 0 never notices.
  lemma OneValuedEpochMissesRelease()
    ensures PassedFirst(2, 1, WAIT_THEN_PASS) == 0 && PassedFirst(2, 0, WAIT_THEN_PASS) == 1
  {
    hide PassedFirst;
    FirstLooksAgain(1);
    FirstLooksAgain(0);
  }

  lemma PartWays(n: nat, modulus: nat, schedule: seq<nat>)
    requires PassedFirst(n, modulus, schedule) != PassedFirst(n, 0, schedule)
    ensures Run(Step, Init(n, modulus), schedule) != Bounded(Run(Step, Init(n, 0), schedule), modulus)
  {
    Reachable(n, schedule);
  }

  // The epoch register may wrap in any number of bits but none.
  lemma WrapInvisibleExactlyFromTwo(modulus: nat)
    requires modulus > 0
    ensures (forall n, schedule ::
              Run(Step, Init(n, modulus), schedule) == Bounded(Run(Step, Init(n, 0), schedule), modulus))
            <==> modulus >= 2
  {
    hide Run, PassedFirst;
    if modulus >= 2 {
      forall n, schedule
        ensures Run(Step, Init(n, modulus), schedule) == Bounded(Run(Step, Init(n, 0), schedule), modulus)
      {
        WrapIsInvisible(n, modulus, schedule);
      }
    } else {
      OneValuedEpochMissesRelease();
      PartWays(2, modulus, WAIT_THEN_PASS);
    }
  }

  // ---------------------------------------------------------------- what a caller may rely on

  // The barrier's promise in a state, whatever its epoch register wraps to.
  ghost predicate Safe(s: State)
  {
    // No CPU has left episode k before every CPU has entered it.
    && (forall i: nat, j: nat | i < |s.cpus| && j < |s.cpus| :: s.cpus[i].passed <= Entered(s.cpus[j]))
    // CPUs inside the same episode hold the same epoch and distinct counts from 1 to max.
    && (forall i: nat, j: nat | i < |s.cpus| && j < |s.cpus| && SameEpisode(s.cpus[i], s.cpus[j]) ::
          s.cpus[i].e == s.cpus[j].e && 1 <= s.cpus[i].c <= |s.cpus| && (i != j ==> s.cpus[i].c != s.cpus[j].c))
    // Exactly one CPU has ended each episode: a CPU past it means it is logged, one not past its entry means it is not.
    && (forall i: nat | i < |s.cpus| :: s.cpus[i].passed <= |s.releasers| <= Entered(s.cpus[i]))
    // The one that ends the current episode is alone in doing so.
    && (forall i: nat, j: nat | i < |s.cpus| && j < |s.cpus| && Ending(s.cpus[i]) && Ending(s.cpus[j]) :: i == j)
    // The counter never leaves 0..max, so its 32 bits do not matter.
    && s.cnt <= s.max == |s.cpus|
  }

  predicate Ending(p: Cpu)
  {
    p.pc == Last || Releasing(p)
  }

  lemma PassedBound(s: State, i: nat)
    requires Inv(s) && i < |s.cpus|
    ensures s.cpus[i].passed <= s.epoch <= Entered(s.cpus[i])
  {
    assert CpuOk(s, s.cpus[i]);
  }

  lemma EpisodeCounts(s: State, i: nat, j: nat)
    requires Inv(s) && i < |s.cpus| && j < |s.cpus| && SameEpisode(s.cpus[i], s.cpus[j])
    ensures s.cpus[i].e == s.cpus[j].e && 1 <= s.cpus[i].c <= |s.cpus| && (i != j ==> s.cpus[i].c != s.cpus[j].c)
  {
    assert CpuOk(s, s.cpus[i]) && CpuOk(s, s.cpus[j]);
  }

  lemma OneEnds(s: State, i: nat, j: nat)
    requires Inv(s) && i < |s.cpus| && j < |s.cpus| && Ending(s.cpus[i]) && Ending(s.cpus[j])
    ensures i == j
  {
    assert CpuOk(s, s.cpus[i]) && CpuOk(s, s.cpus[j]);
    assert SameEpisode(s.cpus[i], s.cpus[j]);
  }

  lemma InvIsSafe(s: State)
    requires Inv(s)
    ensures Safe(s)
  {
    ArrivedBound(s);
    assert s.cnt <= s.max;
    forall i: nat | i < |s.cpus| ensures s.cpus[i].passed <= s.epoch <= Entered(s.cpus[i]) {
      PassedBound(s, i);
    }
    forall i: nat, j: nat | i < |s.cpus| && j < |s.cpus| && SameEpisode(s.cpus[i], s.cpus[j])
      ensures s.cpus[i].e == s.cpus[j].e && 1 <= s.cpus[i].c <= |s.cpus| && (i != j ==> s.cpus[i].c != s.cpus[j].c)
    {
      EpisodeCounts(s, i, j);
    }
    forall i: nat, j: nat | i < |s.cpus| && j < |s.cpus| && Ending(s.cpus[i]) && Ending(s.cpus[j]) ensures i == j {
      OneEnds(s, i, j);
    }
    hide AllOk, Counted, Distinct, CounterOk, Entered, SameEpisode, Ending;
  }

  // The epoch's width shows in no promise to a caller.
  lemma BoundedIsSafe(s: State, modulus: nat)
    requires Safe(s)
    ensures Safe(Bounded(s, modulus))
  {
    var b := Bounded(s, modulus);
    forall i: nat | i < |s.cpus|
      ensures b.cpus[i].passed == s.cpus[i].passed && Entered(b.cpus[i]) == Entered(s.cpus[i])
      ensures b.cpus[i].c == s.cpus[i].c && Ending(b.cpus[i]) == Ending(s.cpus[i])
    {
    }
    forall i: nat, j: nat | i < |s.cpus| && j < |s.cpus| && SameEpisode(b.cpus[i], b.cpus[j])
      ensures b.cpus[i].e == b.cpus[j].e && 1 <= b.cpus[i].c <= |b.cpus| && (i != j ==> b.cpus[i].c != b.cpus[j].c)
    {
      assert SameEpisode(s.cpus[i], s.cpus[j]);
    }
    hide Entered, SameEpisode, Ending;
  }

  // Barrier safety over unbounded reuse, for every interleaving.
  lemma BarrierSafety(n: nat, modulus: nat, schedule: seq<nat>)
    requires modulus != 1
    ensures Safe(Run(Step, Init(n, modulus), schedule))
  {
    hide Safe, Inv;
    Reachable(n, schedule);
    var s := Run(Step, Init(n, 0), schedule);
    InvIsSafe(s);
    if modulus >= 2 {
      WrapIsInvisible(n, modulus, schedule);
      BoundedIsSafe(s, modulus);
    }
  }

  // The step by which a CPU leaves an episode finds that every CPU has entered it.
  lemma LeavesOnlyWhenAllEntered(n: nat, modulus: nat, schedule: seq<nat>, i: nat, j: nat)
    requires modulus != 1 && i < n && j < n
    ensures var s := Run(Step, Init(n, modulus), schedule);
            && |s.cpus| == n
            && (Step(s, i).cpus[i].passed > s.cpus[i].passed ==> Entered(s.cpus[j]) >= s.cpus[i].passed + 1)
  {
    hide Run, Inv;
    Reachable(n, schedule);
    var u := Run(Step, Init(n, 0), schedule);
    LeavesAfterAll(u, i, j);
    if modulus >= 2 {
      WrapIsInvisible(n, modulus, schedule);
      StepCommutes(u, i, modulus);
      SamePassing(u, modulus);
      SamePassing(Step(u, i), modulus);
      hide Step, Bounded;
    }
  }

  lemma SamePassing(s: State, modulus: nat)
    ensures |Bounded(s, modulus).cpus| == |s.cpus|
    ensures forall j: nat | j < |s.cpus| ::
              && Bounded(s, modulus).cpus[j].passed == s.cpus[j].passed
              && Entered(Bounded(s, modulus).cpus[j]) == Entered(s.cpus[j])
  {
  }

  lemma LeavesAfterAll(s: State, i: nat, j: nat)
    requires Inv(s) && i < |s.cpus| && j < |s.cpus|
    ensures Step(s, i).cpus[i].passed > s.cpus[i].passed ==> Entered(s.cpus[j]) >= s.cpus[i].passed + 1
  {
    assert CpuOk(s, s.cpus[i]);
    PassedBound(s, j);
    if s.cpus[i].pc == BumpStore {
      AllArrived(s, i, j);
    }
  }

  // With every CPU inside, some CPU can do more than spin.
  lemma NoDeadlock(n: nat, modulus: nat, schedule: seq<nat>)
    requires n > 0 && modulus != 1
    ensures var s := Run(Step, Init(n, modulus), schedule);
            (forall i: nat | i < |s.cpus| :: Inside(s.cpus[i])) ==>
              exists i: nat :: i < |s.cpus| && Step(s, i).cpus[i].pc != s.cpus[i].pc
  {
    Reachable(n, schedule);
    var u := Run(Step, Init(n, 0), schedule);
    var s := Run(Step, Init(n, modulus), schedule);
    if modulus >= 2 { WrapIsInvisible(n, modulus, schedule); }
    assert modulus == 0 ==> s == u;
    assert forall i: nat | i < n :: s.cpus[i].pc == u.cpus[i].pc;
    if (forall i: nat | i < |s.cpus| :: Inside(s.cpus[i])) {
      var i := SomeoneMoves(u);
      if modulus >= 2 { StepCommutes(u, i, modulus); }
      assert Step(s, i).cpus[i].pc == Step(u, i).cpus[i].pc;
    }
  }

  // Were all to wait in the current episode, the last of them to arrive would have drawn max.
  lemma SomeoneMoves(s: State) returns (i: nat)
    requires Inv(s) && |s.cpus| > 0 && forall j: nat | j < |s.cpus| :: Inside(s.cpus[j])
    ensures i < |s.cpus| && Step(s, i).cpus[i].pc != s.cpus[i].pc
  {
    if j: nat :| j < |s.cpus| && s.cpus[j].passed != s.epoch {
      i := j;
      assert CpuOk(s, s.cpus[j]);
    } else {
      ArrivedBound(s);
      assert forall j: nat | j < |s.cpus| :: Arrived(s, j);
      assert 0 in ArrivedSet(s);
      i :| Arrived(s, i) && s.cpus[i].c == |ArrivedSet(s)|;
      assert CpuOk(s, s.cpus[i]);
    }
  }

  // ---------------------------------------------------------------- every episode comes to its end

  // How far a CPU has come: six steps at most for each episode.
  function Work(p: Cpu): nat
  {
    6 * p.passed + match p.pc
                   case Outside => 0 case Loaded => 1 case Drawn => 2 case Spinning => 3
                   case Last => 3 case BumpLoad => 4 case BumpStore => 5
  }

  function TotalWork(cpus: seq<Cpu>): nat
  {
    if cpus == [] then 0 else TotalWork(cpus[..|cpus| - 1]) + Work(cpus[|cpus| - 1])
  }

  // It falls as the work grows.
  function Undone(s: State): int
  {
    var done: int := TotalWork(s.cpus);
    -done
  }

  lemma {:induction false} MoreWork(cpus: seq<Cpu>, i: nat, p: Cpu)
    requires i < |cpus| && Work(p) > Work(cpus[i])
    ensures TotalWork(cpus[i := p]) > TotalWork(cpus)
  {
    hide Work;
    var less := cpus[..|cpus| - 1];
    if i < |less| {
      MoreWork(less, i, p);
      assert cpus[i := p][..|cpus| - 1] == less[i := p];
    } else {
      assert cpus[i := p][..|cpus| - 1] == less;
    }
  }

  lemma {:induction false} WorkBound(cpus: seq<Cpu>, most: nat)
    requires forall i: nat | i < |cpus| :: Work(cpus[i]) <= most
    ensures TotalWork(cpus) <= |cpus| * most
  {
    hide Work;
    if cpus != [] { WorkBound(cpus[..|cpus| - 1], most); }
  }

  lemma StepWorks(s: State, i: nat)
    ensures Step(s, i) == s || TotalWork(Step(s, i).cpus) > TotalWork(s.cpus)
  {
    hide TotalWork;
    if Step(s, i) != s {
      assert Step(s, i).cpus == s.cpus[i := Step(s, i).cpus[i]];
      MoreWork(s.cpus, i, Step(s, i).cpus[i]);
    }
  }

  // Every CPU has completed k episodes.
  predicate AllPast(s: State, k: nat)
  {
    forall i: nat | i < |s.cpus| :: s.cpus[i].passed >= k
  }

  // The CPUs are at most one episode apart.
  lemma LittleWork(s: State, k: nat)
    requires Safe(s) && !AllPast(s, k)
    ensures TotalWork(s.cpus) <= |s.cpus| * (6 * k + 5)
  {
    var j: nat :| j < |s.cpus| && s.cpus[j].passed < k;
    forall i: nat | i < |s.cpus| ensures Work(s.cpus[i]) <= 6 * k + 5 {
      assert s.cpus[i].passed <= Entered(s.cpus[j]) <= k;
    }
    WorkBound(s.cpus, 6 * k + 5);
  }

  lemma SomeoneWorks(s: State) returns (i: nat)
    requires Inv(s) && |s.cpus| > 0
    ensures i < |s.cpus| && Step(s, i) != s
  {
    if j: nat :| j < |s.cpus| && !Inside(s.cpus[j]) {
      i := j;
      assert Step(s, i).cpus[i].pc != s.cpus[i].pc;
    } else {
      i := SomeoneMoves(s);
    }
  }

  lemma {:induction false} BringPast(s: State, k: nat) returns (more: seq<nat>)
    requires Inv(s) && |s.cpus| > 0
    ensures AllPast(Run(Step, s, more), k)
    decreases |s.cpus| * (6 * k + 5) - TotalWork(s.cpus)
  {
    hide Inv, Safe, AllPast, Step, TotalWork, Run;
    if AllPast(s, k) {
      more := [];
      RunNothing(s);
    } else {
      InvIsSafe(s);
      LittleWork(s, k);
      var i := SomeoneWorks(s);
      StepInv(s, i);
      StepWorks(s, i);
      var rest := BringPast(Step(s, i), k);
      more := [i] + rest;
      RunCons(Step, s, i, rest);
    }
  }

  lemma RunNothing(s: State)
    ensures Run(Step, s, []) == s
  {
  }

  // No interleaving can go on for ever within an episode, and none gets stuck: once more than n * (6 * k + 5) steps
  // have done something all CPUs have completed k episodes, and they can always get there.
  lemma EpisodesComplete(n: nat, modulus: nat, schedule: seq<nat>, k: nat)
    requires n > 0 && modulus != 1
    ensures Effective(Step, Init(n, modulus), schedule) > n * (6 * k + 5) ==>
              AllPast(Run(Step, Init(n, modulus), schedule), k)
    ensures exists more :: AllPast(Run(Step, Init(n, modulus), schedule + more), k)
  {
    hide Inv, Safe, AllPast, Step, Run, Effective;
    EffectiveIsWork(n, modulus, schedule);
    BarrierSafety(n, modulus, schedule);
    if !AllPast(Run(Step, Init(n, modulus), schedule), k) {
      LittleWork(Run(Step, Init(n, modulus), schedule), k);
    }
    Reachable(n, schedule);
    var more := BringPast(Run(Step, Init(n, 0), schedule), k);
    RunConcat(Step, Init(n, 0), schedule, more);
    if modulus >= 2 {
      WrapIsInvisible(n, modulus, schedule + more);
      PastAlike(Run(Step, Init(n, 0), schedule + more), modulus, k);
    }
  }

  lemma EffectiveIsWork(n: nat, modulus: nat, schedule: seq<nat>)
    ensures Effective(Step, Init(n, modulus), schedule) <= TotalWork(Run(Step, Init(n, modulus), schedule).cpus)
    ensures |Run(Step, Init(n, modulus), schedule).cpus| == n
  {
    hide Step, TotalWork;
    forall s: State, i: nat | |s.cpus| == n
      ensures |Step(s, i).cpus| == n && (Step(s, i) == s || Undone(Step(s, i)) < Undone(s))
    {
      StepWorks(s, i);
    }
    RankBounds(Step, (s: State) => |s.cpus| == n, Undone, Init(n, modulus), schedule);
    Invariance(Step, (s: State) => |s.cpus| == n, Init(n, modulus), schedule);
  }

  lemma PastAlike(s: State, modulus: nat, k: nat)
    ensures AllPast(Bounded(s, modulus), k) == AllPast(s, k)
  {
    SamePassing(s, modulus);
    hide Bounded;
  }
}
