// What the barrier between collective_only() and collective_end() is for: in a round without it, a CPU of the mask that
// fails to get coll_mutex can reach collective_end() before the one that got it has stored its number, and find its own
// number in coll_master, from an earlier round or from the start.
module SecondMaster {
  import opened Machine
  import opened Collective

  // The same state with more rounds to come.
  function Longer(s: State, masks: seq<set<nat>>): State
  {
    s.(masks := masks)
  }

  lemma WakeLonger(s: State, masks: seq<set<nat>>, i: nat, w: WakePc, u: nat)
    requires i < |s.cpus|
    ensures WakeStep(Longer(s, masks), i, w, u) == Longer(WakeStep(s, i, w, u), masks)
  {
  }

  lemma StepLonger(s: State, masks: seq<set<nat>>, i: nat)
    requires s.masks <= masks && Step(s, i) != s
    ensures Step(Longer(s, masks), i) == Longer(Step(s, i), masks)
  {
    hide WakeStep, HaltStep, AllArrivedGlobal, AllArrivedMeet;
    match s.cpus[i].pc
    case Wake(w, u) => WakeLonger(s, masks, i, w, u);
    case _ =>
  }

  // A run through the first rounds is a run of the longer program, without the steps that do nothing.
  lemma {:induction false} RunLonger(s: State, masks: seq<set<nat>>, schedule: seq<nat>) returns (same: seq<nat>)
    requires s.masks <= masks
    ensures Run(Step, Longer(s, masks), same) == Longer(Run(Step, s, schedule), masks)
    decreases |schedule|
  {
    if schedule == [] {
      same := [];
    } else {
      var i := schedule[0];
      SameMasks(s, i);
      var rest := RunLonger(Step(s, i), masks, schedule[1..]);
      if Step(s, i) == s {
        same := rest;
      } else {
        StepLonger(s, masks, i);
        same := [i] + rest;
        RunCons(Step, Longer(s, masks), i, rest);
      }
    }
  }

  // All CPUs are about to begin round r, and coll_master names CPU 0.
  ghost predicate AtRound(s: State, r: nat)
  {
    && (forall j: nat | j < |s.cpus| :: s.cpus[j].round == r && s.cpus[j].pc == GlobalArrive)
    && s.mutexFree && s.collMaster == 0
  }

  function FirstCpus(k: nat): seq<nat>
  {
    if k == 0 then [] else FirstCpus(k - 1) + [k - 1]
  }

  function Arrived(s: State, k: nat): State
  {
    s.(cpus := seq(|s.cpus|, j requires 0 <= j < |s.cpus| => if j < k then s.cpus[j].(pc := GlobalWait) else s.cpus[j]))
  }

  // After the first k CPUs have arrived at the global barrier.
  lemma {:induction false} ArriveInTurn(s: State, r: nat, k: nat)
    requires AtRound(s, r) && r < |s.masks| && k <= |s.cpus|
    ensures Run(Step, s, FirstCpus(k)) == Arrived(s, k)
  {
    if k == 0 {
      assert Arrived(s, 0).cpus == s.cpus;
    } else {
      ArriveInTurn(s, r, k - 1);
      RunSnoc<State, nat>(Step, s, FirstCpus(k - 1), k - 1);
      assert Step(Arrived(s, k - 1), k - 1).cpus == Arrived(s, k).cpus;
    }
  }

  // CPU a of the mask, the first at the mutex, takes it.
  lemma TakeMutex(s: State, r: nat, a: nat)
    requires a < |s.cpus| && r < |s.masks| && a in s.masks[r] && s.mutexFree && AllArrivedGlobal(s.cpus, r)
    requires s.cpus[a].pc == GlobalWait && s.cpus[a].round == r
    ensures Run(Step, s, [a, a, a])
            == s.(mutexFree := false, masters := s.masters + [a], cpus := s.cpus[a := s.cpus[a].(pc := StoreMaster)])
  {
    var s1 := Step(s, a);
    var s2 := Step(s1, a);
    assert s1 == s.(cpus := s.cpus[a := s.cpus[a].(pc := Decide)]);
    assert s2 == s.(cpus := s.cpus[a := s.cpus[a].(pc := TryLock)]);
    RunSnoc(Step, s, [], a);
    RunSnoc(Step, s, [a], a);
    RunSnoc(Step, s, [a, a], a);
    assert [] + [a] == [a] && [a] + [a] == [a, a] && [a, a] + [a] == [a, a, a];
  }

  function ZeroAt(s: State, pc: Pc): State
    requires |s.cpus| > 0
  {
    s.(cpus := s.cpus[0 := s.cpus[0].(pc := pc)])
  }

  // A round without a meeting, with the mutex taken, CPU 0 in the mask and named in coll_master.
  ghost predicate Slippery(s: State, r: nat)
  {
    && |s.cpus| > 0 && r < |s.masks| && 0 in s.masks[r] && r !in s.meets && !s.mutexFree && s.collMaster == 0
    && s.cpus[0].round == r && s.cpus[0].pc == GlobalWait && AllArrivedGlobal(s.cpus, r)
  }

  const SLIP: seq<Pc> := [GlobalWait, Decide, TryLock, MeetArrive, MeetWait, EndLoad, Wake(Next, 0)]

  lemma SlipOne(s: State, r: nat, k: nat)
    requires Slippery(s, r) && k < 6
    ensures Step(ZeroAt(s, SLIP[k]), 0) == ZeroAt(s, SLIP[k + 1])
  {
    assert k == 0 ==> ZeroAt(s, SLIP[k]) == s;
    hide AllArrivedMeet, WakeStep, HaltStep;
  }

  // Without the meeting CPU 0 fails at the mutex, goes on to collective_end() and finds its number in coll_master.
  lemma SlipThrough(s: State, r: nat)
    requires Slippery(s, r)
    ensures Run(Step, s, [0, 0, 0, 0, 0, 0]) == ZeroAt(s, Wake(Next, 0))
  {
    hide Step, Slippery;
    var trace: seq<nat> := [];
    assert ZeroAt(s, SLIP[0]) == s by { SlipperyWaits(s, r); }
    for k := 0 to 6
      invariant |trace| == k && forall i | 0 <= i < k :: trace[i] == 0
      invariant ZeroAt(s, SLIP[k]) == Run(Step, s, trace)
    {
      RunSnoc(Step, s, trace, 0);
      SlipOne(s, r, k);
      trace := trace + [0];
    }
    assert trace == [0, 0, 0, 0, 0, 0];
  }

  lemma SlipperyWaits(s: State, r: nat)
    requires Slippery(s, r)
    ensures |s.cpus| > 0 && ZeroAt(s, GlobalWait) == s
  {
  }

  lemma AllAreWaiting(s: State, r: nat)
    requires AtRound(s, r)
    ensures AllArrivedGlobal(Arrived(s, |s.cpus|).cpus, r)
  {
  }

  // ---------------------------------------------------------------- to the round in question

  // Before the first CPU of round r takes the mutex, r masters have been elected.
  lemma MastersAtRound(s: State, r: nat)
    requires Inv(s) && AtRound(s, r) && |s.cpus| > 0
    ensures |s.masters| == r
  {
    assert CpuLock(s, 0);
    if s.masters != [] { assert s.cpus[s.masters[|s.masters| - 1]].round == r; }
  }

  lemma {:induction false} MastersStay(s: State, schedule: seq<nat>)
    ensures s.masters <= Run(Step, s, schedule).masters
    decreases |schedule|
  {
    if schedule != [] {
      OneMore(s, schedule[0]);
      MastersStay(Step(s, schedule[0]), schedule[1..]);
    }
  }

  lemma OneMore(s: State, i: nat)
    ensures s.masters <= Step(s, i).masters
  {
  }

  // At the end CPU 0 is still named if it was the last master.
  lemma EndsAtRound(s: State, r: nat)
    requires Inv(s) && Done(s) && |s.masks| == r > 0 && |s.masters| >= r && s.masters[r - 1] == 0 && |s.cpus| > 0
    ensures AtRound(s, r)
  {
    forall j: nat | j < |s.cpus| ensures s.cpus[j].round == r && s.cpus[j].pc == GlobalArrive {
      assert CpuLock(s, j);
    }
    assert |s.masters| == r;
    IdleMutex(s);
  }

  // CPU 0 takes the mutex of round r first.
  lemma ZeroFirst(s: State, r: nat) returns (schedule: seq<nat>)
    requires AtRound(s, r) && r < |s.masks| && |s.cpus| > 0 && 0 in s.masks[r]
    ensures Run(Step, s, schedule).masters == s.masters + [0]
  {
    ArriveInTurn(s, r, |s.cpus|);
    AllAreWaiting(s, r);
    TakeMutex(Arrived(s, |s.cpus|), r, 0);
    schedule := FirstCpus(|s.cpus|) + [0, 0, 0];
    RunConcat(Step, s, FirstCpus(|s.cpus|), [0, 0, 0]);
  }

  // Through one more round, with CPU 0 as its master.
  lemma OneRound(s: State, r: nat) returns (schedule: seq<nat>)
    requires Inv(s) && AtRound(s, r) && |s.masks| == r + 1 && |s.cpus| > 0 && 0 in s.masks[r]
    ensures AtRound(Run(Step, s, schedule), r + 1)
  {
    hide Inv, AtRound, Step;
    var first := ZeroFirst(s, r);
    var mid := Run(Step, s, first);
    RunKeeps(s, first);
    MastersAtRound(s, r);
    var rest := Finishable(mid);
    RunKeeps(mid, rest);
    MastersStay(mid, rest);
    schedule := first + rest;
    RunConcat(Step, s, first, rest);
    EndsAtRound(Run(Step, mid, rest), r + 1);
  }

  lemma RunKeeps(s: State, schedule: seq<nat>)
    requires Inv(s)
    ensures var t := Run(Step, s, schedule); Inv(t) && |t.cpus| == |s.cpus| && t.masks == s.masks
  {
    forall u, i | Inv(u) && |u.cpus| == |s.cpus| && u.masks == s.masks
      ensures Inv(Step(u, i)) && |Step(u, i).cpus| == |s.cpus| && Step(u, i).masks == s.masks
    {
      StepInv(u, i);
      SameMasks(u, i);
    }
    hide Inv, Step;
    Invariance(Step, (u: State) => Inv(u) && |u.cpus| == |s.cpus| && u.masks == s.masks, s, schedule);
  }

  // Every round before r meets or is a round of one CPU, and CPU 0 takes part.
  ghost predicate WellUntil(n: nat, masks: seq<set<nat>>, meets: set<nat>, r: nat)
  {
    && n > 0 && r <= |masks| && Config(n, masks[..r], meets)
    && forall k: nat | k < r :: 0 in masks[k]
  }

  lemma {:induction false} ToRound(n: nat, masks: seq<set<nat>>, meets: set<nat>, r: nat) returns (schedule: seq<nat>)
    requires WellUntil(n, masks, meets, r)
    ensures AtRound(Run(Step, Init(n, masks, meets), schedule), r)
    ensures |Run(Step, Init(n, masks, meets), schedule).cpus| == n
    decreases r
  {
    if r == 0 {
      schedule := [];
    } else {
      var begin := masks[..r];
      BeginsWell(n, masks, meets, r);
      var before := ToRound(n, begin, meets, r - 1);
      Reachable(n, begin, meets, before);
      var mid := Run(Step, Init(n, begin, meets), before);
      assert begin[r - 1] == masks[r - 1];
      var last := OneRound(mid, r - 1);
      RunKeeps(mid, last);
      RunConcat(Step, Init(n, begin, meets), before, last);
      schedule := RunLonger(Init(n, begin, meets), masks, before + last);
      assert Longer(Init(n, begin, meets), masks) == Init(n, masks, meets);
      LongerAtRound(Run(Step, mid, last), masks, r);
    }
  }

  lemma BeginsWell(n: nat, masks: seq<set<nat>>, meets: set<nat>, r: nat)
    requires WellUntil(n, masks, meets, r) && r > 0
    ensures WellUntil(n, masks[..r], meets, r - 1) && Config(n, masks[..r], meets) && 0 in masks[r - 1]
  {
    var begin, less := masks[..r], masks[..r][..r - 1];
    forall k: nat | k < r - 1
      ensures RoundConfig(n, less[k], k in meets) && 0 in begin[k]
    {
      assert less[k] == begin[k] == masks[k];
    }
  }

  lemma BeginsAsConfig(n: nat, masks: seq<set<nat>>, meets: set<nat>, r: nat)
    requires n > 0 && r <= |masks| && forall k: nat | k < r :: 0 in masks[k] && RoundOk(n, masks, meets, k)
    ensures Config(n, masks[..r], meets)
  {
    forall k: nat | k < r
      ensures RoundConfig(n, masks[..r][k], k in meets)
    {
      assert masks[..r][k] == masks[k] && RoundOk(n, masks, meets, k);
      assert 0 < n && 0 in masks[..r][k];
    }
  }

  lemma LongerAtRound(s: State, masks: seq<set<nat>>, r: nat)
    requires AtRound(s, r)
    ensures AtRound(Longer(s, masks), r)
  {
  }

  // ---------------------------------------------------------------- two masters

  // CPU a takes the mutex of a round without a meeting; CPU 0 slips through, and both act as master.
  lemma BothAreMasters(s: State, r: nat, a: nat) returns (schedule: seq<nat>)
    requires AtRound(s, r) && r < |s.masks| && r !in s.meets && 0 < a < |s.cpus| && 0 in s.masks[r] && a in s.masks[r]
    ensures !OneMaster(Run(Step, s, schedule))
  {
    hide Step;
    var all := FirstCpus(|s.cpus|);
    var waiting := Arrived(s, |s.cpus|);
    ArriveInTurn(s, r, |s.cpus|);
    AllAreWaiting(s, r);
    TakeMutex(waiting, r, a);
    var taken := Run(Step, waiting, [a, a, a]);
    StillArrived(waiting, taken, r, a);
    assert Slippery(taken, r);
    SlipThrough(taken, r);
    schedule := all + [a, a, a] + [0, 0, 0, 0, 0, 0];
    RunConcat(Step, s, all, [a, a, a]);
    RunConcat(Step, s, all + [a, a, a], [0, 0, 0, 0, 0, 0]);
    var t := Run(Step, s, schedule);
    assert MasterOnly(t.cpus[a].pc) && MasterOnly(t.cpus[0].pc);
  }

  lemma StillArrived(s: State, t: State, r: nat, a: nat)
    requires AllArrivedGlobal(s.cpus, r) && a < |s.cpus| && s.cpus[a].round == r
    requires t.cpus == s.cpus[a := s.cpus[a].(pc := StoreMaster)]
    ensures AllArrivedGlobal(t.cpus, r)
  {
  }

  // The first round that neither meets nor has but one CPU can have two masters.
  lemma TwoMasters(n: nat, masks: seq<set<nat>>, meets: set<nat>, r: nat)
    requires WellUntil(n, masks, meets, r) && r < |masks| && 0 in masks[r] && r !in meets && !Alone(n, masks[r])
    ensures exists schedule :: !OneMaster(Run(Step, Init(n, masks, meets), schedule))
  {
    var i: nat, j: nat :| i < n && j < n && i in masks[r] && j in masks[r] && i != j;
    var before := ToRound(n, masks, meets, r);
    var s := Run(Step, Init(n, masks, meets), before);
    RunMasks(Init(n, masks, meets), before);
    var last := BothAreMasters(s, r, if i > 0 then i else j);
    RunConcat(Step, Init(n, masks, meets), before, last);
    assert !OneMaster(Run(Step, Init(n, masks, meets), before + last));
  }

  lemma RunMasks(s: State, schedule: seq<nat>)
    ensures Run(Step, s, schedule).masks == s.masks && Run(Step, s, schedule).meets == s.meets
    decreases |schedule|
  {
    if schedule != [] {
      SameMasks(s, schedule[0]);
      RunMasks(Step(s, schedule[0]), schedule[1..]);
    }
  }

  ghost predicate RoundOk(n: nat, masks: seq<set<nat>>, meets: set<nat>, r: nat)
    requires r < |masks|
  {
    r in meets || Alone(n, masks[r])
  }

  lemma {:induction false} FirstBadRound(n: nat, masks: seq<set<nat>>, meets: set<nat>, r: nat) returns (k: nat)
    requires r < |masks| && !RoundOk(n, masks, meets, r)
    ensures k < |masks| && !RoundOk(n, masks, meets, k) && forall l: nat | l < k :: RoundOk(n, masks, meets, l)
  {
    k := r;
    if l: nat :| l < r && !RoundOk(n, masks, meets, l) {
      k := FirstBadRound(n, masks, meets, l);
    }
  }

  // Any number of rounds, with CPU 0 in each mask as in every call in benchmark.c: there is one master at a time in
  // every interleaving exactly when in each round the CPUs of the mask meet between the two calls or there is but one.
  lemma OneMasterExactlyWhenMet(n: nat, masks: seq<set<nat>>, meets: set<nat>)
    requires n > 0 && forall k: nat | k < |masks| :: 0 in masks[k]
    ensures (forall schedule :: OneMaster(Run(Step, Init(n, masks, meets), schedule)))
            <==> forall r: nat | r < |masks| :: RoundOk(n, masks, meets, r)
  {
    hide Run, OneMaster, Alone;
    if forall r: nat | r < |masks| :: RoundOk(n, masks, meets, r) {
      BeginsAsConfig(n, masks, meets, |masks|);
      assert masks[..|masks|] == masks;
      forall schedule ensures OneMaster(Run(Step, Init(n, masks, meets), schedule)) {
        CollectiveRounds(n, masks, meets, schedule);
      }
    } else {
      var r: nat :| r < |masks| && !RoundOk(n, masks, meets, r);
      var k := FirstBadRound(n, masks, meets, r);
      BeginsAsConfig(n, masks, meets, k);
      TwoMasters(n, masks, meets, k);
    }
  }

  // The first three collective rounds of the benchmarks on more than four CPUs (benchmark.c:281-288, 300-339,
  // 351-359): the third has two CPUs that do not meet.
  lemma BenchmarksCanHaveTwoMasters(n: nat)
    requires n > 4
    ensures exists schedule :: !OneMaster(Run(Step, Init(n, [{0}, {0, 1}, {0, n / 2}], {1}), schedule))
  {
    hide Run, OneMaster;
    var masks := [{0}, {0, 1}, {0, n / 2}];
    OneMasterExactlyWhenMet(n, masks, {1});
    assert !RoundOk(n, masks, {1}, 2) by {
      assert 0 in masks[2] && n / 2 in masks[2];
    }
  }
}
