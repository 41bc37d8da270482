// The start-up loop (apic.c:288-322, main.c:166-188) comes to its end, and from every state without a processor that
// was given up the rendezvous can still succeed for all that were called.
module BootStartup {
  import opened Machine
  import opened BootRendezvous
  import opened RendezvousExact

  // Steps of its own until the BSP has stored max.
  function StartRank(s: State): nat
  {
    if s.cpus == [] then 0 else
    var left := if s.u < |s.cpus| then |s.cpus| - s.u else 0;
    match s.cpus[0].pc
    case CallNext => 2 * left + 5
    case TryWake => 2 * left + 4
    case OnlineLoad => 4
    case OnlineStore => 3
    case MaxLoad => 2
    case MaxStore => 1
    case _ => 0
  }

  lemma BspAdvances(s: State)
    requires Locks(s) && !MaxSet(s)
    ensures StartRank(Step(s, 0)) < StartRank(s)
  {
  }

  lemma OthersLeaveBsp(s: State, i: nat)
    requires Locks(s) && i != 0
    ensures StartRank(Step(s, i)) == StartRank(s) && MaxSet(Step(s, i)) == MaxSet(s)
  {
    if i < |s.cpus| { assert ApLock(s, i); }
  }

  // How often CPU i has its turn.
  function Scheduled(schedule: seq<nat>, i: nat): nat
  {
    if schedule == [] then 0 else (if schedule[0] == i then 1 else 0) + Scheduled(schedule[1..], i)
  }

  lemma {:induction false} BspStarts(s: State, schedule: seq<nat>)
    requires Locks(s)
    ensures Scheduled(schedule, 0) >= StartRank(s) ==> MaxSet(Run(Step, s, schedule))
    decreases |schedule|
  {
    if schedule == [] {
      RankIsUp(s);
    } else {
      LockStep(s, schedule[0]);
      if schedule[0] != 0 {
        OthersLeaveBsp(s, schedule[0]);
      } else if MaxSet(s) {
        RankIsUp(s);
        MaxStays(s, 0);
        RankIsUp(Step(s, 0));
      } else {
        BspAdvances(s);
      }
      hide Step, Locks, StartRank, MaxSet;
      BspStarts(Step(s, schedule[0]), schedule[1..]);
    }
  }

  lemma RankIsUp(s: State)
    requires Locks(s)
    ensures StartRank(s) == 0 <==> MaxSet(s)
  {
  }

  // In every interleaving the BSP has stored max once it has had 2 * n + 3 turns: nothing can hold it up in the loop.
  lemma StartupEnds(n: nat, skip: set<nat>, maxCpu: nat, schedule: seq<nat>)
    requires 0 < n <= maxCpu
    ensures Scheduled(schedule, 0) >= 2 * n + 3 ==> MaxSet(Run(Step, Init(n, skip, maxCpu), schedule))
  {
    BootReachable(n, skip, maxCpu, []);
    assert StartRank(Init(n, skip, maxCpu)) == 2 * n + 3;
    BspStarts(Init(n, skip, maxCpu), schedule);
  }

  // ---------------------------------------------------------------- success

  // Steps of a called AP until it has its wakelock.
  function ApRank(s: State, v: nat): nat
  {
    if v >= |s.cpus| then 0 else
    match s.cpus[v].pc
    case OnlineLoad => 3
    case OnlineStore => 2
    case TakeLock => 1
    case _ => 0
  }

  lemma ApAdvances(s: State, v: nat)
    requires Locks(s) && s.late == {} && 0 < v < |s.cpus| && s.cpus[v].pc in {OnlineLoad, OnlineStore, TakeLock}
    ensures var t := Step(s, v);
            ApRank(t, v) < ApRank(s, v) && StartRank(t) == StartRank(s) && t.late == {} && t.u == s.u
  {
    assert ApLock(s, v);
  }

  lemma WokenInTime(s: State)
    requires Locks(s) && s.late == {} && !MaxSet(s)
    requires s.cpus[0].pc == TryWake ==> s.cpus[s.u].pc !in {OnlineLoad, OnlineStore, TakeLock}
    ensures Step(s, 0).late == {}
  {
    if s.cpus[0].pc == TryWake { assert ApLock(s, s.u); }
  }

  // Each called AP gets its wakelock before the BSP looks.
  lemma {:induction false} AllInTime(s: State, maxCpu: nat) returns (more: seq<nat>)
    requires BootInv(s, maxCpu) && s.late == {}
    ensures var t := Run(Step, s, more); BootInv(t, maxCpu) && t.late == {} && MaxSet(t)
    decreases StartRank(s), ApRank(s, s.u)
  {
    hide Counting, Exact, Meeting, Locks, Step, StartRank, ApRank;
    if MaxSet(s) {
      more := [];
    } else {
      var i := NextInTime(s);
      BootStep(s, maxCpu, i);
      var rest := AllInTime(Step(s, i), maxCpu);
      more := [i] + rest;
      RunCons(Step, s, i, rest);
    }
  }

  lemma NextInTime(s: State) returns (i: nat)
    requires Locks(s) && s.late == {} && !MaxSet(s)
    ensures Step(s, i).late == {}
    ensures StartRank(Step(s, i)) < StartRank(s)
        || (StartRank(Step(s, i)) == StartRank(s) && ApRank(Step(s, i), Step(s, i).u) < ApRank(s, s.u))
  {
    if s.cpus[0].pc == TryWake && s.cpus[s.u].pc in {OnlineLoad, OnlineStore, TakeLock} {
      i := s.u;
      ApAdvances(s, i);
    } else {
      i := 0;
      WokenInTime(s);
      BspAdvances(s);
    }
  }

  lemma {:induction false} LateStays(s: State, schedule: seq<nat>)
    requires Locks(s) && MaxSet(s)
    ensures Run(Step, s, schedule).late == s.late && MaxSet(Run(Step, s, schedule))
    ensures Locks(Run(Step, s, schedule))
    decreases |schedule|
  {
    if schedule != [] {
      var i := schedule[0];
      LockStep(s, i);
      MaxStays(s, i);
      if 0 < i < |s.cpus| { assert ApLock(s, i); }
      assert Step(s, i).late == s.late;
      hide Step, Locks, MaxSet;
      LateStays(Step(s, i), schedule[1..]);
    }
  }

  // Everybody that the command line does not exclude.
  ghost function Called(n: nat, skip: set<nat>): set<nat>
  {
    set v: nat | 0 < v < n && v !in skip
  }

  lemma AllCalledWin(s: State)
    requires Locks(s) && MaxSet(s) && s.late == {}
    ensures Winners(s) == Called(|s.cpus|, s.skip)
  {
    forall v: nat | 0 < v < |s.cpus| ensures v in Winners(s) <==> v !in s.skip {
      assert ApLock(s, v);
    }
  }

  // From every reachable state in which nobody has been given up, all processors that are called, and the BSP, can get
  // through the first barrier into main().
  lemma BootCanSucceed(n: nat, skip: set<nat>, maxCpu: nat, schedule: seq<nat>)
    requires 0 < n <= maxCpu
    ensures Run(Step, Init(n, skip, maxCpu), schedule).late == {} ==>
              exists more :: var t := Run(Step, Init(n, skip, maxCpu), schedule + more);
                AllInMain(t) && Winners(t) == Called(n, skip)
  {
    hide Step, Run, BootInv, AllInMain, Winners, Called, Init;
    BootReachable(n, skip, maxCpu, schedule);
    var s0 := Init(n, skip, maxCpu);
    var s := Run(Step, s0, schedule);
    if s.late == {} {
      var first := AllInTime(s, maxCpu);
      RunConcat(Step, s0, schedule, first);
      InTimeIsExact(n, skip, maxCpu, schedule + first);
      var t := Run(Step, s0, schedule + first);
      var second := AllGetThere(t, maxCpu);
      InvLocks(t, maxCpu);
      LateStays(t, second);
      RunConcat(Step, s0, schedule + first, second);
      assert schedule + first + second == schedule + (first + second);
      BootReachable(n, skip, maxCpu, schedule + (first + second));
      AllCalledWin(Run(Step, s0, schedule + (first + second)));
    }
  }

  lemma InvLocks(s: State, maxCpu: nat)
    requires BootInv(s, maxCpu)
    ensures Locks(s)
  {
  }
}
