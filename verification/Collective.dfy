// collective_only() / collective_end() (sync.c:181-222) on top of smp_halt() / smp_wakeup() (smp.c:72-100),
// used round after round as in benchmark.c:300-340: a global barrier, collective_only(mask), a barrier of the
// CPUs in the mask, collective_end().
//
// The two barriers appear as an arrival and a departure that is enabled once every participant has arrived;
// Barrier.LeavesOnlyWhenAllEntered shows that barrier() departs no earlier.
module Collective {
  import opened Machine
  import opened SmpFlags

  datatype Pc =
    | GlobalArrive | GlobalWait          // barrier(&global_barrier)
    | Decide                             // is my bit set in mask? (sync.c:191)
    | TryLock                            // sync.c:194
    | StoreMaster | StoreMask            // sync.c:196-197
    | MeetArrive | MeetWait              // barrier(&barr2) among the CPUs in the mask
    | EndLoad                            // coll_master == myid? (sync.c:210)
    | Wake(w: WakePc, u: nat)            // the loop of sync.c:213-218, at CPU u
    | Unlock                             // sync.c:219
    | Halt(h: HaltPc)                    // smp_halt()

  // Next is the loop head and mask test; the others are the accesses of smp_wakeup(u), smp.c:89-98.
  datatype WakePc = Next | AwaitHalted | ClearLoad | ClearStore | AwaitRunning

  // SetLoad/SetStore: smp.c:76; Sleep: the loop of smp.c:78-80; ResumeLoad/ResumeStore: smp.c:81.
  datatype HaltPc = SetLoad | SetStore | Sleep(z: SleepPc) | ResumeLoad | ResumeStore
  datatype SleepPc = Check | Hlt | Asleep

  // flags is the shared field stack[i].info.flags; t is a loaded value; halts and wakes count, for this CPU,
  // the halts it began and the times a waker cleared its HALT bit.
  datatype Cpu = Cpu(pc: Pc, round: nat, t: Flags, flags: Flags, halts: nat, wakes: nat)

  // masks[r] is the mask of round r; meets holds the rounds whose CPUs meet at a barrier between the two calls.
  // masters logs who obtained coll_mutex.
  datatype State = State(masks: seq<set<nat>>, meets: set<nat>, mutexFree: bool, collMaster: nat, collMask: set<nat>,
                         cpus: seq<Cpu>, masters: seq<nat>)

  function Init(n: nat, masks: seq<set<nat>>, meets: set<nat>): State
  {
    State(masks, meets, true, 0, {}, seq(n, i => Cpu(GlobalArrive, 0, CLEAR, CLEAR, 0, 0)), [])
  }

  // Program order.
  function Order(pc: Pc): nat
  {
    match pc
    case GlobalArrive => 0
    case GlobalWait => 1
    case Decide => 2
    case TryLock => 3
    case StoreMaster => 4
    case StoreMask => 5
    case MeetArrive => 6
    case MeetWait => 7
    case EndLoad => 8
    case Wake(_, _) => 9
    case Unlock => 10
    case Halt(_) => 11
  }

  predicate ArrivedGlobal(p: Cpu, r: nat)
  {
    p.round > r || (p.round == r && p.pc != GlobalArrive)
  }

  // The CPU has left collective_only() in round r as a member of the mask, or is past the round.
  predicate ArrivedMeet(p: Cpu, r: nat)
  {
    p.round > r || (p.round == r && 7 <= Order(p.pc) <= 10)
  }

  predicate AllArrivedGlobal(cpus: seq<Cpu>, r: nat)
  {
    forall j: nat | j < |cpus| :: ArrivedGlobal(cpus[j], r)
  }

  predicate AllArrivedMeet(cpus: seq<Cpu>, mask: set<nat>, r: nat)
  {
    forall j: nat | j < |cpus| && j in mask :: ArrivedMeet(cpus[j], r)
  }

  function Finish(p: Cpu): Cpu
  {
    p.(pc := GlobalArrive, round := p.round + 1)
  }

  function Move(s: State, i: nat, p: Cpu): State
    requires i < |s.cpus|
  {
    s.(cpus := s.cpus[i := p])
  }

  // One shared access by CPU i.
  function Step(s: State, i: nat): State
  {
    if i >= |s.cpus| || s.cpus[i].round >= |s.masks| then s else
    var p := s.cpus[i];
    var mask := s.masks[p.round];
    match p.pc
    case GlobalArrive => Move(s, i, p.(pc := GlobalWait))
    case GlobalWait => if AllArrivedGlobal(s.cpus, p.round) then Move(s, i, p.(pc := Decide)) else s
    case Decide => Move(s, i, p.(pc := if i in mask then TryLock else Halt(SetLoad)))
    case TryLock =>
      if s.mutexFree
      then Move(s, i, p.(pc := StoreMaster)).(mutexFree := false, masters := s.masters + [i])
      else Move(s, i, p.(pc := MeetArrive))
    case StoreMaster => Move(s, i, p.(pc := StoreMask)).(collMaster := i)
    case StoreMask => Move(s, i, p.(pc := MeetArrive)).(collMask := mask)
    case MeetArrive => Move(s, i, p.(pc := MeetWait))
    case MeetWait =>
      if p.round !in s.meets || AllArrivedMeet(s.cpus, mask, p.round) then Move(s, i, p.(pc := EndLoad)) else s
    case EndLoad => Move(s, i, if s.collMaster == i then p.(pc := Wake(Next, 0)) else Finish(p))
    case Wake(w, u) => WakeStep(s, i, w, u)
    case Unlock => Move(s, i, Finish(p)).(mutexFree := true)
    case Halt(h) => Move(s, i, HaltStep(p, h))
  }

  function WakeStep(s: State, i: nat, w: WakePc, u: nat): State
    requires i < |s.cpus|
  {
    var p := s.cpus[i];
    if u >= |s.cpus| then Move(s, i, p.(pc := Unlock)) else
    var q := s.cpus[u];
    match w
    case Next => Move(s, i, p.(pc := if u in s.collMask then Wake(Next, u + 1) else Wake(AwaitHalted, u)))
    case AwaitHalted => if q.flags.halted then Move(s, i, p.(pc := Wake(ClearLoad, u))) else s
    case ClearLoad => Move(s, i, p.(pc := Wake(ClearStore, u), t := q.flags))
    case ClearStore =>
      var s1 := Move(s, u, q.(flags := ClearHalt(p.t), wakes := q.wakes + 1));
      Move(s1, i, s1.cpus[i].(pc := Wake(AwaitRunning, u)))
    case AwaitRunning =>
      if !q.flags.halted then Move(s, i, p.(pc := Wake(Next, u + 1)))
      else if q.pc == Halt(Sleep(Asleep)) then Move(s, u, q.(pc := Halt(Sleep(Check))))   // the IPI ends hlt
      else s
  }

  function HaltStep(p: Cpu, h: HaltPc): Cpu
  {
    match h
    case SetLoad => p.(pc := Halt(SetStore), t := p.flags)
    case SetStore => p.(pc := Halt(Sleep(Check)), flags := SetHalt(p.t), halts := p.halts + 1)
    case Sleep(Check) => p.(pc := if p.flags.halt then Halt(Sleep(Hlt)) else Halt(ResumeLoad))
    case Sleep(Hlt) => p.(pc := Halt(Sleep(Asleep)))
    case Sleep(Asleep) => p
    case ResumeLoad => p.(pc := Halt(ResumeStore), t := p.flags)
    case ResumeStore => Finish(p.(flags := ClearHalted(p.t)))
  }

  // Each mask names an online CPU, and its CPUs meet unless it names only one.
  ghost predicate Config(n: nat, masks: seq<set<nat>>, meets: set<nat>)
  {
    forall r: nat | r < |masks| :: RoundConfig(n, masks[r], r in meets)
  }

  ghost predicate RoundConfig(n: nat, mask: set<nat>, met: bool)
  {
    (exists i: nat :: i < n && i in mask) && (met || Alone(n, mask))
  }

  ghost predicate Alone(n: nat, mask: set<nat>)
  {
    forall i: nat, j: nat | i < n && j < n && i in mask && j in mask :: i == j
  }

  // ---------------------------------------------------------------- the invariant: rounds

  // Two CPUs are at most one global barrier apart.
  predicate Near(p: Cpu, q: Cpu)
  {
    && p.round <= q.round + 1
    && (p.round == q.round + 1 ==> Order(p.pc) <= 1 && q.pc != GlobalArrive)
    && (p.round == q.round && Order(p.pc) > 1 ==> q.pc != GlobalArrive)
  }

  ghost predicate NearAll(s: State)
  {
    forall i: nat, j: nat | i < |s.cpus| && j < |s.cpus| :: Near(s.cpus[i], s.cpus[j])
  }

  // ---------------------------------------------------------------- the invariant: the mutex and its owner

  // The latest round that has a master, and that master.
  predicate HasMaster(s: State)
  {
    0 < |s.masters| <= |s.masks| && s.masters[|s.masters| - 1] < |s.cpus|
  }

  function LastMaster(s: State): Cpu
    requires HasMaster(s)
  {
    s.cpus[s.masters[|s.masters| - 1]]
  }

  predicate MasterOnly(pc: Pc)
  {
    4 <= Order(pc) <= 5 || 9 <= Order(pc) <= 10
  }

  predicate AfterTry(pc: Pc)
  {
    4 <= Order(pc) <= 10
  }

  predicate Ending(pc: Pc)
  {
    8 <= Order(pc) <= 10
  }

  // Every CPU of the mask has left collective_only() in the latest round that has a master.
  predicate Met(s: State)
  {
    0 < |s.masters| <= |s.masks| ==> AllArrivedMeet(s.cpus, s.masks[|s.masters| - 1], |s.masters| - 1)
  }

  predicate LockOk(s: State)
  {
    if s.masters == [] then s.mutexFree else
    && HasMaster(s)
    && var r, i := |s.masters| - 1, s.masters[|s.masters| - 1];
       var m := s.cpus[i];
       && i in s.masks[r]
       && (if s.mutexFree then m.round == r + 1 else m.round == r && AfterTry(m.pc))
       && (s.mutexFree || m.pc != StoreMaster ==> s.collMaster == i)
       && (s.mutexFree || (m.pc != StoreMaster && m.pc != StoreMask) ==> s.collMask == s.masks[r])
  }

  predicate CpuLock(s: State, i: nat)
    requires i < |s.cpus|
  {
    var p := s.cpus[i];
    && p.round <= |s.masks| && (p.pc != GlobalArrive ==> p.round < |s.masks|)
    && p.round <= |s.masters| <= p.round + 1
    && (3 <= Order(p.pc) <= 10 ==> i in s.masks[p.round])
    && (p.pc.Halt? ==> i !in s.masks[p.round])
    && (AfterTry(p.pc) ==> |s.masters| == p.round + 1)
    && (MasterOnly(p.pc) ==> |s.masters| == p.round + 1 && s.masters[p.round] == i)
    && (p.round == |s.masters| || Ending(p.pc) ==> Met(s))
  }

  ghost predicate Locking(s: State)
  {
    LockOk(s) && forall i: nat | i < |s.cpus| :: CpuLock(s, i)
  }

  predicate SamePlace(p: Cpu, q: Cpu)
  {
    p.round == q.round && Order(p.pc) == Order(q.pc)
  }

  // How far one step takes the stepping CPU, and that it takes the others nowhere.
  predicate Progresses(s: State, s': State, i: nat, j: nat)
    requires j < |s.cpus|
  {
    && |s'.cpus| == |s.cpus| && s'.masks == s.masks && s'.meets == s.meets
    && var p, q := s.cpus[j], s'.cpus[j];
       || SamePlace(p, q)
       || (i == j && p.round < |s.masks|
           && (|| (p.round == q.round && Order(p.pc) != 1 && Order(p.pc) < Order(q.pc)
               && (Order(q.pc) == 11 ==> Order(p.pc) == 2))
               || (p.round == q.round && Order(p.pc) == 1 && Order(q.pc) == 2 && AllArrivedGlobal(s.cpus, p.round))
               || (q.round == p.round + 1 && Order(p.pc) > 1 && q.pc == GlobalArrive)))
  }

  lemma WakeStorePlace(s: State, i: nat, j: nat)
    requires i < |s.cpus| && j < |s.cpus| && s.cpus[i].round < |s.masks|
    requires s.cpus[i].pc.Wake? && s.cpus[i].pc.w == ClearStore
    ensures Progresses(s, WakeStep(s, i, s.cpus[i].pc.w, s.cpus[i].pc.u), i, j)
  {
  }

  lemma WakePlace(s: State, i: nat, j: nat)
    requires i < |s.cpus| && j < |s.cpus| && s.cpus[i].round < |s.masks| && s.cpus[i].pc.Wake?
    ensures Progresses(s, WakeStep(s, i, s.cpus[i].pc.w, s.cpus[i].pc.u), i, j)
  {
    if s.cpus[i].pc.w == ClearStore { WakeStorePlace(s, i, j); }
  }

  lemma HaltPlace(p: Cpu, h: HaltPc)
    requires p.pc == Halt(h)
    ensures var q := HaltStep(p, h); SamePlace(p, q) || (q.round == p.round + 1 && q.pc == GlobalArrive)
  {
  }

  lemma StepPlace(s: State, i: nat, j: nat)
    requires j < |s.cpus|
    ensures Progresses(s, Step(s, i), i, j)
  {
    if i < |s.cpus| && s.cpus[i].round < |s.masks| {
      match s.cpus[i].pc
      case Wake(w, u) => WakePlace(s, i, j);
      case Halt(h) => HaltPlace(s.cpus[i], h);
      case _ =>
    }
  }

  lemma NearStep(s: State, i: nat)
    requires NearAll(s)
    ensures NearAll(Step(s, i))
  {
    var s' := Step(s, i);
    if s.cpus != [] { StepPlace(s, i, 0); }
    forall j: nat, k: nat | j < |s'.cpus| && k < |s'.cpus| ensures Near(s'.cpus[j], s'.cpus[k]) {
      assert Near(s.cpus[j], s.cpus[k]) && Near(s.cpus[k], s.cpus[j]);
      StepPlace(s, i, j);
      StepPlace(s, i, k);
    }
  }

  // A free mutex at TryLock means that the round has no master yet.
  lemma FreeAtTryLock(s: State, i: nat)
    requires Locking(s) && i < |s.cpus| && s.cpus[i].pc == TryLock
    ensures s.mutexFree ==> |s.masters| == s.cpus[i].round
  {
    assert CpuLock(s, i);
    if |s.masters| == s.cpus[i].round + 1 {
      assert CpuLock(s, s.masters[|s.masters| - 1]);
      assert !ArrivedMeet(s.cpus[i], s.cpus[i].round);
    }
  }

  // ---------------------------------------------------------------- the mutex invariant is kept

  predicate SameLock(s: State, s': State)
  {
    && s'.masters == s.masters && s'.mutexFree == s.mutexFree
    && s'.collMaster == s.collMaster && s'.collMask == s.collMask
  }

  ghost predicate Moves(s: State, s': State, i: nat)
  {
    && |s'.cpus| == |s.cpus| && s'.masks == s.masks && s'.meets == s.meets
    && forall j: nat | j < |s.cpus| :: Progresses(s, s', i, j)
  }

  lemma StepMoves(s: State, i: nat)
    ensures Moves(s, Step(s, i), i)
  {
    forall j: nat | j < |s.cpus| ensures Progresses(s, Step(s, i), i, j) {
      StepPlace(s, i, j);
    }
    if s.cpus == [] { assert Step(s, i) == s; } else { StepPlace(s, i, 0); }
  }

  lemma MetStays(s: State, s': State, i: nat)
    requires Moves(s, s', i) && s'.masters == s.masters && Met(s)
    ensures Met(s')
  {
    forall j: nat, r: nat | j < |s'.cpus| && ArrivedMeet(s.cpus[j], r) ensures ArrivedMeet(s'.cpus[j], r) {
      assert Progresses(s, s', i, j);
    }
  }

  predicate QuietMove(p: Cpu, q: Cpu, masks: seq<set<nat>>, i: nat)
  {
    && Order(p.pc) in {0, 1, 2, 6, 9, 11}
    && p.round < |masks|
    && (Order(p.pc) == 2 ==> Order(q.pc) == if i in masks[p.round] then 3 else 11)
    && (Order(p.pc) != 2 && q.round == p.round ==> Order(q.pc) in {Order(p.pc), Order(p.pc) + 1})
    && (q.round == p.round + 1 ==> Order(p.pc) == 11)
  }

  lemma QuietStep(s: State, i: nat)
    requires i < |s.cpus| && s.cpus[i].round < |s.masks| && Order(s.cpus[i].pc) in {0, 1, 2, 6, 9, 11}
    ensures SameLock(s, Step(s, i)) && |Step(s, i).cpus| == |s.cpus|
    ensures QuietMove(s.cpus[i], Step(s, i).cpus[i], s.masks, i)
    ensures Step(s, i).cpus[i].round > s.cpus[i].round ==> s.cpus[i].pc == Halt(ResumeStore)
  {
    match s.cpus[i].pc
    case Wake(w, u) =>
    case Halt(h) =>
    case _ =>
  }

  // Steps of a CPU that is not at the mutex leave its owner alone.
  lemma QuietLocking(s: State, s': State, i: nat)
    requires Locking(s) && i < |s.cpus| && Moves(s, s', i) && SameLock(s, s')
    requires QuietMove(s.cpus[i], s'.cpus[i], s.masks, i)
    requires s'.cpus[i].round > s.cpus[i].round ==> |s.masters| == s.cpus[i].round + 1 && Met(s)
    ensures Locking(s')
  {
    assert CpuLock(s, i);
    forall j: nat | j < |s'.cpus| ensures CpuLock(s', j) {
      assert CpuLock(s, j) && Progresses(s, s', i, j);
      if Met(s) { MetStays(s, s', i); }
    }
    if s.masters != [] {
      assert Progresses(s, s', i, s.masters[|s.masters| - 1]);
    }
  }

  lemma TryLockLocking(s: State, i: nat)
    requires NearAll(s) && Locking(s)
    requires i < |s.cpus| && s.cpus[i].round < |s.masks| && s.cpus[i].pc == TryLock
    ensures Locking(Step(s, i))
  {
    var s' := Step(s, i);
    assert CpuLock(s, i);
    StepMoves(s, i);
    FreeAtTryLock(s, i);
    assert s.mutexFree ==>
      forall j: nat | j < |s.cpus| :: Near(s.cpus[i], s.cpus[j]) && s.cpus[j].round >= s.cpus[i].round;
    if Met(s) && !s.mutexFree { MetStays(s, s', i); }
    if s.masters != [] { assert Progresses(s, s', i, s.masters[|s.masters| - 1]); }
    forall j: nat | j < |s'.cpus| ensures CpuLock(s', j) {
      assert CpuLock(s, j) && Progresses(s, s', i, j);
    }
  }

  lemma StoreLocking(s: State, i: nat)
    requires Locking(s)
    requires i < |s.cpus| && s.cpus[i].round < |s.masks| && (s.cpus[i].pc == StoreMaster || s.cpus[i].pc == StoreMask)
    ensures Locking(Step(s, i))
  {
    var s' := Step(s, i);
    assert CpuLock(s, i);
    StepMoves(s, i);
    if Met(s) { MetStays(s, s', i); }
    if s.masters != [] { assert Progresses(s, s', i, s.masters[|s.masters| - 1]); }
    forall j: nat | j < |s'.cpus| ensures CpuLock(s', j) {
      assert CpuLock(s, j) && Progresses(s, s', i, j);
    }
  }

  // A CPU passes the meeting only if all have met.
  lemma PassesMet(s: State, i: nat)
    requires Config(|s.cpus|, s.masks, s.meets) && Locking(s)
    requires i < |s.cpus| && s.cpus[i].round < |s.masks| && s.cpus[i].pc == MeetWait
    ensures Step(s, i) == s || (Met(s) && Step(s, i) == Move(s, i, s.cpus[i].(pc := EndLoad)))
  {
    assert CpuLock(s, i);
    if s.cpus[i].round !in s.meets { assert Alone(|s.cpus|, s.masks[s.cpus[i].round]); }
  }

  lemma MeetLocking(s: State, i: nat)
    requires Config(|s.cpus|, s.masks, s.meets) && Locking(s)
    requires i < |s.cpus| && s.cpus[i].round < |s.masks| && s.cpus[i].pc == MeetWait
    ensures Locking(Step(s, i))
  {
    hide Config, Met, Step;
    var s' := Step(s, i);
    PassesMet(s, i);
    if s' != s {
      assert CpuLock(s, i);
      StepMoves(s, i);
      MetStays(s, s', i);
      if s.masters != [] { assert Progresses(s, s', i, s.masters[|s.masters| - 1]); }
      forall j: nat | j < |s'.cpus| ensures CpuLock(s', j) {
        assert CpuLock(s, j) && Progresses(s, s', i, j);
      }
    }
  }

  lemma EndLocking(s: State, i: nat)
    requires Locking(s)
    requires i < |s.cpus| && s.cpus[i].round < |s.masks| && (s.cpus[i].pc == EndLoad || s.cpus[i].pc == Unlock)
    ensures Locking(Step(s, i))
  {
    var s' := Step(s, i);
    assert CpuLock(s, i);
    StepMoves(s, i);
    MetStays(s, s', i);
    if s.masters != [] { assert Progresses(s, s', i, s.masters[|s.masters| - 1]); }
    forall j: nat | j < |s'.cpus| ensures CpuLock(s', j) {
      assert CpuLock(s, j) && Progresses(s, s', i, j);
    }
  }

  // ---------------------------------------------------------------- the invariant: halting and waking

  // How many of the first r rounds leave CPU i out.
  function HaltCount(masks: seq<set<nat>>, i: nat, r: nat): nat
    requires r <= |masks|
  {
    if r == 0 then 0 else HaltCount(masks, i, r - 1) + if i in masks[r - 1] then 0 else 1
  }

  // They are the rounds of whose mask it is not.
  lemma {:induction false} HaltCountIs(masks: seq<set<nat>>, i: nat, r: nat)
    requires r <= |masks|
    ensures HaltCount(masks, i, r) == |set k: nat | k < r && i !in masks[k]|
  {
    var rounds := set k: nat | k < r && i !in masks[k];
    if r > 0 {
      HaltCountIs(masks, i, r - 1);
      var before := set k: nat | k < r - 1 && i !in masks[k];
      assert rounds == before + if i in masks[r - 1] then {} else {r - 1};
    }
  }

  predicate PastClearing(m: Cpu, v: nat)
  {
    m.pc == Unlock || (m.pc.Wake? && (m.pc.u > v || m.pc == Wake(AwaitRunning, v)))
  }

  // The HALT bit of v has been cleared in round r.
  predicate Cleared(s: State, v: nat, r: nat)
  {
    || r + 1 < |s.masters|
    || (r + 1 == |s.masters| && HasMaster(s) && (LastMaster(s).round > r || PastClearing(LastMaster(s), v)))
  }

  predicate LeftOut(s: State, v: nat, r: nat)
  {
    r < |s.masks| && v !in s.masks[r]
  }

  // The flags and counters of a CPU, given whether its round leaves it out, whether its HALT bit has been
  // cleared in that round, and how many rounds before left it out.
  predicate HandOk(p: Cpu, left: bool, cleared: bool, count: nat)
  {
    && (match p.pc
        case Halt(Sleep(_)) => p.flags == Flags(!cleared, true)
        case Halt(ResumeLoad) => cleared && p.flags == Flags(false, true)
        case Halt(ResumeStore) => cleared && p.flags == p.t == Flags(false, true)
        case Halt(SetStore) => !cleared && p.flags == p.t == CLEAR
        case _ => !cleared && p.flags == CLEAR)
    && p.halts == count + (if p.pc.Halt? && p.pc.h != SetLoad && p.pc.h != SetStore then 1 else 0)
    && p.wakes == count + (if cleared then 1 else 0)
    && (p.pc.Halt? ==> left)
  }

  predicate CpuHand(s: State, v: nat)
    requires v < |s.cpus|
  {
    var r := s.cpus[v].round;
    && r <= |s.masks|
    && HandOk(s.cpus[v], LeftOut(s, v, r), LeftOut(s, v, r) && Cleared(s, v, r), HaltCount(s.masks, v, r))
    && (r > 0 && LeftOut(s, v, r - 1) ==> Cleared(s, v, r - 1))
  }

  // The waker at u: u is left out, and from the load of its flags to their store it is asleep.
  predicate WakerOk(s: State, i: nat)
    requires i < |s.cpus|
  {
    var p := s.cpus[i];
    p.pc.Wake? ==>
      && p.pc.u <= |s.cpus|
      && (p.pc.w != Next ==> p.pc.u < |s.cpus| && LeftOut(s, p.pc.u, p.round))
      && (p.pc.w == ClearLoad || p.pc.w == ClearStore ==>
          s.cpus[p.pc.u].round == p.round && s.cpus[p.pc.u].pc.Halt? && s.cpus[p.pc.u].pc.h.Sleep?)
      && (p.pc.w == ClearStore ==> p.t == Flags(true, true))
  }

  predicate BehindWaker(s: State, v: nat)
  {
    HasMaster(s) && LeftOut(s, v, |s.masters| - 1) &&
    var m := LastMaster(s);
    m.round == |s.masters| || m.pc == Unlock || (m.pc.Wake? && v < m.pc.u)
  }

  // Behind the waker every CPU left out has finished the round.
  predicate Woken(s: State, v: nat)
    requires v < |s.cpus|
  {
    BehindWaker(s, v) ==> s.cpus[v].round == |s.masters|
  }

  ghost predicate Waiting(s: State)
  {
    forall i: nat | i < |s.cpus| :: CpuHand(s, i) && WakerOk(s, i) && Woken(s, i)
  }

  // Every round so far has had one master, from its mask.
  ghost predicate Elected(s: State)
  {
    |s.masters| <= |s.masks| && forall r | 0 <= r < |s.masters| :: s.masters[r] < |s.cpus| && s.masters[r] in s.masks[r]
  }

  ghost predicate Inv(s: State)
  {
    Config(|s.cpus|, s.masks, s.meets) && NearAll(s) && Locking(s) && Waiting(s) && Elected(s)
  }

  // Only the waker's store changes who is cleared.
  lemma ClearedByWaker(s: State, i: nat, v: nat, r: nat)
    requires Locking(s) && i < |s.cpus| && v < |s.cpus| && LeftOut(s, v, r)
    requires s.cpus[i].pc.Wake? && WakerOk(s, i)
    ensures Cleared(Step(s, i), v, r) == (Cleared(s, v, r)
        || (s.cpus[i].pc == Wake(ClearStore, v) && s.cpus[i].round == r))
  {
    assert CpuLock(s, i);
  }

  lemma ClearedStep(s: State, i: nat, v: nat, r: nat)
    requires Locking(s) && i < |s.cpus| && v < |s.cpus| && LeftOut(s, v, r) && WakerOk(s, i)
    ensures Cleared(Step(s, i), v, r) == (Cleared(s, v, r)
        || (s.cpus[i].pc == Wake(ClearStore, v) && s.cpus[i].round == r))
  {
    assert CpuLock(s, i);
    if s.cpus[i].pc.Wake? {
      ClearedByWaker(s, i, v, r);
    } else {
      if s.cpus[i].pc == TryLock { FreeAtTryLock(s, i); }
      if HasMaster(s) {
        var m := s.masters[|s.masters| - 1];
        assert CpuLock(s, m);
      }
    }
  }

  lemma SameMasks(s: State, i: nat)
    ensures Step(s, i).masks == s.masks && Step(s, i).meets == s.meets
  {
    StepMoves(s, i);
  }

  lemma HandOther(s: State, i: nat, v: nat)
    requires Locking(s) && Waiting(s)
    requires i < |s.cpus| && v < |s.cpus| && v != i && s.cpus[i].round < |s.masks| && !s.cpus[i].pc.Wake?
    ensures CpuHand(Step(s, i), v)
  {
    hide Step, Progresses, Cleared, Met, HandOk, HaltCount, Woken;
    var r := s.cpus[v].round;
    assert CpuHand(s, v) && WakerOk(s, i);
    StepMoves(s, i);
    NoWakerShape(s, i, v);
    if LeftOut(s, v, r) { ClearedStep(s, i, v, r); }
    if r > 0 && LeftOut(s, v, r - 1) { ClearedStep(s, i, v, r - 1); }
    SameMasks(s, i);
  }

  lemma HaltHand(p: Cpu, h: HaltPc, cleared: bool, count: nat, left: bool)
    requires p.pc == Halt(h) && HandOk(p, true, cleared, count)
    ensures var q := HaltStep(p, h);
            if q.round == p.round then q.pc.Halt? && HandOk(q, true, cleared, count)
            else cleared && q.round == p.round + 1 && HandOk(q, left, false, count + 1)
  {
  }

  lemma HandHalter(s: State, i: nat)
    requires Locking(s) && Waiting(s)
    requires i < |s.cpus| && s.cpus[i].round < |s.masks| && s.cpus[i].pc.Halt?
    ensures CpuHand(Step(s, i), i)
  {
    var r := s.cpus[i].round;
    assert CpuHand(s, i) && WakerOk(s, i) && CpuLock(s, i);
    assert LeftOut(s, i, r);
    ClearedStep(s, i, i, r);
    HaltHand(s.cpus[i], s.cpus[i].pc.h, Cleared(s, i, r), HaltCount(s.masks, i, r), LeftOut(s, i, r + 1));
    if r > 0 && LeftOut(s, i, r - 1) { ClearedStep(s, i, i, r - 1); }
  }

  // The flags and counters stay, and the CPU stays awake: as a step that is part of neither a halt nor a wake-up does.
  predicate StaysAwake(p: Cpu, q: Cpu, masks: seq<set<nat>>, i: nat)
  {
    && q.flags == p.flags && q.halts == p.halts && q.wakes == p.wakes && p.round < |masks|
    && !p.pc.Halt? && (q.pc.Halt? ==> q.pc.h == SetLoad && i !in masks[p.round])
    && (q.round == p.round || (q.round == p.round + 1 && q.pc == GlobalArrive && i in masks[p.round]))
  }

  lemma MemberShape(s: State, i: nat)
    requires i < |s.cpus| && s.cpus[i].round < |s.masks| && !s.cpus[i].pc.Wake? && !s.cpus[i].pc.Halt?
    requires CpuLock(s, i)
    ensures StaysAwake(s.cpus[i], Step(s, i).cpus[i], s.masks, i)
  {
  }

  lemma HandAwake(s: State, s': State, i: nat)
    requires i < |s.cpus| == |s'.cpus| && s'.masks == s.masks && CpuLock(s, i) && CpuHand(s, i)
    requires StaysAwake(s.cpus[i], s'.cpus[i], s.masks, i)
    requires forall r: nat | LeftOut(s, i, r) :: Cleared(s', i, r) == Cleared(s, i, r)
    ensures CpuHand(s', i)
  {
    var r := s.cpus[i].round;
    assert LeftOut(s, i, r + 1) ==> !Cleared(s, i, r + 1);
    assert forall r: nat :: LeftOut(s', i, r) == LeftOut(s, i, r);
  }

  lemma HandMember(s: State, i: nat)
    requires Locking(s) && Waiting(s)
    requires i < |s.cpus| && s.cpus[i].round < |s.masks| && !s.cpus[i].pc.Wake? && !s.cpus[i].pc.Halt?
    ensures CpuHand(Step(s, i), i)
  {
    StepMoves(s, i);
    MemberShape(s, i);
    forall r: nat | LeftOut(s, i, r) ensures Cleared(Step(s, i), i, r) == Cleared(s, i, r) {
      ClearedStep(s, i, i, r);
    }
    HandAwake(s, Step(s, i), i);
  }

  lemma WakerShape(s: State, i: nat, v: nat)
    requires i < |s.cpus| && v < |s.cpus| && s.cpus[i].pc.Wake?
    requires s.cpus[i].pc.u == i ==> s.cpus[i].pc.w == Next
    ensures var p, q := s.cpus[v], WakeStep(s, i, s.cpus[i].pc.w, s.cpus[i].pc.u).cpus[v];
            q == if s.cpus[i].pc == Wake(ClearStore, v)
                 then p.(flags := ClearHalt(s.cpus[i].t), wakes := p.wakes + 1)
                 else p.(pc := q.pc, t := q.t)
    ensures var p, q := s.cpus[v], WakeStep(s, i, s.cpus[i].pc.w, s.cpus[i].pc.u).cpus[v];
            if v == i then !q.pc.Halt?
            else
              || q == p || s.cpus[i].pc == Wake(ClearStore, v)
              || (p.pc == Halt(Sleep(Asleep)) && q.pc == Halt(Sleep(Check)))
  {
  }

  lemma StepIsWake(s: State, i: nat)
    requires i < |s.cpus| && s.cpus[i].round < |s.masks| && s.cpus[i].pc.Wake?
    ensures Step(s, i) == WakeStep(s, i, s.cpus[i].pc.w, s.cpus[i].pc.u)
  {
  }

  lemma HandWaker(s: State, i: nat, v: nat)
    requires Locking(s) && Waiting(s)
    requires i < |s.cpus| && v < |s.cpus| && s.cpus[i].round < |s.masks| && s.cpus[i].pc.Wake?
    ensures CpuHand(Step(s, i), v)
  {
    hide Step, WakeStep, Progresses, Met, HaltCount, Woken;
    var r := s.cpus[v].round;
    assert CpuHand(s, v) && CpuHand(s, i) && WakerOk(s, i) && CpuLock(s, v) && CpuLock(s, i);
    StepMoves(s, i);
    StepIsWake(s, i);
    WakerShape(s, i, v);
    if LeftOut(s, v, r) { ClearedStep(s, i, v, r); }
    if r > 0 && LeftOut(s, v, r - 1) { ClearedStep(s, i, v, r - 1); }
    HandTouched(s, Step(s, i), i, v);
  }

  lemma HandTouched(s: State, s': State, i: nat, v: nat)
    requires i < |s.cpus| == |s'.cpus| && v < |s.cpus| && s'.masks == s.masks && s.cpus[i].pc.Wake?
    requires CpuHand(s, v) && WakerOk(s, i)
    requires var p, q, r := s.cpus[v], s'.cpus[v], s.cpus[v].round;
      && (q == if s.cpus[i].pc == Wake(ClearStore, v) then p.(flags := ClearHalt(s.cpus[i].t), wakes := p.wakes + 1)
               else p.(pc := q.pc, t := q.t))
      && (if v == i then !q.pc.Halt? && s.cpus[i].pc != Wake(ClearStore, i)
          else
            || q == p || s.cpus[i].pc == Wake(ClearStore, v)
            || (p.pc == Halt(Sleep(Asleep)) && q.pc == Halt(Sleep(Check))))
      && (s.cpus[i].pc == Wake(ClearStore, v) ==> !Cleared(s, v, r))
      && (LeftOut(s, v, r) ==> Cleared(s', v, r) == (Cleared(s, v, r) || s.cpus[i].pc == Wake(ClearStore, v)))
      && (r > 0 && LeftOut(s, v, r - 1) && Cleared(s, v, r - 1) ==> Cleared(s', v, r - 1))
    ensures CpuHand(s', v)
  {
    assert forall r: nat :: LeftOut(s', v, r) == LeftOut(s, v, r);
  }

  // The CPU the waker waits for is asleep in the same round as soon as its HALTED bit shows.
  lemma HaltedMeansAsleep(s: State, i: nat)
    requires NearAll(s) && Locking(s) && Waiting(s) && i < |s.cpus|
    requires s.cpus[i].pc.Wake? && s.cpus[i].pc.w in {AwaitHalted, ClearLoad, ClearStore} && s.cpus[i].pc.u < |s.cpus|
    ensures var q := s.cpus[s.cpus[i].pc.u];
            q.flags.halted ==> q.round == s.cpus[i].round && q.pc.Halt? && q.pc.h.Sleep? && q.flags == Flags(true, true)
  {
    assert WakerOk(s, i) && CpuLock(s, i);
    var u := s.cpus[i].pc.u;
    assert CpuLock(s, u) && CpuHand(s, u) && Near(s.cpus[u], s.cpus[i]);
  }

  lemma WakerSelf(s: State, i: nat)
    requires NearAll(s) && Locking(s) && Waiting(s)
    requires i < |s.cpus| && s.cpus[i].round < |s.masks| && s.cpus[i].pc.Wake?
    ensures WakerOk(Step(s, i), i)
  {
    assert WakerOk(s, i) && CpuLock(s, i);
    match s.cpus[i].pc.w
    case Next => assert s.collMask == s.masks[s.cpus[i].round];
    case AwaitHalted => HaltedMeansAsleep(s, i);
    case ClearLoad =>
      HaltedMeansAsleep(s, i);
      assert CpuHand(s, s.cpus[i].pc.u);
    case _ =>
  }

  lemma NoWakerSelf(s: State, i: nat)
    requires i < |s.cpus| && s.cpus[i].round < |s.masks| && !s.cpus[i].pc.Wake?
    ensures WakerOk(Step(s, i), i)
  {
  }

  // Who is not waking touches nobody else, and an uncleared sleeper sleeps on.
  lemma NoWakerShape(s: State, i: nat, v: nat)
    requires i < |s.cpus| && v < |s.cpus| && !s.cpus[i].pc.Wake?
    ensures |Step(s, i).cpus| == |s.cpus|
    ensures v != i ==> Step(s, i).cpus[v] == s.cpus[v]
    ensures var p, q := s.cpus[i], Step(s, i).cpus[i];
            p.pc.Halt? && p.pc.h.Sleep? && p.flags.halt ==> q.round == p.round && q.pc.Halt? && q.pc.h.Sleep?
  {
  }

  lemma WakerOther(s: State, i: nat, v: nat)
    requires NearAll(s) && Locking(s) && Waiting(s)
    requires i < |s.cpus| && v < |s.cpus| && i != v && s.cpus[i].round < |s.masks|
    ensures |Step(s, i).cpus| == |s.cpus| && WakerOk(Step(s, i), v)
  {
    hide Step, Met, Near, HandOk, Woken;
    assert WakerOk(s, v) && CpuLock(s, i) && CpuLock(s, v);
    StepMoves(s, i);
    assert Progresses(s, Step(s, i), i, v);
    if s.cpus[v].pc.Wake? {
      NoWakerShape(s, i, v);
      if s.cpus[v].pc.w != Next {
        NoWakerShape(s, i, s.cpus[v].pc.u);
        if s.cpus[v].pc.w in {ClearLoad, ClearStore} { SleeperUncleared(s, v); }
      }
    }
  }

  // Until the waker stores, the CPU it is at has its HALT bit set.
  lemma SleeperUncleared(s: State, i: nat)
    requires NearAll(s) && Locking(s) && Waiting(s) && i < |s.cpus|
    requires s.cpus[i].pc.Wake? && s.cpus[i].pc.w in {ClearLoad, ClearStore}
    ensures s.cpus[i].pc.u < |s.cpus| && s.cpus[s.cpus[i].pc.u].flags == Flags(true, true)
  {
    assert WakerOk(s, i);
    assert CpuHand(s, s.cpus[i].pc.u);
    HaltedMeansAsleep(s, i);
  }

  // A CPU that the waker finds running again has finished the round.
  lemma RunningMeansFinished(s: State, i: nat)
    requires Locking(s) && Waiting(s) && NearAll(s)
    requires i < |s.cpus| && s.cpus[i].pc.Wake? && s.cpus[i].pc.w == AwaitRunning
    ensures s.cpus[i].pc.u < |s.cpus|
    ensures !s.cpus[s.cpus[i].pc.u].flags.halted ==> s.cpus[s.cpus[i].pc.u].round == |s.masters|
  {
    assert WakerOk(s, i) && CpuLock(s, i);
    var u := s.cpus[i].pc.u;
    assert CpuLock(s, u) && CpuHand(s, u);
  }

  lemma BehindStep(s: State, i: nat, v: nat)
    requires Locking(s) && i < |s.cpus| && v < |s.cpus| && s.cpus[i].round < |s.masks| && WakerOk(s, i)
    ensures |Step(s, i).cpus| == |s.cpus|
    ensures BehindWaker(Step(s, i), v) ==>
      && |Step(s, i).masters| == |s.masters|
      && (BehindWaker(s, v) || (s.cpus[i].pc == Wake(AwaitRunning, v) && !s.cpus[v].flags.halted))
  {
    assert CpuLock(s, i);
    StepMoves(s, i);
    if HasMaster(s) {
      var m := s.masters[|s.masters| - 1];
      assert CpuLock(s, m);
      assert Progresses(s, Step(s, i), i, m);
    }
  }

  lemma WokenStep(s: State, i: nat, v: nat)
    requires NearAll(s) && Locking(s) && Waiting(s)
    requires i < |s.cpus| && v < |s.cpus| && s.cpus[i].round < |s.masks| && Locking(Step(s, i))
    ensures |Step(s, i).cpus| == |s.cpus| && Woken(Step(s, i), v)
  {
    assert Woken(s, v) && WakerOk(s, i);
    StepMoves(s, i);
    BehindStep(s, i, v);
    if s.cpus[i].pc == Wake(AwaitRunning, v) { RunningMeansFinished(s, i); }
    assert Progresses(s, Step(s, i), i, v) && CpuLock(Step(s, i), v);
  }

  // A CPU that leaves smp_halt() has been woken by the round's master, so the mask has met.
  lemma ResumedMeansMet(s: State, i: nat)
    requires Locking(s) && Waiting(s)
    requires i < |s.cpus| && s.cpus[i].pc == Halt(ResumeStore)
    ensures |s.masters| == s.cpus[i].round + 1 && Met(s)
  {
    assert CpuHand(s, i) && CpuLock(s, i);
    assert CpuLock(s, s.masters[|s.masters| - 1]);
  }

  lemma LockingStep(s: State, i: nat)
    requires Inv(s) && i < |s.cpus| && s.cpus[i].round < |s.masks|
    ensures Locking(Step(s, i))
  {
    match s.cpus[i].pc
    case TryLock => TryLockLocking(s, i);
    case StoreMaster => StoreLocking(s, i);
    case StoreMask => StoreLocking(s, i);
    case MeetWait => MeetLocking(s, i);
    case EndLoad => EndLocking(s, i);
    case Unlock => EndLocking(s, i);
    case _ =>
      StepMoves(s, i);
      QuietStep(s, i);
      if s.cpus[i].pc == Halt(ResumeStore) { ResumedMeansMet(s, i); }
      QuietLocking(s, Step(s, i), i);
  }

  lemma HandStep(s: State, i: nat, v: nat)
    requires Inv(s) && i < |s.cpus| && v < |s.cpus| && s.cpus[i].round < |s.masks|
    ensures |Step(s, i).cpus| == |s.cpus| && CpuHand(Step(s, i), v)
  {
    StepMoves(s, i);
    if s.cpus[i].pc.Wake? {
      HandWaker(s, i, v);
    } else if v != i {
      HandOther(s, i, v);
    } else if s.cpus[i].pc.Halt? {
      HandHalter(s, i);
    } else {
      HandMember(s, i);
    }
  }

  lemma WakerStep(s: State, i: nat, v: nat)
    requires Inv(s) && i < |s.cpus| && v < |s.cpus| && s.cpus[i].round < |s.masks|
    ensures |Step(s, i).cpus| == |s.cpus| && WakerOk(Step(s, i), v)
  {
    StepMoves(s, i);
    if v != i {
      WakerOther(s, i, v);
    } else if s.cpus[i].pc.Wake? {
      WakerSelf(s, i);
    } else {
      NoWakerSelf(s, i);
    }
  }

  lemma ElectedStep(s: State, i: nat)
    requires Inv(s) && i < |s.cpus| && s.cpus[i].round < |s.masks|
    ensures Elected(Step(s, i))
  {
    StepMoves(s, i);
    assert CpuLock(s, i);
    if s.cpus[i].pc == TryLock { FreeAtTryLock(s, i); }
  }

  lemma StepInv(s: State, i: nat)
    requires Inv(s)
    ensures Inv(Step(s, i)) && |Step(s, i).cpus| == |s.cpus|
  {
    if i < |s.cpus| && s.cpus[i].round < |s.masks| {
      StepMoves(s, i);
      NearStep(s, i);
      LockingStep(s, i);
      ElectedStep(s, i);
      forall v: nat | v < |s.cpus| ensures CpuHand(Step(s, i), v) && WakerOk(Step(s, i), v) && Woken(Step(s, i), v) {
        HandStep(s, i, v);
        WakerStep(s, i, v);
        WokenStep(s, i, v);
      }
    }
  }

  lemma InitInv(n: nat, masks: seq<set<nat>>, meets: set<nat>)
    requires Config(n, masks, meets)
    ensures Inv(Init(n, masks, meets))
  {
  }

  // Every reachable state, in every interleaving of any number of rounds, satisfies the invariant.
  lemma Reachable(n: nat, masks: seq<set<nat>>, meets: set<nat>, schedule: seq<nat>)
    requires Config(n, masks, meets)
    ensures var s := Run(Step, Init(n, masks, meets), schedule);
            Inv(s) && |s.cpus| == n && s.masks == masks
  {
    InitInv(n, masks, meets);
    forall s, i | Inv(s) && |s.cpus| == n && s.masks == masks
      ensures Inv(Step(s, i)) && |Step(s, i).cpus| == n && Step(s, i).masks == masks
    {
      StepInv(s, i);
      StepMoves(s, i);
    }
    Invariance(Step, (s: State) => Inv(s) && |s.cpus| == n && s.masks == masks, Init(n, masks, meets), schedule);
  }

  // ---------------------------------------------------------------- what the callers may rely on

  // The CPUs that act as master are one CPU.
  ghost predicate OneMaster(s: State)
  {
    forall i: nat, j: nat | i < |s.cpus| && j < |s.cpus| && MasterOnly(s.cpus[i].pc) && MasterOnly(s.cpus[j].pc) ::
        i == j
  }

  // What a CPU has been through at the start of its round.
  predicate Settled(s: State, i: nat)
    requires i < |s.cpus| && s.cpus[i].round <= |s.masks|
  {
    && s.cpus[i].flags == CLEAR
    && s.cpus[i].halts == s.cpus[i].wakes == HaltCount(s.masks, i, s.cpus[i].round)
  }

  // No load/store update of a flags word is overtaken: what is stored was computed from what is there.
  predicate NoLostUpdate(s: State, i: nat)
    requires i < |s.cpus|
  {
    var p := s.cpus[i];
    && (p.pc == Halt(SetStore) || p.pc == Halt(ResumeStore) ==> p.t == p.flags)
    && (p.pc.Wake? && p.pc.w == ClearStore ==> p.pc.u < |s.cpus| && p.pc.u != i && p.t == s.cpus[p.pc.u].flags)
  }

  predicate CpuRoundOk(s: State, i: nat)
    requires i < |s.cpus|
  {
    var p := s.cpus[i];
    && p.round <= |s.masks|
    && p.round <= |s.masters| <= p.round + 1
    && (Order(p.pc) <= 1 ==> Settled(s, i))
    && NoLostUpdate(s, i)
    // smp_halt() is left only after a wake-up that saw this halt
    && (p.pc == Halt(ResumeLoad) || p.pc == Halt(ResumeStore) ==> p.wakes == p.halts)
  }

  ghost predicate RoundsOk(s: State)
  {
    && OneMaster(s) && Elected(s)
    && (forall i: nat | i < |s.cpus| :: CpuRoundOk(s, i))
    && (Idle(s) ==> s.mutexFree)
  }

  // No CPU is between its global barriers.
  predicate Idle(s: State)
  {
    forall i: nat | i < |s.cpus| :: Order(s.cpus[i].pc) <= 1
  }

  lemma CpuRound(s: State, i: nat)
    requires Inv(s) && i < |s.cpus|
    ensures CpuRoundOk(s, i)
  {
    assert CpuLock(s, i) && CpuHand(s, i) && WakerOk(s, i);
    if s.cpus[i].pc.Wake? && s.cpus[i].pc.w == ClearStore { HaltedMeansAsleep(s, i); WakerIsReady(s, i); }
  }

  lemma InvIsOk(s: State)
    requires Inv(s)
    ensures RoundsOk(s)
  {
    forall i: nat | i < |s.cpus| ensures CpuRoundOk(s, i) {
      CpuRound(s, i);
    }
    OnlyOneMaster(s);
    if Idle(s) { IdleMutex(s); }
  }

  lemma IdleMutex(s: State)
    requires LockOk(s) && Idle(s)
    ensures s.mutexFree
  {
    if s.masters != [] { assert Order(s.cpus[s.masters[|s.masters| - 1]].pc) <= 1; }
  }

  lemma OnlyOneMaster(s: State)
    requires Locking(s)
    ensures OneMaster(s)
  {
    forall i: nat, j: nat | i < |s.cpus| && j < |s.cpus| && MasterOnly(s.cpus[i].pc) && MasterOnly(s.cpus[j].pc)
      ensures i == j
    {
      assert CpuLock(s, i) && CpuLock(s, j);
    }
  }

  // In every interleaving of any number of rounds: one master a round, taken from the mask; each CPU left out halts
  // once and is woken once; between rounds the mutex is free and all flags are clear.
  lemma CollectiveRounds(n: nat, masks: seq<set<nat>>, meets: set<nat>, schedule: seq<nat>)
    requires Config(n, masks, meets)
    ensures RoundsOk(Run(Step, Init(n, masks, meets), schedule))
  {
    Reachable(n, masks, meets, schedule);
    InvIsOk(Run(Step, Init(n, masks, meets), schedule));
  }

  // ---------------------------------------------------------------- every round completes

  predicate Done(s: State)
  {
    forall i: nat | i < |s.cpus| :: s.cpus[i].round >= |s.masks|
  }

  // Steps left in the current round.
  function Stage(p: Cpu, n: nat): nat
  {
    match p.pc
    case GlobalArrive => 5 * n + 18
    case GlobalWait => 5 * n + 17
    case Decide => 5 * n + 16
    case TryLock => 5 * n + 15
    case StoreMaster => 5 * n + 14
    case StoreMask => 5 * n + 13
    case MeetArrive => 5 * n + 12
    case MeetWait => 5 * n + 11
    case EndLoad => 5 * n + 10
    case Wake(w, u) =>
      (if u < n then 5 * (n - u) else 0) +
      (match w case Next => 5 case AwaitHalted => 4 case ClearLoad => 3 case ClearStore => 2 case AwaitRunning => 1)
    case Unlock => 1
    case Halt(SetLoad) => 12
    case Halt(SetStore) => 11
    case Halt(Sleep(Check)) => if p.flags.halt then 10 else 5
    case Halt(Sleep(Hlt)) => if p.flags.halt then 9 else 7
    case Halt(Sleep(Asleep)) => if p.flags.halt then 8 else 6
    case Halt(ResumeLoad) => 4
    case Halt(ResumeStore) => 3
  }

  function Times(a: nat, b: nat): nat
  {
    if a == 0 then 0 else Times(a - 1, b) + b
  }

  function Rank(p: Cpu, n: nat, rounds: nat): nat
  {
    (if p.round < rounds then Times(rounds - p.round, 5 * n + 19) else 0) + Stage(p, n)
  }

  function Ranks(cpus: seq<Cpu>, n: nat, rounds: nat): nat
  {
    if cpus == [] then 0 else Rank(cpus[0], n, rounds) + Ranks(cpus[1..], n, rounds)
  }

  function TotalRank(s: State): nat
  {
    Ranks(s.cpus, |s.cpus|, |s.masks|)
  }

  lemma {:induction false} RanksUpdate(cpus: seq<Cpu>, n: nat, rounds: nat, i: nat, p: Cpu)
    requires i < |cpus|
    ensures Ranks(cpus[i := p], n, rounds) + Rank(cpus[i], n, rounds) == Ranks(cpus, n, rounds) + Rank(p, n, rounds)
  {
    if i == 0 {
      assert cpus[i := p][1..] == cpus[1..];
    } else {
      RanksUpdate(cpus[1..], n, rounds, i - 1, p);
      assert cpus[i := p][1..] == cpus[1..][i - 1 := p];
    }
  }

  predicate Nearer(p: Cpu, q: Cpu, n: nat)
  {
    (q.round == p.round && Stage(q, n) < Stage(p, n)) || (q.round == p.round + 1 && q.pc == GlobalArrive)
  }

  lemma NearerRank(p: Cpu, q: Cpu, n: nat, rounds: nat)
    requires p.round < rounds && Nearer(p, q, n)
    ensures Rank(q, n, rounds) < Rank(p, n, rounds)
  {
    assert rounds - p.round == (rounds - (p.round + 1)) + 1;
  }

  // A step changes nothing or brings the end nearer.
  lemma EntryStepCost(s: State, i: nat)
    requires i < |s.cpus| && s.cpus[i].round < |s.masks| && Order(s.cpus[i].pc) in {0, 1, 2, 3, 4, 5}
    ensures Step(s, i) == s || (Step(s, i).cpus == s.cpus[i := Step(s, i).cpus[i]]
                                && Nearer(s.cpus[i], Step(s, i).cpus[i], |s.cpus|))
  {
  }

  lemma ExitStepCost(s: State, i: nat)
    requires i < |s.cpus| && s.cpus[i].round < |s.masks| && Order(s.cpus[i].pc) in {6, 7, 8, 10}
    ensures Step(s, i) == s || (Step(s, i).cpus == s.cpus[i := Step(s, i).cpus[i]]
                                && Nearer(s.cpus[i], Step(s, i).cpus[i], |s.cpus|))
  {
  }

  lemma HaltStepCost(p: Cpu, n: nat)
    requires p.pc.Halt?
    ensures var q := HaltStep(p, p.pc.h); q == p || Nearer(p, q, n)
  {
  }

  // What the waker's cost depends on.
  predicate WakerReady(s: State, i: nat)
  {
    && i < |s.cpus| && s.cpus[i].pc.Wake?
    && var p, u := s.cpus[i], s.cpus[i].pc.u;
       if u >= |s.cpus| then p.pc.w == Next else
         var q := s.cpus[u];
         && (p.pc.w == ClearStore ==>
               u != i && q.round < |s.masks| && q.pc.Halt? && q.pc.h.Sleep? && p.t == q.flags == Flags(true, true))
         && (p.pc.w == AwaitRunning && q.pc == Halt(Sleep(Asleep)) ==> u != i && q.round < |s.masks| && !q.flags.halt)
  }

  lemma WakerIsReady(s: State, i: nat)
    requires Inv(s) && i < |s.cpus| && s.cpus[i].round < |s.masks| && s.cpus[i].pc.Wake?
    ensures WakerReady(s, i)
  {
    hide Config, LockOk, Near, Elected, CpuLock, CpuHand, WakerOk, Woken;
    var w, u := s.cpus[i].pc.w, s.cpus[i].pc.u;
    assert WakerOk(s, i) && CpuLock(s, i);
    if u < |s.cpus| { assert CpuHand(s, u) && CpuLock(s, u) && Near(s.cpus[u], s.cpus[i]); }
    if w == ClearStore && u < |s.cpus| { HaltedMeansAsleep(s, i); }
    ReadyByParts(s, i);
  }

  lemma ReadyByParts(s: State, i: nat)
    requires i < |s.cpus| && s.cpus[i].round < |s.masks| && s.cpus[i].pc.Wake? && WakerOk(s, i) && CpuLock(s, i)
    requires var u := s.cpus[i].pc.u;
             u < |s.cpus| ==>
               && CpuHand(s, u) && CpuLock(s, u) && Near(s.cpus[u], s.cpus[i])
               && (s.cpus[i].pc.w == ClearStore && s.cpus[u].flags.halted ==> s.cpus[u].flags == Flags(true, true))
    ensures WakerReady(s, i)
  {
  }

  // The waker's step moves the waker, the CPU it wakes, or both.
  predicate WakeCost(s: State, s': State, i: nat, u: nat)
    requires i < |s.cpus| == |s'.cpus|
  {
    var n := |s.cpus|;
    || s'.cpus == s.cpus
    || (s'.cpus == s.cpus[i := s'.cpus[i]] && Nearer(s.cpus[i], s'.cpus[i], n))
    || (u < n && u != i && s.cpus[u].round < |s.masks| && s'.cpus == s.cpus[u := s'.cpus[u]]
        && Nearer(s.cpus[u], s'.cpus[u], n))
    || (u < n && u != i && s.cpus[u].round < |s.masks|
        && s'.cpus == s.cpus[u := s'.cpus[u]][i := s'.cpus[i]]
        && Nearer(s.cpus[u], s'.cpus[u], n) && Nearer(s.cpus[i], s'.cpus[i], n))
  }

  lemma WakeStepCost(s: State, i: nat)
    requires WakerReady(s, i)
    ensures var s' := WakeStep(s, i, s.cpus[i].pc.w, s.cpus[i].pc.u);
            |s'.cpus| == |s.cpus| && s'.masks == s.masks && (s'.cpus == s.cpus ==> s' == s)
                && WakeCost(s, s', i, s.cpus[i].pc.u)
  {
    match s.cpus[i].pc.w
    case ClearStore =>
    case AwaitRunning =>
    case _ =>
  }

  lemma StepCost(s: State, i: nat)
    requires Inv(s)
    ensures |Step(s, i).cpus| == |s.cpus| && Step(s, i).masks == s.masks
    ensures Step(s, i) == s || TotalRank(Step(s, i)) < TotalRank(s)
  {
    hide NearAll, Locking, Waiting, Elected, Config, TotalRank, Nearer, WakeCost, WakerReady, WakeStep, HaltStep;
    StepMoves(s, i);
    if i < |s.cpus| && s.cpus[i].round < |s.masks| {
      var n, rounds := |s.cpus|, |s.masks|;
      var p, s' := s.cpus[i], Step(s, i);
      if p.pc.Wake? {
        WakerIsReady(s, i);
        WakeStepCost(s, i);
        WakeRank(s, s', i, p.pc.u);
      } else if p.pc.Halt? {
        HaltStepCost(p, n);
        assert p == s'.cpus[i] ==> s.cpus[i := p] == s.cpus;
        if s' != s { OneRank(s, s', i); }
      } else {
        if Order(p.pc) <= 5 { EntryStepCost(s, i); } else { ExitStepCost(s, i); }
        if s' != s { OneRank(s, s', i); }
      }
    }
  }

  lemma OneRank(s: State, s': State, i: nat)
    requires i < |s.cpus| == |s'.cpus| && s'.masks == s.masks && s.cpus[i].round < |s.masks|
    requires s'.cpus == s.cpus[i := s'.cpus[i]] && Nearer(s.cpus[i], s'.cpus[i], |s.cpus|)
    ensures TotalRank(s') < TotalRank(s)
  {
    RanksUpdate(s.cpus, |s.cpus|, |s.masks|, i, s'.cpus[i]);
    NearerRank(s.cpus[i], s'.cpus[i], |s.cpus|, |s.masks|);
  }

  lemma WakeRank(s: State, s': State, i: nat, u: nat)
    requires i < |s.cpus| == |s'.cpus| && s'.masks == s.masks && s.cpus[i].round < |s.masks| && WakeCost(s, s', i, u)
    ensures s'.cpus == s.cpus || TotalRank(s') < TotalRank(s)
  {
    if s'.cpus != s.cpus {
      if s'.cpus == s.cpus[i := s'.cpus[i]] && Nearer(s.cpus[i], s'.cpus[i], |s.cpus|) {
        OneRank(s, s', i);
      } else if s'.cpus == s.cpus[u := s'.cpus[u]] {
        OneRank(s, s', u);
      } else {
        var mid := s.(cpus := s.cpus[u := s'.cpus[u]]);
        OneRank(s, mid, u);
        OneRank(mid, s', i);
      }
    }
  }

  // ---------------------------------------------------------------- no reachable state is stuck

  ghost predicate Stuck(s: State)
  {
    forall i: nat | i < |s.cpus| :: Step(s, i) == s
  }

  predicate Blocked(pc: Pc)
  {
    match pc
    case GlobalWait => true
    case MeetWait => true
    case Wake(AwaitHalted, _) => true
    case Wake(AwaitRunning, _) => true
    case Halt(Sleep(Asleep)) => true
    case _ => false
  }

  lemma StuckIsBlocked(s: State, i: nat)
    requires Stuck(s) && i < |s.cpus| && s.cpus[i].round < |s.masks|
    ensures Blocked(s.cpus[i].pc)
  {
    assert Step(s, i) == s;
    ClearStoreMoves(s, i);
    match s.cpus[i].pc
    case Wake(w, u) =>
    case Halt(h) =>
    case _ =>
  }

  lemma ClearStoreMoves(s: State, i: nat)
    requires i < |s.cpus| && s.cpus[i].round < |s.masks|
    ensures s.cpus[i].pc.Wake? && s.cpus[i].pc.w == ClearStore ==> Step(s, i) != s
  {
    assert s.cpus[i].pc.Wake? && s.cpus[i].pc.w == ClearStore ==> Step(s, i).cpus[i].pc != s.cpus[i].pc;
  }

  // All CPUs of the earliest unfinished round r are past its global barrier.
  ghost predicate Frontier(s: State, r: nat)
  {
    && r < |s.masks|
    && (forall j: nat | j < |s.cpus| :: r <= s.cpus[j].round <= r + 1)
    && (forall j: nat | j < |s.cpus| && s.cpus[j].round == r :: Blocked(s.cpus[j].pc) && s.cpus[j].pc != GlobalWait)
    && r <= |s.masters| <= r + 1
    && (forall j: nat | j < |s.cpus| && s.cpus[j].round == r + 1 :: Order(s.cpus[j].pc) <= 1)
  }

  // A CPU whose barrier has filled moves on.
  lemma ReleasedMoves(s: State, j: nat)
    requires j < |s.cpus| && s.cpus[j].round < |s.masks|
    ensures s.cpus[j].pc == GlobalWait && AllArrivedGlobal(s.cpus, s.cpus[j].round) ==> Step(s, j) != s
    ensures s.cpus[j].pc == MeetWait && AllArrivedMeet(s.cpus, s.masks[s.cpus[j].round], s.cpus[j].round) ==>
        Step(s, j) != s
  {
    assert s.cpus[j].pc == GlobalWait && AllArrivedGlobal(s.cpus, s.cpus[j].round) ==> Step(s, j).cpus[j].pc == Decide;
    assert s.cpus[j].pc == MeetWait && AllArrivedMeet(s.cpus, s.masks[s.cpus[j].round], s.cpus[j].round)
      ==> Step(s, j).cpus[j].pc == EndLoad;
  }

  lemma EarliestCpu(s: State) returns (i: nat)
    requires !Done(s)
    ensures i < |s.cpus| && s.cpus[i].round < |s.masks|
    ensures forall j: nat | j < |s.cpus| :: s.cpus[i].round <= s.cpus[j].round
  {
    i :| i < |s.cpus| && s.cpus[i].round < |s.masks|;
    for k := 0 to |s.cpus|
      invariant i < |s.cpus| && s.cpus[i].round < |s.masks|
      invariant forall j: nat | j < k :: s.cpus[i].round <= s.cpus[j].round
    {
      if s.cpus[k].round < s.cpus[i].round { i := k; }
    }
  }

  lemma StuckFrontier(s: State, i: nat)
    requires Inv(s) && Stuck(s) && i < |s.cpus| && s.cpus[i].round < |s.masks|
    requires forall j: nat | j < |s.cpus| :: s.cpus[i].round <= s.cpus[j].round
    ensures Frontier(s, s.cpus[i].round)
  {
    var r := s.cpus[i].round;
    assert CpuLock(s, i);
    forall j: nat | j < |s.cpus|
      ensures r <= s.cpus[j].round <= r + 1
      ensures s.cpus[j].round == r ==> Blocked(s.cpus[j].pc)
      ensures s.cpus[j].round == r + 1 ==> Order(s.cpus[j].pc) <= 1
      ensures ArrivedGlobal(s.cpus[j], r)
    {
      assert Near(s.cpus[j], s.cpus[i]);
      if s.cpus[j].round == r { StuckIsBlocked(s, j); }
    }
    assert AllArrivedGlobal(s.cpus, r);
    forall j: nat | j < |s.cpus| && s.cpus[j].round == r ensures s.cpus[j].pc != GlobalWait {
      ReleasedMoves(s, j);
    }
  }

  // Within the mask nobody can be blocked at the meeting.
  lemma NobodyWaitsToMeet(s: State, r: nat, j: nat)
    requires Inv(s) && Stuck(s) && Frontier(s, r) && j < |s.cpus| && s.cpus[j].round == r
    ensures s.cpus[j].pc != MeetWait
  {
    forall k: nat | k < |s.cpus| && k in s.masks[r] ensures ArrivedMeet(s.cpus[k], r) {
      assert CpuLock(s, k);
    }
    assert AllArrivedMeet(s.cpus, s.masks[r], r);
    ReleasedMoves(s, j);
  }

  lemma SomeMaster(s: State, r: nat)
    requires Inv(s) && Stuck(s) && Frontier(s, r)
    ensures |s.masters| == r + 1
  {
    var c: nat :| c < |s.cpus| && c in s.masks[r];
    assert CpuLock(s, c);
    if s.cpus[c].round == r { NobodyWaitsToMeet(s, r, c); }
  }

  // The master has left the round: every CPU it did not meet it has woken.
  lemma MasterIsIn(s: State, r: nat, i: nat)
    requires Inv(s) && Stuck(s) && Frontier(s, r) && i < |s.cpus| && s.cpus[i].round == r && |s.masters| == r + 1
    ensures LastMaster(s).round == r
  {
    var m := s.masters[r];
    assert CpuLock(s, i) && CpuLock(s, m) && Woken(s, i);
    if s.cpus[m].round == r + 1 {
      assert BehindWaker(s, i) || i in s.masks[r];
      NobodyWaitsToMeet(s, r, i);
    }
  }

  lemma MasterMoves(s: State, r: nat)
    requires Inv(s) && Frontier(s, r) && |s.masters| == r + 1 && LastMaster(s).round == r
    requires LastMaster(s).pc.Wake? && LastMaster(s).pc.w in {AwaitHalted, AwaitRunning}
    ensures Step(s, s.masters[r]) != s
  {
    var m := s.masters[r];
    var u := s.cpus[m].pc.u;
    assert WakerOk(s, m) && CpuLock(s, m) && CpuHand(s, u) && CpuLock(s, u);
    assert s.cpus[u].round == r ==> s.cpus[u].pc == Halt(Sleep(Asleep));
    if s.cpus[m].pc.w == AwaitHalted {
      assert !Cleared(s, u, r);
      assert Step(s, m).cpus[m].pc == Wake(ClearLoad, u);
    } else if s.cpus[u].flags.halted {
      assert Step(s, m).cpus[u].pc == Halt(Sleep(Check));
    } else {
      assert Step(s, m).cpus[m].pc == Wake(Next, u + 1);
    }
  }

  lemma SomeoneMoves(s: State)
    requires Inv(s) && !Done(s)
    ensures exists i: nat :: i < |s.cpus| && Step(s, i) != s
  {
    var i := EarliestCpu(s);
    if Stuck(s) {
      var r := s.cpus[i].round;
      StuckFrontier(s, i);
      SomeMaster(s, r);
      MasterIsIn(s, r, i);
      var m := s.masters[r];
      assert CpuLock(s, m);
      NobodyWaitsToMeet(s, r, m);
      MasterMoves(s, r);
    }
  }

  lemma {:induction false} Finishable(s: State) returns (schedule: seq<nat>)
    requires Inv(s)
    ensures Done(Run(Step, s, schedule))
    decreases TotalRank(s)
  {
    if Done(s) {
      schedule := [];
    } else {
      SomeoneMoves(s);
      var i: nat :| i < |s.cpus| && Step(s, i) != s;
      StepInv(s, i);
      StepCost(s, i);
      var rest := Finishable(Step(s, i));
      schedule := [i] + rest;
      RunCons(Step, s, i, rest);
    }
  }

  // No interleaving can go on for ever, and none gets stuck: the steps that do something are bounded, a state in
  // which nothing can be done is the end of the last round, and the end stays in reach.
  lemma RoundsComplete(n: nat, masks: seq<set<nat>>, meets: set<nat>, schedule: seq<nat>)
    requires Config(n, masks, meets)
    ensures var s := Run(Step, Init(n, masks, meets), schedule);
            && Effective(Step, Init(n, masks, meets), schedule) <= TotalRank(Init(n, masks, meets))
            && (Stuck(s) ==> Done(s))
            && exists more :: Done(Run(Step, Init(n, masks, meets), schedule + more))
  {
    InitInv(n, masks, meets);
    Reachable(n, masks, meets, schedule);
    var s := Run(Step, Init(n, masks, meets), schedule);
    forall s, i | Inv(s) ensures Inv(Step(s, i)) && (Step(s, i) == s || TotalRank(Step(s, i)) < TotalRank(s)) {
      StepInv(s, i);
      StepCost(s, i);
    }
    RankBounds(Step, (s: State) => Inv(s), (s: State) => TotalRank(s), Init(n, masks, meets), schedule);
    if !Done(s) { SomeoneMoves(s); }
    var more := Finishable(s);
    RunConcat(Step, Init(n, masks, meets), schedule, more);
  }
}
