// One waker (CPU 0) and one halting CPU (CPU 1) that repeat smp_wakeup(1) and smp_halt() (smp.c:72-100)
// without end, with a barrier before any selection of the halts.
module Handshake {
  import opened Machine
  import opened SmpFlags
  import opened Collective

  // The waker is between calls at Wake(Next, _); the halter is between calls at GlobalArrive. round counts the
  // completed calls of each, and a barrier lets a CPU start call k only when the other has completed k calls. Of the
  // state of a collective round only the CPUs matter here.
  function HandInit(): State
  {
    Init(2, [], {}).(cpus := [Cpu(Wake(Next, 1), 0, CLEAR, CLEAR, 0, 0), Cpu(GlobalArrive, 0, CLEAR, CLEAR, 0, 0)])
  }

  predicate Pair(s: State)
  {
    |s.cpus| == 2 && s.cpus[0].pc.Wake? && (s.cpus[1].pc == GlobalArrive || s.cpus[1].pc.Halt?)
  }

  // syncs holds the calls that a barrier separates from the ones before.
  function WakerStep(s: State, syncs: iset<nat>): State
    requires Pair(s)
  {
    var p := s.cpus[0];
    if p.pc.w == Next || p.pc.u != 1 then
      if p.round in syncs && s.cpus[1].round < p.round then s else Move(s, 0, p.(pc := Wake(AwaitHalted, 1)))
    else
      var s' := WakeStep(s, 0, p.pc.w, 1);
      if s'.cpus[0].pc == Wake(Next, 2) then Move(s', 0, s'.cpus[0].(round := p.round + 1)) else s'
  }

  function HalterStep(s: State, syncs: iset<nat>): State
    requires Pair(s)
  {
    var p := s.cpus[1];
    if p.pc.Halt? then Move(s, 1, HaltStep(p, p.pc.h))
    else if p.round in syncs && s.cpus[0].round < p.round then s
    else Move(s, 1, p.(pc := Halt(SetLoad)))
  }

  function PairStep(s: State, syncs: iset<nat>, i: nat): State
  {
    if !Pair(s) || i > 1 then s else if i == 0 then WakerStep(s, syncs) else HalterStep(s, syncs)
  }

  function Stepper(syncs: iset<nat>): (State, nat) -> State
  {
    (s: State, i: nat) => PairStep(s, syncs, i)
  }

  function After(syncs: iset<nat>, schedule: seq<nat>): State
  {
    Run(Stepper(syncs), HandInit(), schedule)
  }

  // ---------------------------------------------------------------- safety, whatever the barriers

  predicate Dozing(p: Cpu)
  {
    p.pc.Halt? && p.pc.h.Sleep?
  }

  predicate Resuming(p: Cpu)
  {
    p.pc == Halt(ResumeLoad) || p.pc == Halt(ResumeStore)
  }

  // The waker has cleared the HALT bit of the halter's current halt.
  predicate Answered(s: State)
    requires Pair(s)
  {
    s.cpus[1].round == s.cpus[0].round && s.cpus[0].pc.w == AwaitRunning
  }

  predicate HandInv(s: State, syncs: iset<nat>)
  {
    && Pair(s)
    && var w, h := s.cpus[0], s.cpus[1];
       && (w.pc.w == Next || w.pc.u == 1)
       && (h.round == w.round || (h.round == w.round + 1 && w.pc.w == AwaitRunning))
       && (if Dozing(h) then h.flags == Flags(!Answered(s), true)
           else if Resuming(h) then Answered(s) && h.flags == Flags(false, true)
           else h.flags == CLEAR && !Answered(s) && (h.round == w.round ==> w.pc.w == Next || w.pc.w == AwaitHalted))
       && (h.pc == Halt(SetStore) || h.pc == Halt(ResumeStore) ==> h.t == h.flags)
       && (w.pc.w == ClearLoad || w.pc.w == ClearStore ==> Dozing(h))
       && (w.pc.w == ClearStore ==> w.t == h.flags)
       && h.halts == h.round + (if Dozing(h) || Resuming(h) then 1 else 0)
       && h.wakes == w.round + (if w.pc.w == AwaitRunning then 1 else 0)
       && (h.round in syncs && h.round == w.round + 1 ==> h.pc == GlobalArrive)
  }

  lemma WakerKeeps(s: State, syncs: iset<nat>)
    requires HandInv(s, syncs)
    ensures HandInv(WakerStep(s, syncs), syncs)
  {
    var s' := WakerStep(s, syncs);
    match s.cpus[0].pc.w
    case Next => assert s'.cpus[1] == s.cpus[1];
    case AwaitHalted => assert s'.cpus[1] == s.cpus[1];
    case ClearLoad => assert s'.cpus[1] == s.cpus[1];
    case ClearStore =>
    case AwaitRunning =>
  }

  lemma HalterKeeps(s: State, syncs: iset<nat>)
    requires HandInv(s, syncs)
    ensures HandInv(HalterStep(s, syncs), syncs)
  {
    assert HalterStep(s, syncs).cpus[0] == s.cpus[0];
  }

  lemma HandStep(s: State, syncs: iset<nat>, i: nat)
    requires HandInv(s, syncs)
    ensures HandInv(Stepper(syncs)(s, i), syncs)
  {
    if i == 0 { WakerKeeps(s, syncs); } else if i == 1 { HalterKeeps(s, syncs); }
  }

  lemma HandReachable(syncs: iset<nat>, schedule: seq<nat>)
    ensures HandInv(After(syncs, schedule), syncs)
  {
    forall s, i | HandInv(s, syncs) ensures HandInv(Stepper(syncs)(s, i), syncs) {
      HandStep(s, syncs, i);
    }
    Invariance(Stepper(syncs), s => HandInv(s, syncs), HandInit(), schedule);
  }

  // In every interleaving, whichever halts a barrier separates: neither side loses the other's update, every wake-up
  // answers a halt already begun, and the halter leaves smp_halt() only once its latest halt has been answered.
  lemma HandshakeSafe(syncs: iset<nat>, schedule: seq<nat>)
    ensures var s := After(syncs, schedule);
            && |s.cpus| == 2
            && NoLostUpdate(s, 0) && NoLostUpdate(s, 1)
            && s.cpus[1].round <= s.cpus[1].wakes <= s.cpus[1].halts <= s.cpus[1].round + 1
            && (Resuming(s.cpus[1]) ==> s.cpus[1].wakes == s.cpus[1].halts)
  {
    HandReachable(syncs, schedule);
  }

  // ---------------------------------------------------------------- progress needs the barrier

  // Steps until the waker's current call returns.
  function ToGo(s: State): nat
    requires Pair(s)
  {
    if s.cpus[1].round > s.cpus[0].round then 1 else
    (match s.cpus[0].pc.w
     case Next => 5 case AwaitHalted => 4 case ClearLoad => 3 case ClearStore => 2 case AwaitRunning => 1)
    + (if s.cpus[1].pc == GlobalArrive then 13 else Stage(s.cpus[1], 0))
  }

  // A barrier before every halt but the first.
  ghost predicate AllSynced(syncs: iset<nat>)
  {
    forall k: nat | k > 0 :: k in syncs
  }

  // The CPU that brings the waker's current call nearer to its end.
  function Needed(s: State): nat
    requires Pair(s)
  {
    var w, h := s.cpus[0], s.cpus[1];
    if h.round > w.round || w.pc.w == ClearLoad || w.pc.w == ClearStore || h.pc == Halt(Sleep(Asleep)) then 0 else 1
  }

  lemma {:induction false} CallReturns(s: State, syncs: iset<nat>) returns (more: seq<nat>)
    requires HandInv(s, syncs) && AllSynced(syncs)
    ensures var s' := Run(Stepper(syncs), s, more); Pair(s') && s'.cpus[0].round > s.cpus[0].round
    decreases ToGo(s)
  {
    hide AllSynced, ToGo, Needed, PairStep;
    var i := Needed(s);
    var s1 := PairStep(s, syncs, i);
    HandStep(s, syncs, i);
    if s1.cpus[0].round > s.cpus[0].round {
      more := [i];
      RunCons(Stepper(syncs), s, i, []);
      assert [i] + [] == more;
    } else {
      CallAdvances(s, syncs);
      var rest := CallReturns(s1, syncs);
      more := [i] + rest;
      RunCons(Stepper(syncs), s, i, rest);
    }
  }

  lemma CallAdvances(s: State, syncs: iset<nat>)
    requires HandInv(s, syncs) && AllSynced(syncs) && HandInv(PairStep(s, syncs, Needed(s)), syncs)
    ensures var s' := PairStep(s, syncs, Needed(s));
            s'.cpus[0].round >= s.cpus[0].round && (s'.cpus[0].round == s.cpus[0].round ==> ToGo(s') < ToGo(s))
  {
    if Needed(s) == 0 { WakerAdvances(s, syncs); } else { HalterAdvances(s, syncs); }
  }

  lemma WakerAdvances(s: State, syncs: iset<nat>)
    requires HandInv(s, syncs) && HandInv(WakerStep(s, syncs), syncs) && Needed(s) == 0
    requires s.cpus[1].round > 0 ==> s.cpus[1].round in syncs
    ensures var s' := WakerStep(s, syncs);
            s'.cpus[0].round >= s.cpus[0].round && (s'.cpus[0].round == s.cpus[0].round ==> ToGo(s') < ToGo(s))
  {
    match s.cpus[0].pc.w
    case ClearStore =>
    case AwaitRunning =>
    case _ =>
  }

  lemma HalterAdvances(s: State, syncs: iset<nat>)
    requires HandInv(s, syncs) && Needed(s) == 1
    ensures var s' := HalterStep(s, syncs); Pair(s') && s'.cpus[0] == s.cpus[0] && ToGo(s') < ToGo(s)
  {
  }

  // The halter has halted again before the waker saw it running.
  predicate Trapped(s: State, syncs: iset<nat>)
  {
    HandInv(s, syncs) && s.cpus[1].round == s.cpus[0].round + 1 && Dozing(s.cpus[1])
  }

  lemma TrapCloses(s: State, syncs: iset<nat>, i: nat)
    requires Trapped(s, syncs)
    ensures Trapped(PairStep(s, syncs, i), syncs) && PairStep(s, syncs, i).cpus[0].round == s.cpus[0].round
  {
    HandStep(s, syncs, i);
  }

  function PairState(w: Cpu, h: Cpu): State
  {
    HandInit().(cpus := [w, h])
  }

  // The legs of a round: the halter halts, the waker answers, the halter resumes, the waker returns.
  const HALTS: seq<nat> := [1, 1, 1]
  const ANSWERS: seq<nat> := [0, 0, 0, 0]
  const RESUMES: seq<nat> := [1, 1, 1]

  lemma Halts(syncs: iset<nat>, w: Cpu, h: Cpu)
    requires w.pc.Wake? && h.pc == GlobalArrive && h.flags == CLEAR && (h.round in syncs ==> w.round >= h.round)
    ensures Run(Stepper(syncs), PairState(w, h), HALTS)
            == PairState(w, h.(pc := Halt(Sleep(Check)), t := CLEAR, flags := Flags(true, true), halts := h.halts + 1))
  {
  }

  lemma Answers(syncs: iset<nat>, w: Cpu, h: Cpu)
    requires w.pc.Wake? && w.pc.w == Next && h.round == w.round
    requires h.pc == Halt(Sleep(Check)) && h.flags == Flags(true, true)
    ensures Run(Stepper(syncs), PairState(w, h), ANSWERS)
            == PairState(w.(pc := Wake(AwaitRunning, 1), t := Flags(true, true)),
                h.(flags := Flags(false, true), wakes := h.wakes + 1))
  {
  }

  lemma Resumes(syncs: iset<nat>, w: Cpu, h: Cpu)
    requires w.pc.Wake? && h.pc == Halt(Sleep(Check)) && h.flags == Flags(false, true)
    ensures Run(Stepper(syncs), PairState(w, h), RESUMES)
            == PairState(w, h.(pc := GlobalArrive, t := Flags(false, true), flags := CLEAR, round := h.round + 1))
  {
  }

  lemma Returns(syncs: iset<nat>, w: Cpu, h: Cpu)
    requires w.pc == Wake(AwaitRunning, 1) && h.pc == GlobalArrive && h.flags == CLEAR
    ensures Run(Stepper(syncs), PairState(w, h), [0]) == PairState(w.(pc := Wake(Next, 2), round := w.round + 1), h)
  {
  }

  // Both are between calls r - 1 and r.
  predicate AtCall(w: Cpu, h: Cpu, r: nat)
  {
    w.pc.Wake? && w.pc.w == Next && h.pc == GlobalArrive && h.flags == CLEAR && w.round == h.round == r
  }

  // The halter has been answered and is back before the waker has seen it.
  lemma Overtakes(syncs: iset<nat>, w: Cpu, h: Cpu, r: nat) returns (w': Cpu, h': Cpu)
    requires AtCall(w, h, r)
    ensures Run(Stepper(syncs), PairState(w, h), HALTS + ANSWERS + RESUMES) == PairState(w', h')
    ensures w'.pc == Wake(AwaitRunning, 1) && w'.round == r
    ensures h'.pc == GlobalArrive && h'.flags == CLEAR && h'.round == r + 1
  {
    hide Run, Stepper;
    Halts(syncs, w, h);
    var h1 := h.(pc := Halt(Sleep(Check)), t := CLEAR, flags := Flags(true, true), halts := h.halts + 1);
    Answers(syncs, w, h1);
    var h2 := h1.(flags := Flags(false, true), wakes := h1.wakes + 1);
    w' := w.(pc := Wake(AwaitRunning, 1), t := Flags(true, true));
    Resumes(syncs, w', h2);
    h' := h2.(pc := GlobalArrive, t := Flags(false, true), flags := CLEAR, round := h2.round + 1);
    RunConcat(Stepper(syncs), PairState(w, h), HALTS, ANSWERS);
    RunConcat(Stepper(syncs), PairState(w, h), HALTS + ANSWERS, RESUMES);
  }

  lemma {:induction false} ToCall(syncs: iset<nat>, r: nat) returns (schedule: seq<nat>, w: Cpu, h: Cpu)
    ensures After(syncs, schedule) == PairState(w, h) && AtCall(w, h, r)
  {
    if r == 0 {
      schedule, w, h := [], HandInit().cpus[0], HandInit().cpus[1];
    } else {
      var before, w0, h0 := ToCall(syncs, r - 1);
      var w1, h1 := Overtakes(syncs, w0, h0, r - 1);
      Returns(syncs, w1, h1);
      w, h := w1.(pc := Wake(Next, 2), round := w1.round + 1), h1;
      schedule := before + (HALTS + ANSWERS + RESUMES) + [0];
      hide Run, Stepper;
      RunConcat(Stepper(syncs), HandInit(), before, HALTS + ANSWERS + RESUMES);
      RunConcat(Stepper(syncs), HandInit(), before + (HALTS + ANSWERS + RESUMES), [0]);
    }
  }

  // Halt k, with no barrier before it.
  lemma DoubleHalt(syncs: iset<nat>, k: nat) returns (schedule: seq<nat>)
    requires k > 0 && k !in syncs
    ensures Trapped(After(syncs, schedule), syncs) && After(syncs, schedule).cpus[0].round == k - 1
  {
    hide Run, Stepper;
    var before, w, h := ToCall(syncs, k - 1);
    var w1, h1 := Overtakes(syncs, w, h, k - 1);
    Halts(syncs, w1, h1);
    schedule := before + (HALTS + ANSWERS + RESUMES) + HALTS;
    RunConcat(Stepper(syncs), HandInit(), before, HALTS + ANSWERS + RESUMES);
    RunConcat(Stepper(syncs), HandInit(), before + (HALTS + ANSWERS + RESUMES), HALTS);
    HandReachable(syncs, schedule);
  }

  // The waker's call before halt k never returns.
  lemma TrappedForGood(syncs: iset<nat>, k: nat) returns (schedule: seq<nat>)
    requires k > 0 && k !in syncs
    ensures |After(syncs, schedule).cpus| == 2 && After(syncs, schedule).cpus[0].round == k - 1
    ensures forall more :: !Returned(After(syncs, schedule), After(syncs, schedule + more))
  {
    schedule := DoubleHalt(syncs, k);
    forall more ensures !Returned(After(syncs, schedule), After(syncs, schedule + more)) {
      forall s, i | Trapped(s, syncs) && s.cpus[0].round == k - 1
        ensures Trapped(Stepper(syncs)(s, i), syncs) && Stepper(syncs)(s, i).cpus[0].round == k - 1
      {
        TrapCloses(s, syncs, i);
      }
      Invariance(Stepper(syncs), s => Trapped(s, syncs) && s.cpus[0].round == k - 1, After(syncs, schedule), more);
      RunConcat(Stepper(syncs), HandInit(), schedule, more);
    }
  }

  // The waker has completed another call.
  predicate Returned(s: State, s': State)
  {
    |s.cpus| > 0 && |s'.cpus| > 0 && s'.cpus[0].round > s.cpus[0].round
  }

  ghost predicate CanReturn(syncs: iset<nat>, schedule: seq<nat>)
  {
    exists more :: Returned(After(syncs, schedule), After(syncs, schedule + more))
  }

  // Every wake-up can always be completed, exactly when a barrier with the waker separates all successive halts.
  lemma WakeupReturnsExactlyWhenSynchronised(syncs: iset<nat>)
    ensures (forall schedule :: CanReturn(syncs, schedule)) <==> AllSynced(syncs)
  {
    if AllSynced(syncs) {
      forall schedule ensures CanReturn(syncs, schedule) {
        HandReachable(syncs, schedule);
        var more := CallReturns(After(syncs, schedule), syncs);
        RunConcat(Stepper(syncs), HandInit(), schedule, more);
        assert Returned(After(syncs, schedule), After(syncs, schedule + more));
      }
    } else {
      var k: nat :| k > 0 && k !in syncs;
      var schedule := TrappedForGood(syncs, k);
      assert !CanReturn(syncs, schedule);
    }
  }
}
