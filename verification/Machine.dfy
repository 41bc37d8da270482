// Runs of a step machine: one deterministic step per scheduled action, every interleaving a trace.
module Machine {

  function Run<S, A>(step: (S, A) -> S, s: S, trace: seq<A>): S
  {
    if trace == [] then s else Run(step, step(s, trace[0]), trace[1..])
  }

  // A property that one step keeps and that holds at the start holds after every trace.
  lemma {:induction false} Invariance<S(!new), A(!new)>(step: (S, A) -> S, inv: S -> bool, s: S, trace: seq<A>)
    requires inv(s)
    requires forall s, a | inv(s) :: inv(step(s, a))
    ensures inv(Run(step, s, trace))
  {
    if trace != [] {
      Invariance(step, inv, step(s, trace[0]), trace[1..]);
    }
  }

  lemma {:induction false} RunConcat<S, A>(step: (S, A) -> S, s: S, first: seq<A>, second: seq<A>)
    ensures Run(step, s, first + second) == Run(step, Run(step, s, first), second)
  {
    if first == [] {
      assert first + second == second;
    } else {
      assert (first + second)[0] == first[0] && (first + second)[1..] == first[1..] + second;
      RunConcat(step, step(s, first[0]), first[1..], second);
    }
  }

  lemma RunSnoc<S, A>(step: (S, A) -> S, s: S, trace: seq<A>, a: A)
    ensures Run(step, s, trace + [a]) == step(Run(step, s, trace), a)
  {
    RunConcat(step, s, trace, [a]);
    var r := Run(step, s, trace);
    assert [a][1..] == [];
    assert Run(step, r, [a]) == Run(step, step(r, a), []);
  }

  // How many actions of a trace did something.
  ghost function Effective<S, A>(step: (S, A) -> S, s: S, trace: seq<A>): nat
  {
    if trace == [] then 0 else
    (if step(s, trace[0]) != s then 1 else 0) + Effective(step, step(s, trace[0]), trace[1..])
  }

  // If every step that does something lowers a rank, the rank bounds how many there are.
  lemma {:induction false} RankBounds<S(!new), A(!new)>(step: (S, A) -> S, inv: S -> bool, rank: S -> int, s: S,
          trace: seq<A>)
    requires inv(s)
    requires forall s, a | inv(s) :: inv(step(s, a)) && (step(s, a) == s || rank(step(s, a)) < rank(s))
    ensures Effective(step, s, trace) + rank(Run(step, s, trace)) <= rank(s)
  {
    if trace != [] {
      RankBounds(step, inv, rank, step(s, trace[0]), trace[1..]);
    }
  }

  lemma {:induction false} EffectiveSnoc<S, A>(step: (S, A) -> S, s: S, trace: seq<A>, a: A)
    ensures var t := Run(step, s, trace);
            Effective(step, s, trace + [a]) == Effective(step, s, trace) + if step(t, a) != t then 1 else 0
  {
    if trace == [] {
      assert trace + [a] == [a] && [a][1..] == [];
    } else {
      assert (trace + [a])[0] == trace[0] && (trace + [a])[1..] == trace[1..] + [a];
      EffectiveSnoc(step, step(s, trace[0]), trace[1..], a);
    }
  }

  lemma RunCons<S, A>(step: (S, A) -> S, s: S, a: A, rest: seq<A>)
    ensures Run(step, s, [a] + rest) == Run(step, step(s, a), rest)
  {
    assert ([a] + rest)[0] == a && ([a] + rest)[1..] == rest;
  }
}
