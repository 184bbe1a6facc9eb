/** Runs of a state machine: a finite list of steps, each applied to the state the previous one left. */
module Runs {
  ghost function Final<S(!new), A(!new)>(next: (S, A) -> S, s: S, steps: seq<A>): S {
    if steps == [] then s else Final(next, next(s, steps[0]), steps[1..])
  }

  /** Every step of the run is permitted in the state it is taken from. */
  ghost predicate Permitted<S(!new), A(!new)>(ok: (S, A) -> bool, next: (S, A) -> S, s: S, steps: seq<A>) {
    steps == [] || (ok(s, steps[0]) && Permitted(ok, next, next(s, steps[0]), steps[1..]))
  }

  lemma {:induction false} InvariantOverRun<S(!new), A(!new)>(
    inv: S -> bool, ok: (S, A) -> bool, next: (S, A) -> S, s: S, steps: seq<A>)
    requires inv(s)
    requires forall x, a :: inv(x) && ok(x, a) ==> inv(next(x, a))
    requires Permitted(ok, next, s, steps)
    ensures inv(Final(next, s, steps))
  {
    if steps != [] {
      InvariantOverRun(inv, ok, next, next(s, steps[0]), steps[1..]);
    }
  }

  lemma OneStep<S(!new), A(!new)>(ok: (S, A) -> bool, next: (S, A) -> S, s: S, a: A)
    ensures Final(next, s, [a]) == next(s, a)
    ensures Permitted(ok, next, s, [a]) <==> ok(s, a)
  {
    assert [a][1..] == [];
    assert Final(next, next(s, a), []) == next(s, a);
    assert Permitted(ok, next, next(s, a), []);
  }
}
