/** Runs of any state machine, and what each of their steps keeps. */
module Runs {

  ghost function After<S, E>(next: (S, E) -> S, s: S, steps: seq<E>): S
    decreases |steps|
  {
    if steps == [] then s else After(next, next(s, steps[0]), steps[1..])
  }

  /** A step keeps the states of two machines related, and leaves them as `last` says. */
  ghost predicate StepKeeps<S(!new), M(!new), E(!new)>(
    f: (S, E) -> S, g: (M, E) -> M, related: (S, M) -> bool, last: (E, S, M) -> bool) {
    forall s, m, e {:trigger f(s, e), g(m, e)} :: related(s, m) ==>
        related(f(s, e), g(m, e)) && last(e, f(s, e), g(m, e))
  }

  /** What a step keeps, a run keeps; and its last step has the last word. */
  lemma {:induction false} RunKeeps<S(!new), M(!new), E(!new)>(
    f: (S, E) -> S, g: (M, E) -> M, related: (S, M) -> bool, last: (E, S, M) -> bool, s: S, m: M, steps: seq<E>)
    requires StepKeeps(f, g, related, last) && related(s, m)
    ensures related(After(f, s, steps), After(g, m, steps))
    ensures steps != [] ==> last(steps[|steps| - 1], After(f, s, steps), After(g, m, steps))
    decreases |steps|
  {
    if steps != [] {
      var s1, m1, rest := f(s, steps[0]), g(m, steps[0]), steps[1..];
      RunKeeps(f, g, related, last, s1, m1, rest);
      assert rest == [] ==> After(f, s, steps) == s1 && After(g, m, steps) == m1;
    }
  }
}
