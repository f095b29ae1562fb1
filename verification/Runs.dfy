/** Runs of a state machine, given by what a step makes of a state, if it is enabled. */
module Runs {
  import opened Common

  ghost predicate Reaches<S(!new), T(!new)>(next: (S, T) -> Option<S>, s: S, steps: seq<T>, t: S)
    decreases |steps|
  {
    if steps == [] then s == t
    else next(s, steps[0]).Some? && Reaches(next, next(s, steps[0]).value, steps[1..], t)
  }

  lemma OneStep<S(!new), T(!new)>(next: (S, T) -> Option<S>, s: S, step: T)
    requires next(s, step).Some?
    ensures Reaches(next, s, [step], next(s, step).value)
  {
    assert [step][1..] == [];
  }

  lemma Before<S(!new), T(!new)>(next: (S, T) -> Option<S>, s: S, step: T, steps: seq<T>, t: S)
    requires next(s, step).Some? && Reaches(next, next(s, step).value, steps, t)
    ensures Reaches(next, s, [step] + steps, t)
  {
    assert ([step] + steps)[1..] == steps;
  }

  lemma {:induction false} Then<S(!new), T(!new)>(
      next: (S, T) -> Option<S>, s: S, first: seq<T>, t: S, second: seq<T>, u: S)
    requires Reaches(next, s, first, t) && Reaches(next, t, second, u)
    ensures Reaches(next, s, first + second, u)
    decreases |first|
  {
    if first == [] {
      assert first + second == second;
    } else {
      Then(next, next(s, first[0]).value, first[1..], t, second, u);
      assert (first + second)[1..] == first[1..] + second;
    }
  }

  lemma ThenStep<S(!new), T(!new)>(next: (S, T) -> Option<S>, s: S, steps: seq<T>, t: S, step: T)
    requires Reaches(next, s, steps, t) && next(t, step).Some?
    ensures Reaches(next, s, steps + [step], next(t, step).value)
  {
    OneStep(next, t, step);
    Then(next, s, steps, t, [step], next(t, step).value);
  }

  /** What a wider machine does of the same, it can do too. */
  lemma {:induction false} Widened<S(!new), T(!new)>(
      next: (S, T) -> Option<S>, wider: (S, T) -> Option<S>, s: S, steps: seq<T>, t: S)
    requires Reaches(next, s, steps, t)
    requires forall s, step :: next(s, step).Some? ==> wider(s, step) == next(s, step)
    ensures Reaches(wider, s, steps, t)
    decreases |steps|
  {
    if steps != [] {
      Widened(next, wider, next(s, steps[0]).value, steps[1..], t);
    }
  }
}
