/**
 * Runs of a partial step function: the general facts, for any kind of step and state, behind source and aggregate
 * replays alike.
 */
module Runs {
  import opened Outcomes

  /** Applies the first `n` steps in order; None once a step is rejected. */
  function Iterate<S, T>(effect: (S, T) -> Option<T>, steps: seq<S>, n: nat, t: T): Option<T>
    requires n <= |steps|
  {
    if n == 0 then Some(t)
    else match Iterate(effect, steps, n - 1, t)
      case None => None
      case Some(before) => effect(steps[n - 1], before)
  }

  /** A rejected prefix rejects the whole run. */
  lemma {:induction false} IterateFailed<S, T>(effect: (S, T) -> Option<T>, steps: seq<S>, n: nat, t: T)
    requires n <= |steps| && Iterate(effect, steps, n, t).None?
    ensures Iterate(effect, steps, |steps|, t).None?
    decreases |steps| - n
  {
    if n < |steps| {
      IterateFailed(effect, steps, n + 1, t);
    }
  }

  /** What the start has and every step keeps, the end has. */
  lemma {:induction false} IterateKeeps<S(!new), T(!new)>(effect: (S, T) -> Option<T>, steps: seq<S>, n: nat, t: T,
                                                          holds: (nat, T) -> bool)
    requires n <= |steps| && Iterate(effect, steps, n, t).Some? && holds(0, t)
    requires forall i: nat, u, v :: i < |steps| && holds(i, u) && effect(steps[i], u) == Some(v) ==> holds(i + 1, v)
    ensures holds(n, Iterate(effect, steps, n, t).value)
  {
    if n > 0 {
      IterateKeeps(effect, steps, n - 1, t, holds);
      var before := Iterate(effect, steps, n - 1, t).value;
      assert holds(n - 1, before) && effect(steps[n - 1], before) == Iterate(effect, steps, n, t);
    }
  }

  /** From 0 up to `n`, one at a time. */
  lemma {:induction false} Climb(n: nat, holds: nat -> bool)
    requires holds(0) && forall i: nat :: i < n && holds(i) ==> holds(i + 1)
    ensures holds(n)
  {
    if n > 0 {
      Climb(n - 1, holds);
    }
  }

  /** Running a concatenation is running one list and then the other. */
  lemma {:induction false} IterateConcat<S, T>(effect: (S, T) -> Option<T>, a: seq<S>, b: seq<S>, n: nat, t: T)
    requires n <= |a| + |b|
    ensures Iterate(effect, a + b, n, t) ==
      if n <= |a| then Iterate(effect, a, n, t)
      else match Iterate(effect, a, |a|, t)
        case None => None
        case Some(u) => Iterate(effect, b, n - |a|, u)
    decreases n
  {
    if n > 0 {
      IterateConcat(effect, a, b, n - 1, t);
    }
  }

  lemma {:induction false} IterateAppend<S, T>(effect: (S, T) -> Option<T>, a: seq<S>, b: seq<S>, t: T)
    ensures Iterate(effect, a + b, |a + b|, t) ==
      match Iterate(effect, a, |a|, t)
      case None => None
      case Some(u) => Iterate(effect, b, |b|, u)
  {
    IterateConcat(effect, a, b, |a|, t);
    IterateConcat(effect, a, b, |a| + |b|, t);
  }
}
