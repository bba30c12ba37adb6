/** Repeating a step on a state, and what every repetition keeps. */
module Iteration {

  function Iterate<S>(next: S -> S, s: S, n: nat): S {
    if n == 0 then s else next(Iterate(next, s, n - 1))
  }

  lemma {:induction false} Compose<S>(next: S -> S, s: S, m: nat, n: nat)
    ensures Iterate(next, s, m + n) == Iterate(next, Iterate(next, s, m), n)
    decreases n
  {
    if n == 0 {
    } else {
      Compose(next, s, m, n - 1);
    }
  }

  lemma {:induction false} Fixed<S>(next: S -> S, s: S, n: nat)
    requires next(s) == s
    ensures Iterate(next, s, n) == s
    decreases n
  {
    if n == 0 {
    } else {
      Fixed(next, s, n - 1);
    }
  }

  /** An invariant of the step holds after every number of steps. */
  lemma {:induction false} Keeps<S(!new)>(next: S -> S, inv: S -> bool, s: S, n: nat)
    requires inv(s) && forall x :: inv(x) ==> inv(next(x))
    ensures inv(Iterate(next, s, n))
    decreases n
  {
    if n == 0 {
    } else {
      Keeps(next, inv, s, n - 1);
    }
  }

  /** A state with a lasting property was reached by one step from a state without it. */
  lemma {:induction false} FirstChange<S(!new)>(next: S -> S, reached: S -> bool, s: S, m: nat) returns (n: nat)
    requires forall x :: reached(x) ==> next(x) == x
    requires !reached(s) && reached(Iterate(next, s, m))
    ensures n < m && !reached(Iterate(next, s, n)) && Iterate(next, s, m) == next(Iterate(next, s, n))
    decreases m
  {
    if reached(Iterate(next, s, m - 1)) {
      n := FirstChange(next, reached, s, m - 1);
    } else {
      n := m - 1;
    }
  }

  /** A weight that every step lowers, except in fixed points, bounds the number of steps to one. */
  lemma {:induction false} Falls<S(!new)>(next: S -> S, halted: S -> bool, weight: S -> nat, s: S, n: nat)
    requires forall x :: halted(x) ==> next(x) == x
    requires forall x :: !halted(x) ==> weight(next(x)) < weight(x)
    ensures halted(Iterate(next, s, n)) || weight(Iterate(next, s, n)) + n <= weight(s)
    decreases n
  {
    if n == 0 {
    } else {
      Falls(next, halted, weight, s, n - 1);
    }
  }
}
