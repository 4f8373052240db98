/**
 * Repeating a step until two consecutive states are close enough: the shape
 * of an unbounded `while True` loop that breaks once a round changed too
 * little. The loop is given fuel, a bound on the number of rounds.
 */
module Fixpoint {

  /** How the loop ends: it settled on a state, or the fuel ran out first. */
  datatype Outcome<S> = Converged(state: S) | OutOfFuel(state: S)

  /** Run rounds of `step` until `settled(before, after)` holds, for at most `fuel` rounds. */
  function Run<S>(step: S -> S, settled: (S, S) -> bool, s: S, fuel: nat): Outcome<S>
    decreases fuel
  {
    if fuel == 0 then OutOfFuel(s)
    else
      var next := step(s);
      if settled(s, next) then Converged(next) else Run(step, settled, next, fuel - 1)
  }

  /** The state after k rounds. */
  function Power<S>(step: S -> S, s: S, k: nat): S {
    if k == 0 then s else Power(step, step(s), k - 1)
  }

  /** Round k + 1 settles. */
  predicate SettlesAt<S>(step: S -> S, settled: (S, S) -> bool, s: S, k: nat) {
    settled(Power(step, s, k), Power(step, s, k + 1))
  }

  /** None of the first n rounds settles. */
  predicate NeverSettles<S>(step: S -> S, settled: (S, S) -> bool, s: S, n: nat) {
    forall j: nat | j < n :: !SettlesAt(step, settled, s, j)
  }

  /** Shifting the start by one round shifts the rounds by one. */
  lemma SettlesAtShift<S>(step: S -> S, settled: (S, S) -> bool, s: S, j: nat)
    ensures SettlesAt(step, settled, s, j + 1) == SettlesAt(step, settled, step(s), j)
  {
  }

  /**
   * The loop stops at the first round that settles: it converges on the
   * state after k + 1 rounds when round k + 1 is the first to settle, and
   * otherwise runs out of fuel on the state after `fuel` rounds, none of
   * which settled.
   */
  lemma {:induction false} RunFirstSettled<S>(step: S -> S, settled: (S, S) -> bool, s: S, fuel: nat)
    ensures Run(step, settled, s, fuel).Converged? ==>
      exists k: nat | k < fuel ::
        NeverSettles(step, settled, s, k) && SettlesAt(step, settled, s, k) &&
        Run(step, settled, s, fuel).state == Power(step, s, k + 1)
    ensures Run(step, settled, s, fuel).OutOfFuel? ==>
      NeverSettles(step, settled, s, fuel) && Run(step, settled, s, fuel).state == Power(step, s, fuel)
  {
    if fuel > 0 {
      var next := step(s);
      assert SettlesAt(step, settled, s, 0) == settled(s, next);
      if !settled(s, next) {
        RunFirstSettled(step, settled, next, fuel - 1);
        var r := Run(step, settled, s, fuel);
        assert r == Run(step, settled, next, fuel - 1);
        if r.Converged? {
          var k: nat :| k < fuel - 1 && NeverSettles(step, settled, next, k) && SettlesAt(step, settled, next, k) &&
            r.state == Power(step, next, k + 1);
          SettlesAtShift(step, settled, s, k);
          forall j: nat | j < k + 1 ensures !SettlesAt(step, settled, s, j) {
            if j > 0 {
              SettlesAtShift(step, settled, s, j - 1);
            }
          }
          assert NeverSettles(step, settled, s, k + 1);
        } else {
          forall j: nat | j < fuel ensures !SettlesAt(step, settled, s, j) {
            if j > 0 {
              SettlesAtShift(step, settled, s, j - 1);
            }
          }
        }
      }
    }
  }

  /** A property that every round preserves holds of the state the loop ends on. */
  lemma {:induction false} RunPreserves<S>(step: S -> S, settled: (S, S) -> bool, s: S, fuel: nat, inv: S -> bool)
    requires inv(s)
    requires forall x :: inv(x) ==> inv(step(x))
    ensures inv(Run(step, settled, s, fuel).state)
  {
    if fuel > 0 && !settled(s, step(s)) {
      RunPreserves(step, settled, step(s), fuel - 1, inv);
    }
  }
}
