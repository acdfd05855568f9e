/** The shape shared by the retiming loops of PathData:
    a loop over the interior indices 1 .. length-2, in order, changing the
    state at each index, where one iteration never changes the length. */
module Loops {
  /** The state once the iterations i = 1 .. n-1 have run. */
  function Iterate<S>(step: (S, nat) -> S, s0: S, n: nat): S {
    if n <= 1 then s0 else step(Iterate(step, s0, n - 1), n - 1)
  }

  /** Where the loop leaves i on a sequence of the given length. */
  function LoopEnd(len: nat): (n: nat)
    ensures n >= 1 && n + 1 >= len && (len >= 2 ==> n == len - 1)
  {
    if len < 2 then 1 else len - 1
  }

  /** A property of the state that holds before the loop (at i = 1) and that
      every iteration below `bound` carries from i to i + 1 holds after the
      first n - 1 iterations. */
  lemma {:induction false} IterateInvariant<S>(step: (S, nat) -> S, inv: (S, nat) -> bool, s0: S, bound: nat, n: nat)
    requires 1 <= n <= bound
    requires inv(s0, 1)
    requires forall s, i :: 1 <= i < bound && inv(s, i) ==> inv(step(s, i), i + 1)
    ensures inv(Iterate(step, s0, n), n)
  {
    if n > 1 {
      IterateInvariant(step, inv, s0, bound, n - 1);
    }
  }
}
