/** Optional values, bytes and sequences without repetition, used throughout the model. */
module Wrappers {
  datatype Option<+T> = None | Some(value: T)

  type Byte = n: nat | n < 256

  /** The first present value of two, as `a.or(b)` gives it. */
  function FirstOf<T>(a: Option<T>, b: Option<T>): Option<T> {
    if a.Some? then a else b
  }

  predicate Distinct<T(==)>(s: seq<T>) {
    forall i, j :: 0 <= i < j < |s| ==> s[i] != s[j]
  }

  /** A property that every step from `i` to `j` keeps holds at `j` if it holds at `i`. */
  lemma {:induction false} CarriedAlong<T>(states: seq<T>, p: T -> bool, i: nat, j: nat)
    requires i <= j < |states| && p(states[i])
    requires forall k :: i <= k < j && p(states[k]) ==> p(states[k + 1])
    ensures p(states[j])
    decreases j
  {
    if i < j {
      CarriedAlong(states, p, i, j - 1);
      assert p(states[j - 1]);
    }
  }
}
