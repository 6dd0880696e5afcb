/**
 Positions in a list, used to say which of its elements another list is made of.
 */
module Positions {
  /** Strictly increasing positions below n. */
  ghost predicate Rising(s: seq<nat>, n: nat) {
    (forall i :: 0 <= i < |s| ==> s[i] < n) && forall i, j :: 0 <= i < j < |s| ==> s[i] < s[j]
  }
}
