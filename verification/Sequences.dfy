/** Sequences without repetition, as lists of pages and of processes are. */
module Sequences {

  ghost predicate Distinct(q: seq<int>) {
    forall i, j :: 0 <= i < j < |q| ==> q[i] != q[j]
  }
}
