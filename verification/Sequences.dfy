/** What several modules share about sequences and sets. */
module Sequences {

  ghost predicate NoDup<T>(xs: seq<T>) {
    forall i, j | 0 <= i < j < |xs| :: xs[i] != xs[j]
  }

  /** Every finite set of numbers has a bound. */
  lemma {:induction false} Above(used: set<nat>) returns (b: nat)
    ensures forall a | a in used :: a <= b
  {
    if used == {} {
      b := 0;
    } else {
      var x :| x in used;
      var c := Above(used - {x});
      b := if c < x then x else c;
      assert forall a | a in used :: a == x || a in used - {x};
    }
  }
}
