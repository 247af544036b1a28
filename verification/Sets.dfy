/** Facts about finite sets. */
module Sets {
  lemma Smaller<T>(a: set<T>, b: set<T>)
    requires a < b
    ensures |a| < |b|
  {
    var rest := b - a;
    assert b == a + rest && a * rest == {};
    var x :| x in b && x !in a;
    assert x in rest;
  }

  /** Some number is not in use. */
  lemma Unused(used: set<nat>)
    ensures exists n: nat :: n !in used
  {
    var top := Top(used);
    assert top + 1 !in used;
  }

  ghost function Top(used: set<nat>): (top: nat)
    ensures forall n :: n in used ==> n <= top
  {
    if used == {} then 0
    else
      var x :| x in used;
      var t := Top(used - {x});
      assert used == (used - {x}) + {x};
      if x > t then x else t
  }
}
