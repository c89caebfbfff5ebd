/** Unused identifiers: there is always another page id, and always another address. */
module FreshIds {
  lemma {:induction false} FreshIdExists(s: set<nat>)
    ensures exists id: nat :: id != 0 && id !in s
  {
    var b := StrictBound(s);
    assert b != 0 && b !in s;
  }

  lemma {:induction false} StrictBound(s: set<nat>) returns (b: nat)
    ensures 0 < b && forall id :: id in s ==> id < b
  {
    if s == {} {
      b := 1;
    } else {
      var x :| x in s;
      b := StrictBound(s - {x});
      assert s == (s - {x}) + {x};
      b := if b <= x then x + 1 else b;
    }
  }
}
