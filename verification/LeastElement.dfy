/** The least element of a non-empty set of integers. */
module LeastElement {
  ghost predicate IsLeast(s: set<int>, m: int) { m in s && forall x :: x in s ==> m <= x }

  lemma {:induction false} LeastExists(s: set<int>, y: int)
    requires y in s
    ensures exists m :: IsLeast(s, m)
    decreases set x | x in s && x < y
  {
    if x :| x in s && x < y {
      var a, b := set z | z in s && z < x, set z | z in s && z < y;
      assert x in b && x !in a;
      LeastExists(s, x);
    } else {
      assert IsLeast(s, y);
    }
  }

  lemma NonEmpty(s: set<int>)
    requires s != {}
    ensures exists y :: y in s
  {
    assert (forall y :: y !in s) ==> s == {};
  }

  ghost function Least(s: set<int>): (m: int)
    requires s != {}
    ensures IsLeast(s, m)
  {
    NonEmpty(s);
    var y :| y in s;
    LeastExists(s, y);
    var m :| IsLeast(s, m); m
  }
}
