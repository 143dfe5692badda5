/** Choosing an element of a set, and sizes of sets. */
module Sets {

  lemma Empty<T>(s: set<T>)
    requires forall x :: x !in s
    ensures s == {}
  {
  }

  lemma NonEmpty<T>(s: set<T>)
    requires s != {}
    ensures exists x :: x in s
  {
    if forall x :: x !in s { Empty(s); }
  }

  ghost function Pick<T>(s: set<T>): (x: T)
    requires s != {}
    ensures x in s
  {
    NonEmpty(s);
    var x :| x in s;
    x
  }

  lemma CardLe<T>(a: set<T>, b: set<T>)
    requires a <= b
    ensures |a| <= |b|
    ensures |a| == |b| <==> a == b
  {
    assert b == a + (b - a);
  }

  method Choose<T(==)>(s: set<T>) returns (x: T)
    requires s != {}
    ensures x in s
  {
    NonEmpty(s);
    x :| x in s;
  }
}
