/** Facts about finite sets, and about loops that take one element after the other. */
module Sets {
  lemma {:induction false} SubsetSize<T>(a: set<T>, b: set<T>)
    requires a <= b
    ensures |a| <= |b|
  {
    if a != {} {
      var x :| x in a;
      SubsetSize(a - {x}, b - {x});
    }
  }

  lemma {:induction false} SubsetOfSize<T>(a: set<T>, b: set<T>)
    requires a <= b && |b| <= |a|
    ensures a == b
  {
    if a != {} {
      var x :| x in a;
      SubsetOfSize(a - {x}, b - {x});
    }
  }

  /** Taking `x` out of what is left adds it to what is done. */
  lemma OneLess<T>(all: set<T>, left: set<T>, x: T)
    requires left <= all && x in left
    ensures (all - left) + {x} == all - (left - {x}) && x !in all - left
  {
  }
}
