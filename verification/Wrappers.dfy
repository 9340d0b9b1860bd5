module Wrappers {
  /** A value that may be absent: Python's `None`, SQL's missing row. */
  datatype Option<+T> = None | Some(value: T)

  lemma {:induction false} PickElement<T>(s: set<T>) returns (x: T)
    requires s != {}
    ensures x in s
  {
    x :| x in s;
  }

  lemma {:induction false} SubsetSize<T>(a: set<T>, b: set<T>)
    requires a <= b
    ensures |a| <= |b|
  {
    assert b == a + (b - a);
  }
}
