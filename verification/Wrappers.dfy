/** The optional value the other modules share. */
module Wrappers {
  datatype Option<+T> = None | Some(value: T)

  lemma SubsetBound<T>(a: set<T>, b: set<T>)
    requires a <= b
    ensures |a| <= |b|
  {
    assert b == a + (b - a);
  }
}
