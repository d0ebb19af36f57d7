/** What every component needs and none owns. */
module Basics {
  datatype Option<+T> = None | Some(value: T)

  newtype Byte = b: int | 0 <= b < 0x100

  lemma SubsetSize<T>(a: set<T>, b: set<T>)
    requires a <= b
    ensures |a| <= |b|
  {
    assert b == a + (b - a);
  }
}
