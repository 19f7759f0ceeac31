/** Types that several models share. */
module Basics {

  datatype Option<+T> = None | Some(value: T)

  /** A C string: no NUL before its end. */
  type Text = s: string | forall i :: 0 <= i < |s| ==> s[i] != '\0' witness ""

  lemma SubsetSize(a: set<nat>, b: set<nat>)
    requires a <= b
    ensures |a| <= |b|
  {
    assert b == a + (b - a);
  }
}
