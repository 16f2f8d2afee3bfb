/** Comparison functions as the algorithms demand them of their callers. */
module Ordering {

  type Compare<!T> = (T, T) -> bool

  ghost predicate StrictWeakOrder<T(!new)>(lt: Compare<T>) {
    && (forall x :: !lt(x, x))
    && (forall x, y, z :: lt(x, y) && lt(y, z) ==> lt(x, z))
    && (forall x, y, z :: lt(x, z) ==> lt(x, y) || lt(y, z))
  }

  ghost predicate Sorted<T>(lt: Compare<T>, s: seq<T>) {
    forall i, j :: 0 <= i < j < |s| ==> !lt(s[j], s[i])
  }
}
