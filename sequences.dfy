/** Facts about splitting a sequence, stated once for any element type. */
module Sequences {

  /** A non-empty sequence is its prefix without the last element, then that element. */
  lemma LastSplit<T>(s: seq<T>)
    requires s != []
    ensures s[..|s| - 1] + [s[|s| - 1]] == s
  {
  }

  /** A sequence is what comes before position k, the element at k, and what comes after. */
  lemma SplitAround<T>(s: seq<T>, k: nat)
    requires k < |s|
    ensures s[..k] + [s[k]] + s[k + 1..] == s
  {
    assert s[..k] + [s[k]] == s[..k + 1];
  }
}
