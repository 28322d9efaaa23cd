/** Functions on sequences that several modules use. */
module Sequences {

  /** The index of the first element with a property, or the length. */
  ghost function FirstIndex<T>(s: seq<T>, p: T -> bool): (i: nat)
    ensures i <= |s| && (i < |s| ==> p(s[i])) && forall j :: 0 <= j < i ==> !p(s[j])
  {
    if s == [] || p(s[0]) then 0 else 1 + FirstIndex(s[1..], p)
  }

  /** A sequence without one of its elements. */
  ghost function Without<T>(s: seq<T>, k: nat): (r: seq<T>)
    requires k < |s|
    ensures |r| == |s| - 1 && forall i {:trigger r[i]} :: 0 <= i < |r| ==> r[i] == s[if i < k then i else i + 1]
  {
    s[..k] + s[k + 1..]
  }

  lemma Joined<T>(xs: seq<T>, ys: seq<T>, zs: seq<T>, whole: seq<T>)
    requires whole == ys + zs
    ensures xs + ys + zs == xs + whole
  {
  }
}
