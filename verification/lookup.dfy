/** JavaScript's `Array.prototype.findIndex`: a first-match linear scan
    that answers -1 when no element satisfies the predicate. Both node
    and edge lookups of the editor are instances of it.
 */
module Lookup {

  /** Index of the first element of `s` satisfying `p`, or -1. */
  function FindIndex<T>(s: seq<T>, p: T -> bool): (r: int)
    ensures -1 <= r < |s|
    ensures r == -1 <==> forall j :: 0 <= j < |s| ==> !p(s[j])
    ensures r >= 0 ==> p(s[r]) && forall j :: 0 <= j < r ==> !p(s[j])
  {
    if |s| == 0 then -1
    else if p(s[0]) then 0
    else
      var r := FindIndex(s[1..], p);
      if r == -1 then -1 else r + 1
  }
}
