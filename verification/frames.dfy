/** The one pandas idiom the core relies on for lookups:
    `frame[frame[col] == key].iloc[0]`, the first row (in frame order)
    satisfying a condition, which raises when no row does. */
module Frames {
  import opened Results

  /** The index of the first element satisfying `p`, or None when there is
      none (the case in which `.iloc[0]` raises). */
  function FirstMatch<T>(s: seq<T>, p: T -> bool): (o: Option<nat>)
    ensures o.Some? ==> o.value < |s| && p(s[o.value])
    ensures o.Some? ==> forall j :: 0 <= j < o.value ==> !p(s[j])
    ensures o.None? <==> forall i :: 0 <= i < |s| ==> !p(s[i])
  {
    if |s| == 0 then None
    else if p(s[0]) then Some(0)
    else match FirstMatch(s[1..], p)
      case None => None
      case Some(i) => Some(i + 1)
  }
}
