/** The three iterator adapters the selection rules are built from:
    `Iterator::position`, `Iterator::find` and `collect::<Result<Vec<_>, _>>()`. */
module Iter {
  import opened Wrappers

  /** `p` holds of `s[i]` and of no earlier element. */
  predicate IsFirst<T>(s: seq<T>, p: T -> bool, i: nat) {
    i < |s| && p(s[i]) && forall j :: 0 <= j < i ==> !p(s[j])
  }

  /** `p` holds of no element of `s`. */
  predicate NoneMatch<T>(s: seq<T>, p: T -> bool) {
    forall j :: 0 <= j < |s| ==> !p(s[j])
  }

  /** `s.iter().position(p)`: the index of the first element satisfying `p`. */
  function Position<T>(s: seq<T>, p: T -> bool): (r: Option<nat>)
    ensures r.Some? ==> IsFirst(s, p, r.value)
    ensures r.None? <==> NoneMatch(s, p)
  {
    if |s| == 0 then None
    else if p(s[0]) then Some(0)
    else
      match Position(s[1..], p)
      case None => None
      case Some(k) => Some(k + 1)
  }

  /** `s.iter().cloned().find(p)`: the first element satisfying `p`. */
  function Find<T>(s: seq<T>, p: T -> bool): (r: Option<T>)
    ensures r.Some? ==> exists i: nat :: IsFirst(s, p, i) && r.value == s[i]
    ensures r.None? <==> NoneMatch(s, p)
  {
    match Position(s, p)
    case None => None
    case Some(i) => Some(s[i])
  }

  /** `rs.into_iter().collect::<Result<Vec<_>, _>>()`: every value in order when
      every element is `Ok`, otherwise the error of the first `Err`; the elements
      after that first error are never looked at. */
  function Collect<T, E>(rs: seq<Result<T, E>>): (r: Result<seq<T>, E>)
    ensures r.Ok? <==> forall i :: 0 <= i < |rs| ==> rs[i].Ok?
    ensures r.Ok? ==> |r.value| == |rs| && forall i :: 0 <= i < |rs| ==> rs[i] == Ok(r.value[i])
    ensures r.Err? ==>
              exists k :: 0 <= k < |rs| && rs[k] == Err(r.error) && forall j :: 0 <= j < k ==> rs[j].Ok?
  {
    if |rs| == 0 then Ok([])
    else
      match rs[0]
      case Err(e) => Err(e)
      case Ok(v) =>
        match Collect(rs[1..])
        case Err(e) => Err(e)
        case Ok(vs) => Ok([v] + vs)
  }

  /** At most one index is the first match, so `Position` is the only way to find it. */
  lemma FirstIsPosition<T>(s: seq<T>, p: T -> bool, i: nat)
    requires IsFirst(s, p, i)
    ensures Position(s, p) == Some(i)
  {
  }
}
