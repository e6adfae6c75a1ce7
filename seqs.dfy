/** Sequence helpers shared by the record builders and the grids. */
module Seqs {
  import opened Wrappers

  /** `[f(x) for x in s]`. */
  function MapSeq<A, B>(f: A -> B, s: seq<A>): (r: seq<B>)
    ensures |r| == |s| && forall i :: 0 <= i < |s| ==> r[i] == f(s[i])
  {
    if s == [] then [] else MapSeq(f, s[..|s| - 1]) + [f(s[|s| - 1])]
  }

  /** Mapping one more element appends its image. */
  lemma MapSeqStep<A, B>(f: A -> B, s: seq<A>, i: nat)
    requires i < |s|
    ensures MapSeq(f, s[..i + 1]) == MapSeq(f, s[..i]) + [f(s[i])]
  {
    assert s[..i + 1][..i] == s[..i];
  }

  /** `.slice(0, limit)`: the first `limit` elements when a limit is given. */
  function Take<T>(s: seq<T>, limit: Option<nat>): (r: seq<T>)
    ensures |r| <= |s| && r == s[..|r|]
    ensures |r| == match limit case None => |s| case Some(k) => if k < |s| then k else |s|
  {
    match limit
    case None => s
    case Some(k) => if k < |s| then s[..k] else s
  }
}
