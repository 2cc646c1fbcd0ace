/** Runs of a labelled step system, shared by every protocol model of the project.
    A step is partial: `None` means that the action is not enabled in that state. */
module Runs {
  datatype Option<+T> = None | Some(value: T)

  /** The state after performing `acts` from `init`, or None when some action was not enabled. */
  function Run<S, A>(init: S, step: (S, A) -> Option<S>, acts: seq<A>): Option<S> {
    if |acts| == 0 then Some(init)
    else
      var before := Run(init, step, acts[..|acts| - 1]);
      if before.None? then None else step(before.value, acts[|acts| - 1])
  }

  /** A predicate that holds initially and that every enabled step keeps holds after every run. */
  lemma {:induction false} Invariance<S(!new), A(!new)>(
    init: S, step: (S, A) -> Option<S>, acts: seq<A>, inv: S -> bool)
    requires inv(init)
    requires forall s, a :: inv(s) && step(s, a).Some? ==> inv(step(s, a).value)
    ensures Run(init, step, acts).Some? ==> inv(Run(init, step, acts).value)
  {
    if |acts| > 0 {
      Invariance(init, step, acts[..|acts| - 1], inv);
    }
  }

  function Max(a: int, b: int): int { if a < b then b else a }

  function Min(a: int, b: int): int { if a < b then a else b }

  lemma SubsetSize(a: set<int>, b: set<int>)
    requires a <= b
    ensures |a| <= |b|
    ensures |a| == |b| ==> a == b
  {
    assert b == a + (b - a);
    assert |b| == |a| + |b - a|;
  }

  /** The places of a list at which p holds. */
  function Places<T>(s: seq<T>, p: T -> bool): set<int> { set i | 0 <= i < |s| && p(s[i]) }

  lemma PlacesSnoc<T>(front: seq<T>, last: T, p: T -> bool)
    ensures |Places(front + [last], p)| == |Places(front, p)| + if p(last) then 1 else 0
  {
    var s, places := front + [last], Places(front, p);
    forall i | 0 <= i < |s| ensures i in Places(s, p) <==> i in places || (i == |front| && p(last)) {
      assert i < |front| ==> s[i] == front[i];
    }
    assert Places(s, p) == if p(last) then places + {|front|} else places;
  }
}
