/** Small vocabulary shared by the other modules: optional values, string
    prefixes, and the positions a filter keeps in a sequence. */
module Common {

  datatype Option<+T> = None | Some(value: T)

  /** Python's `s.startswith(prefix)`. */
  predicate StartsWith(s: string, prefix: string) {
    |prefix| <= |s| && s[..|prefix|] == prefix
  }

  /** `s` ends with `suffix`. */
  predicate EndsWith(s: string, suffix: string) {
    |suffix| <= |s| && s[|s| - |suffix|..] == suffix
  }

  /** The indices of `s` whose element satisfies `keep`, in increasing order.
      A filter that keeps the elements `keep` accepts returns them at exactly
      these positions of its input. */
  function Positions<T>(s: seq<T>, keep: T -> bool): (idx: seq<nat>)
    ensures |idx| <= |s|
    ensures forall j :: 0 <= j < |idx| ==> idx[j] < |s|
  {
    if s == [] then []
    else Positions(s[..|s| - 1], keep) + (if keep(s[|s| - 1]) then [|s| - 1] else [])
  }

  ghost predicate StrictlyIncreasing(idx: seq<nat>) {
    forall j, k :: 0 <= j < k < |idx| ==> idx[j] < idx[k]
  }

  /** The positions are strictly increasing (the filter keeps the relative
      order) and they are exactly the indices whose element is kept (the
      filter drops nothing it should keep and keeps nothing it should drop). */
  lemma {:induction false} PositionsExact<T>(s: seq<T>, keep: T -> bool)
    ensures StrictlyIncreasing(Positions(s, keep))
    ensures forall i :: 0 <= i < |s| ==> (keep(s[i]) <==> i in Positions(s, keep))
  {
    if s != [] {
      var init := s[..|s| - 1];
      PositionsExact(init, keep);
      assert forall i :: 0 <= i < |init| ==> init[i] == s[i];
    }
  }
}
