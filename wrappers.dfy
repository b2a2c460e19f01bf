/** Option and Result, used wherever the scripts return None or stop with an error. */
module Wrappers {

  datatype Option<+T> = None | Some(value: T) {
    function GetOr(default: T): T {
      match this
      case Some(v) => v
      case None => default
    }
  }

  datatype Result<+R, +E> = Success(value: R) | Failure(error: E)

  /** The values `f` gives for the items it accepts, in item order: a loop that skips what it cannot use. */
  function Kept<B, O>(xs: seq<B>, f: B -> Option<O>): (r: seq<O>)
    ensures |r| <= |xs|
  {
    if xs == [] then []
    else
      var n := |xs| - 1;
      Kept(xs[..n], f) + (match f(xs[n]) case Some(o) => [o] case None => [])
  }

  lemma KeptLast<B, O>(xs: seq<B>, f: B -> Option<O>)
    requires xs != []
    ensures var n := |xs| - 1;
      Kept(xs, f) == Kept(xs[..n], f) + (if f(xs[n]).Some? then [f(xs[n]).value] else [])
  {
  }

  /**
   * Two filters that accept the same items, with each pair of values related
   * by `rel`, keep lists of the same length whose values are pairwise related.
   */
  lemma {:induction false} KeptAlike<B, O, P>(xs: seq<B>, f: B -> Option<O>, g: B -> Option<P>, rel: (O, P) -> bool)
    requires forall x :: f(x).Some? <==> g(x).Some?
    requires forall x :: f(x).Some? && g(x).Some? ==> rel(f(x).value, g(x).value)
    ensures |Kept(xs, f)| == |Kept(xs, g)|
    ensures forall i :: 0 <= i < |Kept(xs, f)| ==> rel(Kept(xs, f)[i], Kept(xs, g)[i])
  {
    if xs != [] {
      var n := |xs| - 1;
      KeptAlike(xs[..n], f, g, rel);
      KeptLast(xs, f);
      KeptLast(xs, g);
      var a, b := Kept(xs, f), Kept(xs, g);
      var a0, b0 := Kept(xs[..n], f), Kept(xs[..n], g);
      forall i | 0 <= i < |a| ensures rel(a[i], b[i]) {
        if i < |a0| {
          assert a[i] == a0[i] && b[i] == b0[i];
        }
      }
    }
  }
}
