/** Optional values and success/failure results, used wherever the application
    has an "absent" value (null, undefined, NaN) or an exception path. */
module Wrappers {

  datatype Option<T> = None | Some(value: T) {
    /** The wrapped value, or a default when absent. */
    function GetOr(default: T): T {
      match this
      case Some(v) => v
      case None => default
    }
  }

  datatype Result<T, E> = Success(value: T) | Failure(error: E)
}

/** `Math.max` / `Math.min` on integers and reals. */
module Arith {

  function Max(a: int, b: int): int {
    if a >= b then a else b
  }

  function Min(a: int, b: int): int {
    if a <= b then a else b
  }

  function MinReal(a: real, b: real): real {
    if a <= b then a else b
  }
}

/** Element-wise mapping over sequences, kept generic so that proofs about
    positions never look inside the mapped function. */
module Seqs {

  function MapSeq<A, B>(f: A -> B, s: seq<A>): seq<B> {
    if s == [] then [] else MapSeq(f, s[..|s| - 1]) + [f(s[|s| - 1])]
  }

  lemma {:induction false} MapSeqAt<A, B>(f: A -> B, s: seq<A>)
    ensures |MapSeq(f, s)| == |s|
    ensures forall i :: 0 <= i < |s| ==> MapSeq(f, s)[i] == f(s[i])
  {
    if s != [] {
      var init := s[..|s| - 1];
      MapSeqAt(f, init);
      assert forall i :: 0 <= i < |init| ==> init[i] == s[i];
    }
  }
}
