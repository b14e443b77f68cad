/** Shared vocabulary: optional values, success-or-rejection results, and the
    order-preserving filter that `Array.prototype.filter` performs. */
module Common {

  /** An input that may be absent (a DOM element that is not on the page, an
      `undefined` argument). */
  datatype Option<+T> = None | Some(value: T)

  /** The outcome of an operation that the application may refuse with a
      user-visible message instead of changing anything. */
  datatype Result<+T, +E> = Success(value: T) | Failure(error: E)

  /** The elements of `s` for which `keep` holds, in their original order. */
  function Filter<T(==)>(s: seq<T>, keep: T -> bool): (r: seq<T>)
    ensures |r| <= |s|
    ensures forall i :: 0 <= i < |r| ==> r[i] in s && keep(r[i])
    ensures forall i :: 0 <= i < |s| && keep(s[i]) ==> s[i] in r
    ensures (forall i :: 0 <= i < |s| ==> keep(s[i])) ==> r == s
  {
    if s == [] then [] else (if keep(s[0]) then [s[0]] else []) + Filter(s[1..], keep)
  }

  /** Filtering distributes over concatenation: the relative order of the kept
      elements is the order they had in the input. */
  lemma {:induction false} FilterAppend<T>(a: seq<T>, b: seq<T>, keep: T -> bool)
    ensures Filter(a + b, keep) == Filter(a, keep) + Filter(b, keep)
  {
    if a == [] {
      assert a + b == b;
    } else {
      assert (a + b)[0] == a[0];
      assert (a + b)[1..] == a[1..] + b;
      FilterAppend(a[1..], b, keep);
    }
  }

  /** Filtering twice by the same test is filtering once. */
  lemma FilterIdempotent<T>(s: seq<T>, keep: T -> bool)
    ensures Filter(Filter(s, keep), keep) == Filter(s, keep)
  {
  }
}
