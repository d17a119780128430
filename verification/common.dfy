/** Small shared vocabulary: an optional value, and order-preserving filtering
    of a sequence (Python's list comprehension with an `if`). */
module Common {

  /** `None` stands for Python's `None` returned by the selection helpers. */
  datatype Option<+T> = None | Some(value: T)

  /** `r` can be obtained from `xs` by deleting elements, keeping the order of
      the rest. Matching greedily from the front is complete for this test. */
  predicate Subsequence<T(==)>(r: seq<T>, xs: seq<T>)
    decreases |xs|
  {
    if r == [] then true
    else if xs == [] then false
    else if r[0] == xs[0] then Subsequence(r[1..], xs[1..])
    else Subsequence(r, xs[1..])
  }

  /** The elements of `xs` that `keep` accepts, in their original order. */
  function Filter<T(==)>(xs: seq<T>, keep: T -> bool): (r: seq<T>)
    ensures forall i :: 0 <= i < |r| ==> keep(r[i]) && r[i] in xs
    ensures forall i :: 0 <= i < |xs| && keep(xs[i]) ==> xs[i] in r
    ensures Subsequence(r, xs)
    ensures |r| <= |xs|
  {
    if xs == [] then []
    else if keep(xs[0]) then
      var rest := Filter(xs[1..], keep);
      [xs[0]] + rest
    else
      var rest := Filter(xs[1..], keep);
      assert rest == [] || rest[0] != xs[0];
      rest
  }

  /** Filtering distributes over concatenation: the kept elements of the front
      come before the kept elements of the back. */
  lemma {:induction false} FilterConcat<T>(a: seq<T>, b: seq<T>, keep: T -> bool)
    ensures Filter(a + b, keep) == Filter(a, keep) + Filter(b, keep)
    decreases |a|
  {
    if a == [] {
      assert a + b == b;
    } else {
      assert (a + b)[0] == a[0];
      assert (a + b)[1..] == a[1..] + b;
      FilterConcat(a[1..], b, keep);
    }
  }

  /** Nothing is kept from a sequence none of whose elements is accepted. */
  lemma {:induction false} FilterNone<T>(xs: seq<T>, keep: T -> bool)
    requires forall i :: 0 <= i < |xs| ==> !keep(xs[i])
    ensures Filter(xs, keep) == []
    decreases |xs|
  {
    if xs != [] {
      assert !keep(xs[0]);
      FilterNone(xs[1..], keep);
    }
  }

  /** A one-element sequence keeps its element exactly when it is accepted. */
  lemma FilterSingle<T>(x: T, keep: T -> bool)
    ensures Filter([x], keep) == if keep(x) then [x] else []
  {
    assert [x][1..] == [];
  }

  /** When nothing between the ends is accepted, only the ends can survive. */
  lemma FilterEnds<T>(first: T, mid: seq<T>, last: T, keep: T -> bool)
    requires forall i :: 0 <= i < |mid| ==> !keep(mid[i])
    ensures Filter([first] + mid + [last], keep) ==
      (if keep(first) then [first] else []) + (if keep(last) then [last] else [])
  {
    FilterNone(mid, keep);
    FilterSingle(first, keep);
    FilterSingle(last, keep);
    FilterConcat([first] + mid, [last], keep);
    FilterConcat([first], mid, keep);
  }
}
