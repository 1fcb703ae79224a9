/**
 Keeping, in order, the images of the elements a partial function accepts:
 the shape of a loop that appends a result for every element that passes
 its tests. Stated for any function so that the facts about it do not
 depend on what the function computes.
 */
module FilterMaps {
  import opened Wrappers

  /** The values `f` produces over `xs`, in the order of `xs`, skipping the
      elements for which it produces nothing. Unfolded from the last
      element, as a loop that appends builds it. */
  function FilterMap<T, U>(f: T -> Option<U>, xs: seq<T>): (ys: seq<U>)
    ensures |ys| <= |xs|
    decreases |xs|
  {
    if |xs| == 0 then []
    else
      var init := FilterMap(f, xs[..|xs| - 1]);
      match f(xs[|xs| - 1])
      case Some(y) => init + [y]
      case None => init
  }

  /** Positions of the elements `f` accepts, in increasing order: each one
      is accepted, they increase strictly, and no accepted position is
      missing. */
  function Hits<T, U>(f: T -> Option<U>, xs: seq<T>): (idx: seq<nat>)
    ensures forall k :: 0 <= k < |idx| ==> idx[k] < |xs| && f(xs[idx[k]]).Some?
    ensures forall j, k :: 0 <= j < k < |idx| ==> idx[j] < idx[k]
    ensures forall i :: 0 <= i < |xs| && f(xs[i]).Some? ==> i in idx
    decreases |xs|
  {
    if |xs| == 0 then []
    else
      var init := xs[..|xs| - 1];
      assert forall k :: 0 <= k < |init| ==> init[k] == xs[k];
      Hits(f, init) + (if f(xs[|xs| - 1]).Some? then [|xs| - 1] else [])
  }

  /** Positions of the elements `f` accepts, as a set. */
  function Accepted<T, U>(f: T -> Option<U>, xs: seq<T>): set<nat> {
    set i | 0 <= i < |xs| && f(xs[i]).Some?
  }

  /** Nothing is kept exactly when `f` accepts no element. */
  lemma {:induction false} FilterMapEmpty<T, U>(f: T -> Option<U>, xs: seq<T>)
    ensures |FilterMap(f, xs)| == 0 <==> forall k :: 0 <= k < |xs| ==> f(xs[k]).None?
    decreases |xs|
  {
    if |xs| > 0 {
      var init := xs[..|xs| - 1];
      FilterMapEmpty(f, init);
      assert forall k :: 0 <= k < |init| ==> init[k] == xs[k];
    }
  }

  /** The k-th kept value is the image of the k-th accepted element. */
  lemma {:induction false} FilterMapAtHits<T, U>(f: T -> Option<U>, xs: seq<T>)
    ensures |FilterMap(f, xs)| == |Hits(f, xs)|
    ensures forall k :: 0 <= k < |Hits(f, xs)| ==> f(xs[Hits(f, xs)[k]]) == Some(FilterMap(f, xs)[k])
    decreases |xs|
  {
    if |xs| > 0 {
      var init := xs[..|xs| - 1];
      FilterMapAtHits(f, init);
      var idx, idx' := Hits(f, xs), Hits(f, init);
      var ys, ys' := FilterMap(f, xs), FilterMap(f, init);
      forall k | 0 <= k < |idx'|
        ensures f(xs[idx[k]]) == Some(ys[k])
      {
        assert idx[k] == idx'[k] && ys[k] == ys'[k];
        assert xs[idx'[k]] == init[idx'[k]];
      }
    }
  }

  /** Filtering distributes over concatenation. */
  lemma {:induction false} FilterMapAppend<T, U>(f: T -> Option<U>, a: seq<T>, b: seq<T>)
    ensures FilterMap(f, a + b) == FilterMap(f, a) + FilterMap(f, b)
    decreases |b|
  {
    if |b| == 0 {
      assert a + b == a;
    } else {
      var b', last := b[..|b| - 1], b[|b| - 1];
      var ab := a + b;
      FilterMapAppend(f, a, b');
      assert ab[..|ab| - 1] == a + b';
      assert ab[|ab| - 1] == last;
      match f(last)
      case Some(y) =>
        assert FilterMap(f, ab) == FilterMap(f, a + b') + [y];
        assert FilterMap(f, b) == FilterMap(f, b') + [y];
      case None =>
        assert FilterMap(f, ab) == FilterMap(f, a + b');
        assert FilterMap(f, b) == FilterMap(f, b');
    }
  }

  /** A strictly increasing sequence has as many distinct elements as
      entries. */
  lemma {:induction false} DistinctCardinality(idx: seq<nat>)
    requires forall j, k :: 0 <= j < k < |idx| ==> idx[j] < idx[k]
    ensures |set k | 0 <= k < |idx| :: idx[k]| == |idx|
    decreases |idx|
  {
    if |idx| > 0 {
      var init := idx[..|idx| - 1];
      DistinctCardinality(init);
      var s := set k | 0 <= k < |idx| :: idx[k];
      var s' := set k | 0 <= k < |init| :: init[k];
      assert s == s' + {idx[|idx| - 1]};
      assert idx[|idx| - 1] !in s';
    }
  }

  /** As many values are kept as there are accepted elements. */
  lemma FilterMapCount<T, U>(f: T -> Option<U>, xs: seq<T>)
    ensures |FilterMap(f, xs)| == |Accepted(f, xs)|
  {
    FilterMapAtHits(f, xs);
    var idx := Hits(f, xs);
    assert Accepted(f, xs) == set k | 0 <= k < |idx| :: idx[k];
    DistinctCardinality(idx);
  }
}
