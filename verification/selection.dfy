/** Order-preserving selection: the "scan a list, keep what matches, in
    order" pattern that the backend's merge loop applies twice (words into a
    turn, turns into the transcript). */
module Selection {
  import opened Wrappers

  /** Keeps, in input order, the images of the elements that `f` maps to
      `Some`, and drops the elements it maps to `None`. */
  function FilterMap<A, B>(f: A -> Option<B>, xs: seq<A>): (r: seq<B>)
    ensures |r| <= |xs|
  {
    if xs == [] then []
    else
      match f(xs[0])
      case Some(y) => [y] + FilterMap(f, xs[1..])
      case None => FilterMap(f, xs[1..])
  }

  /** Selection distributes over concatenation of the scanned list. */
  lemma {:induction false} FilterMapAppend<A, B>(f: A -> Option<B>, a: seq<A>, b: seq<A>)
    ensures FilterMap(f, a + b) == FilterMap(f, a) + FilterMap(f, b)
  {
    if a == [] {
      assert a + b == b;
    } else {
      assert (a + b)[1..] == a[1..] + b;
      FilterMapAppend(f, a[1..], b);
    }
  }

  /** The number of kept elements before position `i`: where the image of
      `xs[i]` lands in the result when it is kept. */
  function Rank<A, B>(f: A -> Option<B>, xs: seq<A>, i: int): nat
    requires 0 <= i <= |xs|
  {
    |FilterMap(f, xs[..i])|
  }

  /** Inclusion: every kept element's image is in the result, at its rank. */
  lemma FilterMapAt<A, B>(f: A -> Option<B>, xs: seq<A>, i: int)
    requires 0 <= i < |xs| && f(xs[i]).Some?
    ensures Rank(f, xs, i) < |FilterMap(f, xs)|
    ensures FilterMap(f, xs)[Rank(f, xs, i)] == f(xs[i]).value
  {
    assert xs == xs[..i] + xs[i..];
    FilterMapAppend(f, xs[..i], xs[i..]);
    assert xs[i..][0] == xs[i];
  }

  /** Order: a kept element's image comes strictly before the images of
      everything kept after it. */
  lemma RankIncreases<A, B>(f: A -> Option<B>, xs: seq<A>, i: int, j: int)
    requires 0 <= i < j <= |xs| && f(xs[i]).Some?
    ensures Rank(f, xs, i) < Rank(f, xs, j)
  {
    assert xs[..j] == xs[..i] + xs[i..j];
    FilterMapAppend(f, xs[..i], xs[i..j]);
    assert xs[i..j][0] == xs[i];
  }

  /** Exclusion: every element of the result is the image of some kept
      element, found at the matching rank. */
  lemma {:induction false} FilterMapSource<A, B>(f: A -> Option<B>, xs: seq<A>, k: int) returns (i: int)
    requires 0 <= k < |FilterMap(f, xs)|
    ensures 0 <= i < |xs| && Rank(f, xs, i) == k
    ensures f(xs[i]) == Some(FilterMap(f, xs)[k])
  {
    var tail := xs[1..];
    var kept := if f(xs[0]).Some? then 1 else 0;
    assert |FilterMap(f, xs)| == kept + |FilterMap(f, tail)|;
    if kept == 1 && k == 0 {
      i := 0;
      assert xs[..0] == [];
    } else {
      var j := FilterMapSource(f, tail, k - kept);
      i := j + 1;
      assert xs[..i] == [xs[0]] + tail[..j];
      FilterMapAppend(f, [xs[0]], tail[..j]);
      assert FilterMap(f, [xs[0]]) == if kept == 1 then [f(xs[0]).value] else [];
      assert tail[j] == xs[i];
    }
  }

  /** Selection is empty exactly when no element is kept. */
  lemma FilterMapEmpty<A, B>(f: A -> Option<B>, xs: seq<A>)
    ensures FilterMap(f, xs) == [] <==> forall i :: 0 <= i < |xs| ==> f(xs[i]).None?
  {
    if FilterMap(f, xs) != [] {
      var i := FilterMapSource(f, xs, 0);
    } else {
      forall i | 0 <= i < |xs|
        ensures f(xs[i]).None?
      {
        if f(xs[i]).Some? {
          FilterMapAt(f, xs, i);
          assert false;
        }
      }
    }
  }
}
