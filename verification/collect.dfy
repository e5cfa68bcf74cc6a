/**
 * Collecting results over a sequence: keeping the values a partial step yields
 * (FilterMap), and concatenating the lists a step yields (FlatMap). The calculation
 * appends to one result list in nested loops; these are the two shapes of those loops.
 */
module Collect {

  datatype Option<T> = None | Some(value: T)

  /** An optional value as a list: the value when there is one, nothing otherwise. */
  function Found<T>(r: Option<T>): (s: seq<T>)
    ensures r.None? <==> s == []
    ensures r.Some? ==> s == [r.value]
  {
    if r.Some? then [r.value] else []
  }

  /** The values f yields for the elements of xs, in order; the elements where f yields nothing are skipped. */
  function FilterMap<X, T>(xs: seq<X>, f: X -> Option<T>): seq<T> {
    if xs == [] then [] else FilterMap(xs[..|xs| - 1], f) + Found(f(xs[|xs| - 1]))
  }

  /** The lists g gives for the elements of xs, concatenated in order. */
  function FlatMap<X, T>(xs: seq<X>, g: X -> seq<T>): seq<T> {
    if xs == [] then [] else FlatMap(xs[..|xs| - 1], g) + g(xs[|xs| - 1])
  }

  lemma AppendAssociative<T>(a: seq<T>, b: seq<T>, c: seq<T>)
    ensures (a + b) + c == a + (b + c)
  {
  }

  // ---------------------------------------------------------------------------
  // FilterMap
  // ---------------------------------------------------------------------------

  /** Going through a + b keeps what going through a keeps, then what going through b keeps. */
  lemma {:induction false} FilterMapConcat<X, T>(a: seq<X>, b: seq<X>, f: X -> Option<T>)
    ensures FilterMap(a + b, f) == FilterMap(a, f) + FilterMap(b, f)
    decreases |b|
  {
    if b == [] {
      assert a + b == a;
    } else {
      assert (a + b)[..|a + b| - 1] == a + b[..|b| - 1];
      FilterMapConcat(a, b[..|b| - 1], f);
      AppendAssociative(FilterMap(a, f), FilterMap(b[..|b| - 1], f), Found(f(b[|b| - 1])));
    }
  }

  /** One more element appends what f yields for it. */
  lemma FilterMapStep<X, T>(xs: seq<X>, k: nat, f: X -> Option<T>)
    requires k < |xs|
    ensures FilterMap(xs[..k + 1], f) == FilterMap(xs[..k], f) + Found(f(xs[k]))
  {
    assert xs[..k + 1][..k] == xs[..k];
  }

  /** Everything kept was yielded for some element. */
  lemma {:induction false} FilterMapOnlyYields<X, T>(xs: seq<X>, f: X -> Option<T>, y: T)
    requires y in FilterMap(xs, f)
    ensures exists x :: x in xs && f(x) == Some(y)
  {
    var p, last := xs[..|xs| - 1], xs[|xs| - 1];
    if y in FilterMap(p, f) {
      FilterMapOnlyYields(p, f, y);
      var x :| x in p && f(x) == Some(y);
      assert x in xs;
    } else {
      assert f(last) == Some(y);
      assert last in xs;
    }
  }

  /** Everything yielded for an element is kept. */
  lemma {:induction false} FilterMapKeepsYields<X, T>(xs: seq<X>, f: X -> Option<T>, x: X)
    requires x in xs && f(x).Some?
    ensures f(x).value in FilterMap(xs, f)
  {
    var p, last := xs[..|xs| - 1], xs[|xs| - 1];
    if x != last {
      var k :| 0 <= k < |xs| && xs[k] == x;
      assert p[k] == x;
      FilterMapKeepsYields(p, f, x);
    }
  }

  /** When f yields something for every element, nothing is skipped and the first value is the first element's. */
  lemma {:induction false} FilterMapTotal<X, T>(xs: seq<X>, f: X -> Option<T>)
    requires forall x :: x in xs ==> f(x).Some?
    ensures |FilterMap(xs, f)| == |xs|
    ensures xs != [] ==> FilterMap(xs, f)[0] == f(xs[0]).value
  {
    if xs != [] {
      var p := xs[..|xs| - 1];
      assert forall x :: x in p ==> x in xs;
      assert xs[|xs| - 1] in xs;
      FilterMapTotal(p, f);
      if p != [] {
        assert p[0] == xs[0];
      }
    }
  }

  // ---------------------------------------------------------------------------
  // FlatMap
  // ---------------------------------------------------------------------------

  lemma {:induction false} FlatMapConcat<X, T>(a: seq<X>, b: seq<X>, g: X -> seq<T>)
    ensures FlatMap(a + b, g) == FlatMap(a, g) + FlatMap(b, g)
    decreases |b|
  {
    if b == [] {
      assert a + b == a;
    } else {
      assert (a + b)[..|a + b| - 1] == a + b[..|b| - 1];
      FlatMapConcat(a, b[..|b| - 1], g);
      AppendAssociative(FlatMap(a, g), FlatMap(b[..|b| - 1], g), g(b[|b| - 1]));
    }
  }

  /** One more element appends its list. */
  lemma FlatMapStep<X, T>(xs: seq<X>, k: nat, g: X -> seq<T>)
    requires k < |xs|
    ensures FlatMap(xs[..k + 1], g) == FlatMap(xs[..k], g) + g(xs[k])
  {
    assert xs[..k + 1][..k] == xs[..k];
  }

  /** Everything in the concatenation comes from the list of some element. */
  lemma {:induction false} FlatMapOnlyFrom<X, T>(xs: seq<X>, g: X -> seq<T>, y: T)
    requires y in FlatMap(xs, g)
    ensures exists x :: x in xs && y in g(x)
  {
    var p, last := xs[..|xs| - 1], xs[|xs| - 1];
    if y in FlatMap(p, g) {
      FlatMapOnlyFrom(p, g, y);
      var x :| x in p && y in g(x);
      assert x in xs;
    } else {
      assert y in g(last);
      assert last in xs;
    }
  }

  /** Everything in the list of an element is in the concatenation. */
  lemma {:induction false} FlatMapKeepsAll<X, T>(xs: seq<X>, g: X -> seq<T>, x: X, y: T)
    requires x in xs && y in g(x)
    ensures y in FlatMap(xs, g)
  {
    var p, last := xs[..|xs| - 1], xs[|xs| - 1];
    if x != last {
      var k :| 0 <= k < |xs| && xs[k] == x;
      assert p[k] == x;
      FlatMapKeepsAll(p, g, x, y);
    }
  }

  lemma MultiplySuccessor(a: nat, b: nat)
    ensures (a + 1) * b == a * b + b
  {
  }

  /** When every element gives a list of length m, the concatenation has |xs| * m elements. */
  lemma {:induction false} FlatMapLength<X, T>(xs: seq<X>, g: X -> seq<T>, m: nat)
    requires forall x :: x in xs ==> |g(x)| == m
    ensures |FlatMap(xs, g)| == |xs| * m
  {
    if xs != [] {
      var p := xs[..|xs| - 1];
      assert forall x :: x in p ==> x in xs;
      assert xs[|xs| - 1] in xs;
      FlatMapLength(p, g, m);
      MultiplySuccessor(|p|, m);
    }
  }

  /** The concatenation starts with the first element's list, when that list is not empty. */
  lemma FlatMapHead<X, T>(xs: seq<X>, g: X -> seq<T>)
    requires xs != [] && g(xs[0]) != []
    ensures FlatMap(xs, g) != [] && FlatMap(xs, g)[0] == g(xs[0])[0]
  {
    assert xs == [xs[0]] + xs[1..];
    FlatMapConcat([xs[0]], xs[1..], g);
    assert [xs[0]][..0] == [];
  }
}
