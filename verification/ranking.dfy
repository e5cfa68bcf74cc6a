/**
 * Ranking of the feasible options: a stable sort by a natural-number key (the number of
 * expansion modules). Options with equal keys keep the order in which they were found,
 * so the first option in the ranking is the earliest-found one with the fewest modules.
 */
module Ranking {

  /** Keys never decrease along the sequence. */
  predicate SortedBy<T>(s: seq<T>, key: T -> nat) {
    forall i, j :: 0 <= i < j < |s| ==> key(s[i]) <= key(s[j])
  }

  /** The elements whose key is k, in their order in s. */
  function WithKey<T>(s: seq<T>, key: T -> nat, k: nat): seq<T> {
    if s == [] then [] else WithKey(s[..|s| - 1], key, k) + (if key(s[|s| - 1]) == k then [s[|s| - 1]] else [])
  }

  /** Insert x into a sorted sequence after every element whose key is at most x's. */
  function Insert<T>(x: T, s: seq<T>, key: T -> nat): seq<T> {
    if s == [] then [x]
    else if key(x) < key(s[0]) then [x] + s
    else [s[0]] + Insert(x, s[1..], key)
  }

  /** Stable sort by key: each element, in order, is inserted after the equal keys already placed. */
  function SortByKey<T>(s: seq<T>, key: T -> nat): seq<T> {
    if s == [] then [] else Insert(s[|s| - 1], SortByKey(s[..|s| - 1], key), key)
  }

  // ---------------------------------------------------------------------------
  // Insertion
  // ---------------------------------------------------------------------------

  /** Inserting adds exactly one occurrence of x and changes nothing else. */
  lemma {:induction false} InsertPermutation<T>(x: T, s: seq<T>, key: T -> nat)
    ensures multiset(Insert(x, s, key)) == multiset(s) + multiset{x}
  {
    if s != [] && key(x) >= key(s[0]) {
      InsertPermutation(x, s[1..], key);
      assert s == [s[0]] + s[1..];
    }
  }

  /** If x and every element of s have a key of at least k, so does every element after insertion. */
  lemma {:induction false} InsertKeysAtLeast<T>(x: T, s: seq<T>, key: T -> nat, k: nat)
    requires key(x) >= k
    requires forall i :: 0 <= i < |s| ==> key(s[i]) >= k
    ensures forall i :: 0 <= i < |Insert(x, s, key)| ==> key(Insert(x, s, key)[i]) >= k
  {
    if s != [] && key(x) >= key(s[0]) {
      InsertKeysAtLeast(x, s[1..], key, k);
      var r := Insert(x, s, key);
      forall i | 0 <= i < |r| ensures key(r[i]) >= k {
        if i > 0 {
          assert r[i] == Insert(x, s[1..], key)[i - 1];
        }
      }
    }
  }

  lemma {:induction false} InsertSorted<T>(x: T, s: seq<T>, key: T -> nat)
    requires SortedBy(s, key)
    ensures SortedBy(Insert(x, s, key), key)
  {
    if s != [] && key(x) >= key(s[0]) {
      var rest := Insert(x, s[1..], key);
      assert SortedBy(s[1..], key);
      InsertSorted(x, s[1..], key);
      InsertKeysAtLeast(x, s[1..], key, key(s[0]));
      var r := [s[0]] + rest;
      forall i, j | 0 <= i < j < |r| ensures key(r[i]) <= key(r[j]) {
        assert r[j] == rest[j - 1];
        if i > 0 {
          assert r[i] == rest[i - 1];
        }
      }
    }
  }

  lemma {:induction false} WithKeyConcat<T>(a: seq<T>, b: seq<T>, key: T -> nat, k: nat)
    ensures WithKey(a + b, key, k) == WithKey(a, key, k) + WithKey(b, key, k)
    decreases |b|
  {
    if b == [] {
      assert a + b == a;
    } else {
      assert (a + b)[..|a + b| - 1] == a + b[..|b| - 1];
      WithKeyConcat(a, b[..|b| - 1], key, k);
    }
  }

  lemma WithKeySingle<T>(x: T, key: T -> nat, k: nat)
    ensures WithKey([x], key, k) == if key(x) == k then [x] else []
  {
    assert [x][..0] == [];
  }

  /** In a sorted sequence whose first key exceeds k, nothing has key k. */
  lemma {:induction false} WithKeyNoneAbove<T>(s: seq<T>, key: T -> nat, k: nat)
    requires SortedBy(s, key)
    requires s != [] ==> key(s[0]) > k
    ensures WithKey(s, key, k) == []
  {
    if s != [] {
      var p := s[..|s| - 1];
      assert SortedBy(p, key);
      WithKeyNoneAbove(p, key, k);
    }
  }

  /** Inserting x adds it at the end of the elements with x's key and leaves the other keys' orders alone. */
  lemma {:induction false} InsertStable<T>(x: T, s: seq<T>, key: T -> nat, k: nat)
    requires SortedBy(s, key)
    ensures WithKey(Insert(x, s, key), key, k) == WithKey(s, key, k) + (if key(x) == k then [x] else [])
  {
    if s == [] {
      WithKeySingle(x, key, k);
    } else if key(x) < key(s[0]) {
      WithKeyConcat([x], s, key, k);
      WithKeySingle(x, key, k);
      if key(x) == k {
        WithKeyNoneAbove(s, key, k);
      }
    } else {
      var tail := s[1..];
      var extra := if key(x) == k then [x] else [];
      assert s == [s[0]] + tail;
      assert SortedBy(tail, key);
      InsertStable(x, tail, key, k);
      WithKeyConcat([s[0]], Insert(x, tail, key), key, k);
      WithKeyConcat([s[0]], tail, key, k);
      calc {
        WithKey(Insert(x, s, key), key, k);
        WithKey([s[0]] + Insert(x, tail, key), key, k);
        WithKey([s[0]], key, k) + (WithKey(tail, key, k) + extra);
        (WithKey([s[0]], key, k) + WithKey(tail, key, k)) + extra;
        WithKey(s, key, k) + extra;
      }
    }
  }

  // ---------------------------------------------------------------------------
  // The sort
  // ---------------------------------------------------------------------------

  /** The ranking is sorted by key and holds exactly the given elements, each as often. */
  lemma {:induction false} SortByKeySortedPermutation<T>(s: seq<T>, key: T -> nat)
    ensures SortedBy(SortByKey(s, key), key)
    ensures multiset(SortByKey(s, key)) == multiset(s)
  {
    if s != [] {
      var p := s[..|s| - 1];
      SortByKeySortedPermutation(p, key);
      InsertSorted(s[|s| - 1], SortByKey(p, key), key);
      InsertPermutation(s[|s| - 1], SortByKey(p, key), key);
      assert s == p + [s[|s| - 1]];
    }
  }

  /** Stability: for every key, the elements with that key appear in the ranking in their original order. */
  lemma {:induction false} SortByKeyStable<T>(s: seq<T>, key: T -> nat, k: nat)
    ensures WithKey(SortByKey(s, key), key, k) == WithKey(s, key, k)
  {
    if s != [] {
      var p := s[..|s| - 1];
      SortByKeyStable(p, key, k);
      SortByKeySortedPermutation(p, key);
      InsertStable(s[|s| - 1], SortByKey(p, key), key, k);
    }
  }

  /** The first element with key k, found by scanning from the front. */
  lemma {:induction false} WithKeyHead<T>(s: seq<T>, key: T -> nat, k: nat)
    requires WithKey(s, key, k) != []
    ensures exists i :: 0 <= i < |s| && s[i] == WithKey(s, key, k)[0] && key(s[i]) == k
                        && forall j :: 0 <= j < i ==> key(s[j]) != k
  {
    var p := s[..|s| - 1];
    if WithKey(p, key, k) != [] {
      WithKeyHead(p, key, k);
      var i :| 0 <= i < |p| && p[i] == WithKey(p, key, k)[0] && key(p[i]) == k
        && forall j :: 0 <= j < i ==> key(p[j]) != k;
      assert s[i] == p[i];
      forall j | 0 <= j < i ensures key(s[j]) != k {
        assert s[j] == p[j];
      }
    } else {
      var i := |s| - 1;
      forall j | 0 <= j < i ensures key(s[j]) != k {
        assert s[j] == p[j];
        assert p == p[..j] + [p[j]] + p[j + 1..];
        WithKeyConcat(p[..j] + [p[j]], p[j + 1..], key, k);
        WithKeyConcat(p[..j], [p[j]], key, k);
        WithKeySingle(p[j], key, k);
      }
    }
  }

  /**
   * The head of the ranking of a non-empty list has the smallest key of all, and among the
   * elements with that key it is the one that came first.
   */
  lemma RankingHead<T>(s: seq<T>, key: T -> nat)
    requires s != []
    ensures var r := SortByKey(s, key);
      && |r| == |s|
      && (forall x :: x in s ==> key(r[0]) <= key(x))
      && (exists i :: 0 <= i < |s| && s[i] == r[0] && forall j :: 0 <= j < i ==> key(s[j]) > key(s[i]))
  {
    var r := SortByKey(s, key);
    SortByKeySortedPermutation(s, key);
    assert |r| == |multiset(r)| == |multiset(s)| == |s|;
    forall x | x in s ensures key(r[0]) <= key(x) {
      assert x in multiset(r);
      var i :| 0 <= i < |r| && r[i] == x;
    }
    var m := key(r[0]);
    SortByKeyStable(s, key, m);
    assert r == [r[0]] + r[1..];
    WithKeyConcat([r[0]], r[1..], key, m);
    WithKeySingle(r[0], key, m);
    WithKeyHead(s, key, m);
    var i :| 0 <= i < |s| && s[i] == WithKey(s, key, m)[0] && key(s[i]) == m
      && forall j :: 0 <= j < i ==> key(s[j]) != m;
    forall j | 0 <= j < i ensures key(s[j]) > key(s[i]) {
      assert s[j] in s;
    }
  }
}
