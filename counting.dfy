/**
 * Sequence helpers shared by the vocabulary builders: occurrence counts
 * (what a Python Counter holds), the distinct elements in first-seen order
 * (the key order of a Counter), and the index table built by
 * `{w: i for i, w in enumerate(units)}`.
 */
module Counting {

  /** No element occurs twice. */
  predicate NoDup<T(==)>(s: seq<T>)
  {
    forall i, j :: 0 <= i < j < |s| ==> s[i] != s[j]
  }

  /** The prefixes of a sequence without duplicates have none, and miss the next element. */
  lemma NoDupPrefix<T>(s: seq<T>, i: nat)
    requires NoDup(s) && i < |s|
    ensures NoDup(s[..i]) && NoDup(s[..i + 1]) && s[i] !in s[..i]
  {
  }

  /** Two pieces of a sequence without duplicates share no element. */
  lemma NoDupApart<T>(a: seq<T>, b: seq<T>)
    requires NoDup(a + b)
    ensures forall x :: x in a ==> x !in b
  {
    forall i, j | 0 <= i < |a| && 0 <= j < |b| ensures a[i] != b[j] {
      assert (a + b)[i] == a[i] && (a + b)[|a| + j] == b[j];
    }
  }

  /** Number of occurrences of x in s. */
  function Count<T(==)>(s: seq<T>, x: T): (n: nat)
    ensures n <= |s|
    ensures n > 0 <==> x in s
  {
    if s == [] then 0
    else
      var init := s[..|s| - 1];
      assert s == init + [s[|s| - 1]];
      Count(init, x) + (if s[|s| - 1] == x then 1 else 0)
  }

  /** Index of the first occurrence of x in s, or |s| when x does not occur. */
  function Position<T(==)>(s: seq<T>, x: T): (p: nat)
    ensures p <= |s|
    ensures p < |s| <==> x in s
    ensures p < |s| ==> s[p] == x
    ensures forall i :: 0 <= i < p ==> s[i] != x
  {
    if s == [] then 0
    else if s[0] == x then 0
    else 1 + Position(s[1..], x)
  }

  /** The distinct elements of s, each at the place it is first seen. */
  function Distinct<T(==, !new)>(s: seq<T>): (d: seq<T>)
    ensures NoDup(d)
    ensures forall x :: x in d <==> x in s
  {
    if s == [] then []
    else
      var init := s[..|s| - 1];
      var d := Distinct(init);
      assert s == init + [s[|s| - 1]];
      if s[|s| - 1] in d then d else d + [s[|s| - 1]]
  }

  /**
   * The index table of `{u: i for i, u in enumerate(s)}`: every element of s
   * is a key, and it maps to the LAST index where it occurs (later entries
   * of a dict comprehension overwrite earlier ones).
   */
  function IndexMap<T(==, !new)>(s: seq<T>): (m: map<T, nat>)
    ensures forall x :: x in m <==> x in s
    ensures forall x :: x in m ==> m[x] < |s| && s[m[x]] == x
    ensures forall x, j :: x in m && m[x] < j < |s| ==> s[j] != x
    ensures NoDup(s) ==> forall i :: 0 <= i < |s| ==> m[s[i]] == i
  {
    if s == [] then map[]
    else
      var init := s[..|s| - 1];
      assert s == init + [s[|s| - 1]];
      IndexMap(init)[s[|s| - 1] := |s| - 1]
  }

  /** Positions in s respect the order of Distinct(s): the keys of a Counter are in first-seen order. */
  lemma {:induction false} DistinctKeepsFirstSeenOrder<T(!new)>(s: seq<T>, i: nat, j: nat)
    requires i < j < |Distinct(s)|
    ensures Position(s, Distinct(s)[i]) < Position(s, Distinct(s)[j])
  {
    var init := s[..|s| - 1];
    var x := s[|s| - 1];
    var d := Distinct(init);
    assert s == init + [x];
    PositionExtend(init, x, Distinct(s)[i]);
    PositionExtend(init, x, Distinct(s)[j]);
    if x in d {
      DistinctKeepsFirstSeenOrder(init, i, j);
    } else if j < |d| {
      DistinctKeepsFirstSeenOrder(init, i, j);
    } else {
      assert Distinct(s)[i] == d[i] && d[i] in init;
    }
  }

  /** Appending an element does not move the first occurrence of anything already present. */
  lemma PositionExtend<T>(s: seq<T>, x: T, y: T)
    ensures y in s ==> Position(s + [x], y) == Position(s, y)
    ensures y !in s ==> Position(s + [x], y) == |s| || y != x
  {
    var p, q := Position(s + [x], y), Position(s, y);
    if y in s {
      assert (s + [x])[q] == y;
      assert (s + [x])[p] == s[p];
    } else if y == x {
      assert forall i :: 0 <= i < |s| ==> (s + [x])[i] != y;
    }
  }

  /** A duplicate-free sequence has as many elements as the set of its elements. */
  lemma {:induction false} NoDupCardinality<T>(s: seq<T>)
    requires NoDup(s)
    ensures |set x | x in s| == |s|
  {
    if s != [] {
      var init := s[..|s| - 1];
      var x := s[|s| - 1];
      assert s == init + [x];
      NoDupCardinality(init);
      assert x !in init;
      assert (set y | y in s) == (set y | y in init) + {x};
    }
  }

  /** In a duplicate-free sequence every element occurs exactly once. */
  /** Appending one element counts it once more. */
  lemma CountAppend<T>(s: seq<T>, y: T, x: T)
    ensures Count(s + [y], x) == Count(s, x) + (if y == x then 1 else 0)
  {
    assert (s + [y])[..|s|] == s;
  }

  lemma {:induction false} NoDupCountOne<T>(s: seq<T>, x: T)
    requires NoDup(s) && x in s
    ensures Count(s, x) == 1
  {
    var init := s[..|s| - 1];
    assert s == init + [s[|s| - 1]];
    if s[|s| - 1] != x {
      NoDupCountOne(init, x);
    } else {
      assert x !in init;
    }
  }

  /**
   * Two duplicate-free sequences with the same elements, both strictly
   * ordered by an asymmetric relation, are equal: a ranking by a strict
   * order is unique.
   */
  lemma {:induction false} RankingUnique<T>(r1: seq<T>, r2: seq<T>, before: (T, T) -> bool)
    requires NoDup(r1) && NoDup(r2)
    requires forall x :: x in r1 <==> x in r2
    requires forall i, j :: 0 <= i < j < |r1| ==> before(r1[i], r1[j])
    requires forall i, j :: 0 <= i < j < |r2| ==> before(r2[i], r2[j])
    requires forall a, b :: a in r1 && b in r1 && before(a, b) ==> !before(b, a)
    ensures r1 == r2
  {
    if r1 != [] {
      assert r1[0] in r2;
      assert r2 != [] && r2[0] in r1;
      assert r1[0] == r2[0];
      forall x ensures x in r1[1..] <==> x in r2[1..] {
        if x in r1[1..] {
          var i :| 1 <= i < |r1| && r1[i] == x;
          var j := Position(r2, x);
          assert j != 0 && r2[1..][j - 1] == x;
        }
        if x in r2[1..] {
          var j :| 1 <= j < |r2| && r2[j] == x;
          var i := Position(r1, x);
          assert i != 0 && r1[1..][i - 1] == x;
        }
      }
      RankingUnique(r1[1..], r2[1..], before);
      assert r1 == [r1[0]] + r1[1..];
      assert r2 == [r2[0]] + r2[1..];
    } else {
      NoDupCardinality(r1);
      NoDupCardinality(r2);
      assert (set x | x in r1) == (set x | x in r2);
    }
  }

  /**
   * Inserting x at index k keeps a sequence strictly ordered by `before`
   * when everything left of k comes before x and x comes before everything
   * from k on.
   */
  lemma InsertKeepsOrder<T>(r: seq<T>, k: nat, x: T, before: (T, T) -> bool)
    requires k <= |r|
    requires forall i, j :: 0 <= i < j < |r| ==> before(r[i], r[j])
    requires forall j :: 0 <= j < k ==> before(r[j], x)
    requires forall j :: k <= j < |r| ==> before(x, r[j])
    ensures forall i, j :: 0 <= i < j < |r| + 1 ==> before((r[..k] + [x] + r[k..])[i], (r[..k] + [x] + r[k..])[j])
  {
    var s := r[..k] + [x] + r[k..];
    forall i, j | 0 <= i < j < |s| ensures before(s[i], s[j]) {
      var a := if i < k then i else if i == k then -1 else i - 1;
      var b := if j < k then j else if j == k then -1 else j - 1;
      if a >= 0 && b >= 0 {
        assert s[i] == r[a] && s[j] == r[b];
      }
    }
  }
}
