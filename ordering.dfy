/**
 * Orders and sorting. Python compares strings lexicographically by code
 * point; pandas' `sort_values` and Python's `list.sort` are modelled by one
 * stable insertion sort, parameterised by the comparison.
 */
module Ordering {

  /** Python's `a <= b` on strings. */
  predicate StrLe(a: string, b: string)
    decreases |a|
  {
    a == [] || (b != [] && (a[0] < b[0] || (a[0] == b[0] && StrLe(a[1..], b[1..]))))
  }

  /** Python's `a < b` on strings. */
  predicate StrLt(a: string, b: string)
  {
    StrLe(a, b) && a != b
  }

  lemma {:induction false} StrLeReflexive(a: string)
    ensures StrLe(a, a)
    decreases |a|
  {
    if a != [] {
      StrLeReflexive(a[1..]);
    }
  }

  lemma {:induction false} StrLeTotal(a: string, b: string)
    ensures StrLe(a, b) || StrLe(b, a)
    decreases |a|
  {
    if a != [] && b != [] && a[0] == b[0] {
      StrLeTotal(a[1..], b[1..]);
    }
  }

  lemma {:induction false} StrLeTransitive(a: string, b: string, c: string)
    requires StrLe(a, b) && StrLe(b, c)
    ensures StrLe(a, c)
    decreases |a|
  {
    if a != [] && a[0] == b[0] && b[0] == c[0] {
      StrLeTransitive(a[1..], b[1..], c[1..]);
    }
  }

  lemma {:induction false} StrLeAntisymmetric(a: string, b: string)
    requires StrLe(a, b) && StrLe(b, a)
    ensures a == b
    decreases |a|
  {
    if a != [] {
      StrLeAntisymmetric(a[1..], b[1..]);
      assert a == [a[0]] + a[1..] && b == [b[0]] + b[1..];
    }
  }

  /** Every two values compare, and comparison chains. */
  ghost predicate TotalPreorder<T(!new)>(le: (T, T) -> bool)
  {
    && (forall a, b :: le(a, b) || le(b, a))
    && (forall a, b, c :: le(a, b) && le(b, c) ==> le(a, c))
  }

  /** `a` and `b` compare equal: neither sorts before the other. */
  predicate Tied<T>(le: (T, T) -> bool, a: T, b: T)
  {
    le(a, b) && le(b, a)
  }

  predicate SortedBy<T>(s: seq<T>, le: (T, T) -> bool)
  {
    forall i, j :: 0 <= i < j < |s| ==> le(s[i], s[j])
  }

  /** Places `x` after the last element of `t` that sorts no later than it. */
  function Insert<T>(t: seq<T>, x: T, le: (T, T) -> bool): (r: seq<T>)
    ensures |r| == |t| + 1
  {
    if t == [] then [x]
    else if le(t[|t| - 1], x) then t + [x]
    else Insert(t[..|t| - 1], x, le) + [t[|t| - 1]]
  }

  /** Insertion adds `x` and loses nothing. */
  lemma {:induction false} InsertPermutes<T>(t: seq<T>, x: T, le: (T, T) -> bool)
    ensures multiset(Insert(t, x, le)) == multiset(t) + multiset{x}
    decreases |t|
  {
    if t != [] && !le(t[|t| - 1], x) {
      InsertPermutes(t[..|t| - 1], x, le);
      assert t == t[..|t| - 1] + [t[|t| - 1]];
    }
  }

  /** Stable sort: each element in turn is inserted into the sorted prefix. */
  function SortBy<T>(s: seq<T>, le: (T, T) -> bool): (r: seq<T>)
    ensures multiset(r) == multiset(s)
    ensures |r| == |s|
  {
    if s == [] then []
    else
      assert s == s[..|s| - 1] + [s[|s| - 1]];
      InsertPermutes(SortBy(s[..|s| - 1], le), s[|s| - 1], le);
      Insert(SortBy(s[..|s| - 1], le), s[|s| - 1], le)
  }

  lemma {:induction false} InsertSorted<T(!new)>(t: seq<T>, x: T, le: (T, T) -> bool)
    requires TotalPreorder(le) && SortedBy(t, le)
    ensures SortedBy(Insert(t, x, le), le)
    decreases |t|
  {
    if t != [] {
      var last := t[|t| - 1];
      var init := t[..|t| - 1];
      if le(last, x) {
        var r := t + [x];
        forall i, j | 0 <= i < j < |r| ensures le(r[i], r[j]) {
          if j == |t| && i < |t| - 1 {
            assert le(t[i], last);
          }
        }
      } else {
        assert le(x, last);
        assert SortedBy(init, le);
        InsertSorted(init, x, le);
        InsertPermutes(init, x, le);
        var u := Insert(init, x, le);
        var r := u + [last];
        forall i, j | 0 <= i < j < |r| ensures le(r[i], r[j]) {
          if j == |u| {
            assert r[i] in multiset(u);
            assert r[i] in multiset(init) + multiset{x};
            if r[i] != x {
              assert r[i] in init;
              var k :| 0 <= k < |init| && init[k] == r[i];
              assert le(t[k], t[|t| - 1]);
            }
          }
        }
      }
    }
  }

  /** The sort's result is in order. */
  lemma {:induction false} SortBySorted<T(!new)>(s: seq<T>, le: (T, T) -> bool)
    requires TotalPreorder(le)
    ensures SortedBy(SortBy(s, le), le)
    decreases |s|
  {
    if s != [] {
      SortBySorted(s[..|s| - 1], le);
      InsertSorted(SortBy(s[..|s| - 1], le), s[|s| - 1], le);
    }
  }

  /** The elements of `s` that compare equal to `y`, in their order in `s`. */
  function Peers<T>(s: seq<T>, y: T, le: (T, T) -> bool): seq<T>
  {
    if s == [] then []
    else Peers(s[..|s| - 1], y, le) + (if Tied(le, s[|s| - 1], y) then [s[|s| - 1]] else [])
  }

  lemma {:induction false} PeersAppend<T>(s: seq<T>, x: T, y: T, le: (T, T) -> bool)
    ensures Peers(s + [x], y, le) == Peers(s, y, le) + (if Tied(le, x, y) then [x] else [])
  {
    assert (s + [x])[..|s|] == s;
  }

  lemma {:induction false} InsertPeers<T>(t: seq<T>, x: T, y: T, le: (T, T) -> bool)
    requires Tied(le, x, y) ==> forall i :: 0 <= i < |t| && Tied(le, t[i], y) ==> le(t[i], x)
    ensures Peers(Insert(t, x, le), y, le) == Peers(t, y, le) + (if Tied(le, x, y) then [x] else [])
    decreases |t|
  {
    if t == [] {
      PeersAppend([], x, y, le);
      assert [] + [x] == [x];
    } else if le(t[|t| - 1], x) {
      PeersAppend(t, x, y, le);
    } else {
      var last := t[|t| - 1];
      var init := t[..|t| - 1];
      var xs: seq<T> := if Tied(le, x, y) then [x] else [];
      var ls: seq<T> := if Tied(le, last, y) then [last] else [];
      assert Insert(t, x, le) == Insert(init, x, le) + [last];
      assert Peers(t, y, le) == Peers(init, y, le) + ls;
      assert Peers(Insert(init, x, le), y, le) == Peers(init, y, le) + xs by {
        assert forall i :: 0 <= i < |init| ==> init[i] == t[i];
        InsertPeers(init, x, y, le);
      }
      PeersAppend(Insert(init, x, le), last, y, le);
      assert xs == [] || ls == [];
      assert Peers(init, y, le) + xs + ls == Peers(init, y, le) + ls + xs;
    }
  }

  /**
   * Stability: the elements that compare equal to any `y` keep their
   * relative order.
   */
  lemma {:induction false} SortByStable<T(!new)>(s: seq<T>, y: T, le: (T, T) -> bool)
    requires TotalPreorder(le)
    ensures Peers(SortBy(s, le), y, le) == Peers(s, y, le)
    decreases |s|
  {
    if s != [] {
      var init := s[..|s| - 1];
      SortByStable(init, y, le);
      assert forall i :: 0 <= i < |SortBy(init, le)| && Tied(le, SortBy(init, le)[i], y) && Tied(le, s[|s| - 1], y) ==>
        le(SortBy(init, le)[i], s[|s| - 1]);
      InsertPeers(SortBy(init, le), s[|s| - 1], y, le);
    }
  }

  /**
   * Where no two distinct elements compare equal, there is only one sorted
   * arrangement: any sort of the same elements gives the same sequence.
   */
  lemma {:induction false} SortedPermutationUnique<T(!new)>(a: seq<T>, b: seq<T>, le: (T, T) -> bool)
    requires SortedBy(a, le) && SortedBy(b, le) && multiset(a) == multiset(b)
    requires forall x, y :: x in a && y in a && Tied(le, x, y) ==> x == y
    ensures a == b
    decreases |a|
  {
    if a != [] {
      SortedHeadsEqual(a, b, le);
      MultisetTail(a, b);
      assert forall x :: x in a[1..] ==> x in a;
      SortedPermutationUnique(a[1..], b[1..], le);
      assert a == [a[0]] + a[1..] && b == [b[0]] + b[1..];
    }
  }

  lemma {:induction false} SortedHeadsEqual<T>(a: seq<T>, b: seq<T>, le: (T, T) -> bool)
    requires a != [] && SortedBy(a, le) && SortedBy(b, le) && multiset(a) == multiset(b)
    requires forall x, y :: x in a && y in a && Tied(le, x, y) ==> x == y
    ensures b != [] && a[0] == b[0]
  {
    assert a[0] in multiset(b);
    assert b[0] in multiset(a);
    var i :| 0 <= i < |a| && a[i] == b[0];
    var j :| 0 <= j < |b| && b[j] == a[0];
    if i != 0 && j != 0 {
      assert le(a[0], a[i]) && le(b[0], b[j]);
      assert Tied(le, a[0], b[0]);
    }
  }

  lemma {:induction false} MultisetTail<T>(a: seq<T>, b: seq<T>)
    requires a != [] && b != [] && a[0] == b[0] && multiset(a) == multiset(b)
    ensures multiset(a[1..]) == multiset(b[1..])
  {
    assert a == [a[0]] + a[1..] && b == [b[0]] + b[1..];
    assert multiset(a) == multiset{a[0]} + multiset(a[1..]);
    assert multiset(b) == multiset{b[0]} + multiset(b[1..]);
    assert multiset(a[1..]) == multiset(a) - multiset{a[0]};
    assert multiset(b[1..]) == multiset(b) - multiset{b[0]};
  }

  /** Python's string comparison is a total order. */
  lemma {:induction false} StrOrder()
    ensures TotalPreorder(StrLe)
  {
    forall a: string, b: string ensures StrLe(a, b) || StrLe(b, a) {
      StrLeTotal(a, b);
    }
    forall a: string, b: string, c: string | StrLe(a, b) && StrLe(b, c) ensures StrLe(a, c) {
      StrLeTransitive(a, b, c);
    }
  }
}
