/** Go's sort package as far as the program needs it: a stable sort, and the order of strings. */
module Sorting {
  /** x goes behind every element it is not less than, so equal elements keep their order. */
  function Insert<T>(s: seq<T>, x: T, less: (T, T) -> bool): seq<T>
  {
    if s == [] || !less(x, s[|s| - 1]) then s + [x]
    else Insert(s[..|s| - 1], x, less) + [s[|s| - 1]]
  }

  function StableSort<T>(s: seq<T>, less: (T, T) -> bool): seq<T>
  {
    if s == [] then [] else Insert(StableSort(s[..|s| - 1], less), s[|s| - 1], less)
  }

  predicate Ordered<T>(s: seq<T>, less: (T, T) -> bool)
  {
    forall i, j :: 0 <= i < j < |s| ==> !less(s[j], s[i])
  }

  predicate Asymmetric<T>(less: (T, T) -> bool, x: T, y: T)
  {
    less(x, y) ==> !less(y, x)
  }

  predicate Transits<T>(less: (T, T) -> bool, x: T, y: T, z: T)
  {
    !less(y, x) && !less(z, y) ==> !less(z, x)
  }

  /** A strict order in which "not less" is transitive. */
  ghost predicate StrictWeak<T(!new)>(less: (T, T) -> bool)
  {
    && (forall x, y :: Asymmetric(less, x, y))
    && (forall x, y, z :: Transits(less, x, y, z))
  }

  lemma {:induction false} InsertKeeps<T>(s: seq<T>, x: T, less: (T, T) -> bool)
    ensures multiset(Insert(s, x, less)) == multiset(s) + multiset{x}
    ensures |Insert(s, x, less)| == |s| + 1
  {
    if s != [] && less(x, s[|s| - 1]) {
      InsertKeeps(s[..|s| - 1], x, less);
      assert s == s[..|s| - 1] + [s[|s| - 1]];
    }
  }

  lemma {:induction false} InsertOrders<T(!new)>(s: seq<T>, x: T, less: (T, T) -> bool)
    requires StrictWeak(less) && Ordered(s, less)
    ensures Ordered(Insert(s, x, less), less)
  {
    if s == [] {
    } else if less(x, s[|s| - 1]) {
      var init, last := s[..|s| - 1], s[|s| - 1];
      InsertOrders(init, x, less);
      InsertKeeps(init, x, less);
      var r := Insert(init, x, less);
      forall i | 0 <= i < |r|
        ensures !less(last, r[i])
      {
        assert r[i] in multiset(r);
        assert r[i] == x || r[i] in init;
        assert Asymmetric(less, x, last);
      }
    } else {
      forall i | 0 <= i < |s|
        ensures !less(x, s[i])
      {
        assert Transits(less, s[i], s[|s| - 1], x);
      }
    }
  }

  lemma {:induction false} SortOrders<T(!new)>(s: seq<T>, less: (T, T) -> bool)
    requires StrictWeak(less)
    ensures Ordered(StableSort(s, less), less)
    ensures multiset(StableSort(s, less)) == multiset(s)
    ensures |StableSort(s, less)| == |s|
  {
    if s != [] {
      SortOrders(s[..|s| - 1], less);
      InsertOrders(StableSort(s[..|s| - 1], less), s[|s| - 1], less);
      InsertKeeps(StableSort(s[..|s| - 1], less), s[|s| - 1], less);
      assert s == s[..|s| - 1] + [s[|s| - 1]];
    }
  }

  /** Go's < on strings. */
  predicate StringLess(a: string, b: string)
  {
    b != "" && (a == "" || a[0] < b[0] || (a[0] == b[0] && StringLess(a[1..], b[1..])))
  }

  /** At k the strings part: a ends there, or has the lesser character. */
  predicate PartsAt(a: string, b: string, k: nat)
  {
    k <= |a| && k < |b| && a[..k] == b[..k] && (k == |a| || a[k] < b[k])
  }

  lemma FirstOfPrefix(a: string, b: string, k: nat)
    requires PartsAt(a, b, k)
    ensures b != "" && (k > 0 ==> a != "" && a[0] == b[0])
  {
    if k > 0 {
      assert a[0] == a[..k][0] && b[0] == b[..k][0];
    }
  }

  /** The order is that of a dictionary. */
  lemma {:induction false} StringLessMeans(a: string, b: string)
    ensures StringLess(a, b) <==> exists k: nat :: PartsAt(a, b, k)
  {
    if a != "" && b != "" && a[0] == b[0] {
      StringLessMeans(a[1..], b[1..]);
      assert forall k: nat :: k < |a| && k < |b| ==> a[..k + 1] == [a[0]] + a[1..][..k];
      assert forall k: nat :: k < |a| && k < |b| ==> b[..k + 1] == [b[0]] + b[1..][..k];
      if k: nat :| PartsAt(a[1..], b[1..], k) {
        assert PartsAt(a, b, k + 1);
      }
      if k: nat :| PartsAt(a, b, k) {
        assert k > 0;
        assert a[..k] == [a[0]] + a[1..][..k - 1] && b[..k] == [b[0]] + b[1..][..k - 1];
        assert a[1..][..k - 1] == a[..k][1..] && b[1..][..k - 1] == b[..k][1..];
        assert PartsAt(a[1..], b[1..], k - 1);
      }
    } else {
      if k: nat :| PartsAt(a, b, k) {
        FirstOfPrefix(a, b, k);
      }
      assert b != "" && (a == "" || a[0] < b[0]) ==> PartsAt(a, b, 0);
    }
  }

  // ----- Stability

  predicate Ties<T>(less: (T, T) -> bool, x: T, y: T)
  {
    !less(x, y) && !less(y, x)
  }

  /** The elements that the order does not tell from y, in their order. */
  function Alike<T>(s: seq<T>, y: T, less: (T, T) -> bool): seq<T>
  {
    if s == [] then []
    else Alike(s[..|s| - 1], y, less) + (if Ties(less, s[|s| - 1], y) then [s[|s| - 1]] else [])
  }

  lemma AlikeSnoc<T>(s: seq<T>, x: T, y: T, less: (T, T) -> bool)
    ensures Alike(s + [x], y, less) == Alike(s, y, less) + (if Ties(less, x, y) then [x] else [])
  {
    assert (s + [x])[..|s|] == s;
  }

  lemma {:induction false} InsertIsStable<T(!new)>(s: seq<T>, x: T, y: T, less: (T, T) -> bool)
    requires StrictWeak(less)
    ensures Alike(Insert(s, x, less), y, less) == Alike(s, y, less) + (if Ties(less, x, y) then [x] else [])
  {
    if s != [] && less(x, s[|s| - 1]) {
      var init, last := s[..|s| - 1], s[|s| - 1];
      InsertIsStable(init, x, y, less);
      AlikeSnoc(Insert(init, x, less), last, y, less);
      assert Transits(less, last, y, x);
    } else {
      AlikeSnoc(s, x, y, less);
    }
  }

  /** Elements that the order does not tell apart stay in their order. */
  lemma {:induction false} SortIsStable<T(!new)>(s: seq<T>, y: T, less: (T, T) -> bool)
    requires StrictWeak(less)
    ensures Alike(StableSort(s, less), y, less) == Alike(s, y, less)
  {
    if s != [] {
      SortIsStable(s[..|s| - 1], y, less);
      InsertIsStable(StableSort(s[..|s| - 1], less), s[|s| - 1], y, less);
    }
  }

  lemma {:induction false} StringOrderIsTotal(a: string, b: string)
    ensures StringLess(a, b) || StringLess(b, a) <==> a != b
    ensures !(StringLess(a, b) && StringLess(b, a))
  {
    if a != "" && b != "" && a[0] == b[0] {
      StringOrderIsTotal(a[1..], b[1..]);
      assert a == [a[0]] + a[1..] && b == [b[0]] + b[1..];
    }
  }

  lemma {:induction false} StringOrderIsTransitive(a: string, b: string, c: string)
    requires !StringLess(b, a) && !StringLess(c, b)
    ensures !StringLess(c, a)
  {
    if a != "" && b != "" && c != "" && a[0] == b[0] == c[0] {
      StringOrderIsTransitive(a[1..], b[1..], c[1..]);
    }
  }

  lemma StringOrderIsStrictWeak()
    ensures StrictWeak(StringLess)
  {
    forall x, y
      ensures Asymmetric(StringLess, x, y)
    {
      StringOrderIsTotal(x, y);
    }
    forall x, y, z
      ensures Transits(StringLess, x, y, z)
    {
      if !StringLess(y, x) && !StringLess(z, y) {
        StringOrderIsTransitive(x, y, z);
      }
    }
  }
}
