/**
 * The stable sort the language's `Array.sort` provides, as insertion sort over a comparator.
 */
module Sorting {
  function Insert<T>(cmp: (T, T) -> int, x: T, s: seq<T>): seq<T>
    decreases |s|
  {
    if |s| == 0 || cmp(s[|s| - 1], x) <= 0 then s + [x]
    else Insert(cmp, x, s[..|s| - 1]) + [s[|s| - 1]]
  }

  function Sort<T>(cmp: (T, T) -> int, items: seq<T>): seq<T>
    decreases |items|
  {
    if |items| == 0 then [] else Insert(cmp, items[|items| - 1], Sort(cmp, items[..|items| - 1]))
  }

  ghost predicate Ordered<T>(cmp: (T, T) -> int, s: seq<T>) {
    forall i, j :: 0 <= i <= j < |s| ==> cmp(s[i], s[j]) <= 0
  }

  /** A comparator is lawful when it orders all values, some of them possibly level. */
  ghost predicate Lawful<T(!new)>(cmp: (T, T) -> int) {
    && (forall a :: cmp(a, a) == 0)
    && (forall a, b :: cmp(a, b) > 0 <==> cmp(b, a) < 0)
    && (forall a, b, c :: cmp(a, b) <= 0 && cmp(b, c) <= 0 ==> cmp(a, c) <= 0)
  }

  lemma Laws<T(!new)>(cmp: (T, T) -> int, a: T, b: T, c: T)
    requires Lawful(cmp)
    ensures cmp(a, a) == 0
    ensures cmp(a, b) > 0 <==> cmp(b, a) < 0
    ensures cmp(a, b) < 0 <==> cmp(b, a) > 0
    ensures cmp(a, b) <= 0 && cmp(b, c) <= 0 ==> cmp(a, c) <= 0
  {}

  /** The items that compare equal to `k`, in order. */
  function Level<T>(cmp: (T, T) -> int, s: seq<T>, k: T): seq<T>
    decreases |s|
  {
    if |s| == 0 then []
    else Level(cmp, s[..|s| - 1], k) + if cmp(s[|s| - 1], k) == 0 then [s[|s| - 1]] else []
  }

  lemma OrderedSnoc<T(!new)>(cmp: (T, T) -> int, s: seq<T>, last: T)
    requires Lawful(cmp) && Ordered(cmp, s)
    requires forall x :: x in s ==> cmp(x, last) <= 0
    ensures Ordered(cmp, s + [last])
  {
    hide Lawful;
    var out := s + [last];
    Laws(cmp, last, last, last);
    forall i, j | 0 <= i <= j < |out| ensures cmp(out[i], out[j]) <= 0 {
      if j == |s| && i < |s| {
        assert out[i] in s;
      }
    }
  }

  lemma {:induction false} InsertPermutes<T>(cmp: (T, T) -> int, x: T, s: seq<T>)
    ensures multiset(Insert(cmp, x, s)) == multiset(s) + multiset{x}
    decreases |s|
  {
    if |s| > 0 {
      assert s == s[..|s| - 1] + [s[|s| - 1]];
      InsertPermutes(cmp, x, s[..|s| - 1]);
    }
  }

  lemma {:induction false} InsertOrdered<T(!new)>(cmp: (T, T) -> int, x: T, s: seq<T>)
    requires Lawful(cmp) && Ordered(cmp, s)
    ensures Ordered(cmp, Insert(cmp, x, s))
    decreases |s|
  {
    hide Lawful;
    if |s| == 0 || cmp(s[|s| - 1], x) <= 0 {
      forall y | y in s ensures cmp(y, x) <= 0 {
        var i :| 0 <= i < |s| && s[i] == y;
        Laws(cmp, s[i], s[|s| - 1], x);
      }
      OrderedSnoc(cmp, s, x);
    } else {
      var front, last := s[..|s| - 1], s[|s| - 1];
      InsertOrdered(cmp, x, front);
      InsertPermutes(cmp, x, front);
      Laws(cmp, last, x, x);
      forall y | y in Insert(cmp, x, front) ensures cmp(y, last) <= 0 {
        assert y in multiset(Insert(cmp, x, front));
        assert y == x || y in front;
      }
      OrderedSnoc(cmp, Insert(cmp, x, front), last);
    }
  }

  lemma LevelSnoc<T>(cmp: (T, T) -> int, s: seq<T>, x: T, k: T)
    ensures Level(cmp, s + [x], k) == Level(cmp, s, k) + if cmp(x, k) == 0 then [x] else []
  {
    assert (s + [x])[..|s|] == s;
  }

  lemma {:induction false} InsertStable<T(!new)>(cmp: (T, T) -> int, x: T, s: seq<T>, k: T)
    requires Lawful(cmp)
    ensures Level(cmp, Insert(cmp, x, s), k) == Level(cmp, s, k) + if cmp(x, k) == 0 then [x] else []
    decreases |s|
  {
    hide Lawful;
    if |s| == 0 || cmp(s[|s| - 1], x) <= 0 {
      LevelSnoc(cmp, s, x, k);
    } else {
      var front, last := s[..|s| - 1], s[|s| - 1];
      InsertStable(cmp, x, front, k);
      LevelSnoc(cmp, Insert(cmp, x, front), last, k);
      Laws(cmp, last, k, x);
      Laws(cmp, x, k, last);
    }
  }

  /** A stable sort: the same items, in order, and items that compare equal keep their order. */
  lemma {:induction false} SortSpec<T(!new)>(cmp: (T, T) -> int, items: seq<T>)
    requires Lawful(cmp)
    ensures Ordered(cmp, Sort(cmp, items))
    ensures multiset(Sort(cmp, items)) == multiset(items)
    decreases |items|
  {
    hide Lawful, Insert;
    if |items| > 0 {
      var front, last := items[..|items| - 1], items[|items| - 1];
      assert items == front + [last];
      SortSpec(cmp, front);
      InsertOrdered(cmp, last, Sort(cmp, front));
      InsertPermutes(cmp, last, Sort(cmp, front));
    }
  }

  lemma SortMembers<T(!new)>(cmp: (T, T) -> int, items: seq<T>)
    requires Lawful(cmp)
    ensures |Sort(cmp, items)| == |items| && forall x :: x in Sort(cmp, items) <==> x in items
  {
    hide Sort, Lawful;
    SortSpec(cmp, items);
    assert |multiset(Sort(cmp, items))| == |multiset(items)|;
    forall x ensures x in Sort(cmp, items) <==> x in items {
      assert x in multiset(Sort(cmp, items)) <==> x in multiset(items);
    }
  }

  lemma {:induction false} SortStable<T(!new)>(cmp: (T, T) -> int, items: seq<T>, k: T)
    requires Lawful(cmp)
    ensures Level(cmp, Sort(cmp, items), k) == Level(cmp, items, k)
    decreases |items|
  {
    hide Lawful, Insert;
    if |items| > 0 {
      var front, last := items[..|items| - 1], items[|items| - 1];
      assert items == front + [last];
      SortStable(cmp, front, k);
      InsertStable(cmp, last, Sort(cmp, front), k);
      LevelSnoc(cmp, front, last, k);
    }
  }

  /** Items that compare equal are equal. */
  ghost predicate NoTies<T>(cmp: (T, T) -> int, s: seq<T>) {
    forall i, j :: 0 <= i < |s| && 0 <= j < |s| && cmp(s[i], s[j]) == 0 ==> s[i] == s[j]
  }

  lemma FrontSpec<T>(cmp: (T, T) -> int, s: seq<T>)
    requires Ordered(cmp, s) && |s| > 0
    ensures Ordered(cmp, s[..|s| - 1])
    ensures NoTies(cmp, s) ==> NoTies(cmp, s[..|s| - 1])
    ensures multiset(s[..|s| - 1]) == multiset(s) - multiset{s[|s| - 1]}
  {
    assert s == s[..|s| - 1] + [s[|s| - 1]];
  }

  /** When no two items compare equal there is only one ordering of them. */
  lemma {:induction false} OrderedUnique<T(!new)>(cmp: (T, T) -> int, p: seq<T>, q: seq<T>)
    requires Lawful(cmp) && Ordered(cmp, p) && Ordered(cmp, q) && multiset(p) == multiset(q)
    requires NoTies(cmp, p)
    ensures p == q
    decreases |p|
  {
    hide Lawful, Ordered, NoTies;
    assert |p| == |multiset(p)| == |q|;
    if |p| > 0 {
      LastIsGreatest(cmp, p, q);
      FrontSpec(cmp, p);
      FrontSpec(cmp, q);
      OrderedUnique(cmp, p[..|p| - 1], q[..|q| - 1]);
      assert p == p[..|p| - 1] + [p[|p| - 1]] && q == q[..|q| - 1] + [q[|q| - 1]];
    }
  }

  lemma LastIsGreatest<T(!new)>(cmp: (T, T) -> int, p: seq<T>, q: seq<T>)
    requires Lawful(cmp) && Ordered(cmp, p) && Ordered(cmp, q) && multiset(p) == multiset(q) && |p| == |q| > 0
    requires NoTies(cmp, p)
    ensures p[|p| - 1] == q[|q| - 1]
  {
    hide Lawful;
    var n := |p| - 1;
    assert q[n] in multiset(p) && p[n] in multiset(q);
    var i :| 0 <= i <= n && p[i] == q[n];
    var j :| 0 <= j <= n && q[j] == p[n];
    Laws(cmp, p[i], p[n], p[n]);
    Laws(cmp, p[n], p[i], p[n]);
  }
}
