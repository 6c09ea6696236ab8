/**
 * Filtering a sequence, and folding one whose steps may be taken in any order.
 */
module Sequences {
  /** A list used as a set that remembers insertion order. */
  predicate NoRepeats<T(==)>(s: seq<T>) {
    forall i, j :: 0 <= i < j < |s| ==> s[i] != s[j]
  }

  lemma SameElements(s: seq<int>, elements: set<int>)
    requires forall x :: x in s <==> x in elements
    ensures (set x | x in s) == elements
  {
    forall x ensures x in (set y | y in s) <==> x in elements {}
  }

  function Where<T>(s: seq<T>, keep: T -> bool): seq<T>
    decreases |s|
  {
    if |s| == 0 then []
    else Where(s[..|s| - 1], keep) + if keep(s[|s| - 1]) then [s[|s| - 1]] else []
  }

  lemma WhereSnoc<T>(s: seq<T>, x: T, keep: T -> bool)
    ensures Where(s + [x], keep) == Where(s, keep) + if keep(x) then [x] else []
  {
    assert (s + [x])[..|s|] == s;
  }

  lemma {:induction false} WhereSame<T>(s: seq<T>, p: T -> bool, q: T -> bool)
    requires forall x :: x in s ==> p(x) == q(x)
    ensures Where(s, p) == Where(s, q)
    decreases |s|
  {
    if |s| > 0 {
      assert s[|s| - 1] in s;
      WhereSame(s[..|s| - 1], p, q);
    }
  }

  lemma {:induction false} WhereTwice<T>(s: seq<T>, p: T -> bool, q: T -> bool, both: T -> bool)
    requires forall x :: both(x) == (p(x) && q(x))
    ensures Where(Where(s, p), q) == Where(s, both)
    decreases |s|
  {
    if |s| > 0 {
      var front, last := s[..|s| - 1], s[|s| - 1];
      WhereTwice(front, p, q, both);
      WhereSnoc(Where(front, p), last, q);
      assert Where(front, p) + [] == Where(front, p);
    }
  }

  lemma {:induction false} WhereMembers<T>(s: seq<T>, keep: T -> bool)
    ensures forall x :: x in Where(s, keep) <==> x in s && keep(x)
    decreases |s|
  {
    if |s| > 0 {
      assert s == s[..|s| - 1] + [s[|s| - 1]];
      WhereMembers(s[..|s| - 1], keep);
    }
  }

  function Fold<A, T>(f: A -> T, op: (T, T) -> T, unit: T, items: seq<A>): T
    decreases |items|
  {
    if |items| == 0 then unit
    else op(Fold(f, op, unit, items[..|items| - 1]), f(items[|items| - 1]))
  }

  ghost predicate Commutes<T(!new)>(op: (T, T) -> T) {
    forall x, y, z :: op(op(x, y), z) == op(op(x, z), y)
  }

  lemma Swap<T(!new)>(op: (T, T) -> T, x: T, y: T, z: T)
    requires Commutes(op)
    ensures op(op(x, y), z) == op(op(x, z), y)
  {}

  lemma {:induction false} FoldRemove<A, T(!new)>(f: A -> T, op: (T, T) -> T, unit: T, items: seq<A>, j: nat)
    requires j < |items|
    requires Commutes(op)
    ensures Fold(f, op, unit, items) == op(Fold(f, op, unit, items[..j] + items[j + 1..]), f(items[j]))
    decreases |items|
  {
    var n := |items| - 1;
    var front := items[..n];
    if j == n {
      assert items[..j] + items[j + 1..] == front;
    } else {
      var without := items[..j] + items[j + 1..];
      FoldRemove(f, op, unit, front, j);
      assert without[..n - 1] == front[..j] + front[j + 1..] && without[n - 1] == items[n];
      var kept := Fold(f, op, unit, front[..j] + front[j + 1..]);
      assert Fold(f, op, unit, without) == op(kept, f(items[n]));
      assert Fold(f, op, unit, front) == op(kept, f(items[j]));
      Swap(op, kept, f(items[j]), f(items[n]));
    }
  }

  /** Any fold whose steps commute gives the same value on every permutation of its list. */
  lemma {:induction false} FoldPermutation<A, T(!new)>(f: A -> T, op: (T, T) -> T, unit: T, p: seq<A>, q: seq<A>)
    requires multiset(p) == multiset(q)
    requires Commutes(op)
    ensures Fold(f, op, unit, p) == Fold(f, op, unit, q)
    decreases |p|
  {
    if |p| == 0 {
      assert |multiset(q)| == 0;
    } else {
      var n := |p| - 1;
      var last := p[n];
      assert p == p[..n] + [last];
      assert last in multiset(q);
      var j :| 0 <= j < |q| && q[j] == last;
      assert q == q[..j] + [last] + q[j + 1..];
      var rest := q[..j] + q[j + 1..];
      assert multiset(rest) == multiset(q) - multiset{last} == multiset(p[..n]);
      FoldPermutation(f, op, unit, p[..n], rest);
      FoldRemove(f, op, unit, q, j);
    }
  }

  // ---- Counting ----

  function Count<T>(s: seq<T>, p: T -> bool): int {
    Fold(x => if p(x) then 1 else 0, (a: int, b: int) => a + b, 0, s)
  }

  lemma CountPermutation<T>(s: seq<T>, t: seq<T>, p: T -> bool)
    requires multiset(s) == multiset(t)
    ensures Count(s, p) == Count(t, p)
  {
    FoldPermutation((x: T) => if p(x) then 1 else 0, (a: int, b: int) => a + b, 0, s, t);
  }

  /** Counting more cannot give less, and counting one more element gives more. */
  lemma {:induction false} CountGrows<T>(s: seq<T>, p: T -> bool, q: T -> bool)
    requires forall x :: x in s && p(x) ==> q(x)
    ensures Count(s, p) <= Count(s, q)
    ensures (exists x :: x in s && q(x) && !p(x)) ==> Count(s, p) < Count(s, q)
    decreases |s|
  {
    if |s| > 0 {
      var front, last := s[..|s| - 1], s[|s| - 1];
      assert s == front + [last];
      CountGrows(front, p, q);
    }
  }

  lemma CountSame<T>(s: seq<T>, p: T -> bool, q: T -> bool)
    requires forall x :: x in s ==> (p(x) <==> q(x))
    ensures Count(s, p) == Count(s, q)
  {
    CountGrows(s, p, q);
    CountGrows(s, q, p);
  }

  /** When exactly the first `m` elements are counted, the count is `m`. */
  lemma {:induction false} CountPrefix<T>(s: seq<T>, p: T -> bool, m: nat)
    requires m <= |s| && forall j :: 0 <= j < |s| ==> (p(s[j]) <==> j < m)
    ensures Count(s, p) == m
    decreases |s|
  {
    if |s| > 0 {
      CountPrefix(s[..|s| - 1], p, if m == |s| then m - 1 else m);
    }
  }
}
