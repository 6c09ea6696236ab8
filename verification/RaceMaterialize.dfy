/**
 * The materialized results of a race: activities applied, then ranks recomputed. Materializing
 * keeps what was entered by hand, forgets every earlier derivation and is idempotent.
 */
module RaceMaterialize {
  import opened RaceResults
  import opened RaceRanking

  ghost function Materialize(prev: seq<RaceResult>, starters: seq<Athlete>, activities: seq<Activity>): seq<RaceResult> {
    Recompute(Apply(prev, starters, activities))
  }

  /** What no derivation touches. */
  function Manual(r: RaceResult): RaceResult {
    r.(rank := 0, points := 0, dnf := NotDnf, dnfLap := 0, dns := false, dsq := false)
  }

  function Unranked(r: RaceResult): RaceResult {
    r.(rank := 0)
  }

  lemma DeriveKeepsManual(x: RaceResult, y: RaceResult, activities: seq<Activity>)
    ensures Manual(Derive(x, activities)) == Manual(x)
    ensures Manual(x) == Manual(y) ==> Unranked(Derive(x, activities)) == Unranked(Derive(y, activities))
    ensures Unranked(x) == Unranked(y) ==> Manual(x) == Manual(y) && TieClass(x) == TieClass(y) && Key(x) == Key(y)
  {
    assert Manual(x) == Manual(y) ==> x.bib == y.bib;
  }

  lemma ApplyRankable(prev: seq<RaceResult>, starters: seq<Athlete>, activities: seq<Activity>)
    ensures Rankable(Apply(prev, starters, activities))
  {
    hide Apply, Derive, Key;
    ApplyRows(prev, starters, activities);
  }

  /** The one row of a bib in a materialized list. */
  ghost function RowFor(prev: seq<RaceResult>, starters: seq<Athlete>, activities: seq<Activity>, bib: int): RaceResult {
    var derived := Derive(FirstRow(prev, bib), activities);
    derived.(rank := 1 + Ahead(Apply(prev, starters, activities), TieClass(derived)))
  }

  /** Every row of the list is the row of its bib, and the bibs are listed in their order. */
  lemma MaterializeRows(prev: seq<RaceResult>, starters: seq<Athlete>, activities: seq<Activity>)
    ensures var order := BibOrder(prev, KnownBibs(starters, activities));
      var m := Materialize(prev, starters, activities);
      |m| == |order| && forall i :: 0 <= i < |m| ==> order[i] > 0 && m[i].bib == order[i] && m[i] == RowFor(prev, starters, activities, order[i])
  {
    hide Recompute, Rankable, Derive, FirstRow, TieClass, Ahead;
    var rows := Apply(prev, starters, activities);
    ApplyRankable(prev, starters, activities);
    RankIsOnePlusAhead(rows);
    KnownArePositive(starters, activities);
    var order := BibOrder(prev, KnownBibs(starters, activities));
    BibOrderElements(prev, KnownBibs(starters, activities));
    forall i | 0 <= i < |rows| ensures order[i] > 0 && rows[i].bib == order[i] {
      FirstRowBib(prev, order[i]);
      DeriveKeepsBib(FirstRow(prev, order[i]), activities);
      assert order[i] in order;
    }
  }

  lemma {:induction false} FirstRowFound(rows: seq<RaceResult>, bib: int)
    ensures (exists i :: 0 <= i < |rows| && rows[i].bib == bib) ==>
      FirstRow(rows, bib) in rows && FirstRow(rows, bib).bib == bib
    ensures (forall i :: 0 <= i < |rows| ==> rows[i].bib != bib) ==> FirstRow(rows, bib) == MakeDefault(bib)
    decreases |rows|
  {
    hide MakeDefault;
    if rows != [] {
      assert rows == [rows[0]] + rows[1..];
      FirstRowFound(rows[1..], bib);
    }
  }

  lemma {:induction false} BibsOfPositiveRows(rows: seq<RaceResult>, order: seq<int>)
    requires |rows| == |order|
    requires forall i :: 0 <= i < |rows| ==> rows[i].bib == order[i] > 0
    ensures PositiveBibs(rows) == order
    decreases |rows|
  {
    if rows != [] {
      var n := |rows| - 1;
      BibsOfPositiveRows(rows[..n], order[..n]);
      assert order == order[..n] + [order[n]];
    }
  }

  lemma RowForKeepsManual(prev: seq<RaceResult>, starters: seq<Athlete>, activities: seq<Activity>, bib: int)
    ensures Manual(RowFor(prev, starters, activities, bib)) == Manual(FirstRow(prev, bib))
  {
    hide Derive, FirstRow, Apply, TieClass, Ahead;
    DeriveKeepsManual(FirstRow(prev, bib), FirstRow(prev, bib), activities);
  }

  /** Looking a bib up in a materialized list: its row, or nothing when the bib is unknown. */
  lemma MaterializedLookup(prev: seq<RaceResult>, starters: seq<Athlete>, activities: seq<Activity>, bib: int)
    requires bib > 0
    ensures var m := Materialize(prev, starters, activities);
      && (bib in RowBibs(prev) + KnownBibs(starters, activities) ==> FirstRow(m, bib) == RowFor(prev, starters, activities, bib))
      && Manual(FirstRow(m, bib)) == Manual(FirstRow(prev, bib))
  {
    hide Materialize, RowFor, Manual, KnownBibs, BibOrder, MakeDefault;
    var m := Materialize(prev, starters, activities);
    var known := KnownBibs(starters, activities);
    var order := BibOrder(prev, known);
    MaterializeRows(prev, starters, activities);
    KnownArePositive(starters, activities);
    BibOrderElements(prev, known);
    FirstRowFound(m, bib);
    RowForKeepsManual(prev, starters, activities, bib);
    if bib in order {
      var i :| 0 <= i < |order| && order[i] == bib;
      assert m[i].bib == bib;
    } else {
      forall i | 0 <= i < |m| ensures m[i].bib != bib {
        assert order[i] in order;
      }
      forall i | 0 <= i < |prev| ensures prev[i].bib != bib {
        assert prev[i] in prev;
      }
      FirstRowFound(prev, bib);
    }
  }

  lemma MaterializedBibs(prev: seq<RaceResult>, starters: seq<Athlete>, activities: seq<Activity>)
    ensures var m := Materialize(prev, starters, activities);
      && PositiveBibs(m) == BibOrder(prev, KnownBibs(starters, activities))
      && RowBibs(m) == RowBibs(prev) + KnownBibs(starters, activities)
  {
    hide Materialize, RowFor, KnownBibs, BibOrder, RowBibs;
    var known := KnownBibs(starters, activities);
    var m := Materialize(prev, starters, activities);
    MaterializeRows(prev, starters, activities);
    BibsOfPositiveRows(m, BibOrder(prev, known));
    PositiveBibsSpec(m);
    KnownArePositive(starters, activities);
    BibOrderElements(prev, known);
    assert forall b :: b in RowBibs(m) <==> b in RowBibs(prev) + known;
  }

  // ---- Ranks depend on everything but ranks ----

  lemma {:induction false} AheadIgnoresRank(p: seq<RaceResult>, q: seq<RaceResult>, tie: SortKey)
    requires |p| == |q| && forall i :: 0 <= i < |p| ==> TieClass(p[i]) == TieClass(q[i])
    ensures Ahead(p, tie) == Ahead(q, tie)
    decreases |p|
  {
    hide TieClass, CompareKeys;
    if p != [] {
      AheadIgnoresRank(p[..|p| - 1], q[..|q| - 1], tie);
    }
  }

  lemma RecomputeIgnoresRank(p: seq<RaceResult>, q: seq<RaceResult>)
    requires Rankable(p) && Rankable(q)
    requires |p| == |q| && forall i :: 0 <= i < |p| ==> Unranked(p[i]) == Unranked(q[i])
    ensures Recompute(p) == Recompute(q)
  {
    hide Recompute, Rankable, Ahead, TieClass;
    RankIsOnePlusAhead(p);
    RankIsOnePlusAhead(q);
    forall i | 0 <= i < |p| ensures TieClass(p[i]) == TieClass(q[i]) {
      DeriveKeepsManual(p[i], q[i], []);
    }
    forall i | 0 <= i < |p| ensures Recompute(p)[i] == Recompute(q)[i] {
      AheadIgnoresRank(p, q, TieClass(p[i]));
      assert p[i].(rank := 1) == Unranked(p[i]).(rank := 1);
      assert q[i].(rank := 1) == Unranked(q[i]).(rank := 1);
    }
  }

  /**
   * Materializing again replaces whatever was derived before: when both rounds know the same
   * bibs, only the second round's activities show, in the same row order.
   */
  lemma MaterializeOverwrites(prev: seq<RaceResult>, s1: seq<Athlete>, a1: seq<Activity>, s2: seq<Athlete>, a2: seq<Activity>)
    requires RowBibs(prev) + KnownBibs(s1, a1) == RowBibs(prev) + KnownBibs(s2, a2)
    ensures Materialize(Materialize(prev, s1, a1), s2, a2) == Materialize(prev, s2, a2)
  {
    hide Recompute, Rankable, Derive, FirstRow, KnownBibs, RowBibs, Manual, Unranked, PositiveBibs;
    var m := Materialize(prev, s1, a1);
    var order := BibOrder(prev, KnownBibs(s2, a2));
    MaterializedBibs(prev, s1, a1);
    assert KnownBibs(s1, a1) - RowBibs(prev) == KnownBibs(s2, a2) - RowBibs(prev);
    assert KnownBibs(s2, a2) - RowBibs(m) == {};
    assert BibOrder(m, KnownBibs(s2, a2)) == order by { SortedEmpty(); }
    var again, once := Apply(m, s2, a2), Apply(prev, s2, a2);
    KnownArePositive(s2, a2);
    BibOrderElements(prev, KnownBibs(s2, a2));
    forall i | 0 <= i < |order| ensures Unranked(again[i]) == Unranked(once[i]) {
      assert order[i] in order;
      MaterializedLookup(prev, s1, a1, order[i]);
      DeriveKeepsManual(FirstRow(m, order[i]), FirstRow(prev, order[i]), a2);
    }
    ApplyRankable(m, s2, a2);
    ApplyRankable(prev, s2, a2);
    RecomputeIgnoresRank(again, once);
  }

  lemma SortedEmpty()
    ensures Sorted({}) == []
  {
    SortedUnique(Sorted({}), []);
  }

  /** Materializing a materialized list changes nothing, duplicate bibs included. */
  lemma MaterializeIsIdempotent(prev: seq<RaceResult>, starters: seq<Athlete>, activities: seq<Activity>)
    ensures Materialize(Materialize(prev, starters, activities), starters, activities) == Materialize(prev, starters, activities)
  {
    MaterializeOverwrites(prev, starters, activities, starters, activities);
  }

  /** The whole pipeline does not depend on the order of the activities. */
  lemma MaterializeIgnoresActivityOrder(prev: seq<RaceResult>, starters: seq<Athlete>, p: seq<Activity>, q: seq<Activity>)
    requires multiset(p) == multiset(q)
    ensures Materialize(prev, starters, p) == Materialize(prev, starters, q)
  {
    ApplyPermutation(prev, starters, p, q);
  }
}
