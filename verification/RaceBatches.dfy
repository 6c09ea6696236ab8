/**
 * Recording activities one by one or in a single batch: with distinct bibs every bib ends up
 * with the same row, rank included, although new rows may stand in another order.
 */
module RaceBatches {
  import opened RaceResults
  import opened RaceRanking
  import opened RaceMaterialize
  import opened RaceAggregate
  import opened Sequences

  /** The bibs whose rows are in a class strictly better than `tie`. */
  function BibsAhead(rows: seq<RaceResult>, tie: SortKey): set<int> {
    set r | r in rows && CompareKeys(TieClass(r), tie) < 0 :: r.bib
  }

  lemma BibsAheadSnoc(front: seq<RaceResult>, last: RaceResult, tie: SortKey)
    requires DistinctRows(front + [last])
    ensures var ahead := CompareKeys(TieClass(last), tie) < 0;
      BibsAhead(front + [last], tie) == BibsAhead(front, tie) + if ahead then {last.bib} else {}
    ensures DistinctRows(front) && last.bib !in BibsAhead(front, tie)
  {
    hide CompareKeys, TieClass;
    var rows := front + [last];
    assert forall i :: 0 <= i < |front| ==> rows[i] == front[i];
    assert rows[|front|] == last;
  }

  lemma {:induction false} AheadCountsBibs(rows: seq<RaceResult>, tie: SortKey)
    requires DistinctRows(rows)
    ensures Ahead(rows, tie) == |BibsAhead(rows, tie)|
    decreases |rows|
  {
    hide CompareKeys, TieClass;
    if rows != [] {
      var front, last := rows[..|rows| - 1], rows[|rows| - 1];
      assert rows == front + [last];
      hide BibsAhead, DistinctRows;
      BibsAheadSnoc(front, last, tie);
      AheadCountsBibs(front, tie);
    }
  }

  ghost predicate HasRow(rows: seq<RaceResult>, unranked: RaceResult) {
    exists r :: r in rows && Unranked(r) == unranked
  }

  /** Every row of `p` is a row of `q`, up to rank. */
  ghost predicate RowsIn(p: seq<RaceResult>, q: seq<RaceResult>) {
    forall r :: r in p ==> HasRow(q, Unranked(r))
  }

  lemma RowsInAhead(p: seq<RaceResult>, q: seq<RaceResult>, tie: SortKey)
    requires RowsIn(p, q)
    ensures BibsAhead(p, tie) <= BibsAhead(q, tie)
  {
    hide Unranked, TieClass, CompareKeys;
    forall b | b in BibsAhead(p, tie) ensures b in BibsAhead(q, tie) {
      var x :| x in p && CompareKeys(TieClass(x), tie) < 0 && x.bib == b;
      assert HasRow(q, Unranked(x));
      var y :| y in q && Unranked(y) == Unranked(x);
      UnrankedKeeps(x, y);
    }
  }

  lemma SameRowsSameAhead(p: seq<RaceResult>, q: seq<RaceResult>, tie: SortKey)
    requires DistinctRows(p) && DistinctRows(q) && RowsIn(p, q) && RowsIn(q, p)
    ensures Ahead(p, tie) == Ahead(q, tie)
  {
    hide BibsAhead, Ahead, DistinctRows, RowsIn;
    RowsInAhead(p, q, tie);
    RowsInAhead(q, p, tie);
    assert BibsAhead(p, tie) == BibsAhead(q, tie);
    AheadCountsBibs(p, tie);
    AheadCountsBibs(q, tie);
  }

  lemma UnrankedKeeps(x: RaceResult, y: RaceResult)
    requires Unranked(x) == Unranked(y)
    ensures x.bib == y.bib && TieClass(x) == TieClass(y)
  {
    assert Unranked(x).bib == x.bib;
    DeriveKeepsManual(x, y, []);
  }

  // ---- Two lists that only differ in what derivation overwrites ----

  ghost predicate SameManual(p: seq<RaceResult>, q: seq<RaceResult>) {
    forall b :: b > 0 ==> Manual(FirstRow(p, b)) == Manual(FirstRow(q, b))
  }

  lemma OrderDistinct(prev: seq<RaceResult>, bibs: set<int>)
    requires NoRepeats(PositiveBibs(prev))
    ensures NoRepeats(BibOrder(prev, bibs))
  {
    hide RowBibs, PositiveBibs;
    PositiveBibsSpec(prev);
    var kept, missing := PositiveBibs(prev), Sorted(bibs - RowBibs(prev));
    forall j | 0 <= j < |missing| ensures missing[j] !in kept {
      assert missing[j] in Elements(missing);
    }
    forall i, j | 0 <= i < j < |kept + missing| ensures (kept + missing)[i] != (kept + missing)[j] {
      if i < |kept| && j >= |kept| {
        assert kept[i] in kept && missing[j - |kept|] !in kept;
      }
    }
  }

  lemma ApplySameRows(p: seq<RaceResult>, q: seq<RaceResult>, starters: seq<Athlete>, activities: seq<Activity>)
    requires SameManual(p, q)
    requires RowBibs(p) + KnownBibs(starters, activities) == RowBibs(q) + KnownBibs(starters, activities)
    ensures RowsIn(Apply(p, starters, activities), Apply(q, starters, activities))
  {
    hide KnownBibs, RowBibs, BibOrder, Derive, FirstRow, Unranked, Manual;
    var known := KnownBibs(starters, activities);
    KnownArePositive(starters, activities);
    BibOrderElements(p, known);
    BibOrderElements(q, known);
    var before, after := BibOrder(p, known), BibOrder(q, known);
    var xs, ys := Apply(p, starters, activities), Apply(q, starters, activities);
    forall x | x in xs ensures HasRow(ys, Unranked(x)) {
      var i :| 0 <= i < |xs| && xs[i] == x;
      var b := before[i];
      assert b in before && b in after;
      var j :| 0 <= j < |after| && after[j] == b;
      DeriveKeepsManual(FirstRow(p, b), FirstRow(q, b), activities);
      assert ys[j] in ys;
    }
  }

  lemma ApplyDistinct(p: seq<RaceResult>, starters: seq<Athlete>, activities: seq<Activity>)
    requires NoRepeats(PositiveBibs(p))
    ensures DistinctRows(Apply(p, starters, activities))
  {
    hide KnownBibs, BibOrder, Derive, FirstRow, PositiveBibs;
    var order := BibOrder(p, KnownBibs(starters, activities));
    OrderDistinct(p, KnownBibs(starters, activities));
    forall i | 0 <= i < |order| ensures Apply(p, starters, activities)[i].bib == order[i] {
      FirstRowBib(p, order[i]);
      DeriveKeepsBib(FirstRow(p, order[i]), activities);
    }
  }

  /** Materializing either of them gives every bib the same row. */
  lemma SameManualSameRow(p: seq<RaceResult>, q: seq<RaceResult>, starters: seq<Athlete>, activities: seq<Activity>, bib: int)
    requires NoRepeats(PositiveBibs(p)) && NoRepeats(PositiveBibs(q)) && SameManual(p, q) && bib > 0
    requires RowBibs(p) + KnownBibs(starters, activities) == RowBibs(q) + KnownBibs(starters, activities)
    ensures RowFor(p, starters, activities, bib) == RowFor(q, starters, activities, bib)
  {
    hide KnownBibs, RowBibs, Apply, Derive, FirstRow, Manual, Ahead, TieClass, PositiveBibs;
    ApplyDistinct(p, starters, activities);
    ApplyDistinct(q, starters, activities);
    ApplySameRows(p, q, starters, activities);
    ApplySameRows(q, p, starters, activities);
    var x, y := Derive(FirstRow(p, bib), activities), Derive(FirstRow(q, bib), activities);
    DeriveKeepsManual(FirstRow(p, bib), FirstRow(q, bib), activities);
    UnrankedKeeps(x, y);
    SameRowsSameAhead(Apply(p, starters, activities), Apply(q, starters, activities), TieClass(x));
    assert x.(rank := 5) == Unranked(x).(rank := 5);
  }

  // ---- One by one or all at once ----

  ghost function OneByOne(race: Race, added: seq<Activity>): Race
    decreases |added|
  {
    if added == [] then race else Do(OneByOne(race, added[..|added| - 1]), AddActivity(added[|added| - 1]))
  }

  lemma {:induction false} OneByOneKeeps(race: Race, added: seq<Activity>)
    requires NoRepeats(PositiveBibs(race.results))
    ensures var r := OneByOne(race, added);
      && r.starters == race.starters && r.activities == race.activities + added
      && NoRepeats(PositiveBibs(r.results)) && SameManual(r.results, race.results)
      && RowBibs(race.results) <= RowBibs(r.results) <= RowBibs(race.results) + KnownBibs(race.starters, race.activities + added)
    decreases |added|
  {
    hide Materialize, RowBibs, StarterBibs, Mentioned, Manual, FirstRow, PositiveBibs, BibOrder, NoRepeats;
    if added == [] {
      assert race.activities + [] == race.activities;
    } else {
      var front, last := added[..|added| - 1], added[|added| - 1];
      OneByOneKeeps(race, front);
      var before := OneByOne(race, front);
      var all := race.activities + added;
      assert all == before.activities + [last];
      MentionedSnoc(before.activities, last);
      MaterializedBibs(before.results, race.starters, all);
      OrderDistinct(before.results, KnownBibs(race.starters, all));
      forall b | b > 0 ensures Manual(FirstRow(OneByOne(race, added).results, b)) == Manual(FirstRow(race.results, b)) {
        MaterializedLookup(before.results, race.starters, all, b);
      }
    }
  }

  /** One batch and one-by-one recording agree on starters, activities, bibs and every bib's row. */
  lemma BatchAgreesWithOneByOne(race: Race, added: seq<Activity>)
    requires NoRepeats(PositiveBibs(race.results))
    ensures var one := OneByOne(race, added);
      var batch := Do(race, AddActivities(added));
      && one.starters == batch.starters && one.activities == batch.activities
      && RowBibs(one.results) == RowBibs(batch.results)
      && forall b :: b in RowBibs(one.results) ==> FirstRow(one.results, b) == FirstRow(batch.results, b)
  {
    hide Materialize, StarterBibs, Mentioned, FirstRow, PositiveBibs, BibOrder, NoRepeats, RowFor, SameManual;
    if added == [] {
      assert race.activities + [] == race.activities;
    } else {
      var front, last := added[..|added| - 1], added[|added| - 1];
      OneByOneKeeps(race, front);
      var before := OneByOne(race, front);
      var all := race.activities + added;
      assert all == before.activities + [last];
      MentionedSnoc(before.activities, last);
      assert RowBibs(before.results) + KnownBibs(race.starters, all) == RowBibs(race.results) + KnownBibs(race.starters, all);
      MaterializedBibs(before.results, race.starters, all);
      MaterializedBibs(race.results, race.starters, all);
      forall b | b in RowBibs(OneByOne(race, added).results)
        ensures FirstRow(OneByOne(race, added).results, b) == FirstRow(Do(race, AddActivities(added)).results, b)
      {
        MaterializedLookup(before.results, race.starters, all, b);
        MaterializedLookup(race.results, race.starters, all, b);
        SameManualSameRow(before.results, race.results, race.starters, all, b);
      }
    }
  }
}
