/**
 * The derived fields of a result row, said of the recorded activities alone: who is out and since
 * when, who is disqualified or did not start, and which points count.
 */
module RaceFields {
  import opened Sequences
  import opened RaceResults

  /** A live DNF or elimination that names the bib. */
  predicate Exits(a: Activity, bib: int) {
    a.DnfActivity? && !a.isDeleted && bib in a.bibs
  }

  /** The lap an activity counts for; what is not positive is lap 0. */
  predicate OnLap(a: Activity, lap: int)
    requires a.DnfActivity? || a.PointsSprint? || a.PointsRemoval?
  {
    lap == if a.lap > 0 then a.lap else 0
  }

  /** A live points removal of the bib in a lap from `lap` on. */
  predicate Removes(a: Activity, bib: int, lap: int) {
    a.PointsRemoval? && !a.isDeleted && bib in a.bibs && a.lap >= lap
  }

  /**
   * Status fields: a rider is out exactly when a live exit names him, in the latest lap of those,
   * and eliminated exactly when one of that lap is an elimination; a DSQ or DNS counts while it is
   * live; whoever is out in a lap above 0 has no points.
   */
  lemma StatusIsRecorded(base: RaceResult, activities: seq<Activity>)
    ensures var r, bib := Derive(base, activities), base.bib;
      && (r.dnf == NotDnf <==> forall a :: a in activities ==> !Exits(a, bib))
      && (r.dnf == NotDnf ==> r.dnfLap == 0)
      && (r.dnf != NotDnf ==>
            && (exists a :: a in activities && Exits(a, bib) && OnLap(a, r.dnfLap) && (a.elimination <==> r.dnf == Elimination))
            && forall a :: a in activities && Exits(a, bib) ==>
                 && a.lap <= r.dnfLap && (OnLap(a, r.dnfLap) && a.elimination ==> r.dnf == Elimination))
      && (r.dsq <==> exists a :: a in activities && a.Dsq? && !a.isDeleted && a.bib == bib)
      && (r.dns <==> exists a :: a in activities && a.Dns? && !a.isDeleted && a.bib == bib)
      && (r.dnf != NotDnf && r.dnfLap > 0 ==> r.points == 0)
  {
    hide Cutoff, SumPoints;
    var bib := base.bib;
    ExitIsTheLatest(activities, bib);
    assert (exists a :: a in activities && Disqualifies(a, bib)) <==> exists a :: a in activities && a.Dsq? && !a.isDeleted && a.bib == bib;
    assert (exists a :: a in activities && NotStarting(a, bib)) <==> exists a :: a in activities && a.Dns? && !a.isDeleted && a.bib == bib;
  }

  /** What no activity says: the fields that are entered by hand. */
  lemma EntryIsKept(base: RaceResult, activities: seq<Activity>)
    ensures var r := Derive(base, activities);
      r.bib == base.bib && r.finishTime == base.finishTime && r.finishRank == base.finishRank && r.lapsCompleted == base.lapsCompleted
  {}

  // ---- Points ----

  /** A live sprint whose lap no live removal of the bib reaches. */
  ghost predicate Counts(a: Activity, activities: seq<Activity>, bib: int) {
    a.PointsSprint? && !a.isDeleted && a.lap > 0 && forall x :: x in activities ==> !Removes(x, bib, a.lap)
  }

  lemma {:induction false} FoldSame<A>(f: A -> int, g: A -> int, items: seq<A>)
    requires forall x :: x in items ==> f(x) == g(x)
    ensures Fold(f, (x: int, y: int) => x + y, 0, items) == Fold(g, (x: int, y: int) => x + y, 0, items)
    decreases |items|
  {
    if |items| > 0 {
      assert items[|items| - 1] in items;
      FoldSame(f, g, items[..|items| - 1]);
    }
  }

  lemma CutoffTells(activities: seq<Activity>, bib: int, lap: int)
    ensures (lap > 0 && forall x :: x in activities ==> !Removes(x, bib, lap)) <==> LapOf(lap) > Cutoff(activities, bib)
  {
    hide Cutoff;
    CutoffIsTheHighest(activities, bib);
    if lap > 0 && LapOf(lap) <= Cutoff(activities, bib) {
      var a :| a in activities && RemovalLap(a, bib) == Cutoff(activities, bib);
      assert Removes(a, bib, lap);
    }
    forall x | x in activities && lap > 0 && Removes(x, bib, lap) ensures LapOf(lap) <= Cutoff(activities, bib) {
      assert RemovalLap(x, bib) >= lap;
    }
  }

  /** Unless the rider is out in a lap above 0, his points are those of all sprints that count. */
  lemma PointsAreTheCountingSprints(base: RaceResult, activities: seq<Activity>)
    ensures var r := Derive(base, activities);
      r.points == if r.dnf != NotDnf && r.dnfLap > 0 then 0
        else Fold(a => if Counts(a, activities, base.bib) then SumFor(a.entries, base.bib) else 0, (x: int, y: int) => x + y, 0, activities)
  {
    hide ExitOf, Cutoff;
    var bib, cutoff := base.bib, Cutoff(activities, base.bib);
    forall a | a in activities
      ensures SprintPoints(a, bib, cutoff) == if Counts(a, activities, bib) then SumFor(a.entries, bib) else 0
    {
      if a.PointsSprint? {
        CutoffTells(activities, bib, a.lap);
      }
    }
    FoldSame(a => SprintPoints(a, bib, cutoff), a => if Counts(a, activities, bib) then SumFor(a.entries, bib) else 0, activities);
  }

  /** The points of a bib in a sprint add up over its entries, each counting for its own bib. */
  lemma {:induction false} EntriesAddUp(p: seq<Entry>, q: seq<Entry>, bib: int)
    ensures SumFor(p + q, bib) == SumFor(p, bib) + SumFor(q, bib)
    ensures |q| == 1 ==> SumFor(q, bib) == if q[0].bib == bib then q[0].points else 0
    decreases |q|
  {
    if q == [] {
      assert p + q == p;
    } else {
      assert (p + q)[..|p + q| - 1] == p + q[..|q| - 1];
      EntriesAddUp(p, q[..|q| - 1], bib);
    }
  }
}
