/**
 * The race aggregate: every scoring and starter action leaves the stored results settled, that
 * is, equal to what materializing them again from the race's own starters and activities gives.
 */
module RaceAggregate {
  import opened Wrappers
  import opened RaceResults
  import opened RaceRanking
  import opened RaceMaterialize
  import opened RaceActivities
  import opened Sequences

  datatype Race = Race(starters: seq<Athlete>, results: seq<RaceResult>, activities: seq<Activity>)

  datatype Action =
    | AddActivity(activity: Activity)
    | AddActivities(added: seq<Activity>)
    | UpdateActivity(updated: Activity)
    | ReplaceActivities(next: seq<Activity>)
    | SetManual(results: seq<RaceResult>)
    | Recalculate
    | ReplaceStarters(starters: seq<Athlete>)
    | RemoveStarter(id: string)
    | InsertStarters(incoming: seq<Athlete>)

  ghost predicate Settled(race: Race) {
    Materialize(race.results, race.starters, race.activities) == race.results
  }

  ghost function WithActivities(race: Race, next: seq<Activity>): Race {
    race.(activities := next, results := Materialize(race.results, race.starters, next))
  }

  /** Index of the first activity with the given id, or the length of the list. */
  function IndexOf(activities: seq<Activity>, id: string): (i: nat)
    ensures i <= |activities|
    ensures i < |activities| ==> activities[i].id == id
    ensures forall j :: 0 <= j < i ==> activities[j].id != id
    decreases |activities|
  {
    if activities == [] || activities[0].id == id then 0 else 1 + IndexOf(activities[1..], id)
  }

  ghost function ReplaceStartersInRace(race: Race, next: seq<Athlete>): Race {
    var allowed := StarterBibs(next);
    var activities := RestrictAll(race.activities, allowed);
    var kept := Where(race.results, (r: RaceResult) => Passes(r.bib, allowed));
    Race(next, Materialize(kept, next, activities), activities)
  }

  /** Incoming starters with a positive bib nobody has yet; an earlier one wins. */
  function NewStarters(base: seq<Athlete>, incoming: seq<Athlete>): seq<Athlete>
    decreases |incoming|
  {
    if incoming == [] then []
    else
      var rest := NewStarters(base, incoming[..|incoming| - 1]);
      var last := incoming[|incoming| - 1];
      if last.bib.Some? && last.bib.value > 0 && last.bib.value !in StarterBibs(base + rest) then rest + [last] else rest
  }

  ghost function Do(race: Race, action: Action): Race {
    match action
    case AddActivity(a) => WithActivities(race, race.activities + [a])
    case AddActivities(added) => if added == [] then race else WithActivities(race, race.activities + added)
    case UpdateActivity(updated) =>
      var i := IndexOf(race.activities, updated.id);
      if i == |race.activities| then race else WithActivities(race, race.activities[i := updated])
    case ReplaceActivities(next) => WithActivities(race, next)
    case SetManual(results) => race.(results := Materialize(results, race.starters, race.activities))
    case Recalculate => WithActivities(race, race.activities)
    case ReplaceStarters(starters) => ReplaceStartersInRace(race, starters)
    case RemoveStarter(id) =>
      var next := Where(race.starters, (s: Athlete) => s.id != id);
      if |next| == |race.starters| then race else ReplaceStartersInRace(race, next)
    case InsertStarters(incoming) =>
      var added := NewStarters(race.starters, incoming);
      if added == [] then race else ReplaceStartersInRace(race, race.starters + added)
  }

  ghost function DoAll(race: Race, actions: seq<Action>): Race
    decreases |actions|
  {
    if actions == [] then race else Do(DoAll(race, actions[..|actions| - 1]), actions[|actions| - 1])
  }

  /** One action keeps a settled race settled. */
  lemma DoSettles(race: Race, action: Action)
    requires Settled(race)
    ensures Settled(Do(race, action))
  {
    hide Materialize, Where, RestrictAll, NewStarters, IndexOf, StarterBibs;
    var after := Do(race, action);
    if after != race {
      SettledByMaterializing(race, action);
    }
  }

  /** Every action that changes the race writes freshly materialized results. */
  lemma SettledByMaterializing(race: Race, action: Action)
    requires Do(race, action) != race
    ensures Settled(Do(race, action))
  {
    hide Materialize, Where, RestrictAll, NewStarters, IndexOf, StarterBibs;
    var after := Do(race, action);
    MaterializeIsIdempotent(race.results, after.starters, after.activities);
    if action.SetManual? {
      MaterializeIsIdempotent(action.results, race.starters, race.activities);
    }
    MaterializeIsIdempotent(Where(race.results, (r: RaceResult) => Passes(r.bib, StarterBibs(after.starters))), after.starters, after.activities);
  }

  /** In every run of actions the stored results stay a fixed point. */
  lemma {:induction false} RunStaysSettled(race: Race, actions: seq<Action>)
    requires Settled(race)
    ensures Settled(DoAll(race, actions))
    decreases |actions|
  {
    hide Settled, Do;
    if actions != [] {
      RunStaysSettled(race, actions[..|actions| - 1]);
      DoSettles(DoAll(race, actions[..|actions| - 1]), actions[|actions| - 1]);
    }
  }

  // ---- Deleting an activity and bringing it back ----

  function WithDeleted(a: Activity, isDeleted: bool): Activity {
    a.(isDeleted := isDeleted)
  }

  /** Setting an activity's deleted flag and setting it back restores the race, order and ranks included. */
  lemma ToggleRestores(race: Race, i: nat, flag: bool)
    requires Settled(race)
    requires i < |race.activities| && IndexOf(race.activities, race.activities[i].id) == i
    ensures Do(Do(race, UpdateActivity(WithDeleted(race.activities[i], flag))), UpdateActivity(race.activities[i])) == race
  {
    hide Materialize, StarterBibs, Mentions;
    var a := race.activities[i];
    var toggled := WithDeleted(a, flag);
    var changed := race.activities[i := toggled];
    var once := Do(race, UpdateActivity(toggled));
    assert once == Race(race.starters, Materialize(race.results, race.starters, changed), changed);
    SameIndex(race.activities, changed, a.id);
    assert changed[i := a] == race.activities;
    ToggledMentions(race.activities, i, flag);
    MaterializeOverwrites(race.results, race.starters, changed, race.starters, race.activities);
  }

  lemma SameIndex(p: seq<Activity>, q: seq<Activity>, id: string)
    requires |p| == |q| && forall i :: 0 <= i < |p| ==> p[i].id == q[i].id
    ensures IndexOf(p, id) == IndexOf(q, id)
  {}

  lemma ToggledMentions(activities: seq<Activity>, i: nat, flag: bool)
    requires i < |activities|
    ensures Mentioned(activities[i := WithDeleted(activities[i], flag)]) == Mentioned(activities)
  {
    hide Mentions;
    var changed := activities[i := WithDeleted(activities[i], flag)];
    DeletedStillMentions(activities[i], flag);
    assert forall j :: 0 <= j < |activities| ==> Mentions(changed[j]) == Mentions(activities[j]);
    forall b ensures b in Mentioned(changed) <==> b in Mentioned(activities) {
      assert (exists j :: 0 <= j < |activities| && b in Mentions(changed[j])) <==> b in Mentioned(changed);
      assert (exists j :: 0 <= j < |activities| && b in Mentions(activities[j])) <==> b in Mentioned(activities);
    }
  }

  lemma DeletedStillMentions(a: Activity, flag: bool)
    ensures Mentions(WithDeleted(a, flag)) == Mentions(a)
  {}

  // ---- Starters and results agree ----

  /**
   * After replacing the starters the results have exactly the starters' bibs and those of plain
   * DNF activities; they are the starters' bibs alone if and only if every plain DNF is a starter's.
   */
  lemma ReplacedStartersMatchResults(race: Race, next: seq<Athlete>)
    ensures var after := ReplaceStartersInRace(race, next);
      && RowBibs(after.results) == StarterBibs(next) + PlainDnfBibs(race.activities)
      && (forall i :: 0 <= i < |after.results| ==> after.results[i].bib > 0)
      && Mentioned(after.activities) == PlainDnfBibs(race.activities) + Mentioned(race.activities) * StarterBibs(next)
      && (RowBibs(after.results) == StarterBibs(next) <==> PlainDnfBibs(race.activities) <= StarterBibs(next))
      && (Mentioned(after.activities) <= StarterBibs(next) <==> PlainDnfBibs(race.activities) <= StarterBibs(next))
  {
    hide Materialize, StarterBibs, Mentioned, PlainDnfBibs, RestrictAll, RowFor, BibOrder;
    var allowed := StarterBibs(next);
    var activities := RestrictAll(race.activities, allowed);
    var kept := Where(race.results, (r: RaceResult) => Passes(r.bib, allowed));
    FilterMentions(race.activities, allowed);
    MaterializedBibs(kept, next, activities);
    MaterializeRows(kept, next, activities);
    WhereMembers(race.results, (r: RaceResult) => Passes(r.bib, allowed));
    assert RowBibs(kept) <= allowed;
  }

  /** A plain DNF of a bib that is not a starter comes back as a result row of its own. */
  lemma PlainDnfSurvivesReplacement()
    ensures var race := Race([], [], [DnfActivity("a", false, 3, false, [7])]);
      RowBibs(ReplaceStartersInRace(race, []).results) == {7}
  {
    hide ReplaceStartersInRace, RowBibs, RestrictAll, Materialize;
    var dnf := DnfActivity("a", false, 3, false, [7]);
    ReplacedStartersMatchResults(Race([], [], [dnf]), []);
    assert [dnf] == [] + [dnf];
    PlainDnfSnoc([], dnf);
    NothingMentioned();
    assert Mentions(dnf) == {7};
  }

  /** The insert-only action: known starters stay, and every positive incoming bib ends up covered. */
  lemma {:induction false} InsertedBibs(base: seq<Athlete>, incoming: seq<Athlete>)
    ensures StarterBibs(base + NewStarters(base, incoming)) == StarterBibs(base) + StarterBibs(incoming)
    decreases |incoming|
  {
    hide StarterBibs;
    if incoming == [] {
      assert base + [] == base;
      NoStarters();
    } else {
      var front, last := incoming[..|incoming| - 1], incoming[|incoming| - 1];
      assert incoming == front + [last];
      InsertedBibs(base, front);
      StarterBibsSnoc(front, last);
      StarterBibsSnoc(base + NewStarters(base, front), last);
      assert base + (NewStarters(base, front) + [last]) == base + NewStarters(base, front) + [last];
    }
  }

  lemma NoStarters()
    ensures StarterBibs([]) == {}
  {}

  /** Each inserted starter comes from the incoming list and has a bib no starter before it has. */
  lemma {:induction false} InsertedAreNew(base: seq<Athlete>, incoming: seq<Athlete>, i: nat)
    requires i < |NewStarters(base, incoming)|
    ensures var s := NewStarters(base, incoming)[i];
      && s in incoming && s.bib.Some? && s.bib.value > 0
      && s.bib.value !in StarterBibs(base + NewStarters(base, incoming)[..i])
    decreases |incoming|
  {
    hide StarterBibs;
    var front, last := incoming[..|incoming| - 1], incoming[|incoming| - 1];
    assert incoming == front + [last];
    var rest := NewStarters(base, front);
    if i < |rest| {
      InsertedAreNew(base, front, i);
      assert NewStarters(base, incoming)[..i] == rest[..i];
    } else {
      assert NewStarters(base, incoming)[..i] == rest;
    }
  }

  lemma StarterBibsSnoc(starters: seq<Athlete>, s: Athlete)
    ensures StarterBibs(starters + [s]) == StarterBibs(starters) + if s.bib.Some? && s.bib.value > 0 then {s.bib.value} else {}
  {
    assert forall x :: x in starters + [s] <==> x in starters || x == s;
  }

  // ---- The one action that leaves results stale ----

  /** Merging starters without recomputing: only the starters change. */
  function UpsertWithoutRecompute(race: Race, merged: seq<Athlete>): Race {
    race.(starters := merged)
  }

  /** From a settled race that is harmless exactly when every starter already has a result row. */
  lemma StaleUpsertIff(race: Race, merged: seq<Athlete>)
    requires Settled(race)
    ensures Settled(UpsertWithoutRecompute(race, merged)) <==> StarterBibs(merged) <= RowBibs(race.results)
  {
    hide Materialize, StarterBibs, RowBibs, Mentioned, BibOrder;
    var results, activities := race.results, race.activities;
    MaterializedBibs(results, race.starters, activities);
    MaterializedBibs(results, merged, activities);
    if StarterBibs(merged) <= RowBibs(results) {
      assert RowBibs(results) + KnownBibs(race.starters, activities) == RowBibs(results) + KnownBibs(merged, activities);
      SameKnownSameResults(results, race.starters, merged, activities);
    }
  }

  lemma SameKnownSameResults(results: seq<RaceResult>, s: seq<Athlete>, t: seq<Athlete>, activities: seq<Activity>)
    requires RowBibs(results) + KnownBibs(s, activities) == RowBibs(results) + KnownBibs(t, activities)
    ensures Materialize(results, s, activities) == Materialize(results, t, activities)
  {
    hide RowBibs, KnownBibs, Recompute, DeriveAll;
    assert KnownBibs(s, activities) - RowBibs(results) == KnownBibs(t, activities) - RowBibs(results);
  }

  lemma StaleUpsertExample()
    ensures Settled(Race([], [], []))
    ensures !Settled(UpsertWithoutRecompute(Race([], [], []), [Athlete("a", "A", Some(1))]))
  {
    var race := Race([], [], []);
    SortedEmpty();
    assert Mentioned([]) == {} && StarterBibs([]) == {};
    assert KnownBibs([], []) - RowBibs([]) == {};
    assert Apply([], [], []) == [];
    assert Settled(race);
    var merged := [Athlete("a", "A", Some(1))];
    assert merged[0] in merged;
    assert 1 in StarterBibs(merged) && RowBibs(race.results) == {};
    StaleUpsertIff(race, merged);
  }
}
