/**
 * The actions of the race aggregate as the source performs them, on top of the result loops.
 */
module RaceActions {
  import opened Sequences
  import opened RaceResults
  import opened RaceMaterialize
  import opened RaceActivities
  import opened RaceAggregate
  import opened RaceLoops

  method CollectStarterBibs(starters: seq<Athlete>) returns (bibs: seq<int>)
    ensures (set b | b in bibs) == StarterBibs(starters)
  {
    bibs := [];
    NoStarters();
    for i := 0 to |starters|
      invariant (set b | b in bibs) == StarterBibs(starters[..i])
    {
      assert starters[..i + 1] == starters[..i] + [starters[i]];
      StarterBibsSnoc(starters[..i], starters[i]);
      if starters[i].bib.Some? && starters[i].bib.value > 0 {
        bibs := bibs + [starters[i].bib.value];
      }
    }
    assert starters[..|starters|] == starters;
  }

  method CollectNewStarters(base: seq<Athlete>, incoming: seq<Athlete>) returns (additions: seq<Athlete>)
    ensures additions == NewStarters(base, incoming)
  {
    hide StarterBibs;
    var list := CollectStarterBibs(base);
    var existing: set<int> := set b | b in list;
    additions := [];
    assert base + [] == base;
    for i := 0 to |incoming|
      invariant additions == NewStarters(base, incoming[..i])
      invariant existing == StarterBibs(base + additions)
    {
      var starter := incoming[i];
      assert incoming[..i + 1][..i] == incoming[..i];
      StarterBibsSnoc(base + additions, starter);
      assert base + additions + [starter] == base + (additions + [starter]);
      if starter.bib.Some? && starter.bib.value > 0 && starter.bib.value !in existing {
        existing := existing + {starter.bib.value};
        additions := additions + [starter];
      }
    }
    assert incoming[..|incoming|] == incoming;
  }

  method ReplaceRaceStarters(race: Race, next: seq<Athlete>) returns (after: Race)
    ensures after == ReplaceStartersInRace(race, next)
  {
    hide RestrictAll, StarterBibs, Materialize, Where;
    var allowed := CollectStarterBibs(next);
    var activities := FilterActivitiesByAllowedBibs(race.activities, allowed);
    var bibs := set b | b in allowed;
    var kept := Where(race.results, (r: RaceResult) => Passes(r.bib, bibs));
    var results := MaterializeRaceResults(kept, next, activities);
    after := Race(next, results, activities);
  }

  method FindActivity(activities: seq<Activity>, id: string) returns (i: nat)
    ensures i == IndexOf(activities, id)
  {
    i := 0;
    while i < |activities| && activities[i].id != id
      invariant i <= |activities|
      invariant forall j :: 0 <= j < i ==> activities[j].id != id
    {
      i := i + 1;
    }
    assert !(i < IndexOf(activities, id)) && !(IndexOf(activities, id) < i);
  }

  method WriteActivities(race: Race, next: seq<Activity>) returns (after: Race)
    ensures after == WithActivities(race, next)
  {
    var results := MaterializeRaceResults(race.results, race.starters, next);
    after := race.(activities := next, results := results);
  }

  /** One action of a scoring or starter screen. */
  method Perform(race: Race, action: Action) returns (after: Race)
    ensures after == Do(race, action)
  {
    hide ReplaceStartersInRace, WithActivities, NewStarters, IndexOf, Where, Materialize;
    after := race;
    match action {
      case AddActivity(a) =>
        after := WriteActivities(race, race.activities + [a]);
      case AddActivities(added) =>
        if added != [] {
          after := WriteActivities(race, race.activities + added);
        }
      case UpdateActivity(updated) =>
        var i := FindActivity(race.activities, updated.id);
        if i < |race.activities| {
          after := WriteActivities(race, race.activities[i := updated]);
        }
      case ReplaceActivities(next) =>
        after := WriteActivities(race, next);
      case SetManual(results) =>
        var computed := MaterializeRaceResults(results, race.starters, race.activities);
        after := race.(results := computed);
      case Recalculate =>
        after := WriteActivities(race, race.activities);
      case ReplaceStarters(starters) =>
        after := ReplaceRaceStarters(race, starters);
      case RemoveStarter(id) =>
        var next := Where(race.starters, (s: Athlete) => s.id != id);
        if |next| != |race.starters| {
          after := ReplaceRaceStarters(race, next);
        }
      case InsertStarters(incoming) =>
        var additions := CollectNewStarters(race.starters, incoming);
        if additions != [] {
          after := ReplaceRaceStarters(race, race.starters + additions);
        }
    }
  }
}
