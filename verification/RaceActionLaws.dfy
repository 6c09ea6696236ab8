/**
 * What an action on a race leaves alone: entries made by hand, the rows of the riders who stay, and
 * everything an activity says about them.
 */
module RaceActionLaws {
  import opened Wrappers
  import opened RaceResults
  import opened RaceFields
  import opened RaceRanking
  import opened RaceMaterialize
  import opened RaceActivities
  import opened RaceAggregate
  import opened Sequences

  // ---- Filtering keeps what is said about the riders who stay ----

  /** Two activities, or none, mean the same for one bib. */
  ghost predicate SaysSame(a: Activity, kept: Option<Activity>, bib: int) {
    match kept
    case None => !Exits(a, bib) && !Disqualifies(a, bib) && !NotStarting(a, bib) && RemovalLap(a, bib) == 0 && (a.PointsSprint? ==> SumFor(a.entries, bib) == 0)
    case Some(k) =>
      && k.id == a.id && k.isDeleted == a.isDeleted
      && RemovalLap(k, bib) == RemovalLap(a, bib) && ExitIn(k, bib) == ExitIn(a, bib)
      && (Disqualifies(k, bib) <==> Disqualifies(a, bib)) && (NotStarting(k, bib) <==> NotStarting(a, bib))
      && (k.PointsSprint? <==> a.PointsSprint?)
      && (a.PointsSprint? ==> k.lap == a.lap && SumFor(k.entries, bib) == SumFor(a.entries, bib))
  }

  lemma {:induction false} KeptEntries(entries: seq<Entry>, allowed: set<int>, bib: int)
    requires bib > 0 && bib in allowed
    ensures SumFor(Where(entries, (e: Entry) => Passes(e.bib, allowed)), bib) == SumFor(entries, bib)
    decreases |entries|
  {
    if entries != [] {
      var front, last := entries[..|entries| - 1], entries[|entries| - 1];
      KeptEntries(front, allowed, bib);
      EntriesAddUp(Where(front, (e: Entry) => Passes(e.bib, allowed)), if Passes(last.bib, allowed) then [last] else [], bib);
    }
  }

  lemma RestrictSaysSame(a: Activity, allowed: set<int>, bib: int)
    requires bib > 0 && bib in allowed
    ensures SaysSame(a, Restrict(a, allowed), bib)
  {
    match a
    case PointsSprint(_, _, _, entries) => KeptEntries(entries, allowed, bib);
    case PointsRemoval(_, _, _, bibs) => WhereMembers(bibs, b => Passes(b, allowed));
    case DnfActivity(_, _, _, _, bibs) => WhereMembers(bibs, b => Passes(b, allowed));
    case Dsq(_, _, _) =>
    case Dns(_, _, _) =>
  }

  /** All that is derived for a bib from `p` and from `q` is the same. */
  ghost predicate TellSame(p: seq<Activity>, q: seq<Activity>, bib: int, cutoff: nat) {
    && ExitOf(p, bib) == ExitOf(q, bib) && Cutoff(p, bib) == Cutoff(q, bib)
    && SumPoints(p, bib, cutoff) == SumPoints(q, bib, cutoff)
    && (IsDsq(p, bib) <==> IsDsq(q, bib)) && (IsDns(p, bib) <==> IsDns(q, bib))
  }

  lemma OneMoreActivity(s: seq<Activity>, a: Activity, bib: int, cutoff: nat)
    ensures ExitOf(s + [a], bib) == MaxExit(ExitOf(s, bib), ExitIn(a, bib))
    ensures Cutoff(s + [a], bib) == (if RemovalLap(a, bib) > Cutoff(s, bib) then RemovalLap(a, bib) else Cutoff(s, bib))
    ensures SumPoints(s + [a], bib, cutoff) == SumPoints(s, bib, cutoff) + SprintPoints(a, bib, cutoff)
    ensures IsDsq(s + [a], bib) <==> IsDsq(s, bib) || Disqualifies(a, bib)
    ensures IsDns(s + [a], bib) <==> IsDns(s, bib) || NotStarting(a, bib)
  {
    hide MaxExit, ExitIn, RemovalLap, SprintPoints, Disqualifies, NotStarting;
    assert (s + [a])[..|s|] == s;
    assert forall x :: x in s + [a] <==> x in s || x == a;
  }

  lemma OneMoreTellsSame(p: seq<Activity>, q: seq<Activity>, a: Activity, kept: Option<Activity>, bib: int, cutoff: nat)
    requires TellSame(p, q, bib, cutoff) && SaysSame(a, kept, bib)
    ensures TellSame(p + [a], q + OptionSeq(kept), bib, cutoff)
  {
    hide ExitOf, Cutoff, SumPoints, IsDsq, IsDns;
    OneMoreActivity(p, a, bib, cutoff);
    match kept
    case Some(k) => OneMoreActivity(q, k, bib, cutoff);
    case None => assert q + [] == q;
  }

  lemma {:induction false} FilterTellsSame(activities: seq<Activity>, allowed: set<int>, bib: int, cutoff: nat)
    requires bib > 0 && bib in allowed
    ensures TellSame(activities, RestrictAll(activities, allowed), bib, cutoff)
    decreases |activities|
  {
    if activities != [] {
      hide TellSame, SaysSame, Restrict, OptionSeq;
      var front, last := activities[..|activities| - 1], activities[|activities| - 1];
      assert activities == front + [last];
      FilterTellsSame(front, allowed, bib, cutoff);
      RestrictSaysSame(last, allowed, bib);
      OneMoreTellsSame(front, RestrictAll(front, allowed), last, Restrict(last, allowed), bib, cutoff);
    }
  }

  /** Filtering activities to the allowed bibs changes nothing that is derived for an allowed bib. */
  lemma FilterKeepsDerivation(base: RaceResult, activities: seq<Activity>, allowed: set<int>)
    requires base.bib > 0 && base.bib in allowed
    ensures Derive(base, RestrictAll(activities, allowed)) == Derive(base, activities)
  {
    hide RestrictAll, ExitOf, Cutoff, SumPoints, IsDsq, IsDns;
    FilterTellsSame(activities, allowed, base.bib, Cutoff(activities, base.bib));
  }

  /** An activity that passes the filter keeps its id, its deleted flag and its lap. */
  lemma FilterKeepsTheActivity(a: Activity, allowed: set<int>)
    requires Restrict(a, allowed).Some?
    ensures var k := Restrict(a, allowed).value;
      && k.id == a.id && k.isDeleted == a.isDeleted
      && match a
         case PointsSprint(_, _, lap, _) => k.PointsSprint? && k.lap == lap
         case PointsRemoval(_, _, lap, _) => k.PointsRemoval? && k.lap == lap
         case DnfActivity(_, _, lap, elimination, _) => k.DnfActivity? && k.lap == lap && k.elimination == elimination
         case _ => k == a
  {}

  predicate NamesAny(bibs: seq<int>, allowed: set<int>) {
    exists i :: 0 <= i < |bibs| && Passes(bibs[i], allowed)
  }

  predicate NamesOnly(bibs: seq<int>, allowed: set<int>) {
    forall i :: 0 <= i < |bibs| ==> Passes(bibs[i], allowed)
  }

  /** Except for plain DNFs, what is left names allowed bibs only, and an activity without any is dropped. */
  lemma FilterLeavesNoEmptyActivity(a: Activity, allowed: set<int>)
    requires !IsPlainDnf(a)
    ensures Restrict(a, allowed).Some? <==> NamesAny(ListedBibs(a), allowed)
    ensures Restrict(a, allowed).Some? ==>
      ListedBibs(Restrict(a, allowed).value) != [] && NamesOnly(ListedBibs(Restrict(a, allowed).value), allowed)
  {
    match a
    case PointsSprint(_, _, _, entries) =>
      hide NamesAny, NamesOnly, Passes;
      FilteredEntries(entries, allowed);
    case PointsRemoval(_, _, _, bibs) =>
      hide NamesAny, NamesOnly, Passes;
      FilteredBibs(bibs, allowed);
    case DnfActivity(_, _, _, _, bibs) =>
      hide NamesAny, NamesOnly, Passes;
      FilteredBibs(bibs, allowed);
    case Dsq(_, _, bib) => assert ListedBibs(a)[0] == bib;
    case Dns(_, _, bib) => assert ListedBibs(a)[0] == bib;
  }

  lemma FilteredBibs(bibs: seq<int>, allowed: set<int>)
    ensures var kept := Where(bibs, b => Passes(b, allowed));
      (kept != [] <==> NamesAny(bibs, allowed)) && NamesOnly(kept, allowed)
  {
    hide Passes;
    WhereMembers(bibs, b => Passes(b, allowed));
    var kept := Where(bibs, b => Passes(b, allowed));
    assert kept != [] ==> kept[0] in kept;
    if i :| 0 <= i < |bibs| && Passes(bibs[i], allowed) {
      assert bibs[i] in kept;
    }
    assert forall i :: 0 <= i < |kept| ==> kept[i] in kept;
  }

  lemma FilteredEntries(entries: seq<Entry>, allowed: set<int>)
    ensures var kept := Where(entries, (e: Entry) => Passes(e.bib, allowed));
      && (kept != [] <==> NamesAny(seq(|entries|, i requires 0 <= i < |entries| => entries[i].bib), allowed))
      && NamesOnly(seq(|kept|, i requires 0 <= i < |kept| => kept[i].bib), allowed)
  {
    hide Passes;
    WhereMembers(entries, (e: Entry) => Passes(e.bib, allowed));
    var kept := Where(entries, (e: Entry) => Passes(e.bib, allowed));
    var listed := seq(|entries|, i requires 0 <= i < |entries| => entries[i].bib);
    if kept != [] {
      assert kept[0] in kept;
      var i :| 0 <= i < |entries| && entries[i] == kept[0];
      assert Passes(listed[i], allowed);
    }
    if i :| 0 <= i < |listed| && Passes(listed[i], allowed) {
      assert entries[i] in kept;
    }
    assert forall i :: 0 <= i < |kept| ==> kept[i] in kept;
  }

  // ---- The riders who stay keep their rows ----

  predicate SameEntry(a: RaceResult, b: RaceResult) {
    a.bib == b.bib && a.finishTime == b.finishTime && a.finishRank == b.finishRank && a.lapsCompleted == b.lapsCompleted
  }

  lemma ManualIsTheEntry(a: RaceResult, b: RaceResult)
    requires Manual(a) == Manual(b)
    ensures SameEntry(a, b)
  {
    assert Manual(a).finishTime == a.finishTime && Manual(a).finishRank == a.finishRank && Manual(a).lapsCompleted == a.lapsCompleted && Manual(a).bib == a.bib;
    assert Manual(b).finishTime == b.finishTime && Manual(b).finishRank == b.finishRank && Manual(b).lapsCompleted == b.lapsCompleted && Manual(b).bib == b.bib;
  }

  predicate HasRowOf(rows: seq<RaceResult>, bib: int) {
    exists i :: 0 <= i < |rows| && rows[i].bib == bib
  }

  lemma {:induction false} FirstRowSnoc(rows: seq<RaceResult>, r: RaceResult, bib: int)
    ensures FirstRow(rows + [r], bib) == if HasRowOf(rows, bib) then FirstRow(rows, bib) else if r.bib == bib then r else MakeDefault(bib)
    decreases |rows|
  {
    hide MakeDefault;
    if rows != [] {
      assert (rows + [r])[1..] == rows[1..] + [r];
      FirstRowSnoc(rows[1..], r, bib);
      assert HasRowOf(rows, bib) <==> rows[0].bib == bib || HasRowOf(rows[1..], bib) by {
        assert forall i :: 0 < i < |rows| ==> rows[i] == rows[1..][i - 1];
      }
    } else {
      assert rows + [r] == [r] && [r][1..] == [];
    }
  }

  lemma KeptHasRow(rows: seq<RaceResult>, allowed: set<int>, bib: int)
    requires bib > 0 && bib in allowed
    ensures HasRowOf(Where(rows, (r: RaceResult) => Passes(r.bib, allowed)), bib) <==> HasRowOf(rows, bib)
  {
    var kept := Where(rows, (r: RaceResult) => Passes(r.bib, allowed));
    WhereMembers(rows, (r: RaceResult) => Passes(r.bib, allowed));
    if i :| 0 <= i < |rows| && rows[i].bib == bib {
      assert rows[i] in kept;
    }
    if i :| 0 <= i < |kept| && kept[i].bib == bib {
      assert kept[i] in rows;
    }
  }

  lemma {:induction false} KeptRow(rows: seq<RaceResult>, allowed: set<int>, bib: int)
    requires bib > 0 && bib in allowed
    ensures FirstRow(Where(rows, (r: RaceResult) => Passes(r.bib, allowed)), bib) == FirstRow(rows, bib)
    decreases |rows|
  {
    if rows != [] {
      hide FirstRow, HasRowOf, MakeDefault;
      var front, last := rows[..|rows| - 1], rows[|rows| - 1];
      var keep := (r: RaceResult) => Passes(r.bib, allowed);
      KeptRow(front, allowed, bib);
      KeptHasRow(front, allowed, bib);
      assert rows == front + [last];
      FirstRowSnoc(front, last, bib);
      if keep(last) {
        FirstRowSnoc(Where(front, keep), last, bib);
      } else {
        assert Where(front, keep) + [] == Where(front, keep);
        NoRowOf(front, bib);
      }
    }
  }

  lemma NoRowOf(rows: seq<RaceResult>, bib: int)
    ensures !HasRowOf(rows, bib) ==> FirstRow(rows, bib) == MakeDefault(bib)
  {
    FirstRowFound(rows, bib);
  }

  lemma {:induction false} KeptOrder(rows: seq<RaceResult>, allowed: set<int>)
    ensures PositiveBibs(Where(rows, (r: RaceResult) => Passes(r.bib, allowed))) == Where(PositiveBibs(rows), b => b in allowed)
    decreases |rows|
  {
    if rows != [] {
      var front, last := rows[..|rows| - 1], rows[|rows| - 1];
      var kept := Where(front, (r: RaceResult) => Passes(r.bib, allowed));
      KeptOrder(front, allowed);
      assert (kept + [last])[..|kept|] == kept && kept + [] == kept;
      WhereSnoc(PositiveBibs(front), last.bib, b => b in allowed);
      assert PositiveBibs(front) + [] == PositiveBibs(front);
      assert Where(PositiveBibs(front), b => b in allowed) + [] == Where(PositiveBibs(front), b => b in allowed);
    }
  }

  /**
   * Replacing the starters: every starter's stored row, with its entries, its points and its status
   * as before, keeps everything but its rank; stored bibs that stay keep their order in front of new ones.
   */
  lemma ReplacingStartersKeepsRows(race: Race, next: seq<Athlete>, b: int)
    requires b in StarterBibs(next)
    ensures var after := ReplaceStartersInRace(race, next);
      && after.starters == next && b in RowBibs(after.results)
      && Unranked(FirstRow(after.results, b)) == Unranked(Derive(FirstRow(race.results, b), race.activities))
      && SameEntry(FirstRow(after.results, b), FirstRow(race.results, b))
      && Where(PositiveBibs(race.results), x => x in StarterBibs(next)) <= PositiveBibs(after.results)
      && (Settled(race) && b in RowBibs(race.results) ==> Unranked(FirstRow(after.results, b)) == Unranked(FirstRow(race.results, b)))
  {
    var allowed := StarterBibs(next);
    var activities := RestrictAll(race.activities, allowed);
    var kept := Where(race.results, (r: RaceResult) => Passes(r.bib, allowed));
    assert b > 0 && b in KnownBibs(next, activities);
    hide Materialize, RestrictAll, StarterBibs, Mentioned, Derive, RowBibs, TieClass, Ahead, FirstRow, Manual, Apply, SameEntry;
    KeptRow(race.results, allowed, b);
    KeptOrder(race.results, allowed);
    FirstRowBib(race.results, b);
    MaterializedLookup(kept, next, activities, b);
    MaterializedBibs(kept, next, activities);
    FilterKeepsDerivation(FirstRow(race.results, b), race.activities, allowed);
    ManualIsTheEntry(FirstRow(ReplaceStartersInRace(race, next).results, b), FirstRow(race.results, b));
    if Settled(race) && b in RowBibs(race.results) {
      MaterializedLookup(race.results, race.starters, race.activities, b);
    }
  }

  /** A bib without a starter comes back, if a plain DNF names it, with nothing entered for it. */
  lemma LeavingRidersLoseTheirEntries(race: Race, next: seq<Athlete>, b: int)
    requires b > 0 && b !in StarterBibs(next)
    ensures SameEntry(FirstRow(ReplaceStartersInRace(race, next).results, b), RaceResult(b, 0, 0, NotDnf, 0, false, false, 0, "", 0))
  {
    var allowed := StarterBibs(next);
    var activities := RestrictAll(race.activities, allowed);
    var kept := Where(race.results, (r: RaceResult) => Passes(r.bib, allowed));
    WhereMembers(race.results, (r: RaceResult) => Passes(r.bib, allowed));
    forall i | 0 <= i < |kept| ensures kept[i].bib != b {
      assert kept[i] in kept;
    }
    NoRowOf(kept, b);
    hide Materialize, RestrictAll, StarterBibs, Mentioned, FirstRow, Manual, SameEntry, RowFor, HasRowOf;
    MaterializedLookup(kept, next, activities, b);
    ManualIsTheEntry(FirstRow(ReplaceStartersInRace(race, next).results, b), MakeDefault(b));
  }

  // ---- Every action ----

  /** The actions that bring results of their own or new starters. */
  predicate KeepsRiders(action: Action) {
    !(action.SetManual? || action.ReplaceStarters? || action.RemoveStarter? || action.InsertStarters?)
  }

  lemma MaterializingKeepsEntries(results: seq<RaceResult>, starters: seq<Athlete>, activities: seq<Activity>, b: int)
    requires b > 0
    ensures SameEntry(FirstRow(Materialize(results, starters, activities), b), FirstRow(results, b))
  {
    hide Materialize, FirstRow, Manual, RowFor, SameEntry;
    MaterializedLookup(results, starters, activities, b);
    ManualIsTheEntry(FirstRow(Materialize(results, starters, activities), b), FirstRow(results, b));
  }

  /** Finish times, finish ranks and laps survive every action, for everyone it does not remove from the race. */
  lemma ActionsKeepEntries(race: Race, action: Action, b: int)
    requires !action.SetManual? && b > 0
    requires KeepsRiders(action) || Do(race, action) == race || b in StarterBibs(Do(race, action).starters)
    ensures SameEntry(FirstRow(Do(race, action).results, b), FirstRow(race.results, b))
  {
    var after := Do(race, action);
    hide Materialize, FirstRow, StarterBibs, Where, NewStarters, RestrictAll;
    if after != race {
      if KeepsRiders(action) {
        MaterializingKeepsEntries(race.results, race.starters, after.activities, b);
      } else {
        ReplacingStartersKeepsRows(race, after.starters, b);
      }
    }
  }

  /** Entered results replace the stored entries: what was entered for a bib is what it has then. */
  lemma EnteredResultsAreTaken(race: Race, results: seq<RaceResult>, b: int)
    requires b > 0
    ensures var after := Do(race, SetManual(results));
      && after.starters == race.starters && after.activities == race.activities
      && SameEntry(FirstRow(after.results, b), FirstRow(results, b))
      && RowBibs(after.results) == RowBibs(results) + StarterBibs(race.starters) + Mentioned(race.activities)
  {
    hide Materialize, FirstRow, RowBibs, StarterBibs, Mentioned, BibOrder;
    MaterializingKeepsEntries(results, race.starters, race.activities, b);
    MaterializedBibs(results, race.starters, race.activities);
  }

  /** Which activities a race has after an action that is about activities. */
  lemma ActivitiesAfter(race: Race, action: Action, i: nat)
    requires KeepsRiders(action)
    requires action.UpdateActivity? ==> i < |race.activities|
    ensures var after := Do(race, action);
      && after.starters == race.starters
      && match action
         case AddActivity(a) => after.activities == race.activities + [a]
         case AddActivities(added) => after.activities == race.activities + added
         case ReplaceActivities(next) => after.activities == next
         case UpdateActivity(updated) =>
           && |after.activities| == |race.activities|
           && after.activities[i] ==
                if race.activities[i].id == updated.id && forall j :: 0 <= j < i ==> race.activities[j].id != updated.id
                then updated else race.activities[i]
         case _ => after.activities == race.activities
  {
    hide Materialize;
  }

  /** Removing a starter takes everyone with that id off the list and nobody else; without one nothing happens. */
  lemma RemovedStarterIsGone(race: Race, id: string, s: Athlete)
    ensures s in Do(race, RemoveStarter(id)).starters <==> s in race.starters && s.id != id
    ensures (forall x :: x in race.starters ==> x.id != id) ==> Do(race, RemoveStarter(id)) == race
  {
    hide ReplaceStartersInRace;
    var keep := (x: Athlete) => x.id != id;
    WhereMembers(race.starters, keep);
    WhereAll(race.starters, keep);
    assert ReplaceStartersInRace(race, Where(race.starters, keep)).starters == Where(race.starters, keep) by {
      StartersAre(race, Where(race.starters, keep));
    }
  }

  lemma StartersAre(race: Race, next: seq<Athlete>)
    ensures ReplaceStartersInRace(race, next).starters == next
  {}

  lemma {:induction false} WhereAll<T>(s: seq<T>, keep: T -> bool)
    ensures |Where(s, keep)| <= |s|
    ensures |Where(s, keep)| == |s| <==> forall x :: x in s ==> keep(x)
    decreases |s|
  {
    if |s| > 0 {
      var front, last := s[..|s| - 1], s[|s| - 1];
      assert s == front + [last];
      WhereAll(front, keep);
    }
  }

  /** Inserting keeps the known starters in front; of several incoming ones with one bib the first is taken. */
  lemma InsertedBehindTheKnown(race: Race, incoming: seq<Athlete>)
    ensures Do(race, InsertStarters(incoming)).starters == race.starters + NewStarters(race.starters, incoming)
  {
    StartersAre(race, race.starters + NewStarters(race.starters, incoming));
    hide ReplaceStartersInRace, NewStarters;
    assert race.starters + [] == race.starters;
  }

  predicate FirstOfItsBib(starters: seq<Athlete>, k: nat) {
    k < |starters| && forall j :: 0 <= j < k ==> starters[j].bib != starters[k].bib
  }

  lemma {:induction false} InsertedIsTheFirst(base: seq<Athlete>, incoming: seq<Athlete>, i: nat)
    requires i < |NewStarters(base, incoming)|
    ensures exists k: nat :: k < |incoming| && FirstOfItsBib(incoming, k) && incoming[k] == NewStarters(base, incoming)[i]
    decreases |incoming|
  {
    hide StarterBibs, FirstOfItsBib;
    var n := |incoming| - 1;
    var rest := NewStarters(base, incoming[..n]);
    if i < |rest| {
      InsertedIsTheFirst(base, incoming[..n], i);
      var k: nat :| k < n && FirstOfItsBib(incoming[..n], k) && incoming[..n][k] == rest[i];
      FirstInFront(incoming, k);
    } else {
      InsertedBibs(base, incoming[..n]);
      NewBibIsFirst(base, rest, incoming);
    }
  }

  lemma FirstInFront(incoming: seq<Athlete>, k: nat)
    requires incoming != [] && FirstOfItsBib(incoming[..|incoming| - 1], k)
    ensures FirstOfItsBib(incoming, k) && incoming[k] == incoming[..|incoming| - 1][k]
  {}

  lemma NewBibIsFirst(base: seq<Athlete>, rest: seq<Athlete>, incoming: seq<Athlete>)
    requires incoming != []
    requires StarterBibs(base + rest) == StarterBibs(base) + StarterBibs(incoming[..|incoming| - 1])
    requires var last := incoming[|incoming| - 1];
      last.bib.Some? && last.bib.value > 0 && last.bib.value !in StarterBibs(base + rest)
    ensures FirstOfItsBib(incoming, |incoming| - 1)
  {
    hide StarterBibs;
    var front := incoming[..|incoming| - 1];
    forall j | 0 <= j < |front| ensures incoming[j].bib != incoming[|incoming| - 1].bib {
      HasStarterBib(front, j);
    }
  }

  lemma HasStarterBib(starters: seq<Athlete>, j: nat)
    requires j < |starters|
    ensures starters[j].bib.Some? && starters[j].bib.value > 0 ==> starters[j].bib.value in StarterBibs(starters)
  {
    assert starters[j] in starters;
  }

  /** From any race, settled or not, an action that recalculates leaves settled results. */
  lemma ActionsSettleAnyRace(race: Race, action: Action)
    requires match action
      case AddActivity(_) | ReplaceActivities(_) | SetManual(_) | Recalculate | ReplaceStarters(_) => true
      case _ => Do(race, action) != race
    ensures Settled(Do(race, action))
  {
    hide Materialize, Where, RestrictAll, NewStarters, IndexOf, StarterBibs;
    if Do(race, action) != race {
      SettledByMaterializing(race, action);
    } else {
      var kept := Where(race.results, (r: RaceResult) => Passes(r.bib, StarterBibs(race.starters)));
      MaterializeIsIdempotent(if action.SetManual? then action.results else if action.ReplaceStarters? then kept else race.results,
                              race.starters, race.activities);
    }
  }
}
