/**
 * The loops behind the race results: bib collection, the per-bib tallies built in one pass over
 * the activities, and the derived list. Each is proved against the definitions in RaceResults.
 */
module RaceLoops {
  import opened Sequences
  import opened RaceResults
  import opened RaceRanking
  import opened RaceMaterialize

  datatype LapPoints = LapPoints(lap: nat, points: int)

  function GetOr<T>(m: map<int, T>, bib: int, default: T): T {
    if bib in m then m[bib] else default
  }

  // ---- Bibs ----

  method AddBibs(known: seq<int>, rows: seq<int>) returns (bibs: seq<int>)
    requires NoRepeats(known)
    ensures NoRepeats(bibs)
    ensures forall b :: b in bibs <==> b in known || (b > 0 && b in rows)
  {
    bibs := known;
    for i := 0 to |rows|
      invariant NoRepeats(bibs)
      invariant forall b :: b in bibs <==> b in known || (b > 0 && b in rows[..i])
    {
      if rows[i] > 0 && rows[i] !in bibs {
        bibs := bibs + [rows[i]];
      }
    }
  }

  method CollectBibs(prev: seq<RaceResult>, starters: seq<Athlete>, activities: seq<Activity>) returns (bibs: seq<int>)
    ensures NoRepeats(bibs)
    ensures forall b :: b in bibs <==> b in RowBibs(prev) + KnownBibs(starters, activities)
  {
    hide Mentions, ListedBibs;
    bibs := [];
    for i := 0 to |prev|
      invariant NoRepeats(bibs)
      invariant forall b :: b in bibs <==> b in RowBibs(prev[..i])
    {
      bibs := AddBibs(bibs, [prev[i].bib]);
      assert prev[..i + 1] == prev[..i] + [prev[i]];
    }
    assert prev[..|prev|] == prev;
    for i := 0 to |starters|
      invariant NoRepeats(bibs)
      invariant forall b :: b in bibs <==> b in RowBibs(prev) + StarterBibs(starters[..i])
    {
      if starters[i].bib.Some? {
        bibs := AddBibs(bibs, [starters[i].bib.value]);
      }
      assert starters[..i + 1] == starters[..i] + [starters[i]];
    }
    assert starters[..|starters|] == starters;
    for i := 0 to |activities|
      invariant NoRepeats(bibs)
      invariant forall b :: b in bibs <==> b in RowBibs(prev) + StarterBibs(starters) + Mentioned(activities[..i])
    {
      bibs := AddBibs(bibs, ListedBibs(activities[i]));
      ListedAreMentioned(activities[i]);
      assert activities[..i + 1] == activities[..i] + [activities[i]];
      MentionedSnoc(activities[..i], activities[i]);
    }
    assert activities[..|activities|] == activities;
  }

  lemma {:induction false} FirstRowSnoc(rows: seq<RaceResult>, r: RaceResult, bib: int)
    ensures FirstRow(rows + [r], bib) ==
      if exists i :: 0 <= i < |rows| && rows[i].bib == bib then FirstRow(rows, bib)
      else if r.bib == bib then r else MakeDefault(bib)
    decreases |rows|
  {
    if rows == [] {
      assert (rows + [r])[1..] == [];
    } else {
      assert (rows + [r])[1..] == rows[1..] + [r];
      FirstRowSnoc(rows[1..], r, bib);
    }
  }

  method FirstRows(prev: seq<RaceResult>) returns (byBib: map<int, RaceResult>)
    ensures forall b :: b in byBib <==> b in RowBibs(prev)
    ensures forall b :: b in byBib ==> byBib[b] == FirstRow(prev, b)
  {
    hide FirstRow;
    byBib := map[];
    for i := 0 to |prev|
      invariant forall b :: b in byBib <==> b in RowBibs(prev[..i])
      invariant forall b :: b in byBib ==> byBib[b] == FirstRow(prev[..i], b)
    {
      var r := prev[i];
      ghost var before := byBib;
      if r.bib > 0 && r.bib !in byBib {
        byBib := byBib[r.bib := r];
      }
      assert prev[..i + 1] == prev[..i] + [r];
      forall b | b in byBib ensures byBib[b] == FirstRow(prev[..i + 1], b) {
        FirstRowSnoc(prev[..i], r, b);
        assert b in before <==> b > 0 && exists k :: 0 <= k < i && prev[..i][k].bib == b;
      }
    }
    assert prev[..|prev|] == prev;
  }

  // ---- Tallies ----

  /** The maps and sets the source fills in its pass over the activities. */
  datatype Tally = Tally(
    sprints: map<int, seq<LapPoints>>,
    cutoffs: map<int, nat>,
    exits: map<int, Exit>,
    dsq: set<int>,
    dns: set<int>)

  function EntriesFrom(entries: seq<Entry>, lap: nat, bib: int): seq<LapPoints>
    decreases |entries|
  {
    if entries == [] then []
    else
      var last := entries[|entries| - 1];
      EntriesFrom(entries[..|entries| - 1], lap, bib) + if last.bib == bib then [LapPoints(lap, last.points)] else []
  }

  function SprintEntries(a: Activity, bib: int): seq<LapPoints> {
    if a.PointsSprint? && !a.isDeleted then EntriesFrom(a.entries, LapOf(a.lap), bib) else []
  }

  function AllEntries(activities: seq<Activity>, bib: int): seq<LapPoints>
    decreases |activities|
  {
    if activities == [] then []
    else AllEntries(activities[..|activities| - 1], bib) + SprintEntries(activities[|activities| - 1], bib)
  }

  ghost predicate TalliedBib(t: Tally, activities: seq<Activity>, bib: int) {
    && GetOr(t.sprints, bib, []) == AllEntries(activities, bib)
    && GetOr(t.cutoffs, bib, 0) == Cutoff(activities, bib)
    && GetOr(t.exits, bib, StillIn) == ExitOf(activities, bib)
    && (bib in t.dsq <==> IsDsq(activities, bib))
    && (bib in t.dns <==> IsDns(activities, bib))
  }

  ghost predicate Tallied(t: Tally, activities: seq<Activity>) {
    forall b :: b > 0 ==> TalliedBib(t, activities, b)
  }

  method TallySprint(sprints: map<int, seq<LapPoints>>, entries: seq<Entry>, lap: nat) returns (out: map<int, seq<LapPoints>>)
    ensures forall b :: b > 0 ==> GetOr(out, b, []) == GetOr(sprints, b, []) + EntriesFrom(entries, lap, b)
  {
    out := sprints;
    for i := 0 to |entries|
      invariant forall b :: b > 0 ==> GetOr(out, b, []) == GetOr(sprints, b, []) + EntriesFrom(entries[..i], lap, b)
    {
      var e := entries[i];
      assert entries[..i + 1][..i] == entries[..i];
      if e.bib > 0 {
        out := out[e.bib := GetOr(out, e.bib, []) + [LapPoints(lap, e.points)]];
      }
    }
    assert entries[..|entries|] == entries;
  }

  method TallyRemoval(cutoffs: map<int, nat>, bibs: seq<int>, lap: nat) returns (out: map<int, nat>)
    ensures forall b :: b > 0 ==>
      GetOr(out, b, 0) == if b in bibs && lap > GetOr(cutoffs, b, 0) then lap else GetOr(cutoffs, b, 0)
  {
    out := cutoffs;
    for i := 0 to |bibs|
      invariant forall b :: b > 0 ==>
        GetOr(out, b, 0) == if b in bibs[..i] && lap > GetOr(cutoffs, b, 0) then lap else GetOr(cutoffs, b, 0)
    {
      if bibs[i] > 0 && lap > GetOr(out, bibs[i], 0) {
        out := out[bibs[i] := lap];
      }
    }
  }

  method TallyExit(exits: map<int, Exit>, bibs: seq<int>, lap: nat, elimination: bool) returns (out: map<int, Exit>)
    ensures forall b :: b > 0 ==>
      GetOr(out, b, StillIn) == MaxExit(GetOr(exits, b, StillIn), if b in bibs then Out(lap, elimination) else StillIn)
  {
    out := exits;
    for i := 0 to |bibs|
      invariant forall b :: b > 0 ==>
        GetOr(out, b, StillIn) == MaxExit(GetOr(exits, b, StillIn), if b in bibs[..i] then Out(lap, elimination) else StillIn)
    {
      if bibs[i] > 0 && LaterExit(GetOr(out, bibs[i], StillIn), Out(lap, elimination)) {
        out := out[bibs[i] := Out(lap, elimination)];
      }
    }
  }

  method TallyActivity(t: Tally, a: Activity) returns (out: Tally)
    ensures forall b :: b > 0 ==>
      && GetOr(out.sprints, b, []) == GetOr(t.sprints, b, []) + SprintEntries(a, b)
      && GetOr(out.cutoffs, b, 0) == (if RemovalLap(a, b) > GetOr(t.cutoffs, b, 0) then RemovalLap(a, b) else GetOr(t.cutoffs, b, 0))
      && GetOr(out.exits, b, StillIn) == MaxExit(GetOr(t.exits, b, StillIn), ExitIn(a, b))
      && (b in out.dsq <==> b in t.dsq || Disqualifies(a, b))
      && (b in out.dns <==> b in t.dns || NotStarting(a, b))
  {
    hide EntriesFrom;
    out := t;
    if a.isDeleted {
      return;
    }
    match a {
      case PointsSprint(_, _, lap, entries) =>
        var sprints := TallySprint(t.sprints, entries, LapOf(lap));
        out := t.(sprints := sprints);
      case PointsRemoval(_, _, lap, bibs) =>
        var cutoffs := TallyRemoval(t.cutoffs, bibs, LapOf(lap));
        out := t.(cutoffs := cutoffs);
      case DnfActivity(_, _, lap, elimination, bibs) =>
        var exits := TallyExit(t.exits, bibs, LapOf(lap), elimination);
        out := t.(exits := exits);
      case Dsq(_, _, bib) =>
        if bib > 0 {
          out := t.(dsq := t.dsq + {bib});
        }
      case Dns(_, _, bib) =>
        if bib > 0 {
          out := t.(dns := t.dns + {bib});
        }
    }
  }

  lemma TalliedSnoc(t: Tally, out: Tally, activities: seq<Activity>, a: Activity, b: int)
    requires TalliedBib(t, activities, b)
    requires
      && GetOr(out.sprints, b, []) == GetOr(t.sprints, b, []) + SprintEntries(a, b)
      && GetOr(out.cutoffs, b, 0) == (if RemovalLap(a, b) > GetOr(t.cutoffs, b, 0) then RemovalLap(a, b) else GetOr(t.cutoffs, b, 0))
      && GetOr(out.exits, b, StillIn) == MaxExit(GetOr(t.exits, b, StillIn), ExitIn(a, b))
      && (b in out.dsq <==> b in t.dsq || Disqualifies(a, b))
      && (b in out.dns <==> b in t.dns || NotStarting(a, b))
    ensures TalliedBib(out, activities + [a], b)
  {
    hide GetOr, SprintEntries, RemovalLap, ExitIn, Disqualifies, NotStarting, MaxExit;
    var all := activities + [a];
    assert all[..|all| - 1] == activities;
    assert forall x :: x in all <==> x in activities || x == a;
  }

  method TallyActivities(activities: seq<Activity>) returns (t: Tally)
    ensures Tallied(t, activities)
  {
    hide TalliedBib, SprintEntries, RemovalLap, ExitIn, Disqualifies, NotStarting, MaxExit, GetOr;
    t := Tally(map[], map[], map[], {}, {});
    forall b | b > 0 ensures TalliedBib(t, [], b) {
      NothingTallied(b);
    }
    for i := 0 to |activities|
      invariant Tallied(t, activities[..i])
    {
      var next := TallyActivity(t, activities[i]);
      forall b | b > 0 ensures TalliedBib(next, activities[..i] + [activities[i]], b) {
        TalliedSnoc(t, next, activities[..i], activities[i], b);
      }
      assert activities[..i + 1] == activities[..i] + [activities[i]];
      t := next;
    }
    assert activities[..|activities|] == activities;
  }

  lemma NothingTallied(b: int)
    ensures TalliedBib(Tally(map[], map[], map[], {}, {}), [], b)
  {}

  // ---- Points ----

  function SumAfter(entries: seq<LapPoints>, cutoff: nat): int
    decreases |entries|
  {
    if entries == [] then 0
    else
      var last := entries[|entries| - 1];
      SumAfter(entries[..|entries| - 1], cutoff) + if last.lap > cutoff then last.points else 0
  }

  /** Sums per bib, 0 for bibs that only had removals, and 0 again for a DNF on a lap above 0. */
  function PointsByBib(t: Tally): map<int, int> {
    var sums := map b | b in t.sprints :: SumAfter(t.sprints[b], GetOr(t.cutoffs, b, 0));
    var removed := map b | b in t.cutoffs :: 0;
    var out := map b | b in t.exits && t.exits[b].Out? && t.exits[b].lap > 0 :: 0;
    removed + sums + out
  }

  lemma {:induction false} SumAfterAppend(p: seq<LapPoints>, q: seq<LapPoints>, cutoff: nat)
    ensures SumAfter(p + q, cutoff) == SumAfter(p, cutoff) + SumAfter(q, cutoff)
    decreases |q|
  {
    if q == [] {
      assert p + q == p;
    } else {
      assert (p + q)[..|p + q| - 1] == p + q[..|q| - 1];
      SumAfterAppend(p, q[..|q| - 1], cutoff);
    }
  }

  lemma {:induction false} SumOfEntries(entries: seq<Entry>, lap: nat, bib: int, cutoff: nat)
    ensures SumAfter(EntriesFrom(entries, lap, bib), cutoff) == if lap > cutoff then SumFor(entries, bib) else 0
    decreases |entries|
  {
    if entries != [] {
      var front := entries[..|entries| - 1];
      SumOfEntries(front, lap, bib, cutoff);
      SumAfterAppend(EntriesFrom(front, lap, bib), [LapPoints(lap, entries[|entries| - 1].points)], cutoff);
      assert EntriesFrom(front, lap, bib) + [] == EntriesFrom(front, lap, bib);
    }
  }

  /** Filtering the collected entries and adding them up is the sum over all sprints. */
  lemma {:induction false} SumOfAllEntries(activities: seq<Activity>, bib: int, cutoff: nat)
    ensures SumAfter(AllEntries(activities, bib), cutoff) == SumPoints(activities, bib, cutoff)
    decreases |activities|
  {
    hide SumAfter, EntriesFrom, SumFor;
    SumAfterNothing(cutoff);
    if activities != [] {
      var front, last := activities[..|activities| - 1], activities[|activities| - 1];
      SumOfAllEntries(front, bib, cutoff);
      SumAfterAppend(AllEntries(front, bib), SprintEntries(last, bib), cutoff);
      if last.PointsSprint? && !last.isDeleted {
        SumOfEntries(last.entries, LapOf(last.lap), bib, cutoff);
      }
    }
  }

  lemma PointsByBibSpec(t: Tally, activities: seq<Activity>, bib: int)
    requires TalliedBib(t, activities, bib)
    ensures GetOr(PointsByBib(t), bib, 0) == PointsOf(activities, bib)
  {
    hide SumAfter, AllEntries, SumPoints, Cutoff, ExitOf, IsDsq, IsDns;
    SumOfAllEntries(activities, bib, Cutoff(activities, bib));
    SumAfterNothing(GetOr(t.cutoffs, bib, 0));
  }

  lemma SumAfterNothing(cutoff: nat)
    ensures SumAfter([], cutoff) == 0
  {}

  // ---- The derived list ----

  function ApplyDerived(base: RaceResult, points: map<int, int>, t: Tally): RaceResult {
    var exit := GetOr(t.exits, base.bib, StillIn);
    base.(points := GetOr(points, base.bib, 0),
          dnf := if exit.StillIn? then NotDnf else if exit.elimination then Elimination else PlainDnf,
          dnfLap := if exit.StillIn? then 0 else exit.lap,
          dsq := base.bib in t.dsq,
          dns := base.bib in t.dns)
  }

  lemma ApplyDerivedSpec(base: RaceResult, t: Tally, activities: seq<Activity>)
    requires TalliedBib(t, activities, base.bib)
    ensures ApplyDerived(base, PointsByBib(t), t) == Derive(base, activities)
  {
    hide PointsByBib, PointsOf, AllEntries, Cutoff, ExitOf, IsDsq, IsDns;
    PointsByBibSpec(t, activities, base.bib);
  }

  method SortBibs(bibs: seq<int>) returns (sorted: seq<int>)
    requires NoRepeats(bibs)
    ensures sorted == Sorted(set b | b in bibs)
  {
    sorted := [];
    for i := 0 to |bibs|
      invariant Ascending(sorted)
      invariant forall b :: b in sorted <==> b in bibs[..i]
    {
      assert bibs[i] !in bibs[..i];
      InsertBibSpec(bibs[i], sorted);
      sorted := InsertBib(bibs[i], sorted);
    }
    assert bibs[..|bibs|] == bibs;
    assert Elements(sorted) == set b | b in bibs;
    SortedUnique(sorted, Sorted(set b | b in bibs));
  }

  method MissingBibs(bibs: seq<int>, used: set<int>) returns (missing: seq<int>)
    requires NoRepeats(bibs)
    ensures missing == Sorted((set b | b in bibs) - used)
  {
    var unused: seq<int> := [];
    for i := 0 to |bibs|
      invariant NoRepeats(unused)
      invariant forall b :: b in unused <==> b in bibs[..i] && b !in used
    {
      if bibs[i] !in used {
        assert bibs[i] !in bibs[..i];
        unused := unused + [bibs[i]];
      }
    }
    assert bibs[..|bibs|] == bibs;
    missing := SortBibs(unused);
    assert (set b | b in unused) == (set b | b in bibs) - used;
  }

  method FillDefaults(byBib: map<int, RaceResult>, bibs: seq<int>) returns (out: map<int, RaceResult>)
    ensures forall b :: b in out <==> b in byBib || b in bibs
    ensures forall b :: b in out ==> out[b] == if b in byBib then byBib[b] else MakeDefault(b)
  {
    out := byBib;
    for i := 0 to |bibs|
      invariant forall b :: b in out <==> b in byBib || b in bibs[..i]
      invariant forall b :: b in out ==> out[b] == if b in byBib then byBib[b] else MakeDefault(b)
    {
      if bibs[i] !in out {
        out := out[bibs[i] := MakeDefault(bibs[i])];
      }
    }
  }

  /** Every bib of the race has its base row: the first stored one, or a default. */
  method BaseRows(prev: seq<RaceResult>, bibs: seq<int>) returns (byBib: map<int, RaceResult>)
    requires forall b :: b in RowBibs(prev) ==> b in bibs
    requires forall b :: b in bibs ==> b > 0
    ensures forall b :: b in byBib <==> b in bibs
    ensures forall b :: b in byBib ==> byBib[b] == FirstRow(prev, b) && byBib[b].bib == b
  {
    var first := FirstRows(prev);
    byBib := FillDefaults(first, bibs);
    forall b | b in byBib ensures byBib[b] == FirstRow(prev, b) && byBib[b].bib == b {
      FirstRowBib(prev, b);
      if b !in first {
        FirstRowFound(prev, b);
        assert forall i :: 0 <= i < |prev| ==> prev[i] in prev;
      }
    }
  }

  /** `byBib` holds the base row of every bib of `bibs`. */
  ghost predicate HoldsBases(byBib: map<int, RaceResult>, prev: seq<RaceResult>, bibs: seq<int>) {
    forall i :: 0 <= i < |bibs| ==>
      bibs[i] > 0 && bibs[i] in byBib && byBib[bibs[i]] == FirstRow(prev, bibs[i]) && byBib[bibs[i]].bib == bibs[i]
  }

  /** Appends the derived rows of `order` behind those of `before`. */
  method PushDerived(next0: seq<RaceResult>, ghost before: seq<int>, order: seq<int>, byBib: map<int, RaceResult>, t: Tally,
                     ghost prev: seq<RaceResult>, ghost activities: seq<Activity>)
    returns (next: seq<RaceResult>)
    requires HoldsBases(byBib, prev, order) && Tallied(t, activities)
    requires next0 == DeriveAll(prev, before, activities)
    ensures next == DeriveAll(prev, before + order, activities)
  {
    hide FirstRow, Derive, ApplyDerived, PointsByBib, TalliedBib;
    var points := PointsByBib(t);
    next := next0;
    assert before + order[..0] == before;
    for i := 0 to |order|
      invariant next == DeriveAll(prev, before + order[..i], activities)
    {
      ApplyDerivedSpec(byBib[order[i]], t, activities);
      next := next + [ApplyDerived(byBib[order[i]], points, t)];
      assert before + order[..i + 1] == before + order[..i] + [order[i]];
    }
    assert order[..|order|] == order;
  }

  /** The bibs of the stored rows, in their order. */
  method KeptBibs(prev: seq<RaceResult>) returns (used: seq<int>)
    ensures used == PositiveBibs(prev)
  {
    used := [];
    for i := 0 to |prev|
      invariant used == PositiveBibs(prev[..i])
    {
      assert prev[..i + 1][..i] == prev[..i];
      if prev[i].bib > 0 {
        used := used + [prev[i].bib];
      }
    }
    assert prev[..|prev|] == prev;
  }

  method ApplyActivitiesToRaceResults(prev: seq<RaceResult>, starters: seq<Athlete>, activities: seq<Activity>)
    returns (next: seq<RaceResult>)
    ensures next == Apply(prev, starters, activities)
  {
    hide RowBibs, KnownBibs, FirstRow, Derive, TalliedBib, PositiveBibs;
    var bibs := CollectBibs(prev, starters, activities);
    KnownArePositive(starters, activities);
    PositiveBibsSpec(prev);
    RowBibsArePositive(prev);
    var byBib := BaseRows(prev, bibs);
    var t := TallyActivities(activities);
    var used := KeptBibs(prev);
    assert forall i :: 0 <= i < |used| ==> used[i] in used;
    next := PushDerived([], [], used, byBib, t, prev, activities);
    assert [] + used == used;
    var missing := MissingBibs(bibs, set b | b in used);
    MissingAre(bibs, used, RowBibs(prev), KnownBibs(starters, activities));
    forall i | 0 <= i < |missing| ensures missing[i] in bibs {
      assert missing[i] in Elements(missing);
    }
    next := PushDerived(next, used, missing, byBib, t, prev, activities);
  }

  lemma MissingAre(bibs: seq<int>, used: seq<int>, rows: set<int>, known: set<int>)
    requires forall b :: b in bibs <==> b in rows + known
    requires forall b :: b in used <==> b in rows
    ensures (set b | b in bibs) - (set b | b in used) == known - rows
  {
    SameElements(bibs, rows + known);
    SameElements(used, rows);
  }

  lemma RowBibsArePositive(prev: seq<RaceResult>)
    ensures forall b :: b in RowBibs(prev) ==> b > 0
  {}

  method MaterializeRaceResults(prev: seq<RaceResult>, starters: seq<Athlete>, activities: seq<Activity>)
    returns (next: seq<RaceResult>)
    ensures next == Materialize(prev, starters, activities)
  {
    var derived := ApplyActivitiesToRaceResults(prev, starters, activities);
    next := RecomputeRaceResults(derived);
  }
}
