/**
 * Deriving race results from activities: points with removal cutoffs, DNF and elimination,
 * disqualification and non-starts, for every bib that is mentioned anywhere.
 */
module RaceResults {
  import opened Sequences
  import opened Wrappers

  datatype Dnf = NotDnf | PlainDnf | Elimination

  datatype RaceResult = RaceResult(
    bib: int,
    rank: int,
    points: int,
    dnf: Dnf,
    dnfLap: int,
    dns: bool,
    dsq: bool,
    lapsCompleted: int,
    finishTime: string,
    finishRank: int)

  datatype Entry = Entry(bib: int, points: int)

  datatype Activity =
    | PointsSprint(id: string, isDeleted: bool, lap: int, entries: seq<Entry>)
    | PointsRemoval(id: string, isDeleted: bool, lap: int, bibs: seq<int>)
    | DnfActivity(id: string, isDeleted: bool, lap: int, elimination: bool, bibs: seq<int>)
    | Dsq(id: string, isDeleted: bool, bib: int)
    | Dns(id: string, isDeleted: bool, bib: int)

  datatype Athlete = Athlete(id: string, name: string, bib: Option<int>)

  function LapOf(lap: int): nat {
    if lap > 0 then lap else 0
  }

  // ---- What one activity says about one bib ----

  function SumFor(entries: seq<Entry>, bib: int): int
    decreases |entries|
  {
    if entries == [] then 0
    else
      var last := entries[|entries| - 1];
      SumFor(entries[..|entries| - 1], bib) + if last.bib == bib then last.points else 0
  }

  function SprintPoints(a: Activity, bib: int, cutoff: nat): int {
    if a.PointsSprint? && !a.isDeleted && LapOf(a.lap) > cutoff then SumFor(a.entries, bib) else 0
  }

  function RemovalLap(a: Activity, bib: int): nat {
    if a.PointsRemoval? && !a.isDeleted && bib in a.bibs then LapOf(a.lap) else 0
  }

  /** A rider's exit: statuses are ordered by lap, elimination winning within a lap. */
  datatype Exit = StillIn | Out(lap: nat, elimination: bool)

  predicate LaterExit(a: Exit, b: Exit) {
    b.Out? && (a.StillIn? || b.lap > a.lap || (b.lap == a.lap && b.elimination && !a.elimination))
  }

  function MaxExit(a: Exit, b: Exit): Exit {
    if LaterExit(a, b) then b else a
  }

  function ExitIn(a: Activity, bib: int): Exit {
    if a.DnfActivity? && !a.isDeleted && bib in a.bibs then Out(LapOf(a.lap), a.elimination) else StillIn
  }

  predicate Disqualifies(a: Activity, bib: int) {
    a.Dsq? && !a.isDeleted && a.bib == bib
  }

  predicate NotStarting(a: Activity, bib: int) {
    a.Dns? && !a.isDeleted && a.bib == bib
  }

  /** The bibs an activity mentions, deleted or not. */
  function Mentions(a: Activity): set<int> {
    match a
    case PointsSprint(_, _, _, entries) => set e | e in entries && e.bib > 0 :: e.bib
    case PointsRemoval(_, _, _, bibs) => set b | b in bibs && b > 0
    case DnfActivity(_, _, _, _, bibs) => set b | b in bibs && b > 0
    case Dsq(_, _, bib) => if bib > 0 then {bib} else {}
    case Dns(_, _, bib) => if bib > 0 then {bib} else {}
  }

  // ---- What all activities together say about one bib ----

  function SumPoints(activities: seq<Activity>, bib: int, cutoff: nat): int {
    Fold(a => SprintPoints(a, bib, cutoff), (x, y) => x + y, 0, activities)
  }

  function Cutoff(activities: seq<Activity>, bib: int): nat {
    Fold<Activity, nat>(a => RemovalLap(a, bib), (x, y) => if y > x then y else x, 0, activities)
  }

  function ExitOf(activities: seq<Activity>, bib: int): Exit {
    Fold(a => ExitIn(a, bib), (x, y) => MaxExit(x, y), StillIn, activities)
  }

  predicate IsDsq(activities: seq<Activity>, bib: int) {
    exists a :: a in activities && Disqualifies(a, bib)
  }

  predicate IsDns(activities: seq<Activity>, bib: int) {
    exists a :: a in activities && NotStarting(a, bib)
  }

  function Mentioned(activities: seq<Activity>): set<int> {
    set a, b | a in activities && b in Mentions(a) :: b
  }

  /** DNF on a lap above 0 takes all points; otherwise sprints after the last removal count. */
  function PointsOf(activities: seq<Activity>, bib: int): int {
    var exit := ExitOf(activities, bib);
    if exit.Out? && exit.lap > 0 then 0 else SumPoints(activities, bib, Cutoff(activities, bib))
  }

  function Derive(base: RaceResult, activities: seq<Activity>): RaceResult {
    var exit := ExitOf(activities, base.bib);
    base.(points := PointsOf(activities, base.bib),
          dnf := if exit.StillIn? then NotDnf else if exit.elimination then Elimination else PlainDnf,
          dnfLap := if exit.StillIn? then 0 else exit.lap,
          dsq := IsDsq(activities, base.bib),
          dns := IsDns(activities, base.bib))
  }

  // ---- The whole list ----

  function MakeDefault(bib: int): RaceResult {
    RaceResult(bib, 0, 0, NotDnf, 0, false, false, 0, "", 0)
  }

  function StarterBibs(starters: seq<Athlete>): set<int> {
    set s | s in starters && s.bib.Some? && s.bib.value > 0 :: s.bib.value
  }

  function RowBibs(rows: seq<RaceResult>): set<int> {
    set r | r in rows && r.bib > 0 :: r.bib
  }

  predicate DistinctRows(rows: seq<RaceResult>) {
    forall i, j :: 0 <= i < j < |rows| ==> rows[i].bib != rows[j].bib
  }

  /** The first row of a bib is the one that is kept. */
  function FirstRow(rows: seq<RaceResult>, bib: int): RaceResult
    decreases |rows|
  {
    if rows == [] then MakeDefault(bib) else if rows[0].bib == bib then rows[0] else FirstRow(rows[1..], bib)
  }

  predicate Ascending(s: seq<int>) {
    forall i, j :: 0 <= i < j < |s| ==> s[i] < s[j]
  }

  ghost function Elements(s: seq<int>): set<int> {
    set x | x in s
  }

  function InsertBib(b: int, s: seq<int>): seq<int>
    decreases |s|
  {
    if s == [] || b < s[0] then [b] + s else [s[0]] + InsertBib(b, s[1..])
  }

  lemma {:induction false} InsertBibSpec(b: int, s: seq<int>)
    requires Ascending(s) && b !in s
    ensures Ascending(InsertBib(b, s))
    ensures forall x :: x in InsertBib(b, s) <==> x == b || x in s
    decreases |s|
  {
    if s != [] && !(b < s[0]) {
      var rest := InsertBib(b, s[1..]);
      assert s == [s[0]] + s[1..];
      InsertBibSpec(b, s[1..]);
      forall i | 0 <= i < |rest| ensures s[0] < rest[i] {
        assert rest[i] in rest;
      }
    }
  }

  ghost function AnyOf<T>(s: set<T>): (b: T)
    requires s != {}
    ensures b in s
  {
    var b :| b in s;
    b
  }

  lemma {:induction false} SortedExists(s: set<int>)
    ensures exists r: seq<int> :: Ascending(r) && Elements(r) == s
    decreases |s|
  {
    if s == {} {
      assert Ascending([]) && Elements([]) == s;
    } else {
      var b := AnyOf(s);
      SortedExists(s - {b});
      var r: seq<int> :| Ascending(r) && Elements(r) == s - {b};
      assert b !in r by { assert b in r ==> b in Elements(r); }
      InsertBibSpec(b, r);
      forall x ensures x in InsertBib(b, r) <==> x in s {
        assert x in r <==> x in Elements(r);
      }
      assert Elements(InsertBib(b, r)) == s;
    }
  }

  /** The elements of a set in ascending order. */
  ghost function Sorted(s: set<int>): (r: seq<int>)
    ensures Ascending(r) && Elements(r) == s
  {
    SortedExists(s);
    var r: seq<int> :| Ascending(r) && Elements(r) == s;
    r
  }

  /** There is only one ascending list of given elements. */
  lemma {:induction false} SortedUnique(p: seq<int>, q: seq<int>)
    requires Ascending(p) && Ascending(q) && Elements(p) == Elements(q)
    ensures p == q
    decreases |p|
  {
    forall x ensures x in p <==> x in q {
      assert x in p <==> x in Elements(p);
      assert x in q <==> x in Elements(q);
    }
    assert (p != [] ==> p[0] in p) && (q != [] ==> q[0] in q);
    if p != [] && q != [] {
      assert p[0] in Elements(p) && q != [] by { assert p[0] in Elements(q); }
      assert q[0] in Elements(q);
      assert p[0] in q && q[0] in p;
      forall x ensures x in p[1..] <==> x in q[1..] {
        assert x in p <==> x in Elements(p);
        assert x in q <==> x in Elements(q);
        assert p == [p[0]] + p[1..] && q == [q[0]] + q[1..];
      }
      SortedUnique(p[1..], q[1..]);
    }
  }

  function PositiveBibs(rows: seq<RaceResult>): seq<int>
    decreases |rows|
  {
    if rows == [] then []
    else
      var bib := rows[|rows| - 1].bib;
      PositiveBibs(rows[..|rows| - 1]) + if bib > 0 then [bib] else []
  }

  /** The bibs of the derived list: those of `prev` in their order, then the missing ones, ascending. */
  ghost function BibOrder(prev: seq<RaceResult>, bibs: set<int>): seq<int> {
    PositiveBibs(prev) + Sorted(bibs - RowBibs(prev))
  }

  function DeriveAll(prev: seq<RaceResult>, order: seq<int>, activities: seq<Activity>): (rows: seq<RaceResult>) {
    seq(|order|, i requires 0 <= i < |order| => Derive(FirstRow(prev, order[i]), activities))
  }

  /** All bibs the race knows from its starters and activities. */
  function KnownBibs(starters: seq<Athlete>, activities: seq<Activity>): set<int> {
    StarterBibs(starters) + Mentioned(activities)
  }

  ghost function Apply(prev: seq<RaceResult>, starters: seq<Athlete>, activities: seq<Activity>): seq<RaceResult> {
    DeriveAll(prev, BibOrder(prev, KnownBibs(starters, activities)), activities)
  }

  // ---- The order of activities does not matter ----

  lemma SameMembers(p: seq<Activity>, q: seq<Activity>)
    requires multiset(p) == multiset(q)
    ensures forall a :: a in p <==> a in q
  {
    assert forall a :: a in p <==> a in multiset(p);
    assert forall a :: a in q <==> a in multiset(q);
  }

  lemma DerivePermutation(base: RaceResult, p: seq<Activity>, q: seq<Activity>)
    requires multiset(p) == multiset(q)
    ensures Derive(base, p) == Derive(base, q)
  {
    var bib := base.bib;
    SameMembers(p, q);
    FoldPermutation(a => ExitIn(a, bib), (x, y) => MaxExit(x, y), StillIn, p, q);
    FoldPermutation<Activity, nat>(a => RemovalLap(a, bib), (x, y) => if y > x then y else x, 0, p, q);
    var cutoff := Cutoff(p, bib);
    FoldPermutation(a => SprintPoints(a, bib, cutoff), (x, y) => x + y, 0, p, q);
  }

  /** Derived results depend on which activities there are, not on their order. */
  lemma ApplyPermutation(prev: seq<RaceResult>, starters: seq<Athlete>, p: seq<Activity>, q: seq<Activity>)
    requires multiset(p) == multiset(q)
    ensures Apply(prev, starters, p) == Apply(prev, starters, q)
  {
    hide Derive, Mentions;
    SameMembers(p, q);
    assert Mentioned(p) == Mentioned(q);
    var order := BibOrder(prev, KnownBibs(starters, p));
    forall i | 0 <= i < |order| ensures DeriveAll(prev, order, p)[i] == DeriveAll(prev, order, q)[i] {
      DerivePermutation(FirstRow(prev, order[i]), p, q);
    }
  }

  // ---- What the derived fields mean ----

  /** The cutoff is the highest lap of a removal that names the bib, or 0. */
  lemma {:induction false} CutoffIsTheHighest(activities: seq<Activity>, bib: int)
    ensures forall a :: a in activities ==> RemovalLap(a, bib) <= Cutoff(activities, bib)
    ensures Cutoff(activities, bib) == 0 || exists a :: a in activities && RemovalLap(a, bib) == Cutoff(activities, bib)
    decreases |activities|
  {
    hide RemovalLap;
    if activities != [] {
      var front, last := activities[..|activities| - 1], activities[|activities| - 1];
      assert activities == front + [last];
      CutoffIsTheHighest(front, bib);
    }
  }

  /** The exit is the latest one recorded, elimination counting as later within a lap. */
  lemma {:induction false} ExitIsTheLatest(activities: seq<Activity>, bib: int)
    ensures forall a :: a in activities ==> !LaterExit(ExitOf(activities, bib), ExitIn(a, bib))
    ensures ExitOf(activities, bib).StillIn? || exists a :: a in activities && ExitIn(a, bib) == ExitOf(activities, bib)
    decreases |activities|
  {
    hide ExitIn;
    if activities != [] {
      var front, last := activities[..|activities| - 1], activities[|activities| - 1];
      assert activities == front + [last];
      ExitIsTheLatest(front, bib);
    }
  }

  lemma MentionedSnoc(activities: seq<Activity>, a: Activity)
    ensures Mentioned(activities + [a]) == Mentioned(activities) + Mentions(a)
  {
    hide Mentions;
    var all := activities + [a];
    assert forall x :: x in all <==> x in activities || x == a;
    assert forall b :: b in Mentioned(all) <==> b in Mentioned(activities) + Mentions(a);
  }

  /** The bibs an activity lists, in order, valid or not. */
  function ListedBibs(a: Activity): seq<int> {
    match a
    case PointsSprint(_, _, _, entries) => seq(|entries|, i requires 0 <= i < |entries| => entries[i].bib)
    case PointsRemoval(_, _, _, bibs) => bibs
    case DnfActivity(_, _, _, _, bibs) => bibs
    case Dsq(_, _, bib) => [bib]
    case Dns(_, _, bib) => [bib]
  }

  lemma ListedAreMentioned(a: Activity)
    ensures forall b :: b > 0 && b in ListedBibs(a) <==> b in Mentions(a)
  {
    if a.PointsSprint? {
      forall b | b in Mentions(a) ensures b in ListedBibs(a) {
        var i :| 0 <= i < |a.entries| && a.entries[i].bib == b;
        assert ListedBibs(a)[i] == b;
      }
    }
  }

  // ---- The bibs of the derived list ----

  lemma {:induction false} PositiveBibsSpec(rows: seq<RaceResult>)
    ensures forall b :: b in PositiveBibs(rows) <==> b in RowBibs(rows)
    decreases |rows|
  {
    if rows != [] {
      var front, last := rows[..|rows| - 1], rows[|rows| - 1];
      assert rows == front + [last];
      PositiveBibsSpec(front);
    }
  }

  lemma {:induction false} FirstRowBib(rows: seq<RaceResult>, bib: int)
    ensures FirstRow(rows, bib).bib == bib
    decreases |rows|
  {
    if rows != [] {
      FirstRowBib(rows[1..], bib);
    }
  }

  /** Row by row, what applying the activities gives: nothing but bibs known before or mentioned now. */
  lemma ApplyRows(prev: seq<RaceResult>, starters: seq<Athlete>, activities: seq<Activity>)
    ensures forall i :: 0 <= i < |Apply(prev, starters, activities)| ==>
      var r := Apply(prev, starters, activities)[i];
      r.bib > 0 && r == Derive(FirstRow(prev, r.bib), activities)
    ensures RowBibs(Apply(prev, starters, activities)) == RowBibs(prev) + KnownBibs(starters, activities)
    ensures PositiveBibs(prev) <= BibOrder(prev, KnownBibs(starters, activities))
  {
    hide Derive, FirstRow, PositiveBibs, KnownBibs;
    var known := KnownBibs(starters, activities);
    KnownArePositive(starters, activities);
    var order := BibOrder(prev, known);
    BibOrderElements(prev, known);
    var rows := Apply(prev, starters, activities);
    forall i | 0 <= i < |rows| ensures rows[i].bib == order[i] > 0 && rows[i] == Derive(FirstRow(prev, rows[i].bib), activities) {
      FirstRowBib(prev, order[i]);
      DeriveKeepsBib(FirstRow(prev, order[i]), activities);
      assert order[i] in order;
    }
    forall b ensures b in RowBibs(rows) <==> b in order {
      if b in order {
        var i :| 0 <= i < |order| && order[i] == b;
        assert rows[i] in rows;
      }
    }
  }

  lemma DeriveKeepsBib(base: RaceResult, activities: seq<Activity>)
    ensures Derive(base, activities).bib == base.bib
  {}

  lemma KnownArePositive(starters: seq<Athlete>, activities: seq<Activity>)
    ensures forall b :: b in KnownBibs(starters, activities) ==> b > 0
  {}

  lemma BibOrderElements(prev: seq<RaceResult>, bibs: set<int>)
    requires forall b :: b in bibs ==> b > 0
    ensures forall b :: b in BibOrder(prev, bibs) <==> b in RowBibs(prev) + bibs
    ensures forall b :: b in BibOrder(prev, bibs) ==> b > 0
  {
    PositiveBibsSpec(prev);
    var missing := Sorted(bibs - RowBibs(prev));
    forall b ensures b in BibOrder(prev, bibs) <==> b in RowBibs(prev) + bibs {
      assert b in missing <==> b in Elements(missing);
    }
  }
}
