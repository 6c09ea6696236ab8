/**
 * Standings: the sort key, the stable sort, and the rank loop with its special tie for
 * riders who dropped out in the same lap.
 */
module RaceRanking {
  import opened Wrappers
  import opened RaceResults
  import opened Sequences
  import opened Sorting

  /** `finishRank` is `None` where the source uses positive infinity. */
  datatype SortKey = SortKey(bucket: int, dnfLap: int, points: int, finishRank: Option<int>)

  function StatusBucket(r: RaceResult): int {
    if r.dsq then 2 else if r.dns then 3 else if r.dnf != NotDnf then 1 else 0
  }

  function Key(r: RaceResult): SortKey {
    SortKey(StatusBucket(r), r.dnfLap, r.points, if r.finishRank > 0 then Some(r.finishRank) else None)
  }

  function CompareFinish(a: Option<int>, b: Option<int>): int {
    match (a, b)
    case (Some(x), Some(y)) => x - y
    case (Some(_), None) => -1
    case (None, Some(_)) => 1
    case (None, None) => 0
  }

  function CompareKeys(a: SortKey, b: SortKey): int {
    if a.bucket != b.bucket then a.bucket - b.bucket
    else if a.dnfLap != b.dnfLap then b.dnfLap - a.dnfLap
    else if a.points != b.points then b.points - a.points
    else CompareFinish(a.finishRank, b.finishRank)
  }

  /** Negative when `a` stands before `b`; the bib decides between equal keys. */
  function Compare(a: RaceResult, b: RaceResult): int {
    var c := CompareKeys(Key(a), Key(b));
    if c != 0 then c else a.bib - b.bib
  }

  // ---- Sorting ----

  function StandingsOrder(): (RaceResult, RaceResult) -> int {
    (a, b) => Compare(a, b)
  }

  function SortForStandings(rows: seq<RaceResult>): seq<RaceResult> {
    Sort(StandingsOrder(), rows)
  }

  lemma CompareIsLawful()
    ensures Lawful(StandingsOrder())
  {
    forall a: RaceResult, b: RaceResult, c: RaceResult
      ensures Compare(a, a) == 0 && (Compare(a, b) > 0 <==> Compare(b, a) < 0)
      ensures Compare(a, b) <= 0 && Compare(b, c) <= 0 ==> Compare(a, c) <= 0
    {
      CompareLaws(a, b, c);
    }
  }

  lemma CompareLaws(a: RaceResult, b: RaceResult, c: RaceResult)
    ensures Compare(a, a) == 0 && (Compare(a, b) > 0 <==> Compare(b, a) < 0)
    ensures Compare(a, b) <= 0 && Compare(b, c) <= 0 ==> Compare(a, c) <= 0
  {}

  /** Same rows, in standing order; rows that compare equal keep their order. */
  lemma SortedForStandings(rows: seq<RaceResult>, k: RaceResult)
    ensures Ordered(StandingsOrder(), SortForStandings(rows))
    ensures multiset(SortForStandings(rows)) == multiset(rows)
    ensures Level(StandingsOrder(), SortForStandings(rows), k) == Level(StandingsOrder(), rows, k)
  {
    hide StandingsOrder;
    CompareIsLawful();
    SortSpec(StandingsOrder(), rows);
    SortStable(StandingsOrder(), rows, k);
  }

  // ---- Assigning ranks ----

  datatype RankState = RankState(prev: Option<SortKey>, prevRank: nat, byBib: map<int, nat>)

  predicate SameDnfLap(prev: SortKey, key: SortKey) {
    prev.bucket == 1 && key.bucket == 1 && prev.dnfLap > 0 && prev.dnfLap == key.dnfLap
  }

  predicate Ties(prev: Option<SortKey>, key: SortKey) {
    prev.Some? && (prev.value == key || SameDnfLap(prev.value, key))
  }

  function RankStep(st: RankState, i: nat, r: RaceResult): RankState {
    if r.bib <= 0 then st
    else
      var rank := if Ties(st.prev, Key(r)) then st.prevRank else i + 1;
      RankState(Some(Key(r)), rank, st.byBib[r.bib := rank])
  }

  function RankLoop(sorted: seq<RaceResult>, n: nat): RankState
    requires n <= |sorted|
  {
    if n == 0 then RankState(None, 0, map[]) else RankStep(RankLoop(sorted, n - 1), n - 1, sorted[n - 1])
  }

  function Rerank(r: RaceResult, byBib: map<int, nat>): RaceResult {
    if r.bib in byBib then r.(rank := byBib[r.bib]) else r
  }

  function Recompute(rows: seq<RaceResult>): seq<RaceResult> {
    var sorted := SortForStandings(rows);
    var byBib := RankLoop(sorted, |sorted|).byBib;
    seq(|rows|, i requires 0 <= i < |rows| => Rerank(rows[i], byBib))
  }

  method RecomputeRaceResults(input: seq<RaceResult>) returns (result: seq<RaceResult>)
    ensures result == Recompute(input)
  {
    hide SortForStandings, Key;
    var sorted := SortForStandings(input);
    var prev: Option<SortKey>, prevRank: nat, byBib: map<int, nat> := None, 0, map[];
    for i := 0 to |sorted|
      invariant RankState(prev, prevRank, byBib) == RankLoop(sorted, i)
    {
      var r := sorted[i];
      if r.bib > 0 {
        var key := Key(r);
        var isTie := prev.Some? && (prev.value == key || SameDnfLap(prev.value, key));
        var rank := if isTie then prevRank else i + 1;
        byBib := byBib[r.bib := rank];
        prev, prevRank := Some(key), rank;
      }
    }
    result := seq(|input|, i requires 0 <= i < |input| => Rerank(input[i], byBib));
  }

  // ---- What the rank means ----

  /** Riders out in the same lap above 0 form one class; all others tie on the whole key only. */
  function TieClass(r: RaceResult): SortKey {
    var key := Key(r);
    if key.bucket == 1 && key.dnfLap > 0 then SortKey(1, key.dnfLap, 0, None) else key
  }

  /** How many rows are in a class strictly better than `tie`. */
  function Ahead(rows: seq<RaceResult>, tie: SortKey): int {
    Count(rows, (r: RaceResult) => CompareKeys(TieClass(r), tie) < 0)
  }

  /**
   * `r` takes a place ahead of the class `tie`: it is in a better class, or it has no bib and sorts
   * before every row of that class that has one. Rows without a bib take places but get no rank.
   */
  ghost predicate StandsAhead(rows: seq<RaceResult>, r: RaceResult, tie: SortKey) {
    || CompareKeys(TieClass(r), tie) < 0
    || (TieClass(r) == tie && r.bib <= 0 && forall x :: x in rows && x.bib > 0 && TieClass(x) == tie ==> Compare(r, x) < 0)
  }

  ghost function Places(rows: seq<RaceResult>, tie: SortKey): int {
    Count(rows, (r: RaceResult) => StandsAhead(rows, r, tie))
  }

  /** `w` stands last among the rows of its bib: the rank found for it is the one the bib keeps. */
  ghost predicate Decides(rows: seq<RaceResult>, w: RaceResult) {
    w in rows && w.bib > 0 && forall x :: x in rows && x.bib == w.bib ==> Compare(x, w) <= 0
  }

  lemma ClassesFollowTheOrder(a: RaceResult, b: RaceResult)
    requires Compare(a, b) <= 0
    ensures CompareKeys(TieClass(a), TieClass(b)) <= 0
    ensures CompareKeys(TieClass(a), TieClass(b)) == 0 <==> Ties(Some(Key(a)), Key(b))
    ensures TieClass(a) == TieClass(b) <==> Ties(Some(Key(a)), Key(b))
    ensures a.bib != b.bib ==> Compare(a, b) < 0
  {}

  lemma CompareKeysIsAnOrder(a: SortKey, b: SortKey, c: SortKey)
    ensures CompareKeys(a, b) <= 0 && CompareKeys(b, c) < 0 ==> CompareKeys(a, c) < 0
    ensures CompareKeys(a, b) <= 0 <==> CompareKeys(b, a) >= 0
    ensures CompareKeys(a, b) == 0 <==> a == b
  {}

  lemma OrderedAt(s: seq<RaceResult>, i: nat, j: nat)
    requires Ordered(StandingsOrder(), s) && i < |s| && j < |s|
    ensures i <= j ==> Compare(s[i], s[j]) <= 0
    ensures j <= i ==> Compare(s[j], s[i]) <= 0
  {}

  lemma ClassesInOrder(s: seq<RaceResult>, i: nat, j: nat)
    requires Ordered(StandingsOrder(), s) && i <= j < |s|
    ensures CompareKeys(TieClass(s[i]), TieClass(s[j])) <= 0
    ensures TieClass(s[i]) == TieClass(s[j]) <==> Ties(Some(Key(s[i])), Key(s[j]))
    ensures s[i].bib != s[j].bib ==> Compare(s[i], s[j]) < 0
    ensures !(Compare(s[j], s[i]) < 0)
  {
    hide *;
    OrderedAt(s, i, j);
    ClassesFollowTheOrder(s[i], s[j]);
    CompareLaws(s[j], s[i], s[i]);
    CompareLaws(s[i], s[j], s[j]);
  }

  // ---- The loop ----

  /** The last of the first `n` rows that has a bib, or -1. */
  function LastReal(s: seq<RaceResult>, n: nat): (p: int)
    requires n <= |s|
    ensures -1 <= p < n && (p >= 0 ==> s[p].bib > 0)
    ensures forall j :: p < j < n ==> s[j].bib <= 0
  {
    if n == 0 then -1 else if s[n - 1].bib > 0 then n - 1 else LastReal(s, n - 1)
  }

  /** The last of the first `n` rows with the given bib, or -1. */
  function LastOf(s: seq<RaceResult>, n: nat, bib: int): (p: int)
    requires n <= |s|
    ensures -1 <= p < n && (p >= 0 ==> s[p].bib == bib)
    ensures forall j :: p < j < n ==> s[j].bib != bib
  {
    if n == 0 then -1 else if s[n - 1].bib == bib then n - 1 else LastOf(s, n - 1, bib)
  }

  /** In the sorted list a new class starts at its first row with a bib, on the place of that row. */
  lemma ClassStart(s: seq<RaceResult>, i: nat)
    requires Ordered(StandingsOrder(), s) && i < |s| && s[i].bib > 0
    requires LastReal(s, i) >= 0 ==> !Ties(Some(Key(s[LastReal(s, i)])), Key(s[i]))
    ensures Places(s, TieClass(s[i])) == i
  {
    hide Compare, CompareKeys, TieClass, Key, Ties, Ordered, StandsAhead;
    var tie := TieClass(s[i]);
    forall j | 0 <= j < |s| ensures StandsAhead(s, s[j], tie) <==> j < i {
      if j < i {
        BeforeTheStart(s, i, j);
      } else {
        BehindTheStart(s, i, j);
      }
    }
    CountPrefix(s, (r: RaceResult) => StandsAhead(s, r, tie), i);
  }

  lemma BehindTheStart(s: seq<RaceResult>, i: nat, j: nat)
    requires Ordered(StandingsOrder(), s) && i <= j < |s| && s[i].bib > 0
    ensures !StandsAhead(s, s[j], TieClass(s[i]))
  {
    hide Compare, CompareKeys, TieClass, Key, Ties, Ordered;
    ClassesInOrder(s, i, j);
    CompareKeysIsAnOrder(TieClass(s[i]), TieClass(s[j]), TieClass(s[j]));
    assert s[i] in s;
  }

  lemma NoneOfTheClassBefore(s: seq<RaceResult>, i: nat, m: nat)
    requires Ordered(StandingsOrder(), s) && m < i < |s| && s[m].bib > 0
    requires LastReal(s, i) >= 0 ==> !Ties(Some(Key(s[LastReal(s, i)])), Key(s[i]))
    ensures TieClass(s[m]) != TieClass(s[i])
  {
    hide Compare, CompareKeys, TieClass, Key, Ties, Ordered;
    var p := LastReal(s, i);
    assert m <= p;
    ClassesInOrder(s, m, p);
    ClassesInOrder(s, p, i);
    CompareKeysIsAnOrder(TieClass(s[m]), TieClass(s[p]), TieClass(s[i]));
    CompareKeysIsAnOrder(TieClass(s[p]), TieClass(s[i]), TieClass(s[i]));
    CompareKeysIsAnOrder(TieClass(s[m]), TieClass(s[i]), TieClass(s[i]));
  }

  lemma BeforeTheStart(s: seq<RaceResult>, i: nat, j: nat)
    requires Ordered(StandingsOrder(), s) && j < i < |s| && s[i].bib > 0
    requires LastReal(s, i) >= 0 ==> !Ties(Some(Key(s[LastReal(s, i)])), Key(s[i]))
    ensures StandsAhead(s, s[j], TieClass(s[i]))
  {
    hide Compare, CompareKeys, TieClass, Key, Ties, Ordered, LastReal;
    var tie := TieClass(s[i]);
    ClassesInOrder(s, j, i);
    CompareKeysIsAnOrder(TieClass(s[j]), tie, tie);
    if TieClass(s[j]) == tie {
      if s[j].bib > 0 {
        NoneOfTheClassBefore(s, i, j);
      }
      forall x | x in s && x.bib > 0 && TieClass(x) == tie ensures Compare(s[j], x) < 0 {
        var m :| 0 <= m < |s| && s[m] == x;
        if m < i {
          NoneOfTheClassBefore(s, i, m);
        }
        ClassesInOrder(s, j, m);
      }
    }
  }

  /** The running key and rank of the loop are those of the last row with a bib. */
  lemma {:induction false} RankLoopPrev(s: seq<RaceResult>, n: nat)
    requires Ordered(StandingsOrder(), s) && n <= |s|
    ensures var st, p := RankLoop(s, n), LastReal(s, n);
      if p < 0 then st.prev == None else st.prev == Some(Key(s[p])) && st.prevRank == 1 + Places(s, TieClass(s[p]))
  {
    hide Ordered, Key, TieClass, Ties, Places;
    if n > 0 {
      RankLoopPrev(s, n - 1);
      if s[n - 1].bib > 0 {
        RankFound(s, n - 1);
      }
    }
  }

  /** The rank the loop finds for a row with a bib. */
  lemma RankFound(s: seq<RaceResult>, i: nat)
    requires Ordered(StandingsOrder(), s) && i < |s| && s[i].bib > 0
    requires var st, p := RankLoop(s, i), LastReal(s, i);
      if p < 0 then st.prev == None else st.prev == Some(Key(s[p])) && st.prevRank == 1 + Places(s, TieClass(s[p]))
    ensures (if Ties(RankLoop(s, i).prev, Key(s[i])) then RankLoop(s, i).prevRank else i + 1) == 1 + Places(s, TieClass(s[i]))
  {
    hide Ordered, Key, TieClass, SameDnfLap, Places, RankLoop;
    var p := LastReal(s, i);
    if p >= 0 && Ties(Some(Key(s[p])), Key(s[i])) {
      ClassesInOrder(s, p, i);
    } else {
      ClassStart(s, i);
    }
  }

  /** The rank kept for each bib is that of its last row. */
  lemma {:induction false} RankLoopSpec(s: seq<RaceResult>, n: nat, bib: int)
    requires Ordered(StandingsOrder(), s) && n <= |s| && bib > 0
    ensures var st, p := RankLoop(s, n), LastOf(s, n, bib);
      && (bib in st.byBib <==> p >= 0)
      && (p >= 0 ==> st.byBib[bib] == 1 + Places(s, TieClass(s[p])))
  {
    hide Ordered, Key, TieClass, Ties, Places, LastReal;
    if n > 0 {
      RankLoopSpec(s, n - 1, bib);
      if s[n - 1].bib == bib {
        RankLoopPrev(s, n - 1);
        RankFound(s, n - 1);
      }
    }
  }

  lemma SameRows(p: seq<RaceResult>, q: seq<RaceResult>)
    requires multiset(p) == multiset(q)
    ensures |p| == |q| && forall x :: x in p <==> x in q
  {
    assert |p| == |multiset(p)| == |q|;
    forall x ensures x in p <==> x in q {
      assert x in multiset(p) <==> x in multiset(q);
    }
  }

  lemma PlacesPermutation(p: seq<RaceResult>, q: seq<RaceResult>, tie: SortKey)
    requires multiset(p) == multiset(q)
    ensures Places(p, tie) == Places(q, tie)
  {
    hide TieClass, Compare, CompareKeys;
    SameRows(p, q);
    var f, g := (r: RaceResult) => StandsAhead(p, r, tie), (r: RaceResult) => StandsAhead(q, r, tie);
    forall r ensures f(r) <==> g(r) {}
    CountSame(p, f, g);
    CountPermutation(p, q, g);
  }

  lemma LastDecides(s: seq<RaceResult>, bib: int)
    requires Ordered(StandingsOrder(), s) && bib > 0 && LastOf(s, |s|, bib) >= 0
    ensures Decides(s, s[LastOf(s, |s|, bib)])
  {
    hide Compare, Ordered;
    var l := LastOf(s, |s|, bib);
    forall x | x in s && x.bib == bib ensures Compare(x, s[l]) <= 0 {
      var m :| 0 <= m < |s| && s[m] == x;
      OrderedAt(s, m, l);
    }
  }

  lemma DecidersAreLevel(rows: seq<RaceResult>, v: RaceResult, w: RaceResult)
    requires Decides(rows, v) && Decides(rows, w) && v.bib == w.bib
    ensures Key(v) == Key(w) && TieClass(v) == TieClass(w)
  {
    hide CompareKeys;
    CompareLaws(v, w, w);
    CompareLaws(w, v, v);
    CompareKeysIsAnOrder(Key(v), Key(w), Key(w));
  }

  lemma DecidesPermutation(p: seq<RaceResult>, q: seq<RaceResult>, w: RaceResult)
    requires multiset(p) == multiset(q)
    ensures Decides(p, w) <==> Decides(q, w)
  {
    hide Compare;
    SameRows(p, q);
  }

  /**
   * The rank of any row with a bib, whatever the other rows are: 1 plus the number of rows that
   * stand ahead of the class of the bib's deciding row. A row without a bib is left as it is.
   */
  lemma RankOfAnyRow(rows: seq<RaceResult>, i: nat, w: RaceResult)
    requires i < |rows|
    requires rows[i].bib > 0 ==> Decides(rows, w) && w.bib == rows[i].bib
    ensures |Recompute(rows)| == |rows|
    ensures Recompute(rows)[i] == if rows[i].bib > 0 then rows[i].(rank := 1 + Places(rows, TieClass(w))) else rows[i]
  {
    hide SortForStandings, RankLoop, TieClass, Key, Places, Decides, LastOf;
    var s := SortForStandings(rows);
    SortedForStandings(rows, MakeDefault(0));
    SameRows(rows, s);
    if rows[i].bib > 0 {
      var bib := rows[i].bib;
      RankLoopSpec(s, |s|, bib);
      HasLast(s, rows[i]);
      var l := LastOf(s, |s|, bib);
      LastDecides(s, bib);
      DecidesPermutation(rows, s, s[l]);
      DecidersAreLevel(rows, w, s[l]);
      PlacesPermutation(rows, s, TieClass(w));
    } else {
      OnlyRealBibs(s, |s|, rows[i].bib);
    }
  }

  lemma HasLast(s: seq<RaceResult>, r: RaceResult)
    requires r in s
    ensures LastOf(s, |s|, r.bib) >= 0
  {}

  lemma {:induction false} OnlyRealBibs(s: seq<RaceResult>, n: nat, bib: int)
    requires n <= |s| && bib <= 0
    ensures bib !in RankLoop(s, n).byBib
  {
    if n > 0 {
      OnlyRealBibs(s, n - 1, bib);
    }
  }

  /** Every bib has a deciding row. */
  lemma SomeRowDecides(rows: seq<RaceResult>, r: RaceResult)
    requires r in rows && r.bib > 0
    ensures exists w :: Decides(rows, w) && w.bib == r.bib
  {
    hide SortForStandings, LastOf, Decides;
    var s := SortForStandings(rows);
    SortedForStandings(rows, MakeDefault(0));
    SameRows(rows, s);
    HasLast(s, r);
    LastDecides(s, r.bib);
    DecidesPermutation(rows, s, s[LastOf(s, |s|, r.bib)]);
  }

  // ---- What follows for every list ----

  /** Ranks do not depend on the order of the input rows. */
  lemma RanksIgnoreRowOrder(p: seq<RaceResult>, q: seq<RaceResult>, i: nat, j: nat)
    requires multiset(p) == multiset(q)
    requires i < |p| && j < |q| && p[i] == q[j]
    ensures |Recompute(p)| == |p| && |Recompute(q)| == |q|
    ensures Recompute(p)[i] == Recompute(q)[j]
  {
    hide Recompute, TieClass, Places, Decides;
    if p[i].bib > 0 {
      SomeRowDecides(p, p[i]);
      var w :| Decides(p, w) && w.bib == p[i].bib;
      DecidesPermutation(p, q, w);
      RankOfAnyRow(p, i, w);
      RankOfAnyRow(q, j, w);
      PlacesPermutation(p, q, TieClass(w));
    } else {
      RankOfAnyRow(p, i, p[i]);
      RankOfAnyRow(q, j, q[j]);
    }
  }

  lemma PlacesGrow(rows: seq<RaceResult>, r: RaceResult, b: SortKey)
    requires r in rows && r.bib > 0 && CompareKeys(TieClass(r), b) < 0
    ensures Places(rows, TieClass(r)) < Places(rows, b)
  {
    hide TieClass, Compare, CompareKeys;
    var a := TieClass(r);
    forall x | StandsAhead(rows, x, a) ensures StandsAhead(rows, x, b) {
      CompareKeysIsAnOrder(TieClass(x), a, b);
      CompareKeysIsAnOrder(TieClass(x), a, a);
    }
    CompareKeysIsAnOrder(a, a, a);
    CountGrows(rows, (x: RaceResult) => StandsAhead(rows, x, a), (x: RaceResult) => StandsAhead(rows, x, b));
  }

  /** Ranks order the bibs exactly as the tie classes of their deciding rows do. */
  lemma RanksFollowClasses(rows: seq<RaceResult>, i: nat, j: nat)
    requires i < |rows| && j < |rows| && Decides(rows, rows[i]) && Decides(rows, rows[j])
    ensures |Recompute(rows)| == |rows|
    ensures Recompute(rows)[i].rank < Recompute(rows)[j].rank <==> CompareKeys(TieClass(rows[i]), TieClass(rows[j])) < 0
  {
    hide Recompute, Places, CompareKeys, TieClass, Compare;
    RankOfAnyRow(rows, i, rows[i]);
    RankOfAnyRow(rows, j, rows[j]);
    var a, b := TieClass(rows[i]), TieClass(rows[j]);
    CompareKeysIsAnOrder(a, b, a);
    if CompareKeys(a, b) < 0 {
      PlacesGrow(rows, rows[i], b);
    } else if CompareKeys(b, a) < 0 {
      PlacesGrow(rows, rows[j], a);
    }
  }

  /** All riders out in one lap above 0 share a rank, whatever their points or finish ranks. */
  lemma SameLapSharesARank(rows: seq<RaceResult>, i: nat, j: nat)
    requires i < |rows| && j < |rows| && Decides(rows, rows[i]) && Decides(rows, rows[j])
    requires SameDnfLap(Key(rows[i]), Key(rows[j]))
    ensures |Recompute(rows)| == |rows| && Recompute(rows)[i].rank == Recompute(rows)[j].rank
  {
    hide Recompute, Places, Compare;
    RankOfAnyRow(rows, i, rows[i]);
    RankOfAnyRow(rows, j, rows[j]);
  }

  /** Finishers rank ahead of riders who are out, those ahead of the disqualified, those ahead of non-starters. */
  lemma StatusDecides(rows: seq<RaceResult>, i: nat, j: nat)
    requires i < |rows| && j < |rows| && Decides(rows, rows[i]) && Decides(rows, rows[j])
    requires
      || (!rows[i].dsq && !rows[i].dns && rows[i].dnf == NotDnf && (rows[j].dsq || rows[j].dns || rows[j].dnf != NotDnf))
      || (!rows[i].dsq && !rows[i].dns && rows[i].dnf != NotDnf && (rows[j].dsq || rows[j].dns))
      || (rows[i].dsq && !rows[j].dsq && rows[j].dns)
    ensures |Recompute(rows)| == |rows| && Recompute(rows)[i].rank < Recompute(rows)[j].rank
  {
    hide Recompute, Decides, Compare;
    RanksFollowClasses(rows, i, j);
  }

  /** Among finishers more points rank better, and equal points are decided by a real finish rank. */
  lemma PointsThenFinishDecide(rows: seq<RaceResult>, i: nat, j: nat)
    requires i < |rows| && j < |rows| && Decides(rows, rows[i]) && Decides(rows, rows[j])
    requires StatusBucket(rows[i]) == StatusBucket(rows[j]) == 0 && rows[i].dnfLap == rows[j].dnfLap
    ensures |Recompute(rows)| == |rows|
    ensures Recompute(rows)[i].rank < Recompute(rows)[j].rank <==>
      || rows[i].points > rows[j].points
      || (rows[i].points == rows[j].points && rows[i].finishRank > 0
          && (rows[j].finishRank <= 0 || rows[i].finishRank < rows[j].finishRank))
  {
    hide Recompute, Decides, Compare;
    RanksFollowClasses(rows, i, j);
  }

  /** Four groups by the row's flags: in the race, out of it, disqualified, not started. */
  predicate SameStatus(a: RaceResult, b: RaceResult) {
    && a.dsq == b.dsq
    && (!a.dsq ==> a.dns == b.dns && (!a.dns ==> (a.dnf == NotDnf <==> b.dnf == NotDnf)))
  }

  predicate IsOut(r: RaceResult) {
    !r.dsq && !r.dns && r.dnf != NotDnf
  }

  /** More laps before the exit, then more points, then the smaller finish rank, a missing one last. */
  predicate BetterWithin(a: RaceResult, b: RaceResult) {
    || a.dnfLap > b.dnfLap
    || (a.dnfLap == b.dnfLap && a.points > b.points)
    || (a.dnfLap == b.dnfLap && a.points == b.points && a.finishRank > 0 && (b.finishRank <= 0 || a.finishRank < b.finishRank))
  }

  /**
   * Within a group, laps, points and finish ranks decide in this order, except that riders out in
   * one lap above 0 share their rank.
   */
  lemma OrderWithinStatus(rows: seq<RaceResult>, i: nat, j: nat)
    requires i < |rows| && j < |rows| && Decides(rows, rows[i]) && Decides(rows, rows[j])
    requires SameStatus(rows[i], rows[j])
    ensures |Recompute(rows)| == |rows|
    ensures Recompute(rows)[i].rank < Recompute(rows)[j].rank <==>
      BetterWithin(rows[i], rows[j]) && !(IsOut(rows[i]) && rows[i].dnfLap == rows[j].dnfLap > 0)
  {
    hide Recompute, Decides, Compare;
    RanksFollowClasses(rows, i, j);
  }

  /** Of two riders who are out, the one who left in the later lap ranks better, whatever their points. */
  lemma LaterExitRanksBetter(rows: seq<RaceResult>, i: nat, j: nat)
    requires i < |rows| && j < |rows| && Decides(rows, rows[i]) && Decides(rows, rows[j])
    requires IsOut(rows[i]) && IsOut(rows[j]) && rows[i].dnfLap > rows[j].dnfLap
    ensures |Recompute(rows)| == |rows| && Recompute(rows)[i].rank < Recompute(rows)[j].rank
  {
    hide Recompute, Decides;
    OrderWithinStatus(rows, i, j);
  }

  /** Groups in order, within a group the better row first, and equal rows by bib. */
  predicate StandsBefore(a: RaceResult, b: RaceResult) {
    if SameStatus(a, b) then BetterWithin(a, b) || (!BetterWithin(b, a) && a.bib <= b.bib)
    else (!a.dsq && !a.dns && (a.dnf == NotDnf || b.dsq || b.dns)) || (a.dsq && b.dns && !b.dsq)
  }

  /** The standings list itself. */
  lemma StandingsRead(rows: seq<RaceResult>, i: nat, j: nat)
    requires i < j < |SortForStandings(rows)|
    ensures StandsBefore(SortForStandings(rows)[i], SortForStandings(rows)[j])
  {
    hide SortForStandings;
    SortedForStandings(rows, MakeDefault(0));
  }

  // ---- Lists in which every row decides ----

  /** Every row has a real bib, and rows of one bib stand level; distinct bibs are a special case. */
  predicate Rankable(rows: seq<RaceResult>) {
    && (forall i :: 0 <= i < |rows| ==> rows[i].bib > 0)
    && forall i, j :: 0 <= i < |rows| && 0 <= j < |rows| && rows[i].bib == rows[j].bib ==> Key(rows[i]) == Key(rows[j])
  }

  lemma RankableDecides(rows: seq<RaceResult>, i: nat)
    requires Rankable(rows) && i < |rows|
    ensures Decides(rows, rows[i])
  {
    hide Key, CompareKeys;
    forall x | x in rows && x.bib == rows[i].bib ensures Compare(x, rows[i]) <= 0 {
      var k :| 0 <= k < |rows| && rows[k] == x;
      CompareKeysIsAnOrder(Key(x), Key(rows[i]), Key(x));
    }
  }

  lemma RankablePlaces(rows: seq<RaceResult>, tie: SortKey)
    requires Rankable(rows)
    ensures Places(rows, tie) == Ahead(rows, tie)
  {
    hide TieClass, Compare, CompareKeys, Key;
    CountSame(rows, (r: RaceResult) => StandsAhead(rows, r, tie), (r: RaceResult) => CompareKeys(TieClass(r), tie) < 0);
  }

  /** There the rank of a row is 1 plus the number of rows in strictly better classes. */
  lemma RankIsOnePlusAhead(rows: seq<RaceResult>)
    requires Rankable(rows)
    ensures |Recompute(rows)| == |rows|
    ensures forall i :: 0 <= i < |rows| ==> Recompute(rows)[i] == rows[i].(rank := 1 + Ahead(rows, TieClass(rows[i])))
  {
    hide SortForStandings, RankLoop, TieClass, Ahead, Key, Places, Decides;
    forall i | 0 <= i < |rows|
      ensures Recompute(rows)[i] == rows[i].(rank := 1 + Ahead(rows, TieClass(rows[i])))
    {
      RankableDecides(rows, i);
      RankOfAnyRow(rows, i, rows[i]);
      RankablePlaces(rows, TieClass(rows[i]));
    }
  }
}
