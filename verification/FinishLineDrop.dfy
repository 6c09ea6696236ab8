/**
 * Drag and drop at the finish line: a finisher is taken out of his tie group and put into the
 * target's group, or alone just ahead of it, and everyone is ranked again.
 */
module FinishLineDrop {
  import opened FinishLine
  import opened RaceResults
  import opened Sequences
  import opened Sorting
  import opened Wrappers

  predicate HasBib(g: seq<RaceResult>, bib: int) {
    exists r :: r in g && r.bib == bib
  }

  /** Index of the first group with the bib, or the number of groups. */
  function LevelOf(groups: Groups, bib: int): (i: nat)
    ensures i <= |groups|
    ensures i < |groups| ==> HasBib(groups[i], bib)
    ensures forall j :: 0 <= j < i ==> !HasBib(groups[j], bib)
    decreases |groups|
  {
    if groups == [] || HasBib(groups[0], bib) then 0 else 1 + LevelOf(groups[1..], bib)
  }

  function Others(g: seq<RaceResult>, bib: int): seq<RaceResult> {
    Where(g, (r: RaceResult) => r.bib != bib)
  }

  /** The bib leaves its group; a group left empty goes too. */
  function Without(groups: Groups, bib: int): Groups {
    var k := LevelOf(groups, bib);
    if k == |groups| then groups
    else if Others(groups[k], bib) == [] then groups[..k] + groups[k + 1..]
    else groups[k := Others(groups[k], bib)]
  }

  function PutIn(groups: Groups, t: nat, dragged: RaceResult, withShift: bool): Groups
    requires t < |groups|
  {
    if withShift then groups[t := groups[t] + [dragged]] else groups[..t] + [[dragged]] + groups[t..]
  }

  function DropGroups(groups: Groups, dragged: RaceResult, targetBib: int, withShift: bool): Option<Groups> {
    var rest := Without(groups, dragged.bib);
    var t := LevelOf(rest, targetBib);
    if t == |rest| then None else Some(PutIn(rest, t, dragged, withShift))
  }

  /** `None` when nothing is committed. */
  function Drop(finishers: seq<RaceResult>, from: Option<nat>, idx: nat, withShift: bool): Option<seq<RaceResult>> {
    if from.None? || from.value == idx || from.value >= |finishers| || idx >= |finishers| then None
    else
      match DropGroups(Group(finishers), finishers[from.value], finishers[idx].bib, withShift)
      case None => None
      case Some(groups) => Some(Ranked(groups))
  }

  method OnDrop(finishers: seq<RaceResult>, from: Option<nat>, idx: nat, withShift: bool) returns (next: Option<seq<RaceResult>>)
    ensures next == Drop(finishers, from, idx, withShift)
  {
    hide Group, Others, LevelOf, HasBib;
    if from.None? || from.value == idx || from.value >= |finishers| || idx >= |finishers| {
      return None;
    }
    var dragged, target := finishers[from.value], finishers[idx];
    var groups := GroupFinishersByFinishRank(finishers);
    groups := RemoveDragged(groups, dragged.bib);
    var t := LevelOf(groups, target.bib);
    if t == |groups| {
      return None;
    }
    if withShift {
      groups := groups[t := groups[t] + [dragged]];
    } else {
      groups := groups[..t] + [[dragged]] + groups[t..];
    }
    var ranked := ApplyCompetitionRanking(groups);
    next := Some(ranked);
  }

  /** The loop stops at the first group that shrinks. */
  method RemoveDragged(groups: Groups, bib: int) returns (rest: Groups)
    ensures rest == Without(groups, bib)
  {
    hide Others, LevelOf, HasBib;
    rest := groups;
    var gi := 0;
    while gi < |groups|
      invariant gi <= |groups| && rest == groups
      invariant forall j :: 0 <= j < gi ==> !HasBib(groups[j], bib)
    {
      var nextG := Others(groups[gi], bib);
      OthersSpec(groups[gi], bib);
      if |nextG| != |groups[gi]| {
        LevelIs(groups, bib, gi);
        if |nextG| == 0 {
          rest := groups[..gi] + groups[gi + 1..];
        } else {
          rest := groups[gi := nextG];
        }
        return;
      }
      gi := gi + 1;
    }
    assert LevelOf(groups, bib) == |groups|;
  }

  lemma {:induction false} OthersSpec(g: seq<RaceResult>, bib: int)
    ensures |Others(g, bib)| <= |g| && (|Others(g, bib)| == |g| <==> !HasBib(g, bib))
    ensures forall b :: HasBib(Others(g, bib), b) <==> b != bib && HasBib(g, b)
    decreases |g|
  {
    if g != [] {
      var front, last := g[..|g| - 1], g[|g| - 1];
      assert g == front + [last];
      OthersSpec(front, bib);
      WhereMembers(g, (r: RaceResult) => r.bib != bib);
      WhereMembers(front, (r: RaceResult) => r.bib != bib);
    }
  }

  lemma LevelIs(groups: Groups, bib: int, i: nat)
    requires i < |groups| && HasBib(groups[i], bib)
    requires forall j :: 0 <= j < i ==> !HasBib(groups[j], bib)
    ensures LevelOf(groups, bib) == i
  {
    hide HasBib, LevelOf;
    var k := LevelOf(groups, bib);
    assert !(k < i) && !(i < k);
  }

  // ---- Levels before and after ----

  /** No bib is in two groups. */
  ghost predicate Levelled(groups: Groups) {
    forall i, b :: 0 <= i < |groups| && HasBib(groups[i], b) ==> LevelOf(groups, b) == i
  }

  /** Where a level ends up when `bib` leaves. */
  function LevelAfter(groups: Groups, bib: int, i: nat): nat {
    var k := LevelOf(groups, bib);
    if k < |groups| && Others(groups[k], bib) == [] && i > k then i - 1 else i
  }

  lemma WithoutAt(groups: Groups, bib: int, i: nat, b: int)
    requires Levelled(groups) && i < |groups|
    requires LevelOf(groups, bib) == i ==> Others(groups[i], bib) != []
    ensures LevelAfter(groups, bib, i) < |Without(groups, bib)|
    ensures HasBib(Without(groups, bib)[LevelAfter(groups, bib, i)], b) <==> b != bib && HasBib(groups[i], b)
  {
    hide HasBib, Others, LevelOf;
    OthersSpec(groups[i], bib);
  }

  /** Every remaining group is one of the old ones, in the old order. */
  lemma WithoutFrom(groups: Groups, bib: int, j: nat) returns (i: nat)
    requires j < |Without(groups, bib)|
    ensures i < |groups| && LevelAfter(groups, bib, i) == j
    ensures LevelOf(groups, bib) == i ==> Others(groups[i], bib) != []
  {
    hide HasBib, Others, LevelOf;
    var k := LevelOf(groups, bib);
    i := if k < |groups| && Others(groups[k], bib) == [] && j >= k then j + 1 else j;
  }

  lemma WithoutLevelled(groups: Groups, bib: int)
    requires Levelled(groups)
    ensures Levelled(Without(groups, bib))
    ensures LevelOf(Without(groups, bib), bib) == |Without(groups, bib)|
  {
    hide HasBib, Others, LevelOf, LevelAfter, Without;
    var rest := Without(groups, bib);
    forall j, b | 0 <= j < |rest| && HasBib(rest[j], b) ensures b != bib && LevelOf(rest, b) == j {
      var i := WithoutFrom(groups, bib, j);
      WithoutAt(groups, bib, i, b);
      assert LevelOf(groups, b) == i;
      forall m | 0 <= m < j ensures !HasBib(rest[m], b) {
        var n := WithoutFrom(groups, bib, m);
        WithoutAt(groups, bib, n, b);
        assert HasBib(rest[m], b) ==> LevelOf(groups, b) == n;
      }
      LevelIs(rest, b, j);
    }
  }

  /** Everyone else keeps his level, apart from the shift when a group vanishes. */
  lemma WithoutLevel(groups: Groups, bib: int, x: int)
    requires Levelled(groups) && x != bib && LevelOf(groups, x) < |groups|
    ensures LevelOf(Without(groups, bib), x) == LevelAfter(groups, bib, LevelOf(groups, x)) < |Without(groups, bib)|
  {
    hide HasBib, LevelAfter, LevelOf, Without, Others;
    var i := LevelOf(groups, x);
    OthersSpec(groups[i], bib);
    NoneHasNoBib(x);
    WithoutAt(groups, bib, i, x);
    WithoutLevelled(groups, bib);
  }

  lemma NoneHasNoBib(bib: int)
    ensures !HasBib([], bib)
  {}

  function LevelPut(t: nat, withShift: bool, i: nat): nat {
    if !withShift && i >= t then i + 1 else i
  }

  lemma PutLevel(groups: Groups, t: nat, dragged: RaceResult, withShift: bool, x: int)
    requires t < |groups| && LevelOf(groups, dragged.bib) == |groups|
    ensures x != dragged.bib && LevelOf(groups, x) < |groups| ==>
      LevelOf(PutIn(groups, t, dragged, withShift), x) == LevelPut(t, withShift, LevelOf(groups, x))
    ensures LevelOf(PutIn(groups, t, dragged, withShift), dragged.bib) == t
  {
    hide LevelOf, HasBib;
    var put := PutIn(groups, t, dragged, withShift);
    PutHas(groups[t], dragged, x);
    PutHas(groups[t], dragged, dragged.bib);
    PutHas([], dragged, x);
    PutHas([], dragged, dragged.bib);
    NoneHasNoBib(x);
    assert [] + [dragged] == [dragged];
    LevelIs(put, dragged.bib, t);
    if x != dragged.bib && LevelOf(groups, x) < |groups| {
      LevelIs(put, x, LevelPut(t, withShift, LevelOf(groups, x)));
    }
  }

  lemma PutHas(g: seq<RaceResult>, dragged: RaceResult, b: int)
    ensures HasBib(g + [dragged], b) <==> HasBib(g, b) || b == dragged.bib
  {
    assert forall r :: r in g + [dragged] <==> r in g || r == dragged;
  }

  lemma PutLevelled(groups: Groups, t: nat, dragged: RaceResult, withShift: bool)
    requires t < |groups| && Levelled(groups) && LevelOf(groups, dragged.bib) == |groups|
    ensures Levelled(PutIn(groups, t, dragged, withShift))
  {
    hide LevelOf, HasBib;
    var put := PutIn(groups, t, dragged, withShift);
    forall j, b | 0 <= j < |put| && HasBib(put[j], b) ensures LevelOf(put, b) == j {
      PutLevel(groups, t, dragged, withShift, b);
      PutHas(groups[t], dragged, b);
      PutHas([], dragged, b);
      NoneHasNoBib(b);
      assert [] + [dragged] == [dragged];
    }
  }

  // ---- From levels to ranks ----

  lemma {:induction false} InSomeGroup(groups: Groups, r: RaceResult) returns (i: nat)
    requires r in Flatten(groups)
    ensures i < |groups| && r in groups[i]
    decreases |groups|
  {
    var n := |groups| - 1;
    if r in groups[n] {
      i := n;
    } else {
      i := InSomeGroup(groups[..n], r);
    }
  }

  lemma {:induction false} InFlatten(groups: Groups, i: nat, r: RaceResult)
    requires i < |groups| && r in groups[i]
    ensures r in Flatten(groups)
    decreases |groups|
  {
    if i < |groups| - 1 {
      InFlatten(groups[..|groups| - 1], i, r);
    }
  }

  lemma PlaceBibs(g: seq<RaceResult>, rank: int, b: int)
    ensures HasBib(Place(g, rank), b) <==> HasBib(g, b)
  {
    hide Sort;
    var sorted := Sort(BibOrdering(), g);
    SortMembers(BibOrdering(), g);
    if HasBib(g, b) {
      var r: RaceResult :| r in g && r.bib == b;
      var i :| 0 <= i < |sorted| && sorted[i] == r;
      assert Place(g, rank)[i] in Place(g, rank);
    }
  }

  lemma MemberHasBib(g: seq<RaceResult>, r: RaceResult)
    requires r in g
    ensures HasBib(g, r.bib)
  {}

  lemma PlacedRow(g: seq<RaceResult>, rank: int, r: RaceResult)
    requires r in Place(g, rank)
    ensures r.finishRank == rank && HasBib(g, r.bib)
  {
    hide Place, HasBib;
    PlaceSize(g, rank);
    MemberHasBib(Place(g, rank), r);
    PlaceBibs(g, rank, r.bib);
  }

  /** A ranked row's finish rank tells the level of its bib. */
  lemma RankTellsLevel(groups: Groups, r: RaceResult)
    requires Levelled(groups) && r in Ranked(groups)
    ensures LevelOf(groups, r.bib) < |groups|
    ensures r.finishRank == 1 + Size(groups[..LevelOf(groups, r.bib)])
  {
    hide LevelOf, Place, Flatten, Placed, Size, HasBib;
    PlacedSize(groups);
    var i := InSomeGroup(Placed(groups), r);
    PlacedAt(groups, i);
    PlacedRow(groups[i], 1 + Size(groups[..i]), r);
  }

  lemma PlacedSize(groups: Groups)
    ensures |Placed(groups)| == |groups|
  {
    if groups != [] {
      PlacedAt(groups, 0);
    }
  }

  /** In a sorted list without repeated bibs a finisher's level is that of his rank. */
  lemma GroupedLevels(rows: seq<RaceResult>)
    requires FinishLine.Ascending(rows) && DistinctRows(rows)
    ensures Levelled(Group(rows))
    ensures forall r :: r in rows ==>
      LevelOf(Group(rows), r.bib) < |Group(rows)| == |GroupRanks(rows)| && r.finishRank == GroupRanks(rows)[LevelOf(Group(rows), r.bib)]
  {
    hide LevelOf, Group, GroupRanks, Flatten;
    var groups, ranks := Group(rows), GroupRanks(rows);
    GroupFlattens(rows);
    GroupsRise(rows);
    forall i, b | 0 <= i < |groups| && HasBib(groups[i], b) ensures LevelOf(groups, b) == i {
      var r: RaceResult :| r in groups[i] && r.bib == b;
      LevelOfRow(rows, groups, ranks, i, r);
    }
    forall r | r in rows ensures LevelOf(groups, r.bib) < |groups| && r.finishRank == ranks[LevelOf(groups, r.bib)] {
      var i := InSomeGroup(groups, r);
      LevelOfRow(rows, groups, ranks, i, r);
    }
  }

  lemma LevelOfRow(rows: seq<RaceResult>, groups: Groups, ranks: seq<int>, i: nat, r: RaceResult)
    requires DistinctRows(rows) && Flatten(groups) == rows && HasRanks(groups, ranks)
    requires i < |groups| && r in groups[i]
    ensures LevelOf(groups, r.bib) == i && r.finishRank == ranks[i]
  {
    hide Flatten, LevelOf;
    assert HasBib(groups[i], r.bib);
    var k := LevelOf(groups, r.bib);
    var s: RaceResult :| s in groups[k] && s.bib == r.bib;
    InFlatten(groups, i, r);
    InFlatten(groups, k, s);
    assert s == r;
  }

  // ---- What a drop does ----

  ghost predicate Droppable(finishers: seq<RaceResult>, from: nat, idx: nat) {
    && FinishLine.Ascending(finishers) && DistinctRows(finishers)
    && from < |finishers| && idx < |finishers| && from != idx
  }

  /** The new level of a finisher other than the dragged one. */
  function NewLevel(finishers: seq<RaceResult>, from: nat, idx: nat, withShift: bool, i: nat): nat
    requires from < |finishers| && idx < |finishers|
  {
    var groups := Group(finishers);
    var bib := finishers[from].bib;
    LevelPut(LevelAfter(groups, bib, LevelOf(groups, finishers[idx].bib)), withShift, LevelAfter(groups, bib, i))
  }

  lemma DroppedLevels(groups: Groups, d: RaceResult, targetBib: int, withShift: bool)
    requires Levelled(groups) && Full(groups) && targetBib != d.bib && LevelOf(groups, targetBib) < |groups|
    ensures var dropped := DropGroups(groups, d, targetBib, withShift);
      && dropped.Some? && Levelled(dropped.value) && Full(dropped.value)
      && LevelOf(dropped.value, d.bib) == LevelAfter(groups, d.bib, LevelOf(groups, targetBib))
  {
    hide LevelOf, LevelAfter, Levelled, Without, HasBib;
    var rest := Without(groups, d.bib);
    WithoutFull(groups, d.bib);
    WithoutLevelled(groups, d.bib);
    WithoutLevel(groups, d.bib, targetBib);
    PutLevelled(rest, LevelOf(rest, targetBib), d, withShift);
    PutLevel(rest, LevelOf(rest, targetBib), d, withShift, d.bib);
  }

  lemma DroppedLevel(groups: Groups, d: RaceResult, targetBib: int, withShift: bool, x: int)
    requires Levelled(groups) && targetBib != d.bib && LevelOf(groups, targetBib) < |groups|
    requires x != d.bib && LevelOf(groups, x) < |groups|
    ensures var dropped := DropGroups(groups, d, targetBib, withShift);
      && dropped.Some?
      && LevelOf(dropped.value, x) ==
         LevelPut(LevelAfter(groups, d.bib, LevelOf(groups, targetBib)), withShift, LevelAfter(groups, d.bib, LevelOf(groups, x)))
  {
    hide LevelOf, LevelAfter, Levelled, Without, HasBib, PutIn, LevelPut;
    var rest := Without(groups, d.bib);
    WithoutLevelled(groups, d.bib);
    WithoutLevel(groups, d.bib, targetBib);
    WithoutLevel(groups, d.bib, x);
    PutLevel(rest, LevelOf(rest, targetBib), d, withShift, x);
  }

  lemma DropLevels(finishers: seq<RaceResult>, from: nat, idx: nat, withShift: bool)
    requires Droppable(finishers, from, idx)
    ensures Drop(finishers, Some(from), idx, withShift).Some?
    ensures var groups := Group(finishers);
      var d := finishers[from];
      var dropped := DropGroups(groups, d, finishers[idx].bib, withShift);
      && dropped.Some? && Levelled(groups) && Levelled(dropped.value) && Full(dropped.value)
      && LevelOf(dropped.value, d.bib) == LevelAfter(groups, d.bib, LevelOf(groups, finishers[idx].bib))
      && forall x :: x != d.bib && LevelOf(groups, x) < |groups| ==>
           LevelOf(dropped.value, x) == NewLevel(finishers, from, idx, withShift, LevelOf(groups, x))
  {
    hide LevelOf, Group, LevelAfter, LevelPut, Levelled, DropGroups, FinishLine.Ascending;
    var groups, d, target := Group(finishers), finishers[from], finishers[idx];
    GroupedLevels(finishers);
    GroupFlattens(finishers);
    assert target in finishers && target.bib != d.bib;
    DroppedLevels(groups, d, target.bib, withShift);
    forall x | x != d.bib && LevelOf(groups, x) < |groups|
      ensures LevelOf(DropGroups(groups, d, target.bib, withShift).value, x) == NewLevel(finishers, from, idx, withShift, LevelOf(groups, x))
    {
      DroppedLevel(groups, d, target.bib, withShift, x);
    }
  }

  lemma WithoutFull(groups: Groups, bib: int)
    requires Full(groups)
    ensures Full(Without(groups, bib))
  {
    hide Others, LevelOf;
  }

  /** All other finishers keep their order, ties included. */
  lemma DropKeepsTheOthers(finishers: seq<RaceResult>, from: nat, idx: nat, withShift: bool,
                           x: RaceResult, y: RaceResult, x2: RaceResult, y2: RaceResult)
    requires Droppable(finishers, from, idx)
    requires x in finishers && y in finishers && x != finishers[from] && y != finishers[from]
    requires Drop(finishers, Some(from), idx, withShift).Some?
    requires x2 in Drop(finishers, Some(from), idx, withShift).value && x2.bib == x.bib
    requires y2 in Drop(finishers, Some(from), idx, withShift).value && y2.bib == y.bib
    ensures x2.finishRank < y2.finishRank <==> x.finishRank < y.finishRank
  {
    hide LevelOf, Group, GroupRanks, Levelled, DropGroups, Full, Ranked, Size, NewLevel;
    DropLevels(finishers, from, idx, withShift);
    GroupedLevels(finishers);
    var groups, d := Group(finishers), finishers[from];
    var dropped := DropGroups(groups, d, finishers[idx].bib, withShift).value;
    RankTellsLevel(dropped, x2);
    RankTellsLevel(dropped, y2);
    var a, b := LevelOf(groups, x.bib), LevelOf(groups, y.bib);
    SizeGrows(dropped, LevelOf(dropped, x2.bib), LevelOf(dropped, y2.bib));
    LevelsRise(finishers, from, idx, withShift, x, y);
    RanksRise(finishers, a, b);
  }

  lemma RanksRise(rows: seq<RaceResult>, a: nat, b: nat)
    requires FinishLine.Ascending(rows) && a < |GroupRanks(rows)| && b < |GroupRanks(rows)|
    ensures GroupRanks(rows)[a] < GroupRanks(rows)[b] <==> a < b
  {
    hide Group, GroupRanks;
    GroupsRise(rows);
  }

  /** The two level maps are strictly increasing on everyone but the dragged finisher. */
  lemma LevelsRise(finishers: seq<RaceResult>, from: nat, idx: nat, withShift: bool, x: RaceResult, y: RaceResult)
    requires Droppable(finishers, from, idx)
    requires x in finishers && y in finishers && x != finishers[from] && y != finishers[from]
    ensures var groups := Group(finishers);
      var a, b := LevelOf(groups, x.bib), LevelOf(groups, y.bib);
      NewLevel(finishers, from, idx, withShift, a) < NewLevel(finishers, from, idx, withShift, b) <==> a < b
  {
    hide LevelOf, Group, Others, GroupRanks;
    var groups, d := Group(finishers), finishers[from];
    GroupedLevels(finishers);
    VanishedHadNoOther(groups, d.bib, x.bib);
    VanishedHadNoOther(groups, d.bib, y.bib);
  }

  lemma VanishedHadNoOther(groups: Groups, bib: int, x: int)
    requires x != bib && LevelOf(groups, bib) < |groups|
    ensures Others(groups[LevelOf(groups, bib)], bib) == [] ==> LevelOf(groups, x) != LevelOf(groups, bib)
  {
    hide Others, HasBib;
    OthersSpec(groups[LevelOf(groups, bib)], bib);
    NoneHasNoBib(x);
  }

  /**
   * The dragged finisher ties with exactly the target's group when shift is held; otherwise he
   * stands alone, behind those who were ahead of the target and ahead of all others.
   */
  lemma DropPlacesTheDragged(finishers: seq<RaceResult>, from: nat, idx: nat, withShift: bool,
                             x: RaceResult, x2: RaceResult, d2: RaceResult)
    requires Droppable(finishers, from, idx)
    requires x in finishers && x != finishers[from]
    requires Drop(finishers, Some(from), idx, withShift).Some?
    requires x2 in Drop(finishers, Some(from), idx, withShift).value && x2.bib == x.bib
    requires d2 in Drop(finishers, Some(from), idx, withShift).value && d2.bib == finishers[from].bib
    ensures x2.finishRank < d2.finishRank <==> x.finishRank < finishers[idx].finishRank
    ensures withShift ==> (x2.finishRank == d2.finishRank <==> x.finishRank == finishers[idx].finishRank)
    ensures !withShift ==> x2.finishRank != d2.finishRank
  {
    hide LevelOf, Group, GroupRanks, Levelled, DropGroups, Full, Ranked, Size, LevelAfter;
    DropLevels(finishers, from, idx, withShift);
    GroupedLevels(finishers);
    var groups, d, target := Group(finishers), finishers[from], finishers[idx];
    var dropped := DropGroups(groups, d, target.bib, withShift).value;
    RankTellsLevel(dropped, x2);
    RankTellsLevel(dropped, d2);
    var a, t := LevelOf(groups, x.bib), LevelOf(groups, target.bib);
    SizeGrows(dropped, LevelOf(dropped, x2.bib), LevelOf(dropped, d2.bib));
    SizeGrows(dropped, LevelOf(dropped, d2.bib), LevelOf(dropped, x2.bib));
    AfterRises(finishers, from, x, target);
    AfterRises(finishers, from, target, x);
    RanksRise(finishers, a, t);
    RanksRise(finishers, t, a);
  }

  lemma AfterRises(finishers: seq<RaceResult>, from: nat, x: RaceResult, y: RaceResult)
    requires FinishLine.Ascending(finishers) && DistinctRows(finishers) && from < |finishers|
    requires x in finishers && y in finishers && x != finishers[from] && y != finishers[from]
    ensures var groups := Group(finishers);
      var a, b := LevelOf(groups, x.bib), LevelOf(groups, y.bib);
      LevelAfter(groups, finishers[from].bib, a) < LevelAfter(groups, finishers[from].bib, b) <==> a < b
  {
    hide LevelOf, Group, Others, GroupRanks;
    var groups, d := Group(finishers), finishers[from];
    GroupedLevels(finishers);
    VanishedHadNoOther(groups, d.bib, x.bib);
    VanishedHadNoOther(groups, d.bib, y.bib);
  }

  // ---- Nobody is lost ----

  function Unplaced(): RaceResult -> multiset<RaceResult> {
    (r: RaceResult) => multiset{r.(finishRank := 0)}
  }

  function Union(): (multiset<RaceResult>, multiset<RaceResult>) -> multiset<RaceResult> {
    (x, y) => x + y
  }

  /** The finishers of a list, apart from their finish ranks. */
  function Riders(rows: seq<RaceResult>): multiset<RaceResult> {
    Fold(Unplaced(), Union(), multiset{}, rows)
  }

  lemma UnionCommutes()
    ensures Commutes(Union())
  {
    forall x: multiset<RaceResult>, y: multiset<RaceResult>, z: multiset<RaceResult> ensures x + y + z == x + z + y {}
  }

  lemma RidersSnoc(rows: seq<RaceResult>, r: RaceResult)
    ensures Riders(rows + [r]) == Riders(rows) + multiset{r.(finishRank := 0)}
  {
    assert (rows + [r])[..|rows|] == rows;
  }

  lemma {:induction false} RidersAppend(p: seq<RaceResult>, q: seq<RaceResult>)
    ensures Riders(p + q) == Riders(p) + Riders(q)
    decreases |q|
  {
    hide Riders;
    if q == [] {
      assert p + q == p;
      NoRiders();
    } else {
      var front, last := q[..|q| - 1], q[|q| - 1];
      assert p + q == p + front + [last] && q == front + [last];
      RidersAppend(p, front);
      RidersSnoc(p + front, last);
      RidersSnoc(front, last);
    }
  }

  lemma NoRiders()
    ensures Riders([]) == multiset{}
  {}

  lemma {:induction false} RidersReranked(p: seq<RaceResult>, q: seq<RaceResult>)
    requires |p| == |q| && forall i :: 0 <= i < |p| ==> p[i].(finishRank := 0) == q[i].(finishRank := 0)
    ensures Riders(p) == Riders(q)
    decreases |p|
  {
    if p != [] {
      RidersReranked(p[..|p| - 1], q[..|q| - 1]);
    }
  }

  lemma RidersPlaced(g: seq<RaceResult>, rank: int)
    ensures Riders(Place(g, rank)) == Riders(g)
  {
    var sorted := Sort(BibOrdering(), g);
    SortSpec(BibOrdering(), g);
    UnionCommutes();
    FoldPermutation(Unplaced(), Union(), multiset{}, sorted, g);
    RidersReranked(Place(g, rank), sorted);
  }

  lemma {:induction false} RidersRanked(groups: Groups)
    ensures Riders(Ranked(groups)) == Riders(Flatten(groups))
    decreases |groups|
  {
    hide Riders, Place;
    if groups != [] {
      var front, last := groups[..|groups| - 1], groups[|groups| - 1];
      assert groups == front + [last];
      RidersRanked(front);
      RankedSnoc(front, last);
      RidersPlaced(last, 1 + Size(front));
      RidersAppend(Ranked(front), Place(last, 1 + Size(front)));
      RidersAppend(Flatten(front), last);
    }
  }

  lemma {:induction false} FlattenAppend(p: Groups, q: Groups)
    ensures Flatten(p + q) == Flatten(p) + Flatten(q)
    decreases |q|
  {
    if q == [] {
      assert p + q == p;
    } else {
      hide Flatten;
      var front, last := q[..|q| - 1], q[|q| - 1];
      assert q == front + [last];
      assert p + q == (p + front) + [last];
      FlattenAppend(p, front);
      FlattenSnoc(front, last);
      FlattenSnoc(p + front, last);
    }
  }

  lemma FlattenOne(g: seq<RaceResult>)
    ensures Flatten([g]) == g
  {
    assert [g][..0] == [];
  }

  /** A list of groups around the one at `i`. */
  lemma RidersAround(groups: Groups, i: nat)
    requires i < |groups|
    ensures Riders(Flatten(groups)) == Riders(Flatten(groups[..i])) + Riders(groups[i]) + Riders(Flatten(groups[i + 1..]))
  {
    hide Riders, Flatten;
    assert groups == groups[..i] + [groups[i]] + groups[i + 1..];
    FlattenAppend(groups[..i] + [groups[i]], groups[i + 1..]);
    FlattenAppend(groups[..i], [groups[i]]);
    FlattenOne(groups[i]);
    RidersAppend(Flatten(groups[..i]) + groups[i], Flatten(groups[i + 1..]));
    RidersAppend(Flatten(groups[..i]), groups[i]);
  }

  lemma {:induction false} OthersUnchanged(g: seq<RaceResult>, bib: int)
    requires !HasBib(g, bib)
    ensures Others(g, bib) == g
    decreases |g|
  {
    if g != [] {
      var front, last := g[..|g| - 1], g[|g| - 1];
      assert g == front + [last];
      OthersUnchanged(front, bib);
    }
  }

  /** Taking one finisher out of a group leaves all the others. */
  lemma {:induction false} RidersOthers(g: seq<RaceResult>, d: RaceResult)
    requires DistinctRows(g) && d in g
    ensures Riders(g) == Riders(Others(g, d.bib)) + multiset{d.(finishRank := 0)}
    decreases |g|
  {
    hide Riders;
    var front, last := g[..|g| - 1], g[|g| - 1];
    assert g == front + [last];
    RidersSnoc(front, last);
    if last == d {
      OthersUnchanged(front, d.bib);
      assert Others(g, d.bib) == front + [] == front;
    } else {
      RidersOthers(front, d);
      RidersSnoc(Others(front, d.bib), last);
    }
  }

  lemma DistinctParts(a: seq<RaceResult>, b: seq<RaceResult>)
    requires DistinctRows(a + b)
    ensures DistinctRows(a) && DistinctRows(b)
  {
    assert forall i :: 0 <= i < |a| ==> (a + b)[i] == a[i];
    assert forall i :: 0 <= i < |b| ==> (a + b)[|a| + i] == b[i];
  }

  lemma {:induction false} GroupDistinct(groups: Groups, i: nat)
    requires DistinctRows(Flatten(groups)) && i < |groups|
    ensures DistinctRows(groups[i])
    decreases |groups|
  {
    var n := |groups| - 1;
    var front := Flatten(groups[..n]);
    hide Flatten;
    assert groups == groups[..n] + [groups[n]];
    FlattenSnoc(groups[..n], groups[n]);
    DistinctParts(front, groups[n]);
    if i < n {
      GroupDistinct(groups[..n], i);
    }
  }

  lemma RidersWithout(groups: Groups, i: nat, d: RaceResult)
    requires DistinctRows(Flatten(groups)) && LevelOf(groups, d.bib) == i < |groups| && d in groups[i]
    ensures Riders(Flatten(Without(groups, d.bib))) + multiset{d.(finishRank := 0)} == Riders(Flatten(groups))
  {
    hide Riders, Flatten, Others, LevelOf, DistinctRows;
    var kept, rest := Others(groups[i], d.bib), Without(groups, d.bib);
    GroupDistinct(groups, i);
    RidersOthers(groups[i], d);
    RidersAround(groups, i);
    if kept == [] {
      NoRiders();
      FlattenAppend(groups[..i], groups[i + 1..]);
      RidersAppend(Flatten(groups[..i]), Flatten(groups[i + 1..]));
    } else {
      RidersAround(rest, i);
      assert rest[..i] == groups[..i] && rest[i + 1..] == groups[i + 1..];
    }
  }

  lemma RidersPutIn(groups: Groups, t: nat, d: RaceResult, withShift: bool)
    requires t < |groups|
    ensures Riders(Flatten(PutIn(groups, t, d, withShift))) == Riders(Flatten(groups)) + multiset{d.(finishRank := 0)}
  {
    hide Riders, Flatten;
    var put := PutIn(groups, t, d, withShift);
    RidersAround(put, t);
    assert put[..t] == groups[..t];
    if withShift {
      RidersAround(groups, t);
      assert put[t + 1..] == groups[t + 1..];
      RidersSnoc(groups[t], d);
    } else {
      assert put[t + 1..] == groups[t..] && groups == groups[..t] + groups[t..];
      FlattenAppend(groups[..t], groups[t..]);
      RidersAppend(Flatten(groups[..t]), Flatten(groups[t..]));
      RidersSnoc([], d);
      assert [] + [d] == [d];
      NoRiders();
    }
  }

  /** A drop keeps every finisher, ranks each 1 plus the number ahead, and leaves n + 1 as the next suggestion. */
  lemma DropKeepsEveryone(finishers: seq<RaceResult>, from: nat, idx: nat, withShift: bool)
    requires Droppable(finishers, from, idx)
    ensures Drop(finishers, Some(from), idx, withShift).Some?
    ensures var out := Drop(finishers, Some(from), idx, withShift).value;
      && Riders(out) == Riders(finishers)
      && NextSuggestedRank(out) == |out| + 1
      && forall k :: 0 <= k < |out| ==> out[k].finishRank == 1 + CountBelow(out, out[k].finishRank)
  {
    hide Riders, Flatten, LevelOf, Group, GroupRanks, Without, NextSuggestedRank, CountBelow, Ranked, Levelled, DistinctRows;
    var groups, d := Group(finishers), finishers[from];
    GroupFlattens(finishers);
    GroupedLevels(finishers);
    DropLevels(finishers, from, idx, withShift);
    var dropped := DropGroups(groups, d, finishers[idx].bib, withShift).value;
    var i := InSomeGroup(groups, d);
    GroupsRise(finishers);
    LevelOfRow(finishers, groups, GroupRanks(finishers), i, d);
    RidersWithout(groups, i, d);
    var rest := Without(groups, d.bib);
    RidersPutIn(rest, LevelOf(rest, finishers[idx].bib), d, withShift);
    RidersRanked(dropped);
    NextAfterRanking(dropped);
    forall k | 0 <= k < |Ranked(dropped)|
      ensures Ranked(dropped)[k].finishRank == 1 + CountBelow(Ranked(dropped), Ranked(dropped)[k].finishRank)
    {
      RankIsOnePlusNumberAhead(dropped, k);
    }
  }

  /** Nothing is committed exactly when nothing was dragged, or onto itself, or a position is outside the list. */
  lemma DropCommitsIff(finishers: seq<RaceResult>, from: Option<nat>, idx: nat, withShift: bool)
    requires FinishLine.Ascending(finishers) && DistinctRows(finishers)
    ensures Drop(finishers, from, idx, withShift).Some? <==>
      from.Some? && from.value < |finishers| && idx < |finishers| && from.value != idx
  {
    if from.Some? && from.value < |finishers| && idx < |finishers| && from.value != idx {
      DropLevels(finishers, from.value, idx, withShift);
    }
  }
}
