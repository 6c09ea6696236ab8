/**
 * Ranking at the finish line: finishers in tie groups, and competition ranking (1, 1, 3) over them.
 */
module FinishLine {
  import opened RaceResults
  import opened Sorting

  type Groups = seq<seq<RaceResult>>

  // ---- Definitions ----

  /** Runs of equal finish rank. */
  function Group(rows: seq<RaceResult>): (groups: Groups)
    ensures rows != [] ==> groups != []
    decreases |rows|
  {
    if rows == [] then []
    else
      var n := |rows| - 1;
      var groups := Group(rows[..n]);
      if n > 0 && rows[n].finishRank == rows[n - 1].finishRank then
        groups[..|groups| - 1] + [groups[|groups| - 1] + [rows[n]]]
      else groups + [[rows[n]]]
  }

  function BibOrdering(): (RaceResult, RaceResult) -> int {
    (a: RaceResult, b: RaceResult) => a.bib - b.bib
  }

  /** One tie group: sorted by bib, all on the same rank. */
  function Place(group: seq<RaceResult>, rank: int): seq<RaceResult> {
    var sorted := Sort(BibOrdering(), group);
    seq(|sorted|, i requires 0 <= i < |sorted| => sorted[i].(finishRank := rank))
  }

  function Size(groups: Groups): nat
    decreases |groups|
  {
    if groups == [] then 0 else Size(groups[..|groups| - 1]) + |groups[|groups| - 1]|
  }

  function Placed(groups: Groups): Groups
    decreases |groups|
  {
    if groups == [] then []
    else
      var front := groups[..|groups| - 1];
      Placed(front) + [Place(groups[|groups| - 1], 1 + Size(front))]
  }

  function Flatten(groups: Groups): seq<RaceResult>
    decreases |groups|
  {
    if groups == [] then [] else Flatten(groups[..|groups| - 1]) + groups[|groups| - 1]
  }

  function Ranked(groups: Groups): seq<RaceResult> {
    Flatten(Placed(groups))
  }

  predicate Full(groups: Groups) {
    forall i :: 0 <= i < |groups| ==> groups[i] != []
  }

  // ---- The loops ----

  method GroupFinishersByFinishRank(sorted: seq<RaceResult>) returns (groups: Groups)
    ensures groups == Group(sorted)
  {
    groups := [];
    var lastRank := 0;
    for i := 0 to |sorted|
      invariant groups == Group(sorted[..i])
      invariant i > 0 ==> lastRank == sorted[i - 1].finishRank
    {
      var r := sorted[i];
      assert sorted[..i + 1][..i] == sorted[..i];
      if groups == [] || r.finishRank != lastRank {
        groups := groups + [[r]];
        lastRank := r.finishRank;
      } else {
        groups := groups[..|groups| - 1] + [groups[|groups| - 1] + [r]];
      }
    }
    assert sorted[..|sorted|] == sorted;
  }

  method ApplyCompetitionRanking(groups: Groups) returns (out: seq<RaceResult>)
    ensures out == Ranked(groups)
  {
    hide Ranked, Size, Place, Flatten;
    var nextRank := 1;
    NoGroups();
    out := [];
    for i := 0 to |groups|
      invariant nextRank == 1 + Size(groups[..i])
      invariant out == Ranked(groups[..i])
    {
      PlaceSize(groups[i], nextRank);
      var items := Sort(BibOrdering(), groups[i]);
      var before := out;
      for j := 0 to |items|
        invariant out == before + Place(groups[i], nextRank)[..j]
      {
        PlaceNext(groups[i], nextRank, j);
        out := out + [items[j].(finishRank := nextRank)];
      }
      assert Place(groups[i], nextRank)[..|items|] == Place(groups[i], nextRank);
      RankedSnoc(groups[..i], groups[i]);
      assert groups[..i + 1] == groups[..i] + [groups[i]];
      nextRank := nextRank + |items|;
    }
    assert groups[..|groups|] == groups;
  }

  lemma PlaceNext(g: seq<RaceResult>, rank: int, j: nat)
    requires j < |Sort(BibOrdering(), g)|
    ensures j < |Place(g, rank)|
    ensures Place(g, rank)[..j + 1] == Place(g, rank)[..j] + [Sort(BibOrdering(), g)[j].(finishRank := rank)]
  {}

  lemma RankedSnoc(groups: Groups, g: seq<RaceResult>)
    ensures Ranked(groups + [g]) == Ranked(groups) + Place(g, 1 + Size(groups))
    ensures Size(groups + [g]) == Size(groups) + |g|
    ensures Placed(groups + [g]) == Placed(groups) + [Place(g, 1 + Size(groups))]
  {
    assert (groups + [g])[..|groups|] == groups;
    FlattenSnoc(Placed(groups), Place(g, 1 + Size(groups)));
  }

  lemma FlattenSnoc(groups: Groups, g: seq<RaceResult>)
    ensures Flatten(groups + [g]) == Flatten(groups) + g
  {
    assert (groups + [g])[..|groups|] == groups;
  }

  lemma PlaceSize(g: seq<RaceResult>, rank: int)
    ensures |Place(g, rank)| == |g| && |Sort(BibOrdering(), g)| == |g|
    ensures forall i :: 0 <= i < |Place(g, rank)| ==> Place(g, rank)[i].finishRank == rank
  {
    SortSpec(BibOrdering(), g);
    assert |multiset(Sort(BibOrdering(), g))| == |multiset(g)|;
  }

  // ---- Grouping undoes flattening, and ranking is read back as the same groups ----

  predicate SameRank(rows: seq<RaceResult>, rank: int) {
    forall i :: 0 <= i < |rows| ==> rows[i].finishRank == rank
  }

  /** Adding one more run of a new rank adds one group. */
  lemma {:induction false} GroupRun(rows: seq<RaceResult>, run: seq<RaceResult>, rank: int)
    requires run != [] && SameRank(run, rank)
    requires rows == [] || rows[|rows| - 1].finishRank != rank
    ensures Group(rows + run) == Group(rows) + [run]
    decreases |run|
  {
    var n := |run| - 1;
    assert (rows + run)[..|rows + run| - 1] == rows + run[..n];
    if n == 0 {
      assert rows + run[..n] == rows;
      assert [run[0]] == run;
    } else {
      GroupRun(rows, run[..n], rank);
      assert run[..n] + [run[n]] == run;
    }
  }

  lemma {:induction false} PlacedAt(groups: Groups, i: nat)
    requires i < |groups|
    ensures |Placed(groups)| == |groups| && Placed(groups)[i] == Place(groups[i], 1 + Size(groups[..i]))
    decreases |groups|
  {
    hide Place, Size;
    var front, last := groups[..|groups| - 1], groups[|groups| - 1];
    if front != [] {
      PlacedAt(front, if i < |front| then i else 0);
    }
    if i < |front| {
      assert front[..i] == groups[..i];
    } else {
      assert front == groups[..i];
    }
  }

  lemma {:induction false} RanksBelow(groups: Groups)
    requires Full(groups)
    ensures |Ranked(groups)| == Size(groups)
    ensures forall i :: 0 <= i < |Ranked(groups)| ==> 1 <= Ranked(groups)[i].finishRank <= Size(groups)
    decreases |groups|
  {
    if groups != [] {
      var front, last := groups[..|groups| - 1], groups[|groups| - 1];
      assert groups == front + [last];
      RanksBelow(front);
      RankedSnoc(front, last);
      PlaceSize(last, 1 + Size(front));
    }
  }

  /** Regrouping the output of competition ranking returns exactly its groups. */
  lemma {:induction false} RegroupRanked(groups: Groups)
    requires Full(groups)
    ensures Group(Ranked(groups)) == Placed(groups)
    decreases |groups|
  {
    if groups != [] {
      var front, last := groups[..|groups| - 1], groups[|groups| - 1];
      assert groups == front + [last];
      RegroupRanked(front);
      RanksBelow(front);
      RankedSnoc(front, last);
      PlaceSize(last, 1 + Size(front));
      GroupRun(Ranked(front), Place(last, 1 + Size(front)), 1 + Size(front));
    }
  }

  /** Groups of any list are not empty, and put together again they are the list. */
  lemma {:induction false} GroupFlattens(rows: seq<RaceResult>)
    ensures Flatten(Group(rows)) == rows && Full(Group(rows))
    decreases |rows|
  {
    if rows != [] {
      hide Group, Flatten;
      var n := |rows| - 1;
      var front := Group(rows[..n]);
      assert rows == rows[..n] + [rows[n]];
      GroupFlattens(rows[..n]);
      GroupStep(rows);
      if n > 0 && rows[n].finishRank == rows[n - 1].finishRank {
        var m := |front| - 1;
        assert front == front[..m] + [front[m]];
        FlattenExtend(front[..m], front[m], rows[n]);
      } else {
        FlattenSnoc(front, [rows[n]]);
      }
    } else {
      NoGroups();
    }
  }

  lemma FlattenExtend(front: Groups, last: seq<RaceResult>, r: RaceResult)
    ensures Flatten(front + [last + [r]]) == Flatten(front + [last]) + [r]
  {
    hide Flatten;
    FlattenSnoc(front, last);
    FlattenSnoc(front, last + [r]);
  }

  predicate Ascending(rows: seq<RaceResult>) {
    forall i, j :: 0 <= i < j < |rows| ==> rows[i].finishRank <= rows[j].finishRank
  }

  /** `ranks[i]` is the one rank of group `i`, and the ranks rise. */
  predicate HasRanks(groups: Groups, ranks: seq<int>) {
    && |ranks| == |groups|
    && (forall i :: 0 <= i < |groups| ==> SameRank(groups[i], ranks[i]))
    && forall i, j :: 0 <= i < j < |ranks| ==> ranks[i] < ranks[j]
  }

  function GroupRanks(rows: seq<RaceResult>): (ranks: seq<int>)
    ensures rows != [] ==> ranks != [] && ranks[|ranks| - 1] == rows[|rows| - 1].finishRank
    decreases |rows|
  {
    if rows == [] then []
    else
      var n := |rows| - 1;
      GroupRanks(rows[..n]) + if n > 0 && rows[n].finishRank == rows[n - 1].finishRank then [] else [rows[n].finishRank]
  }

  lemma HasRanksExtend(groups: Groups, ranks: seq<int>, r: RaceResult)
    requires HasRanks(groups, ranks) && groups != [] && r.finishRank == ranks[|ranks| - 1]
    ensures HasRanks(groups[..|groups| - 1] + [groups[|groups| - 1] + [r]], ranks)
  {}

  lemma HasRanksSnoc(groups: Groups, ranks: seq<int>, r: RaceResult)
    requires HasRanks(groups, ranks) && (ranks == [] || ranks[|ranks| - 1] < r.finishRank)
    ensures HasRanks(groups + [[r]], ranks + [r.finishRank])
  {}

  /** In a list sorted by finish rank the groups have rising ranks. */
  lemma {:induction false} GroupsRise(rows: seq<RaceResult>)
    requires Ascending(rows)
    ensures HasRanks(Group(rows), GroupRanks(rows))
    decreases |rows|
  {
    hide Group, GroupRanks, HasRanks;
    if rows == [] {
      NoGroups();
      NoRanks();
    } else {
      var n := |rows| - 1;
      GroupsRise(rows[..n]);
      GroupStep(rows);
      if n > 0 {
        RisingRanks(rows[..n]);
        if rows[n].finishRank == rows[n - 1].finishRank {
          HasRanksExtend(Group(rows[..n]), GroupRanks(rows[..n]), rows[n]);
        } else {
          HasRanksSnoc(Group(rows[..n]), GroupRanks(rows[..n]), rows[n]);
        }
      } else {
        HasRanksSnoc([], [], rows[n]) by { NoRanks(); }
        NoGroups();
      }
    }
  }

  lemma NoRanks()
    ensures HasRanks([], [])
  {}

  lemma NoGroups()
    ensures Group([]) == [] && GroupRanks([]) == [] && Flatten([]) == [] && Ranked([]) == [] && Size([]) == 0
  {}

  lemma GroupStep(rows: seq<RaceResult>)
    requires rows != []
    ensures var n := |rows| - 1;
      var front := Group(rows[..n]);
      if n > 0 && rows[n].finishRank == rows[n - 1].finishRank then
        && front != [] && Group(rows) == front[..|front| - 1] + [front[|front| - 1] + [rows[n]]]
        && GroupRanks(rows) == GroupRanks(rows[..n])
      else Group(rows) == front + [[rows[n]]] && GroupRanks(rows) == GroupRanks(rows[..n]) + [rows[n].finishRank]
  {}

  lemma RisingRanks(rows: seq<RaceResult>)
    requires rows != []
    ensures GroupRanks(rows) != [] && GroupRanks(rows)[|GroupRanks(rows)| - 1] == rows[|rows| - 1].finishRank
  {}

  // ---- What a competition rank means ----

  function CountBelow(rows: seq<RaceResult>, rank: int): nat
    decreases |rows|
  {
    if rows == [] then 0
    else CountBelow(rows[..|rows| - 1], rank) + if rows[|rows| - 1].finishRank < rank then 1 else 0
  }

  lemma {:induction false} CountBelowRun(rows: seq<RaceResult>, run: seq<RaceResult>, runRank: int, rank: int)
    requires SameRank(run, runRank)
    ensures CountBelow(rows + run, rank) == CountBelow(rows, rank) + if runRank < rank then |run| else 0
    decreases |run|
  {
    if run == [] {
      assert rows + run == rows;
    } else {
      assert (rows + run)[..|rows + run| - 1] == rows + run[..|run| - 1];
      CountBelowRun(rows, run[..|run| - 1], runRank, rank);
    }
  }

  lemma CountBelowSnoc(front: Groups, last: seq<RaceResult>, rank: int)
    ensures CountBelow(Ranked(front + [last]), rank) == CountBelow(Ranked(front), rank) + if 1 + Size(front) < rank then |last| else 0
    ensures Size(front + [last]) == Size(front) + |last|
  {
    hide Place, Ranked, Size, CountBelow;
    RankedSnoc(front, last);
    PlaceSize(last, 1 + Size(front));
    CountBelowRun(Ranked(front), Place(last, 1 + Size(front)), 1 + Size(front), rank);
  }

  lemma {:induction false} CountBelowGroup(groups: Groups, m: nat, i: nat)
    requires Full(groups) && m <= |groups| && i < |groups|
    ensures CountBelow(Ranked(groups[..m]), 1 + Size(groups[..i])) == if m < i then Size(groups[..m]) else Size(groups[..i])
    decreases m
  {
    if m > 0 {
      hide Full, Ranked, Size, CountBelow;
      var n := m - 1;
      assert groups[..m] == groups[..n] + [groups[n]];
      CountBelowGroup(groups, n, i);
      CountBelowSnoc(groups[..n], groups[n], 1 + Size(groups[..i]));
      SizeGrows(groups, n, i);
    }
  }

  lemma {:induction false} SizeGrows(groups: Groups, i: nat, j: nat)
    requires Full(groups) && i <= |groups| && j <= |groups|
    ensures i < j <==> Size(groups[..i]) < Size(groups[..j])
    decreases i + j, if i < j then 0 else 1
  {
    if i < j {
      assert groups[..j] == groups[..j - 1] + [groups[j - 1]];
      RankedSnoc(groups[..j - 1], groups[j - 1]);
      SizeGrows(groups, i, j - 1);
    } else if j < i {
      SizeGrows(groups, j, i);
    }
  }

  function MaxRank(rows: seq<RaceResult>): nat
    decreases |rows|
  {
    if rows == [] then 0
    else
      var m := MaxRank(rows[..|rows| - 1]);
      if rows[|rows| - 1].finishRank > m then rows[|rows| - 1].finishRank else m
  }

  function CountAt(rows: seq<RaceResult>, rank: int): nat
    decreases |rows|
  {
    if rows == [] then 0
    else CountAt(rows[..|rows| - 1], rank) + if rows[|rows| - 1].finishRank == rank then 1 else 0
  }

  function NextSuggestedRank(finishers: seq<RaceResult>): int {
    var max := MaxRank(finishers);
    if finishers == [] || max <= 0 then 1
    else max + if CountAt(finishers, max) > 1 then CountAt(finishers, max) else 1
  }

  method ComputeNextSuggestedRank(finishers: seq<RaceResult>) returns (rank: int)
    ensures rank == NextSuggestedRank(finishers)
  {
    if finishers == [] {
      return 1;
    }
    var maxRank := 0;
    for i := 0 to |finishers|
      invariant maxRank == MaxRank(finishers[..i])
    {
      assert finishers[..i + 1][..i] == finishers[..i];
      if finishers[i].finishRank > maxRank {
        maxRank := finishers[i].finishRank;
      }
    }
    assert finishers[..|finishers|] == finishers;
    if maxRank <= 0 {
      return 1;
    }
    var countAtMax := 0;
    for i := 0 to |finishers|
      invariant countAtMax == CountAt(finishers[..i], maxRank)
    {
      assert finishers[..i + 1][..i] == finishers[..i];
      if finishers[i].finishRank == maxRank {
        countAtMax := countAtMax + 1;
      }
    }
    rank := maxRank + if countAtMax > 1 then countAtMax else 1;
  }

  lemma {:induction false} TopRun(rows: seq<RaceResult>, run: seq<RaceResult>, rank: int)
    requires SameRank(run, rank) && MaxRank(rows) < rank
    ensures MaxRank(rows + run) == (if run == [] then MaxRank(rows) else rank)
    ensures CountAt(rows + run, rank) == CountAt(rows, rank) + |run|
    decreases |run|
  {
    if run == [] {
      assert rows + run == rows;
    } else {
      assert (rows + run)[..|rows + run| - 1] == rows + run[..|run| - 1];
      TopRun(rows, run[..|run| - 1], rank);
    }
  }

  lemma {:induction false} NoneAbove(rows: seq<RaceResult>, top: nat)
    requires forall i :: 0 <= i < |rows| ==> rows[i].finishRank <= top
    ensures MaxRank(rows) <= top && forall rank :: rank > top ==> CountAt(rows, rank) == 0
    decreases |rows|
  {
    if rows != [] {
      NoneAbove(rows[..|rows| - 1], top);
    }
  }

  /** After competition ranking, `n` finishers leave `n + 1` as the next suggestion. */
  lemma NextAfterRanking(groups: Groups)
    requires Full(groups)
    ensures NextSuggestedRank(Ranked(groups)) == Size(groups) + 1 == |Ranked(groups)| + 1
  {
    RanksBelow(groups);
    if groups != [] {
      var front, last := groups[..|groups| - 1], groups[|groups| - 1];
      assert groups == front + [last];
      RankedSnoc(front, last);
      RanksBelow(front);
      NoneAbove(Ranked(front), Size(front));
      PlaceSize(last, 1 + Size(front));
      TopRun(Ranked(front), Place(last, 1 + Size(front)), 1 + Size(front));
    }
  }

  /** The rank of every finisher is 1 plus the number of finishers ranked ahead. */
  lemma RankIsOnePlusNumberAhead(groups: Groups, k: nat)
    requires Full(groups) && k < |Ranked(groups)|
    ensures Ranked(groups)[k].finishRank == 1 + CountBelow(Ranked(groups), Ranked(groups)[k].finishRank)
  {
    var i := GroupAt(groups, k);
    CountBelowGroup(groups, |groups|, i);
    assert groups[..|groups|] == groups;
  }

  /** Which group the `k`-th ranked row is in. */
  lemma {:induction false} GroupAt(groups: Groups, k: nat) returns (i: nat)
    requires k < |Ranked(groups)|
    ensures i < |groups| && Ranked(groups)[k].finishRank == 1 + Size(groups[..i])
    decreases |groups|
  {
    var front, last := groups[..|groups| - 1], groups[|groups| - 1];
    assert groups == front + [last];
    RankedSnoc(front, last);
    PlaceSize(last, 1 + Size(front));
    if k < |Ranked(front)| {
      i := GroupAt(front, k);
      assert front[..i] == groups[..i];
    } else {
      i := |groups| - 1;
    }
  }

  /** The list reads upwards: by rank, and by bib among those who share one. */
  lemma {:induction false} RankedReadsUpwards(groups: Groups, i: nat, j: nat)
    requires Full(groups) && i < j < |Ranked(groups)|
    ensures var a, b := Ranked(groups)[i], Ranked(groups)[j];
      a.finishRank < b.finishRank || (a.finishRank == b.finishRank && a.bib <= b.bib)
    decreases |groups|
  {
    hide Place, Ranked, Size;
    if groups == [] {
      NoGroups();
    } else {
      var front, last := groups[..|groups| - 1], groups[|groups| - 1];
      assert groups == front + [last];
      RankedSnoc(front, last);
      PlaceSize(last, 1 + Size(front));
      RanksBelow(front);
      if j < |Ranked(front)| {
        RankedReadsUpwards(front, i, j);
      } else if i >= |Ranked(front)| {
        PlaceReadsByBib(last, 1 + Size(front), i - |Ranked(front)|, j - |Ranked(front)|);
      }
    }
  }

  lemma PlaceReadsByBib(g: seq<RaceResult>, rank: int, i: nat, j: nat)
    requires i < j < |Place(g, rank)|
    ensures Place(g, rank)[i].bib <= Place(g, rank)[j].bib
  {
    SortSpec(BibOrdering(), g);
  }
}
