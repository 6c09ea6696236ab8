/**
 * Restricting activities to the bibs that are still allowed in the race. A plain DNF passes
 * through unfiltered, as in the source; the laws below say exactly what that leaves behind.
 */
module RaceActivities {
  import opened Wrappers
  import opened RaceResults
  import opened Sequences

  predicate Passes(bib: int, allowed: set<int>) {
    bib > 0 && bib in allowed
  }

  predicate IsPlainDnf(a: Activity) {
    a.DnfActivity? && !a.elimination
  }

  function Restrict(a: Activity, allowed: set<int>): Option<Activity> {
    match a
    case PointsSprint(id, isDeleted, lap, entries) =>
      var kept := Where(entries, (e: Entry) => Passes(e.bib, allowed));
      if kept == [] then None else Some(PointsSprint(id, isDeleted, lap, kept))
    case PointsRemoval(id, isDeleted, lap, bibs) =>
      var kept := Where(bibs, b => Passes(b, allowed));
      if kept == [] then None else Some(PointsRemoval(id, isDeleted, lap, kept))
    case DnfActivity(id, isDeleted, lap, elimination, bibs) =>
      if !elimination then Some(a)
      else
        var kept := Where(bibs, b => Passes(b, allowed));
        if kept == [] then None else Some(DnfActivity(id, isDeleted, lap, elimination, kept))
    case Dsq(_, _, bib) => if Passes(bib, allowed) then Some(a) else None
    case Dns(_, _, bib) => if Passes(bib, allowed) then Some(a) else None
  }

  function OptionSeq<T>(o: Option<T>): seq<T> {
    if o.Some? then [o.value] else []
  }

  function RestrictAll(activities: seq<Activity>, allowed: set<int>): seq<Activity>
    decreases |activities|
  {
    if activities == [] then []
    else RestrictAll(activities[..|activities| - 1], allowed) + OptionSeq(Restrict(activities[|activities| - 1], allowed))
  }

  /** The allowed set is built from any list of bibs, dropping those that are not positive. */
  method FilterActivitiesByAllowedBibs(activities: seq<Activity>, allowedBibs: seq<int>) returns (kept: seq<Activity>)
    ensures kept == RestrictAll(activities, set b | b in allowedBibs)
  {
    hide Restrict;
    var allowed: set<int> := {};
    for i := 0 to |allowedBibs|
      invariant forall b :: b in allowed <==> b > 0 && b in allowedBibs[..i]
    {
      if allowedBibs[i] > 0 {
        allowed := allowed + {allowedBibs[i]};
      }
    }
    assert allowedBibs[..] == allowedBibs;
    kept := [];
    for i := 0 to |activities|
      invariant kept == RestrictAll(activities[..i], allowed)
    {
      assert activities[..i + 1][..i] == activities[..i];
      kept := kept + OptionSeq(Restrict(activities[i], allowed));
    }
    assert activities[..|activities|] == activities;
    RestrictAllSame(activities, allowed, set b | b in allowedBibs);
  }

  lemma RestrictSame(a: Activity, p: set<int>, q: set<int>)
    requires forall b :: b in Mentions(a) ==> (b in p <==> b in q)
    ensures Restrict(a, p) == Restrict(a, q)
  {
    match a
    case PointsSprint(_, _, _, entries) =>
      assert forall e :: e in entries && e.bib > 0 ==> e.bib in Mentions(a);
      WhereSame(entries, (e: Entry) => Passes(e.bib, p), (e: Entry) => Passes(e.bib, q));
    case PointsRemoval(_, _, _, bibs) =>
      assert forall b :: b in bibs && b > 0 ==> b in Mentions(a);
      WhereSame(bibs, b => Passes(b, p), b => Passes(b, q));
    case DnfActivity(_, _, _, _, bibs) =>
      assert forall b :: b in bibs && b > 0 ==> b in Mentions(a);
      WhereSame(bibs, b => Passes(b, p), b => Passes(b, q));
    case Dsq(_, _, _) =>
    case Dns(_, _, _) =>
  }

  lemma {:induction false} RestrictAllSame(activities: seq<Activity>, p: set<int>, q: set<int>)
    requires forall a, b :: a in activities && !IsPlainDnf(a) && b in Mentions(a) ==> (b in p <==> b in q)
    ensures RestrictAll(activities, p) == RestrictAll(activities, q)
    decreases |activities|
  {
    hide Mentions, OptionSeq;
    if activities != [] {
      var n := |activities| - 1;
      RestrictAllSame(activities[..n], p, q);
      assert activities[n] in activities;
      if !IsPlainDnf(activities[n]) {
        hide Restrict;
        RestrictSame(activities[n], p, q);
      }
    }
  }

  // ---- Filtering twice ----

  lemma RestrictSnoc(s: seq<Activity>, a: Activity, allowed: set<int>)
    ensures RestrictAll(s + [a], allowed) == RestrictAll(s, allowed) + OptionSeq(Restrict(a, allowed))
  {
    hide Restrict, OptionSeq;
    assert (s + [a])[..|s|] == s;
  }

  lemma RestrictTwice(a: Activity, p: set<int>, q: set<int>)
    ensures Restrict(a, p * q) == if Restrict(a, p).Some? then Restrict(Restrict(a, p).value, q) else None
  {
    match a
    case PointsSprint(_, _, _, entries) =>
      WhereTwice(entries, (e: Entry) => Passes(e.bib, p), (e: Entry) => Passes(e.bib, q), (e: Entry) => Passes(e.bib, p * q));
    case PointsRemoval(_, _, _, bibs) =>
      WhereTwice(bibs, b => Passes(b, p), b => Passes(b, q), b => Passes(b, p * q));
    case DnfActivity(_, _, _, _, bibs) =>
      WhereTwice(bibs, b => Passes(b, p), b => Passes(b, q), b => Passes(b, p * q));
    case Dsq(_, _, _) =>
    case Dns(_, _, _) =>
  }

  /** Filtering by one allowed set and then another is filtering by their intersection. */
  lemma {:induction false} FilterTwice(activities: seq<Activity>, p: set<int>, q: set<int>)
    ensures RestrictAll(RestrictAll(activities, p), q) == RestrictAll(activities, p * q)
    decreases |activities|
  {
    hide Restrict;
    if activities != [] {
      var front, last := activities[..|activities| - 1], activities[|activities| - 1];
      FilterTwice(front, p, q);
      RestrictTwice(last, p, q);
      var once := RestrictAll(front, p);
      if Restrict(last, p).Some? {
        RestrictSnoc(once, Restrict(last, p).value, q);
      } else {
        assert once + [] == once;
      }
    }
  }

  // ---- What a filtered list still mentions ----

  /** The bibs of plain DNF activities: the filter never touches them. */
  function PlainDnfBibs(activities: seq<Activity>): set<int> {
    set a, b | a in activities && IsPlainDnf(a) && b in Mentions(a) :: b
  }

  lemma RestrictMentions(a: Activity, allowed: set<int>)
    ensures !IsPlainDnf(a) && Restrict(a, allowed).Some? ==>
      Mentions(Restrict(a, allowed).value) == Mentions(a) * allowed && !IsPlainDnf(Restrict(a, allowed).value)
    ensures !IsPlainDnf(a) && Restrict(a, allowed).None? ==> Mentions(a) * allowed == {}
    ensures IsPlainDnf(a) ==> Restrict(a, allowed) == Some(a)
  {
    match a
    case PointsSprint(_, _, _, entries) =>
      WhereMembers(entries, (e: Entry) => Passes(e.bib, allowed));
      var kept := Where(entries, (e: Entry) => Passes(e.bib, allowed));
      if kept == [] {
        forall b | b in Mentions(a) ensures b !in allowed {
          var e :| e in entries && e.bib == b;
          assert e !in kept;
        }
      }
    case PointsRemoval(_, _, _, bibs) =>
      RestrictBibs(bibs, allowed);
    case DnfActivity(_, _, _, _, bibs) =>
      RestrictBibs(bibs, allowed);
    case Dsq(_, _, _) =>
    case Dns(_, _, _) =>
  }

  lemma RestrictBibs(bibs: seq<int>, allowed: set<int>)
    ensures var kept := Where(bibs, b => Passes(b, allowed));
      (set b | b in kept && b > 0) == (set b | b in bibs && b > 0) * allowed
  {
    WhereMembers(bibs, b => Passes(b, allowed));
  }

  lemma PlainDnfSnoc(activities: seq<Activity>, a: Activity)
    ensures PlainDnfBibs(activities + [a]) == PlainDnfBibs(activities) + if IsPlainDnf(a) then Mentions(a) else {}
  {
    hide Mentions, IsPlainDnf;
    var all := activities + [a];
    assert forall x :: x in all <==> x in activities || x == a;
    assert forall b :: b in PlainDnfBibs(all) <==> b in PlainDnfBibs(activities) || (IsPlainDnf(a) && b in Mentions(a));
  }

  lemma {:induction false} FilterMentions(activities: seq<Activity>, allowed: set<int>)
    ensures Mentioned(RestrictAll(activities, allowed)) == PlainDnfBibs(activities) + Mentioned(activities) * allowed
    ensures PlainDnfBibs(RestrictAll(activities, allowed)) == PlainDnfBibs(activities)
    decreases |activities|
  {
    hide Mentions, Mentioned, PlainDnfBibs, Restrict;
    if activities == [] {
      NothingMentioned();
    } else {
      var front, last := activities[..|activities| - 1], activities[|activities| - 1];
      assert activities == front + [last];
      FilterMentions(front, allowed);
      RestrictMentions(last, allowed);
      MentionedSnoc(front, last);
      PlainDnfSnoc(front, last);
      var kept := RestrictAll(front, allowed);
      if Restrict(last, allowed).Some? {
        MentionedSnoc(kept, Restrict(last, allowed).value);
        PlainDnfSnoc(kept, Restrict(last, allowed).value);
      } else {
        assert kept + [] == kept;
      }
    }
  }

  lemma NothingMentioned()
    ensures Mentioned([]) == {} && PlainDnfBibs([]) == {}
  {}

  // ---- Removing one bib ----

  /** The bibs of all activities that the filter looks into. */
  function FilterableBibs(activities: seq<Activity>): set<int> {
    set a, b | a in activities && !IsPlainDnf(a) && b in Mentions(a) :: b
  }

  function RemoveBib(activities: seq<Activity>, bib: int): seq<Activity> {
    if bib <= 0 then activities else RestrictAll(activities, FilterableBibs(activities) - {bib})
  }

  method RemoveBibFromActivities(activities: seq<Activity>, bib: int) returns (kept: seq<Activity>)
    ensures kept == RemoveBib(activities, bib)
  {
    hide Mentions, ListedBibs, IsPlainDnf, RestrictAll;
    if bib <= 0 {
      return activities;
    }
    var allowed: seq<int> := [];
    for i := 0 to |activities|
      invariant forall b :: b in allowed <==> b in FilterableBibs(activities[..i]) && b != bib
    {
      var rows := if IsPlainDnf(activities[i]) then [] else ListedBibs(activities[i]);
      var before := allowed;
      for j := 0 to |rows|
        invariant forall b :: b in allowed <==> b in before || (b in rows[..j] && b > 0 && b != bib)
      {
        if rows[j] > 0 && rows[j] != bib {
          allowed := allowed + [rows[j]];
        }
      }
      assert rows[..|rows|] == rows;
      ListedAreMentioned(activities[i]);
      assert activities[..i + 1] == activities[..i] + [activities[i]];
      FilterableSnoc(activities[..i], activities[i]);
    }
    assert activities[..|activities|] == activities;
    SameElements(allowed, FilterableBibs(activities) - {bib});
    kept := FilterActivitiesByAllowedBibs(activities, allowed);
  }

  lemma FilterableSnoc(activities: seq<Activity>, a: Activity)
    ensures FilterableBibs(activities + [a]) == FilterableBibs(activities) + if IsPlainDnf(a) then {} else Mentions(a)
  {
    hide Mentions, IsPlainDnf;
    var all := activities + [a];
    assert forall x :: x in all <==> x in activities || x == a;
    assert forall b :: b in FilterableBibs(all) <==> b in FilterableBibs(activities) || (!IsPlainDnf(a) && b in Mentions(a));
  }

  /** Removing a bib is the same as restricting to any set that has every other bib of the list. */
  lemma RemoveBibDropsOnlyThat(activities: seq<Activity>, bib: int, others: set<int>)
    requires bib > 0
    requires Mentioned(activities) - {bib} <= others && bib !in others
    ensures RemoveBib(activities, bib) == RestrictAll(activities, others)
    ensures Mentioned(RemoveBib(activities, bib)) == PlainDnfBibs(activities) + (Mentioned(activities) - {bib})
    ensures bib in Mentioned(RemoveBib(activities, bib)) <==> bib in PlainDnfBibs(activities)
  {
    hide Mentions, IsPlainDnf, RestrictAll;
    RestrictAllSame(activities, FilterableBibs(activities) - {bib}, others);
    FilterMentions(activities, others);
  }
}
