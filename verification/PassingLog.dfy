/**
 * The finish line log: a ring buffer of line crossings per race, with later messages correcting
 * entries in place, and an event stream from which listeners keep a copy.
 */
module PassingLogs {
  import opened Sorting
  import opened Wrappers

  const NO_RACE_ID := -1

  /** Durations are kept in milliseconds; formatting them is not part of this model. */
  datatype Passing = Passing(
    seqNo: nat,
    raceId: int,
    regNumber: string,
    number: string,
    firstName: string,
    lastName: string,
    timeOfDayMs: int,
    elapsedMs: int,
    crossingMs: int,
    lapTimeMs: int,
    totalTimeMs: int,
    lap: Option<int>,
    position: Option<int>,
    correctionMs: Option<int>)

  datatype Rider = Rider(number: string, firstName: string, lastName: string)

  /** What the log reads of the store's current race. */
  datatype RaceView = RaceView(id: int, timeOfDayMs: int, elapsedMs: int, riders: map<string, Rider>)

  datatype Msg =
    | PassingInfo(regNumber: string, lapTimeMs: int, totalTimeMs: int)
    | RaceInfo(regNumber: string, position: int, laps: int, totalTimeMs: int)
    | Correction(regNumber: string, lap: int, correctedTotalTimeMs: int, deltaMs: int)
    | OtherMsg

  datatype PassingEvent = PassingEvent(raceId: int, passing: Passing) | ResetEvent

  /** Races in order of creation, each with its entries in order of arrival. */
  datatype RaceLog = RaceLog(id: int, entries: seq<Passing>)
  datatype Log = Log(races: seq<RaceLog>, seqNo: nat)

  // ---- The steps on values ----

  /** The last `n` elements; `None` keeps all. */
  function LastN<T>(s: seq<T>, n: Option<nat>): seq<T> {
    if n.Some? && |s| > n.value then s[|s| - n.value..] else s
  }

  function RaceIndex(races: seq<RaceLog>, id: int): (i: nat)
    ensures i <= |races|
    ensures i < |races| ==> races[i].id == id
    ensures forall j :: 0 <= j < i ==> races[j].id != id
    decreases |races|
  {
    if races == [] || races[0].id == id then 0 else 1 + RaceIndex(races[1..], id)
  }

  function Entries(log: Log, id: int): seq<Passing> {
    var i := RaceIndex(log.races, id);
    if i < |log.races| then log.races[i].entries else []
  }

  /** Index of the last entry satisfying `p`, or -1. */
  function LastIndex(entries: seq<Passing>, p: Passing -> bool): (i: int)
    ensures -1 <= i < |entries|
    ensures i >= 0 ==> p(entries[i])
    ensures forall j :: i < j < |entries| ==> !p(entries[j])
    decreases |entries|
  {
    if entries == [] then -1
    else if p(entries[|entries| - 1]) then |entries| - 1
    else LastIndex(entries[..|entries| - 1], p)
  }

  function Append(log: Log, perRace: Option<nat>, maxRaces: nat, p: Passing): Log {
    var i := RaceIndex(log.races, p.raceId);
    if i < |log.races| then
      log.(races := log.races[i := RaceLog(p.raceId, LastN(log.races[i].entries + [p], perRace))])
    else
      log.(races := LastN(log.races + [RaceLog(p.raceId, LastN([p], perRace))], Some(maxRaces)))
  }

  function NewPassing(seqNo: nat, race: RaceView, msg: Msg): Passing
    requires msg.PassingInfo?
  {
    var rider := if msg.regNumber in race.riders then race.riders[msg.regNumber] else Rider("", "", "");
    Passing(seqNo, race.id, msg.regNumber,
            if rider.number == "" then msg.regNumber else rider.number, rider.firstName, rider.lastName,
            race.timeOfDayMs, race.elapsedMs, msg.totalTimeMs, msg.lapTimeMs, msg.totalTimeMs, None, None, None)
  }

  /** What the `$G` message does to the rider's latest entry, if anything. */
  function Ranked(p: Passing, msg: Msg): Option<Passing>
    requires msg.RaceInfo?
  {
    if p.position.None? then Some(p.(position := Some(msg.position), lap := Some(msg.laps)))
    else if p.lap == Some(msg.laps) && p.crossingMs == msg.totalTimeMs && p.position != Some(msg.position) then
      Some(p.(position := Some(msg.position)))
    else None
  }

  function Corrected(p: Passing, msg: Msg): Passing
    requires msg.Correction?
  {
    p.(correctionMs := Some(msg.deltaMs), totalTimeMs := msg.correctedTotalTimeMs, crossingMs := msg.correctedTotalTimeMs)
  }

  predicate Concerns(msg: Msg, p: Passing) {
    match msg
    case RaceInfo(regNumber, _, _, _) => p.regNumber == regNumber
    case Correction(regNumber, lap, _, _) => p.regNumber == regNumber && p.lap == Some(lap)
    case PassingInfo(_, _, _) => false
    case OtherMsg => false
  }

  function Effect(msg: Msg, p: Passing): (r: Option<Passing>)
    ensures r.Some? ==> r.value.seqNo == p.seqNo && r.value.raceId == p.raceId
  {
    match msg
    case RaceInfo(_, _, _, _) => Ranked(p, msg)
    case Correction(_, _, _, _) => Some(Corrected(p, msg))
    case PassingInfo(_, _, _) => None
    case OtherMsg => None
  }

  datatype Change = Change(i: nat, passing: Passing)

  /** The entry a message changes and its new value: the last one it concerns. */
  function ChangeIn(entries: seq<Passing>, msg: Msg): (r: Option<Change>)
    ensures r.Some? ==> r.value.i < |entries| && Effect(msg, entries[r.value.i]) == Some(r.value.passing)
  {
    var i := LastIndex(entries, p => Concerns(msg, p));
    if i < 0 || Effect(msg, entries[i]).None? then None else Some(Change(i, Effect(msg, entries[i]).value))
  }

  function SetEntry(log: Log, id: int, i: int, p: Passing): Log
    requires 0 <= i < |Entries(log, id)|
  {
    var k := RaceIndex(log.races, id);
    log.(races := log.races[k := RaceLog(id, log.races[k].entries[i := p])])
  }

  function Amend(log: Log, id: int, msg: Msg): (Log, Option<PassingEvent>) {
    var change := ChangeIn(Entries(log, id), msg);
    if change.None? then (log, None)
    else (SetEntry(log, id, change.value.i, change.value.passing), Some(PassingEvent(id, change.value.passing)))
  }

  function Observe(log: Log, perRace: Option<nat>, maxRaces: nat, race: RaceView, msg: Msg): (Log, Option<PassingEvent>) {
    if race.id == NO_RACE_ID then (log, None)
    else if msg.PassingInfo? then
      var p := NewPassing(log.seqNo + 1, race, msg);
      (Append(log.(seqNo := log.seqNo + 1), perRace, maxRaces, p), Some(PassingEvent(race.id, p)))
    else Amend(log, race.id, msg)
  }

  function Cleared(log: Log): Log {
    log.(races := [])
  }

  datatype Step = ObserveStep(race: RaceView, msg: Msg) | ClearStep

  function Apply(log: Log, perRace: Option<nat>, maxRaces: nat, step: Step): (Log, Option<PassingEvent>) {
    match step
    case ObserveStep(race, msg) => Observe(log, perRace, maxRaces, race, msg)
    case ClearStep => (Cleared(log), Some(ResetEvent))
  }

  function Run(perRace: Option<nat>, maxRaces: nat, steps: seq<Step>): Log
    decreases |steps|
  {
    if steps == [] then Log([], 0)
    else Apply(Run(perRace, maxRaces, steps[..|steps| - 1]), perRace, maxRaces, steps[|steps| - 1]).0
  }

  // ---- The ring buffer is the tail of an unbounded log ----

  ghost predicate Tails(ring: seq<RaceLog>, ideal: seq<RaceLog>, n: nat) {
    && |ring| == |ideal|
    && forall i :: 0 <= i < |ring| ==> ring[i].id == ideal[i].id && ring[i].entries == LastN(ideal[i].entries, Some(n))
  }

  ghost predicate Rings(ring: Log, ideal: Log, n: nat) {
    ring.seqNo == ideal.seqNo && Tails(ring.races, ideal.races, n)
  }

  lemma SameRaceIndex(p: seq<RaceLog>, q: seq<RaceLog>, id: int)
    requires |p| == |q| && forall i :: 0 <= i < |p| ==> p[i].id == q[i].id
    ensures RaceIndex(p, id) == RaceIndex(q, id)
  {}

  lemma LastNAppend<T>(s: seq<T>, x: T, n: nat)
    ensures LastN(LastN(s, Some(n)) + [x], Some(n)) == LastN(s + [x], Some(n))
  {}

  lemma LastIndexUnique(s: seq<Passing>, p: Passing -> bool, i: int)
    requires -1 <= i < |s| && (i >= 0 ==> p(s[i]))
    requires forall j :: i < j < |s| ==> !p(s[j])
    ensures LastIndex(s, p) == i
  {
    hide LastIndex;
    var k := LastIndex(s, p);
    assert !(k < i) && !(i < k);
  }

  /** Looking for the last match in the tail finds it, unless it lies before the tail. */
  lemma LastIndexOfTail(all: seq<Passing>, n: nat, p: Passing -> bool)
    ensures var tail := LastN(all, Some(n));
      var gone := |all| - |tail|;
      LastIndex(tail, p) == if LastIndex(all, p) >= gone then LastIndex(all, p) - gone else -1
  {
    hide LastIndex;
    var tail := LastN(all, Some(n));
    var gone := |all| - |tail|;
    var i := LastIndex(all, p);
    var k := if i >= gone then i - gone else -1;
    forall j | k < j < |tail| ensures !p(tail[j]) {
      assert tail[j] == all[gone + j];
    }
    LastIndexUnique(tail, p, k);
  }

  lemma ChangeOfTail(all: seq<Passing>, n: nat, msg: Msg)
    ensures var gone := |all| - |LastN(all, Some(n))|;
      var change := ChangeIn(all, msg);
      ChangeIn(LastN(all, Some(n)), msg) ==
        if change.Some? && change.value.i >= gone then Some(Change(change.value.i - gone, change.value.passing)) else None
  {
    hide LastIndex, Concerns, Effect;
    LastIndexOfTail(all, n, p => Concerns(msg, p));
  }

  lemma UpdateOfTail(all: seq<Passing>, n: nat, i: nat, p: Passing)
    requires i < |all|
    ensures var tail := LastN(all, Some(n));
      var gone := |all| - |tail|;
      LastN(all[i := p], Some(n)) == if i >= gone then tail[i - gone := p] else tail
  {}

  lemma TailsSnoc(ring: seq<RaceLog>, ideal: seq<RaceLog>, n: nat, x: RaceLog, y: RaceLog)
    requires Tails(ring, ideal, n) && x.id == y.id && x.entries == LastN(y.entries, Some(n))
    ensures Tails(ring + [x], ideal + [y], n)
  {
    hide LastN;
  }

  lemma TailsLastN(ring: seq<RaceLog>, ideal: seq<RaceLog>, n: nat, maxRaces: nat)
    requires Tails(ring, ideal, n)
    ensures Tails(LastN(ring, Some(maxRaces)), LastN(ideal, Some(maxRaces)), n)
  {
    var gone := |ring| - |LastN(ring, Some(maxRaces))|;
    forall i | 0 <= i < |ring| - gone
      ensures LastN(ring, Some(maxRaces))[i] == ring[gone + i] && LastN(ideal, Some(maxRaces))[i] == ideal[gone + i]
    {}
  }

  lemma RingsAppend(ring: Log, ideal: Log, n: nat, maxRaces: nat, p: Passing)
    requires Rings(ring, ideal, n)
    ensures Rings(Append(ring, Some(n), maxRaces, p), Append(ideal, None, maxRaces, p), n)
  {
    hide LastN;
    SameRaceIndex(ring.races, ideal.races, p.raceId);
    var k := RaceIndex(ring.races, p.raceId);
    if k < |ring.races| {
      LastNAppend(ideal.races[k].entries, p, n);
      LastNAll(ideal.races[k].entries + [p]);
    } else {
      hide Tails;
      LastNAll([p]);
      var x, y := RaceLog(p.raceId, LastN([p], Some(n))), RaceLog(p.raceId, [p]);
      TailsSnoc(ring.races, ideal.races, n, x, y);
      TailsLastN(ring.races + [x], ideal.races + [y], n, maxRaces);
    }
  }

  lemma LastNAll<T>(s: seq<T>)
    ensures LastN(s, None) == s
  {}

  lemma RingsSet(ring: Log, ideal: Log, n: nat, id: int, i: nat, p: Passing)
    requires Rings(ring, ideal, n) && i < |Entries(ideal, id)|
    ensures var gone := |Entries(ideal, id)| - |LastN(Entries(ideal, id), Some(n))|;
      && |Entries(ring, id)| == |Entries(ideal, id)| - gone
      && Rings(if i >= gone then SetEntry(ring, id, i - gone, p) else ring, SetEntry(ideal, id, i, p), n)
  {
    hide LastN;
    SameRaceIndex(ring.races, ideal.races, id);
    LastNLength(Entries(ideal, id), n);
    UpdateOfTail(Entries(ideal, id), n, i, p);
  }

  lemma LastNLength<T>(s: seq<T>, n: nat)
    ensures |LastN(s, Some(n))| <= |s|
  {}

  lemma RingsAmend(ring: Log, ideal: Log, n: nat, id: int, msg: Msg)
    requires Rings(ring, ideal, n)
    ensures Rings(Amend(ring, id, msg).0, Amend(ideal, id, msg).0, n)
  {
    hide Rings, ChangeIn, Entries, SetEntry, LastN;
    RingsEntries(ring, ideal, n, id);
    ChangeOfTail(Entries(ideal, id), n, msg);
    var change := ChangeIn(Entries(ideal, id), msg);
    if change.Some? {
      RingsSet(ring, ideal, n, id, change.value.i, change.value.passing);
    }
  }

  /** One step keeps the ring buffer equal to the tail of the log that never drops an entry. */
  lemma RingsStep(ring: Log, ideal: Log, n: nat, maxRaces: nat, step: Step)
    requires Rings(ring, ideal, n)
    ensures Rings(Apply(ring, Some(n), maxRaces, step).0, Apply(ideal, None, maxRaces, step).0, n)
  {
    hide Amend, NewPassing, Append, Tails;
    if step.ClearStep? {
      NoTails(n);
    } else if step.msg.PassingInfo? {
      var seqNo := ring.seqNo + 1;
      RingsAppend(ring.(seqNo := seqNo), ideal.(seqNo := seqNo), n, maxRaces, NewPassing(seqNo, step.race, step.msg));
    } else {
      RingsAmend(ring, ideal, n, step.race.id, step.msg);
    }
  }

  lemma NoTails(n: nat)
    ensures Tails([], [], n)
  {}

  lemma RingsEntries(ring: Log, ideal: Log, n: nat, id: int)
    requires Rings(ring, ideal, n)
    ensures Entries(ring, id) == LastN(Entries(ideal, id), Some(n))
  {
    SameRaceIndex(ring.races, ideal.races, id);
  }

  lemma PassingRaceId(seqNo: nat, race: RaceView, msg: Msg)
    requires msg.PassingInfo?
    ensures NewPassing(seqNo, race, msg).raceId == race.id && NewPassing(seqNo, race, msg).seqNo == seqNo
  {}

  /** In every run each race holds exactly the last `n` of the passings it ever got, as corrected since. */
  lemma {:induction false} RunRings(n: nat, maxRaces: nat, steps: seq<Step>)
    ensures Rings(Run(Some(n), maxRaces, steps), Run(None, maxRaces, steps), n)
    decreases |steps|
  {
    if steps == [] {
      NoTails(n);
    } else {
      hide Rings, Apply;
      RunRings(n, maxRaces, steps[..|steps| - 1]);
      RingsStep(Run(Some(n), maxRaces, steps[..|steps| - 1]), Run(None, maxRaces, steps[..|steps| - 1]), n, maxRaces, steps[|steps| - 1]);
    }
  }

  // ---- What every run keeps ----

  predicate EntriesOk(entries: seq<Passing>, id: int, seqNo: nat) {
    && (forall i, j :: 0 <= i < j < |entries| ==> entries[i].seqNo < entries[j].seqNo)
    && forall i :: 0 <= i < |entries| ==> entries[i].raceId == id && 1 <= entries[i].seqNo <= seqNo
  }

  predicate RaceOk(r: RaceLog, perRace: Option<nat>, seqNo: nat) {
    EntriesOk(r.entries, r.id, seqNo) && (perRace.Some? ==> |r.entries| <= perRace.value)
  }

  predicate RacesOk(races: seq<RaceLog>, perRace: Option<nat>, seqNo: nat) {
    && (forall i, j :: 0 <= i < j < |races| ==> races[i].id != races[j].id)
    && forall i :: 0 <= i < |races| ==> RaceOk(races[i], perRace, seqNo)
  }

  predicate Inv(log: Log, perRace: Option<nat>, maxRaces: nat) {
    |log.races| <= maxRaces && RacesOk(log.races, perRace, log.seqNo)
  }

  lemma LastNAt<T>(s: seq<T>, n: Option<nat>)
    ensures |LastN(s, n)| <= |s| && (n.Some? ==> |LastN(s, n)| <= n.value)
    ensures forall i :: 0 <= i < |LastN(s, n)| ==> LastN(s, n)[i] == s[|s| - |LastN(s, n)| + i]
  {}

  lemma AppendRaceOk(r: RaceLog, perRace: Option<nat>, seqNo: nat, p: Passing)
    requires RaceOk(r, perRace, seqNo) && p.raceId == r.id && p.seqNo == seqNo + 1
    ensures RaceOk(RaceLog(r.id, LastN(r.entries + [p], perRace)), perRace, seqNo + 1)
  {
    hide LastN;
    var all := r.entries + [p];
    assert EntriesOk(all, r.id, seqNo + 1);
    LastNAt(all, perRace);
  }

  lemma LaterRaceOk(r: RaceLog, perRace: Option<nat>, seqNo: nat)
    requires RaceOk(r, perRace, seqNo)
    ensures RaceOk(r, perRace, seqNo + 1)
  {}

  lemma SetRaceOk(r: RaceLog, perRace: Option<nat>, seqNo: nat, i: nat, p: Passing)
    requires RaceOk(r, perRace, seqNo) && i < |r.entries|
    requires p.seqNo == r.entries[i].seqNo && p.raceId == r.entries[i].raceId
    ensures RaceOk(RaceLog(r.id, r.entries[i := p]), perRace, seqNo)
  {}

  lemma LaterRacesOk(races: seq<RaceLog>, perRace: Option<nat>, seqNo: nat)
    requires RacesOk(races, perRace, seqNo)
    ensures RacesOk(races, perRace, seqNo + 1)
  {
    hide RaceOk;
    forall i | 0 <= i < |races| ensures RaceOk(races[i], perRace, seqNo + 1) {
      LaterRaceOk(races[i], perRace, seqNo);
    }
  }

  lemma RacesOkLastN(races: seq<RaceLog>, perRace: Option<nat>, seqNo: nat, n: nat)
    requires RacesOk(races, perRace, seqNo)
    ensures RacesOk(LastN(races, Some(n)), perRace, seqNo) && |LastN(races, Some(n))| <= n
  {
    hide RaceOk, LastN;
    LastNAt(races, Some(n));
  }

  lemma AppendInv(log: Log, perRace: Option<nat>, maxRaces: nat, p: Passing)
    requires Inv(log, perRace, maxRaces) && p.seqNo == log.seqNo + 1
    ensures Inv(Append(log.(seqNo := log.seqNo + 1), perRace, maxRaces, p), perRace, maxRaces)
  {
    hide RaceOk, LastN;
    LaterRacesOk(log.races, perRace, log.seqNo);
    var k := RaceIndex(log.races, p.raceId);
    if k < |log.races| {
      AppendRaceOk(log.races[k], perRace, log.seqNo, p);
    } else {
      EmptyRaceOk(p.raceId, perRace, log.seqNo);
      AppendRaceOk(RaceLog(p.raceId, []), perRace, log.seqNo, p);
      assert [] + [p] == [p];
      RacesOkLastN(log.races + [RaceLog(p.raceId, LastN([p], perRace))], perRace, log.seqNo + 1, maxRaces);
    }
  }

  lemma EmptyRaceOk(id: int, perRace: Option<nat>, seqNo: nat)
    ensures RaceOk(RaceLog(id, []), perRace, seqNo)
  {}

  lemma ApplyInv(log: Log, perRace: Option<nat>, maxRaces: nat, step: Step)
    requires Inv(log, perRace, maxRaces)
    ensures Inv(Apply(log, perRace, maxRaces, step).0, perRace, maxRaces)
  {
    hide Append, ChangeIn, NewPassing, RaceOk;
    if step.ObserveStep? && step.race.id != NO_RACE_ID {
      if step.msg.PassingInfo? {
        PassingRaceId(log.seqNo + 1, step.race, step.msg);
        AppendInv(log, perRace, maxRaces, NewPassing(log.seqNo + 1, step.race, step.msg));
      } else {
        var change := ChangeIn(Entries(log, step.race.id), step.msg);
        if change.Some? {
          var k := RaceIndex(log.races, step.race.id);
          SetRaceOk(log.races[k], perRace, log.seqNo, change.value.i, change.value.passing);
        }
      }
    }
  }

  /** At most `maxRaces` races and `n` entries each, and `seq` strictly increasing, in every run. */
  lemma {:induction false} RunInv(n: nat, maxRaces: nat, steps: seq<Step>)
    ensures Inv(Run(Some(n), maxRaces, steps), Some(n), maxRaces)
    decreases |steps|
  {
    if steps != [] {
      hide Apply, Inv;
      RunInv(n, maxRaces, steps[..|steps| - 1]);
      ApplyInv(Run(Some(n), maxRaces, steps[..|steps| - 1]), Some(n), maxRaces, steps[|steps| - 1]);
    }
  }

  // ---- Listeners keep an identical copy ----

  /** A listener's copy: passings by `seq`. */
  function Upsert(mirror: map<nat, Passing>, event: Option<PassingEvent>): map<nat, Passing> {
    match event
    case None => mirror
    case Some(PassingEvent(_, p)) => mirror[p.seqNo := p]
    case Some(ResetEvent) => map[]
  }

  predicate Mirrors(mirror: map<nat, Passing>, log: Log) {
    forall i, j :: 0 <= i < |log.races| && 0 <= j < |log.races[i].entries| ==>
      var p := log.races[i].entries[j];
      p.seqNo in mirror && mirror[p.seqNo] == p
  }

  lemma MirrorAppend(mirror: map<nat, Passing>, log: Log, perRace: Option<nat>, maxRaces: nat, p: Passing)
    requires Inv(log, perRace, maxRaces) && Mirrors(mirror, log) && p.seqNo == log.seqNo + 1
    ensures Mirrors(mirror[p.seqNo := p], Append(log.(seqNo := log.seqNo + 1), perRace, maxRaces, p))
  {
    var races := Append(log, perRace, maxRaces, p).races;
    forall i, j | 0 <= i < |races| && 0 <= j < |races[i].entries|
      ensures var q := races[i].entries[j];
        q == p || exists a, b :: 0 <= a < |log.races| && 0 <= b < |log.races[a].entries| && q == log.races[a].entries[b]
    {
      AppendOldOrNew(log, perRace, maxRaces, p, i, j);
    }
  }

  lemma AppendOldOrNew(log: Log, perRace: Option<nat>, maxRaces: nat, p: Passing, i: nat, j: nat)
    requires var races := Append(log, perRace, maxRaces, p).races;
      i < |races| && j < |races[i].entries|
    ensures var q := Append(log, perRace, maxRaces, p).races[i].entries[j];
      q == p || exists a, b :: 0 <= a < |log.races| && 0 <= b < |log.races[a].entries| && q == log.races[a].entries[b]
  {
    var k := RaceIndex(log.races, p.raceId);
    var r := Append(log, perRace, maxRaces, p).races[i];
    if k < |log.races| {
      if i == k {
        var all := log.races[k].entries + [p];
        assert r.entries[j] == all[|all| - |r.entries| + j];
      } else {
        assert r == log.races[i];
      }
    } else {
      var all := log.races + [RaceLog(p.raceId, LastN([p], perRace))];
      var a := |all| - |Append(log, perRace, maxRaces, p).races| + i;
      assert r == all[a];
      if a < |log.races| {
        assert r.entries[j] == log.races[a].entries[j];
      } else {
        assert r.entries[j] in [p];
      }
    }
  }

  /** An amended entry reaches the copy, and no other entry shares its `seq`. */
  lemma MirrorAmend(mirror: map<nat, Passing>, log: Log, perRace: Option<nat>, maxRaces: nat, id: int, i: nat, p: Passing)
    requires Inv(log, perRace, maxRaces) && Mirrors(mirror, log)
    requires i < |Entries(log, id)| && p.seqNo == Entries(log, id)[i].seqNo
    ensures Mirrors(mirror[p.seqNo := p], SetEntry(log, id, i, p))
  {
    var k := RaceIndex(log.races, id);
    var was := log.races[k].entries[i];
    var after := SetEntry(log, id, i, p);
    forall a, b | 0 <= a < |after.races| && 0 <= b < |after.races[a].entries|
      ensures var q := after.races[a].entries[b];
        q.seqNo in mirror[p.seqNo := p] && mirror[p.seqNo := p][q.seqNo] == q
    {
      var q := log.races[a].entries[b];
      assert mirror[q.seqNo] == q && mirror[was.seqNo] == was;
      if q.seqNo == was.seqNo {
        assert q.raceId == log.races[a].id && was.raceId == log.races[k].id;
        assert a == k && b == i;
      }
    }
  }

  /** Every listener that mirrors the log before a step mirrors it after the step's event. */
  lemma MirrorStep(mirror: map<nat, Passing>, log: Log, perRace: Option<nat>, maxRaces: nat, step: Step)
    requires Inv(log, perRace, maxRaces) && Mirrors(mirror, log)
    ensures var (next, event) := Apply(log, perRace, maxRaces, step);
      Mirrors(Upsert(mirror, event), next)
  {
    hide Append, ChangeIn, NewPassing, SetEntry, Entries, Inv;
    if step.ObserveStep? && step.race.id != NO_RACE_ID {
      hide Mirrors;
      if step.msg.PassingInfo? {
        var p := NewPassing(log.seqNo + 1, step.race, step.msg);
        PassingRaceId(log.seqNo + 1, step.race, step.msg);
        MirrorAppend(mirror, log, perRace, maxRaces, p);
      } else {
        var change := ChangeIn(Entries(log, step.race.id), step.msg);
        if change.Some? {
          MirrorAmend(mirror, log, perRace, maxRaces, step.race.id, change.value.i, change.value.passing);
        }
      }
    }
  }

  /** What a listener holds that follows a run from its start. */
  function Followed(perRace: Option<nat>, maxRaces: nat, steps: seq<Step>): map<nat, Passing>
    decreases |steps|
  {
    if steps == [] then map[]
    else
      var front := steps[..|steps| - 1];
      Upsert(Followed(perRace, maxRaces, front), Apply(Run(perRace, maxRaces, front), perRace, maxRaces, steps[|steps| - 1]).1)
  }

  lemma {:induction false} RunMirrors(n: nat, maxRaces: nat, steps: seq<Step>)
    ensures Mirrors(Followed(Some(n), maxRaces, steps), Run(Some(n), maxRaces, steps))
    decreases |steps|
  {
    if steps != [] {
      hide Apply, Inv, Mirrors, Upsert;
      var front := steps[..|steps| - 1];
      RunInv(n, maxRaces, front);
      RunMirrors(n, maxRaces, front);
      MirrorStep(Followed(Some(n), maxRaces, front), Run(Some(n), maxRaces, front), Some(n), maxRaces, steps[|steps| - 1]);
    }
  }

  // ---- What the messages do to a rider's passing ----

  lemma EntriesAfterAppend(log: Log, perRace: nat, maxRaces: nat, p: Passing)
    requires perRace > 0 && maxRaces > 0
    ensures var entries := Entries(Append(log, Some(perRace), maxRaces, p), p.raceId);
      entries != [] && entries[|entries| - 1] == p
  {
    var k := RaceIndex(log.races, p.raceId);
    var after := Append(log, Some(perRace), maxRaces, p);
    if k < |log.races| {
      assert forall j :: 0 <= j < |after.races| ==> after.races[j].id == log.races[j].id;
      SameRaceIndex(log.races, after.races, p.raceId);
    } else {
      var all := log.races + [RaceLog(p.raceId, LastN([p], Some(perRace)))];
      LastNAt(all, Some(maxRaces));
      var last := |after.races| - 1;
      assert after.races[last] == all[|all| - 1];
      assert forall j :: 0 <= j < last ==> after.races[j] in log.races;
      assert RaceIndex(after.races, p.raceId) == last;
    }
  }

  /** The `$G` right after a `$J` of the same rider fills in that passing's position and lap. */
  lemma RankCompletesPassing(log: Log, perRace: nat, maxRaces: nat, race: RaceView, regNumber: string,
                             lapMs: int, totalMs: int, position: int, laps: int, anyMs: int)
    requires perRace > 0 && maxRaces > 0 && race.id != NO_RACE_ID
    ensures var passing := NewPassing(log.seqNo + 1, race, PassingInfo(regNumber, lapMs, totalMs));
      var once := Observe(log, Some(perRace), maxRaces, race, PassingInfo(regNumber, lapMs, totalMs)).0;
      var (twice, event) := Observe(once, Some(perRace), maxRaces, race, RaceInfo(regNumber, position, laps, anyMs));
      var done := passing.(position := Some(position), lap := Some(laps));
      && event == Some(PassingEvent(race.id, done))
      && var entries := Entries(twice, race.id);
      entries != [] && entries[|entries| - 1] == done && done.crossingMs == totalMs
  {
    hide Append, Entries;
    var msg := PassingInfo(regNumber, lapMs, totalMs);
    var rank := RaceInfo(regNumber, position, laps, anyMs);
    var p := NewPassing(log.seqNo + 1, race, msg);
    var once := Observe(log, Some(perRace), maxRaces, race, msg).0;
    EntriesAfterAppend(log.(seqNo := log.seqNo + 1), perRace, maxRaces, p);
    var entries := Entries(once, race.id);
    LastIndexUnique(entries, q => Concerns(rank, q), |entries| - 1);
    SetEntryEntries(once, race.id, |entries| - 1, p.(position := Some(position), lap := Some(laps)));
  }

  lemma SetEntryEntries(log: Log, id: int, i: nat, p: Passing)
    requires i < |Entries(log, id)|
    ensures Entries(SetEntry(log, id, i, p), id) == Entries(log, id)[i := p]
  {
    var after := SetEntry(log, id, i, p);
    SameRaceIndex(log.races, after.races, id);
  }

  /**
   * A photo finish correction moves the crossing time, so that a re-ranking that carries the
   * corrected time still finds the same passing.
   */
  lemma CorrectionThenRank(log: Log, id: int, regNumber: string, lap: int, correctedMs: int, deltaMs: int, position: int)
    requires var i := LastIndex(Entries(log, id), (q: Passing) => q.regNumber == regNumber);
      i >= 0 && Entries(log, id)[i].lap == Some(lap) && Entries(log, id)[i].position.Some? && Entries(log, id)[i].position != Some(position)
    ensures var i := LastIndex(Entries(log, id), (q: Passing) => q.regNumber == regNumber);
      var corrected := Amend(log, id, Correction(regNumber, lap, correctedMs, deltaMs)).0;
      var ranked := Amend(corrected, id, RaceInfo(regNumber, position, lap, correctedMs)).0;
      Entries(ranked, id) == Entries(log, id)[i :=
        Entries(log, id)[i].(correctionMs := Some(deltaMs), totalTimeMs := correctedMs, crossingMs := correctedMs, position := Some(position))]
  {
    hide Entries, SetEntry, LastIndex;
    var entries := Entries(log, id);
    var i := LastIndex(entries, (q: Passing) => q.regNumber == regNumber);
    LastIndexIs(entries, (q: Passing) => q.regNumber == regNumber);
    var msg, rank := Correction(regNumber, lap, correctedMs, deltaMs), RaceInfo(regNumber, position, lap, correctedMs);
    LastIndexUnique(entries, q => Concerns(msg, q), i);
    var once := Corrected(entries[i], msg);
    SetEntryEntries(log, id, i, once);
    var corrected := SetEntry(log, id, i, once);
    LastIndexUnique(entries[i := once], q => Concerns(rank, q), i);
    SetEntryEntries(corrected, id, i, Ranked(once, rank).value);
  }

  lemma LastIndexIs(entries: seq<Passing>, p: Passing -> bool)
    ensures var i := LastIndex(entries, p);
      -1 <= i < |entries| && (i >= 0 ==> p(entries[i])) && forall j :: i < j < |entries| ==> !p(entries[j])
  {}

  // ---- The list in crossing order ----

  function ComparePassings(a: Passing, b: Passing): int {
    if a.crossingMs != b.crossingMs then a.crossingMs - b.crossingMs else a.seqNo - b.seqNo
  }

  function CrossingOrder(): (Passing, Passing) -> int {
    (a, b) => ComparePassings(a, b)
  }

  function List(log: Log, id: int): seq<Passing> {
    Sort(CrossingOrder(), Entries(log, id))
  }

  lemma CrossingOrderIsLawful()
    ensures Lawful(CrossingOrder())
  {}

  lemma DistinctPassings(entries: seq<Passing>, list: seq<Passing>, id: int, seqNo: nat)
    requires EntriesOk(entries, id, seqNo) && multiset(list) == multiset(entries)
    ensures NoTies(CrossingOrder(), list)
  {
    forall i, j | 0 <= i < |list| && 0 <= j < |list| && ComparePassings(list[i], list[j]) == 0 ensures list[i] == list[j] {
      assert list[i] in multiset(entries) && list[j] in multiset(entries);
    }
  }

  /** The list is the one and only arrangement of the race's entries by (crossing time, seq). */
  lemma ListIsTheOrder(log: Log, perRace: Option<nat>, maxRaces: nat, id: int, other: seq<Passing>)
    requires Inv(log, perRace, maxRaces)
    ensures Ordered(CrossingOrder(), List(log, id)) && multiset(List(log, id)) == multiset(Entries(log, id))
    ensures Ordered(CrossingOrder(), other) && multiset(other) == multiset(Entries(log, id)) ==> other == List(log, id)
  {
    hide Inv, Entries, EntriesOk, CrossingOrder, Ordered, Lawful, NoTies, Sort;
    CrossingOrderIsLawful();
    SortSpec(CrossingOrder(), Entries(log, id));
    EntriesAreOk(log, perRace, maxRaces, id);
    DistinctPassings(Entries(log, id), List(log, id), id, log.seqNo);
    if Ordered(CrossingOrder(), other) && multiset(other) == multiset(Entries(log, id)) {
      OrderedUnique(CrossingOrder(), List(log, id), other);
    }
  }

  lemma EntriesAreOk(log: Log, perRace: Option<nat>, maxRaces: nat, id: int)
    requires Inv(log, perRace, maxRaces)
    ensures EntriesOk(Entries(log, id), id, log.seqNo)
  {}

  // ---- The class ----

  /** `races` lists the source's map entries in insertion order. */
  class PassingLog {
    var races: seq<RaceLog>
    var seqNo: nat
    const perRace: nat
    const maxRaces: nat

    function Value(): Log
      reads this
    {
      Log(races, seqNo)
    }

    constructor (perRace: nat, maxRaces: nat)
      ensures Value() == Log([], 0) && this.perRace == perRace && this.maxRaces == maxRaces
    {
      races, seqNo := [], 0;
      this.perRace, this.maxRaces := perRace, maxRaces;
    }

    method Clear() returns (event: Option<PassingEvent>)
      modifies this
      ensures (Value(), event) == Apply(old(Value()), Some(perRace), maxRaces, ClearStep)
    {
      races := [];
      event := Some(ResetEvent);
    }

    method Observe(race: RaceView, msg: Msg) returns (event: Option<PassingEvent>)
      modifies this
      ensures (Value(), event) == Apply(old(Value()), Some(perRace), maxRaces, ObserveStep(race, msg))
    {
      hide Append, ChangeIn, NewPassing;
      event := None;
      if race.id == NO_RACE_ID {
        return;
      }
      match msg {
        case PassingInfo(_, _, _) =>
          seqNo := seqNo + 1;
          var p := NewPassing(seqNo, race, msg);
          PassingRaceId(seqNo, race, msg);
          event := AppendPassing(p);
        case RaceInfo(_, _, _, _) =>
          event := AmendLatest(race.id, msg);
        case Correction(_, _, _, _) =>
          event := AmendLatest(race.id, msg);
        case OtherMsg =>
          NothingConcerned(Entries(Value(), race.id), msg);
      }
    }

    method AppendPassing(p: Passing) returns (event: Option<PassingEvent>)
      modifies this
      ensures Value() == Append(old(Value()), Some(perRace), maxRaces, p)
      ensures event == Some(PassingEvent(p.raceId, p))
    {
      var k := RaceIndex(races, p.raceId);
      ghost var created := races + [RaceLog(p.raceId, LastN([p], Some(perRace)))];
      var entries: seq<Passing> := if k < |races| then races[k].entries else [];
      entries := entries + [p];
      if |entries| > perRace {
        entries := entries[|entries| - perRace..];
      }
      if k < |races| {
        races := races[k := RaceLog(p.raceId, entries)];
      } else {
        assert [] + [p] == [p];
        races := races + [RaceLog(p.raceId, entries)];
        while |races| > maxRaces
          invariant |races| <= |created| && races == created[|created| - |races|..]
          invariant |races| < |created| ==> |races| >= maxRaces
          invariant seqNo == old(seqNo)
        {
          races := races[1..];
        }
      }
      event := Some(PassingEvent(p.raceId, p));
    }

    /** Walks the race's entries from the newest and rewrites the first one the message concerns. */
    method AmendLatest(id: int, msg: Msg) returns (event: Option<PassingEvent>)
      modifies this
      ensures (Value(), event) == Amend(old(Value()), id, msg)
    {
      event := None;
      var k := RaceIndex(races, id);
      if k == |races| {
        NothingConcerned([], msg);
        return;
      }
      var entries := races[k].entries;
      var i := |entries| - 1;
      while i >= 0 && !Concerns(msg, entries[i])
        invariant -1 <= i < |entries|
        invariant forall j :: i < j < |entries| ==> !Concerns(msg, entries[j])
      {
        i := i - 1;
      }
      LastIndexUnique(entries, p => Concerns(msg, p), i);
      if i >= 0 {
        hide Concerns, LastIndex;
        var next := Effect(msg, entries[i]);
        if next.Some? {
          races := races[k := RaceLog(id, entries[i := next.value])];
          event := Some(PassingEvent(id, next.value));
        }
      }
    }

    method ListRace(raceId: int) returns (passings: seq<Passing>)
      ensures passings == List(Value(), raceId)
    {
      var k := RaceIndex(races, raceId);
      passings := Sort(CrossingOrder(), if k < |races| then races[k].entries else []);
    }
  }

  lemma NothingConcerned(entries: seq<Passing>, msg: Msg)
    requires entries == [] || msg.OtherMsg?
    ensures ChangeIn(entries, msg).None?
  {}
}
