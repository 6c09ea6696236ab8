/**
 * What each message does to the finish line log, field by field.
 */
module PassingLaws {
  import opened Wrappers
  import opened Sorting
  import opened PassingLogs

  /** A passing enters the log under the next number with the message's own times and, so far, no lap and no position. */
  lemma PassingIsRecorded(log: Log, perRace: nat, maxRaces: nat, race: RaceView, regNumber: string, lapMs: int, totalMs: int)
    requires perRace > 0 && maxRaces > 0 && race.id != NO_RACE_ID
    ensures var (after, event) := Observe(log, Some(perRace), maxRaces, race, PassingInfo(regNumber, lapMs, totalMs));
      var entries := Entries(after, race.id);
      && entries != [] && after.seqNo == log.seqNo + 1
      && var p := entries[|entries| - 1];
      && event == Some(PassingEvent(race.id, p))
      && p.seqNo == log.seqNo + 1 && p.raceId == race.id && p.regNumber == regNumber
      && p.timeOfDayMs == race.timeOfDayMs && p.elapsedMs == race.elapsedMs
      && p.lapTimeMs == lapMs && p.totalTimeMs == totalMs && p.crossingMs == totalMs
      && p.lap == None && p.position == None && p.correctionMs == None
      && (regNumber !in race.riders ==> p.number == regNumber && p.firstName == "" && p.lastName == "")
      && (regNumber in race.riders ==>
            var rider := race.riders[regNumber];
            && p.firstName == rider.firstName && p.lastName == rider.lastName
            && p.number == (if rider.number != "" then rider.number else regNumber))
  {
    var p := NewPassing(log.seqNo + 1, race, PassingInfo(regNumber, lapMs, totalMs));
    EntriesAfterAppend(log.(seqNo := log.seqNo + 1), perRace, maxRaces, p);
    hide Append, Entries;
  }

  /** The rider's newest entry. */
  ghost predicate Newest(entries: seq<Passing>, regNumber: string, i: nat) {
    i < |entries| && entries[i].regNumber == regNumber && forall j :: i < j < |entries| ==> entries[j].regNumber != regNumber
  }

  /**
   * A rank message is about the rider's newest entry. The first one gives it position and lap; a
   * later one changes the position only while lap and time are still those of the crossing; any
   * other leaves the log as it is and is not passed on.
   */
  lemma RankIsForTheCrossing(log: Log, perRace: Option<nat>, maxRaces: nat, race: RaceView,
                             regNumber: string, position: int, laps: int, totalMs: int, i: nat)
    requires race.id != NO_RACE_ID && Newest(Entries(log, race.id), regNumber, i)
    ensures var (after, event) := Observe(log, perRace, maxRaces, race, RaceInfo(regNumber, position, laps, totalMs));
      var e := Entries(log, race.id)[i];
      if e.position == None || (e.lap == Some(laps) && e.crossingMs == totalMs && e.position != Some(position)) then
        var done := e.(position := Some(position), lap := Some(laps));
        event == Some(PassingEvent(race.id, done)) && Entries(after, race.id) == Entries(log, race.id)[i := done]
      else after == log && event == None
  {
    hide Entries, SetEntry, LastIndex;
    var msg, entries := RaceInfo(regNumber, position, laps, totalMs), Entries(log, race.id);
    LastIndexUnique(entries, q => Concerns(msg, q), i);
    var next := Ranked(entries[i], msg);
    if next.Some? {
      SetEntryEntries(log, race.id, i, next.value);
    }
  }

  /** A correction is about the newest entry of that rider and lap, whatever came after it, and moves its times. */
  lemma CorrectionIsForTheLap(log: Log, perRace: Option<nat>, maxRaces: nat, race: RaceView,
                              regNumber: string, lap: int, correctedMs: int, deltaMs: int, i: nat)
    requires race.id != NO_RACE_ID && i < |Entries(log, race.id)|
    requires var entries := Entries(log, race.id);
      && entries[i].regNumber == regNumber && entries[i].lap == Some(lap)
      && forall j :: i < j < |entries| ==> entries[j].regNumber != regNumber || entries[j].lap != Some(lap)
    ensures var (after, event) := Observe(log, perRace, maxRaces, race, Correction(regNumber, lap, correctedMs, deltaMs));
      var done := Entries(log, race.id)[i].(correctionMs := Some(deltaMs), totalTimeMs := correctedMs, crossingMs := correctedMs);
      event == Some(PassingEvent(race.id, done)) && Entries(after, race.id) == Entries(log, race.id)[i := done]
  {
    hide Entries, SetEntry, LastIndex;
    var msg, entries := Correction(regNumber, lap, correctedMs, deltaMs), Entries(log, race.id);
    LastIndexUnique(entries, q => Concerns(msg, q), i);
    SetEntryEntries(log, race.id, i, Corrected(entries[i], msg));
  }

  /** Without a race, and for messages about nobody in the log, nothing changes and nothing is sent. */
  lemma StrangersChangeNothing(log: Log, perRace: Option<nat>, maxRaces: nat, race: RaceView, msg: Msg)
    requires race.id == NO_RACE_ID || msg.OtherMsg?
      || (!msg.PassingInfo? && forall j :: 0 <= j < |Entries(log, race.id)| ==> Entries(log, race.id)[j].regNumber != msg.regNumber)
    ensures Observe(log, perRace, maxRaces, race, msg) == (log, None)
  {
    hide Entries, SetEntry, LastIndex;
    if race.id != NO_RACE_ID {
      LastIndexUnique(Entries(log, race.id), q => Concerns(msg, q), -1);
    }
  }

  /** The list reads upwards: by time at the line, and by arrival where that is equal. */
  lemma ListReadsUpwards(log: Log, perRace: Option<nat>, maxRaces: nat, id: int, i: nat, j: nat)
    requires Inv(log, perRace, maxRaces) && i < j < |List(log, id)|
    ensures var a, b := List(log, id)[i], List(log, id)[j];
      a.crossingMs < b.crossingMs || (a.crossingMs == b.crossingMs && a.seqNo < b.seqNo)
  {
    hide Inv, Entries, Sort;
    ListIsTheOrder(log, perRace, maxRaces, id, []);
    EntriesAreOk(log, perRace, maxRaces, id);
    NumbersDiffer(Entries(log, id), List(log, id), id, log.seqNo, i, j);
  }

  lemma NumbersDiffer(entries: seq<Passing>, list: seq<Passing>, id: int, seqNo: nat, i: nat, j: nat)
    requires EntriesOk(entries, id, seqNo) && multiset(list) == multiset(entries) && i < j < |list|
    ensures list[i].seqNo != list[j].seqNo
  {
    OnlyOnce(entries, list[i]);
    AtTwoPlaces(list, i, j);
    assert list[i] in multiset(entries) && list[j] in multiset(entries);
    NumbersTell(entries, list[i], list[j]);
  }

  lemma AtTwoPlaces(list: seq<Passing>, i: nat, j: nat)
    requires i < j < |list|
    ensures list[i] == list[j] ==> multiset(list)[list[i]] >= 2
  {
    assert list == list[..j] + [list[j]] + list[j + 1..];
    assert list[i] in list[..j];
  }

  lemma NumbersTell(entries: seq<Passing>, p: Passing, q: Passing)
    requires p in entries && q in entries
    requires forall a, b :: 0 <= a < b < |entries| ==> entries[a].seqNo < entries[b].seqNo
    ensures p.seqNo == q.seqNo ==> p == q
  {}

  lemma {:induction false} OnlyOnce(entries: seq<Passing>, p: Passing)
    requires forall a, b :: 0 <= a < b < |entries| ==> entries[a].seqNo < entries[b].seqNo
    ensures multiset(entries)[p] <= 1
    decreases |entries|
  {
    if entries != [] {
      var front, last := entries[..|entries| - 1], entries[|entries| - 1];
      assert entries == front + [last];
      OnlyOnce(front, p);
      if p == last {
        assert p !in front;
      }
    }
  }

  /** Numbers count the passings ever recorded and start over for nothing; a clear leaves no entries and says so. */
  lemma NumbersGoOn(log: Log, perRace: Option<nat>, maxRaces: nat, step: Step)
    ensures var (after, event) := Apply(log, perRace, maxRaces, step);
      && after.seqNo == log.seqNo + (if step.ObserveStep? && step.race.id != NO_RACE_ID && step.msg.PassingInfo? then 1 else 0)
      && (step.ClearStep? ==> event == Some(ResetEvent) && forall id :: Entries(after, id) == [])
  {
    hide NewPassing, ChangeIn;
  }
}
