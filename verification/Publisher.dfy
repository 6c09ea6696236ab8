/**
 * The leaderboard's snapshot publisher as functions on values: a cache of `compute(key)` per
 * channel, replicated to subscribers by snapshots and by patches with a base revision.
 *
 * A subscriber is identified with its send callback; `sent` is everything handed to it so far.
 */
module Publisher {
  import opened Wrappers
  import opened JsonPatch

  datatype ChannelKey = Current | RaceKey(id: nat)

  /** The transfer object of one race: its id and the members of the JSON object that is published. */
  datatype Race = Race(raceId: int, members: map<string, Json>) {
    function Doc(): Json {
      Obj(members)
    }
  }

  /** What the publisher reads of the race store. */
  datatype Store = Store(compute: ChannelKey -> Option<Race>, currentTime: int, displayTime: int)

  type SubId = nat

  datatype Message =
    | Snapshot(raceId: Option<int>, rev: nat, data: Option<Race>, timeOfDay: int)
    | Patched(id: int, rev: nat, baseRev: nat, patch: Patch, timeOfDay: int)

  datatype Channel = Channel(subscribers: set<SubId>, rev: nat, raceId: Option<int>, data: Option<Race>)

  datatype State = State(
    channels: map<ChannelKey, Channel>,
    timer: bool,
    pendingTick: bool,
    home: map<SubId, ChannelKey>,
    sent: map<SubId, seq<Message>>)

  function IdOf(data: Option<Race>): Option<int> {
    if data.Some? then Some(data.value.raceId) else None
  }

  /** Right after a race starts it has no heartbeat: the last known time is kept. */
  function TimeOfDay(store: Store): int {
    if store.currentTime != 0 then store.currentTime else store.displayTime
  }

  predicate RaceChanged(ch: Channel, next: Option<Race>) {
    IdOf(next) != ch.raceId || next.None? != ch.data.None?
  }

  /** A diff exists only between two published races; otherwise there is nothing to patch. */
  ghost predicate DiffOk(ch: Channel, next: Option<Race>, ops: Patch) {
    if ch.data.Some? && next.Some? then IsDiff(ch.data.value.Doc(), next.value.Doc(), ops) else ops == []
  }

  function FlushChannel(ch: Channel, next: Option<Race>, tick: bool, ops: Patch): Channel {
    if RaceChanged(ch, next) then ch.(rev := ch.rev + 1, data := next, raceId := IdOf(next))
    else if ops == [] && !tick then ch
    else ch.(rev := ch.rev + 1, data := next)
  }

  function FlushMessages(ch: Channel, next: Option<Race>, tick: bool, ops: Patch, time: int): seq<Message> {
    if RaceChanged(ch, next) then [Snapshot(IdOf(next), ch.rev + 1, next, time)]
    else if ops == [] && !tick then []
    else if next.None? then []
    else [Patched(next.value.raceId, ch.rev + 1, ch.rev, ops, time)]
  }

  function SnapshotOf(ch: Channel, store: Store): Message {
    Snapshot(ch.raceId, ch.rev, ch.data, TimeOfDay(store))
  }

  predicate Subscribed(p: State, s: SubId) {
    s in p.home && p.home[s] in p.channels && s in p.channels[p.home[s]].subscribers
  }

  /** Hands `messages(k)` to every subscriber of every channel k. */
  function Deliver(p: State, messages: map<ChannelKey, seq<Message>>): map<SubId, seq<Message>> {
    map s | s in p.sent ::
      if Subscribed(p, s) && p.home[s] in messages then p.sent[s] + messages[p.home[s]] else p.sent[s]
  }

  type Diffs = map<ChannelKey, Patch>

  ghost predicate DiffsOk(p: State, store: Store, diffs: Diffs) {
    && diffs.Keys == p.channels.Keys
    && forall k :: k in p.channels ==> DiffOk(p.channels[k], store.compute(k), diffs[k])
  }

  function FlushedChannels(p: State, store: Store, diffs: Diffs): map<ChannelKey, Channel>
    requires diffs.Keys == p.channels.Keys
  {
    map k | k in p.channels :: FlushChannel(p.channels[k], store.compute(k), p.pendingTick, diffs[k])
  }

  function FlushOut(p: State, store: Store, diffs: Diffs): map<ChannelKey, seq<Message>>
    requires diffs.Keys == p.channels.Keys
  {
    map k | k in p.channels :: FlushMessages(p.channels[k], store.compute(k), p.pendingTick, diffs[k], TimeOfDay(store))
  }

  function Flush(p: State, store: Store, diffs: Diffs): State
    requires diffs.Keys == p.channels.Keys
  {
    p.(channels := FlushedChannels(p, store, diffs),
       sent := Deliver(p, FlushOut(p, store, diffs)),
       timer := false,
       pendingTick := false)
  }

  function NewChannel(data: Option<Race>): Channel {
    Channel({}, 0, IdOf(data), data)
  }

  function Subscribe(p: State, store: Store, k: ChannelKey, s: SubId): State
    requires s !in p.home
  {
    var ch := if k in p.channels then p.channels[k] else NewChannel(store.compute(k));
    p.(channels := p.channels[k := ch.(subscribers := ch.subscribers + {s})],
       home := p.home[s := k],
       sent := p.sent[s := [SnapshotOf(ch, store)]])
  }

  function Notify(p: State, store: Store, heartbeat: bool, delay: int, diffs: Diffs): State
    requires diffs.Keys == p.channels.Keys
  {
    var q := p.(pendingTick := p.pendingTick || heartbeat);
    if p.channels == map[] then q.(pendingTick := false)
    else if p.timer then q
    else if delay <= 0 then Flush(q, store, diffs)
    else q.(timer := true)
  }

  function ResetChannel(ch: Channel, data: Option<Race>): Channel {
    ch.(data := data, raceId := IdOf(data), rev := ch.rev + 1)
  }

  function Reset(p: State, store: Store): State {
    p.(channels := map k | k in p.channels :: ResetChannel(p.channels[k], store.compute(k)),
       sent := Deliver(p, map k | k in p.channels :: [SnapshotOf(ResetChannel(p.channels[k], store.compute(k)), store)]),
       timer := false,
       pendingTick := false)
  }

  function Resync(p: State, store: Store, s: SubId, diffs: Diffs): State
    requires diffs.Keys == p.channels.Keys && Subscribed(p, s) && s in p.sent
  {
    SendSnapshot(Flush(p, store, diffs), store, s)
  }

  function SendSnapshot(p: State, store: Store, s: SubId): State
    requires Subscribed(p, s) && s in p.sent
  {
    p.(sent := p.sent[s := p.sent[s] + [SnapshotOf(p.channels[p.home[s]], store)]])
  }

  function Unsubscribe(p: State, s: SubId): State
    requires Subscribed(p, s)
  {
    var k := p.home[s];
    var ch := p.channels[k].(subscribers := p.channels[k].subscribers - {s});
    p.(channels := if ch.subscribers == {} then p.channels - {k} else p.channels[k := ch])
  }

  // ---- Runs: the publisher and a store that changes under it ----

  /** `dirty`: the store has changed and nobody has notified the publisher yet. */
  datatype World = World(pub: State, store: Store, dirty: bool)

  datatype Step =
    | DoSubscribe(k: ChannelKey, s: SubId)
    | DoNotify(heartbeat: bool, delay: int, diffs: Diffs)
    | DoFlush(diffs: Diffs)
    | DoReset
    | DoResync(s: SubId, diffs: Diffs)
    | DoUnsubscribe(s: SubId)
    | StoreChange(store: Store)

  ghost predicate Enabled(w: World, step: Step) {
    match step
    case DoSubscribe(_, s) => s !in w.pub.home
    case DoNotify(_, _, diffs) => DiffsOk(w.pub, w.store, diffs)
    case DoFlush(diffs) => DiffsOk(w.pub, w.store, diffs)
    case DoReset => true
    case DoResync(s, diffs) => Subscribed(w.pub, s) && s in w.pub.sent && DiffsOk(w.pub, w.store, diffs)
    case DoUnsubscribe(s) => Subscribed(w.pub, s)
    case StoreChange(_) => true
  }

  ghost function Next(w: World, step: Step): World
    requires Enabled(w, step)
  {
    match step
    case DoSubscribe(k, s) => w.(pub := Subscribe(w.pub, w.store, k, s))
    case DoNotify(heartbeat, delay, diffs) => w.(pub := Notify(w.pub, w.store, heartbeat, delay, diffs), dirty := false)
    case DoFlush(diffs) => w.(pub := Flush(w.pub, w.store, diffs), dirty := false)
    case DoReset => w.(pub := Reset(w.pub, w.store), dirty := false)
    case DoResync(s, diffs) => w.(pub := Resync(w.pub, w.store, s, diffs), dirty := false)
    case DoUnsubscribe(s) => w.(pub := Unsubscribe(w.pub, s))
    case StoreChange(store) => w.(store := store, dirty := true)
  }

  // ---- The replica a subscriber builds from its messages ----

  /** Broken: some message could not be applied to what the subscriber held; nothing repairs that. */
  datatype Replica = Empty | Broken | Holding(rev: nat, data: Option<Race>)

  function Receive(r: Replica, m: Message): Replica {
    if r.Broken? then Broken
    else
      match m
      case Snapshot(raceId, rev, data, _) => if raceId == IdOf(data) then Holding(rev, data) else Broken
      case Patched(id, rev, baseRev, patch, _) =>
        if !r.Holding? || r.rev != baseRev || IdOf(r.data) != Some(id) then Broken
        else
          var doc := ApplyPatch(r.data.value.Doc(), patch);
          if doc.Some? && doc.value.Obj? then Holding(rev, Some(Race(id, doc.value.fields))) else Broken
  }

  function Replay(messages: seq<Message>): Replica
    decreases |messages|
  {
    if messages == [] then Empty
    else Receive(Replay(messages[..|messages| - 1]), messages[|messages| - 1])
  }

  lemma ReplayAppend(messages: seq<Message>, m: Message)
    ensures Replay(messages + [m]) == Receive(Replay(messages), m)
  {
    assert (messages + [m])[..|messages|] == messages;
  }

  // ---- The invariant ----

  /** A subscriber's replica is its channel; its revision may lag only while there is no race. */
  ghost predicate InSync(messages: seq<Message>, ch: Channel) {
    var r := Replay(messages);
    && r.Holding? && r.data == ch.data
    && (r.rev == ch.rev || (ch.data.None? && r.rev < ch.rev))
  }

  ghost predicate ChannelsCurrent(w: World) {
    forall k :: k in w.pub.channels ==> w.pub.channels[k].data == w.store.compute(k)
  }

  ghost predicate ChannelInv(p: State, k: ChannelKey)
    requires k in p.channels
  {
    var ch := p.channels[k];
    && ch.subscribers != {} && ch.raceId == IdOf(ch.data)
    && forall s :: s in ch.subscribers ==> s in p.home && p.home[s] == k
  }

  ghost predicate SubscriberInv(p: State, s: SubId)
    requires s in p.sent
  {
    && !Replay(p.sent[s]).Broken?
    && (Subscribed(p, s) ==> InSync(p.sent[s], p.channels[p.home[s]]))
  }

  ghost predicate PubInv(p: State) {
    && p.sent.Keys == p.home.Keys
    && (forall k :: k in p.channels ==> ChannelInv(p, k))
    && (forall s :: s in p.sent ==> SubscriberInv(p, s))
  }

  ghost predicate Inv(w: World) {
    && PubInv(w.pub)
    && (w.pub.timer || w.dirty || ChannelsCurrent(w))
    && (w.pub.pendingTick ==> w.pub.timer)
  }

  lemma FlushChannelSync(messages: seq<Message>, ch: Channel, next: Option<Race>, tick: bool, ops: Patch, time: int)
    requires InSync(messages, ch) && ch.raceId == IdOf(ch.data) && DiffOk(ch, next, ops)
    ensures var ch' := FlushChannel(ch, next, tick, ops);
      && ch'.data == next && ch'.raceId == IdOf(next)
      && InSync(messages + FlushMessages(ch, next, tick, ops, time), ch')
  {
    var out := FlushMessages(ch, next, tick, ops, time);
    if out == [] {
      assert messages + out == messages;
    } else {
      ReplayAppend(messages, out[0]);
    }
  }

  /** `q` has the channels and subscribers of `p`. */
  ghost predicate SameShape(p: State, q: State) {
    && q.home == p.home && q.sent.Keys == p.sent.Keys && q.channels.Keys == p.channels.Keys
    && forall k :: k in p.channels ==>
         q.channels[k].subscribers == p.channels[k].subscribers && q.channels[k].raceId == IdOf(q.channels[k].data)
  }

  lemma ShapeInv(p: State, q: State)
    requires PubInv(p) && SameShape(p, q)
    requires forall s :: s in p.sent ==>
      if Subscribed(p, s) then InSync(q.sent[s], q.channels[p.home[s]]) else q.sent[s] == p.sent[s]
    ensures PubInv(q)
  {
    forall k | k in q.channels ensures ChannelInv(q, k) {
      assert ChannelInv(p, k);
    }
    forall s | s in q.sent ensures SubscriberInv(q, s) {
      assert SubscriberInv(p, s) && Subscribed(q, s) == Subscribed(p, s);
    }
  }

  lemma FlushSent(p: State, store: Store, diffs: Diffs, s: SubId)
    requires DiffsOk(p, store, diffs) && s in p.sent
    ensures s in Flush(p, store, diffs).sent
    ensures Flush(p, store, diffs).sent[s] ==
      if Subscribed(p, s) then
        var k := p.home[s];
        p.sent[s] + FlushMessages(p.channels[k], store.compute(k), p.pendingTick, diffs[k], TimeOfDay(store))
      else p.sent[s]
  {
  }

  lemma FlushSync(p: State, store: Store, diffs: Diffs, s: SubId)
    requires PubInv(p) && DiffsOk(p, store, diffs) && Subscribed(p, s)
    ensures var q := Flush(p, store, diffs);
      && s in q.sent && InSync(q.sent[s], q.channels[p.home[s]])
  {
    assert ChannelInv(p, p.home[s]);
    assert SubscriberInv(p, s);
    var k := p.home[s];
    FlushSent(p, store, diffs, s);
    FlushChannelSync(p.sent[s], p.channels[k], store.compute(k), p.pendingTick, diffs[k], TimeOfDay(store));
  }

  lemma FlushChannels(p: State, store: Store, diffs: Diffs, k: ChannelKey)
    requires PubInv(p) && DiffsOk(p, store, diffs) && k in p.channels
    ensures var ch := FlushChannel(p.channels[k], store.compute(k), p.pendingTick, diffs[k]);
      && ch.data == store.compute(k) && ch.raceId == IdOf(ch.data)
      && ch.subscribers == p.channels[k].subscribers
  {
    assert ChannelInv(p, k);
    var s :| s in p.channels[k].subscribers;
    assert SubscriberInv(p, s) && Subscribed(p, s);
    FlushChannelSync(p.sent[s], p.channels[k], store.compute(k), p.pendingTick, diffs[k], TimeOfDay(store));
  }

  lemma FlushInv(p: State, store: Store, diffs: Diffs)
    requires PubInv(p) && DiffsOk(p, store, diffs)
    ensures PubInv(Flush(p, store, diffs))
    ensures forall k :: k in p.channels ==> Flush(p, store, diffs).channels[k].data == store.compute(k)
  {
    var q := Flush(p, store, diffs);
    forall k | k in p.channels
      ensures q.channels[k].subscribers == p.channels[k].subscribers && q.channels[k].raceId == IdOf(q.channels[k].data)
      ensures q.channels[k].data == store.compute(k)
    {
      FlushChannels(p, store, diffs, k);
    }
    forall s | s in p.sent
      ensures if Subscribed(p, s) then InSync(q.sent[s], q.channels[p.home[s]]) else q.sent[s] == p.sent[s]
    {
      if Subscribed(p, s) {
        FlushSync(p, store, diffs, s);
      } else {
        FlushSent(p, store, diffs, s);
      }
    }
    ShapeInv(p, q);
  }

  lemma ResetSent(p: State, store: Store, s: SubId)
    requires s in p.sent
    ensures s in Reset(p, store).sent
    ensures Reset(p, store).sent[s] ==
      if Subscribed(p, s) then p.sent[s] + [SnapshotOf(ResetChannel(p.channels[p.home[s]], store.compute(p.home[s])), store)]
      else p.sent[s]
  {
  }

  lemma ResetSync(p: State, store: Store, s: SubId)
    requires PubInv(p) && Subscribed(p, s)
    ensures var q := Reset(p, store);
      && s in q.sent && InSync(q.sent[s], q.channels[p.home[s]])
  {
    assert ChannelInv(p, p.home[s]);
    assert SubscriberInv(p, s);
    ResetSent(p, store, s);
    ReplayAppend(p.sent[s], SnapshotOf(ResetChannel(p.channels[p.home[s]], store.compute(p.home[s])), store));
  }

  lemma ResetShape(p: State, store: Store)
    requires PubInv(p)
    ensures SameShape(p, Reset(p, store))
  {
    hide SubscriberInv, ChannelInv, SnapshotOf;
  }

  lemma ResetInv(p: State, store: Store)
    requires PubInv(p)
    ensures PubInv(Reset(p, store))
  {
    var q := Reset(p, store);
    ResetShape(p, store);
    forall s | s in p.sent
      ensures if Subscribed(p, s) then InSync(q.sent[s], q.channels[p.home[s]]) else q.sent[s] == p.sent[s]
    {
      if Subscribed(p, s) {
        ResetSync(p, store, s);
      } else {
        ResetSent(p, store, s);
      }
    }
    ShapeInv(p, q);
  }

  lemma FlagsInv(p: State, timer: bool, tick: bool)
    requires PubInv(p)
    ensures PubInv(p.(timer := timer, pendingTick := tick))
  {
    assert forall k :: k in p.channels ==> ChannelInv(p, k);
    assert forall s :: s in p.sent ==> SubscriberInv(p, s);
    ShapeInv(p, p.(timer := timer, pendingTick := tick));
  }

  lemma NotifyInv(w: World, heartbeat: bool, delay: int, diffs: Diffs)
    requires Inv(w) && DiffsOk(w.pub, w.store, diffs)
    ensures Inv(w.(pub := Notify(w.pub, w.store, heartbeat, delay, diffs), dirty := false))
  {
    var p, tick := w.pub, w.pub.pendingTick || heartbeat;
    FlagsInv(p, p.timer, tick);
    if p.channels == map[] {
      FlagsInv(p, p.timer, false);
    } else if p.timer {
    } else if delay <= 0 {
      FlushInv(p.(pendingTick := tick), w.store, diffs);
    } else {
      FlagsInv(p, true, tick);
    }
  }

  lemma SendSnapshotInv(p: State, store: Store, s: SubId)
    requires PubInv(p) && Subscribed(p, s) && s in p.sent
    ensures PubInv(SendSnapshot(p, store, s))
  {
    var q := SendSnapshot(p, store, s);
    assert ChannelInv(p, p.home[s]) && SubscriberInv(p, s);
    SnapshotSyncs(p.sent[s], p.channels[p.home[s]], store);
    forall k | k in p.channels ensures q.channels[k].raceId == IdOf(q.channels[k].data) {
      assert ChannelInv(p, k);
    }
    forall t | t in p.sent ensures if Subscribed(p, t) then InSync(q.sent[t], q.channels[p.home[t]]) else q.sent[t] == p.sent[t] {
      assert SubscriberInv(p, t);
    }
    hide PubInv, InSync, SnapshotOf;
    ShapeInv(p, q);
  }

  /** A snapshot of the channel brings any unbroken replica in step with it. */
  lemma SnapshotSyncs(messages: seq<Message>, ch: Channel, store: Store)
    requires !Replay(messages).Broken? && ch.raceId == IdOf(ch.data)
    ensures InSync(messages + [SnapshotOf(ch, store)], ch)
  {
    hide Replay;
    ReplayAppend(messages, SnapshotOf(ch, store));
  }

  lemma FlushKeepsSubscribers(p: State, store: Store, diffs: Diffs, s: SubId)
    requires DiffsOk(p, store, diffs) && Subscribed(p, s) && s in p.sent
    ensures Subscribed(Flush(p, store, diffs), s) && s in Flush(p, store, diffs).sent
  {
  }

  lemma ResyncInv(p: State, store: Store, s: SubId, diffs: Diffs)
    requires PubInv(p) && Subscribed(p, s) && s in p.sent && DiffsOk(p, store, diffs)
    ensures PubInv(Resync(p, store, s, diffs))
  {
    FlushInv(p, store, diffs);
    FlushKeepsSubscribers(p, store, diffs, s);
    SendSnapshotInv(Flush(p, store, diffs), store, s);
  }

  lemma UnsubscribeInv(w: World, s: SubId)
    requires Inv(w) && Subscribed(w.pub, s)
    ensures Inv(w.(pub := Unsubscribe(w.pub, s)))
  {
    hide PubInv;
    UnsubscribePub(w.pub, s);
  }

  lemma UnsubscribePub(p: State, s: SubId)
    requires PubInv(p) && Subscribed(p, s)
    ensures PubInv(Unsubscribe(p, s))
  {
    var q := Unsubscribe(p, s);
    hide ChannelInv, SubscriberInv;
    forall t | t in q.sent ensures SubscriberInv(q, t) {
      RemainingSubscriber(p, s, t);
    }
    forall k | k in q.channels ensures ChannelInv(q, k) {
      RemainingChannel(p, s, k);
    }
  }

  lemma RemainingSubscriber(p: State, s: SubId, t: SubId)
    requires PubInv(p) && Subscribed(p, s) && t in p.sent
    ensures SubscriberInv(Unsubscribe(p, s), t)
  {
    hide Replay, ChannelInv;
    assert SubscriberInv(p, t);
  }

  lemma RemainingChannel(p: State, s: SubId, k: ChannelKey)
    requires PubInv(p) && Subscribed(p, s) && k in Unsubscribe(p, s).channels
    ensures ChannelInv(Unsubscribe(p, s), k)
  {
    hide SubscriberInv;
    assert ChannelInv(p, k);
  }

  lemma SubscribeInv(w: World, k: ChannelKey, s: SubId)
    requires Inv(w) && s !in w.pub.home
    ensures Inv(w.(pub := Subscribe(w.pub, w.store, k, s)))
  {
    var p, q := w.pub, Subscribe(w.pub, w.store, k, s);
    NewSubscriber(p, w.store, k, s);
    forall j | j in q.channels ensures ChannelInv(q, j) {
      SubscribedChannel(p, w.store, k, s, j);
    }
    forall t | t in q.sent ensures SubscriberInv(q, t) {
      if t != s {
        OtherSubscriber(p, w.store, k, s, t);
      }
    }
    hide PubInv, ChannelInv, SubscriberInv, SnapshotOf;
    SubscribeParts(w, k, s);
  }

  lemma SubscribeParts(w: World, k: ChannelKey, s: SubId)
    requires Inv(w) && s !in w.pub.home
    requires forall j :: j in Subscribe(w.pub, w.store, k, s).channels ==> ChannelInv(Subscribe(w.pub, w.store, k, s), j)
    requires forall t :: t in Subscribe(w.pub, w.store, k, s).sent ==> SubscriberInv(Subscribe(w.pub, w.store, k, s), t)
    ensures Inv(w.(pub := Subscribe(w.pub, w.store, k, s)))
  {
    hide ChannelInv, SubscriberInv, SnapshotOf;
  }

  lemma SubscribedChannel(p: State, store: Store, k: ChannelKey, s: SubId, j: ChannelKey)
    requires PubInv(p) && s !in p.home && j in Subscribe(p, store, k, s).channels
    ensures ChannelInv(Subscribe(p, store, k, s), j)
  {
    hide SubscriberInv, SnapshotOf;
    assert j in p.channels ==> ChannelInv(p, j);
  }

  lemma NewSubscriber(p: State, store: Store, k: ChannelKey, s: SubId)
    requires PubInv(p) && s !in p.home
    ensures SubscriberInv(Subscribe(p, store, k, s), s)
  {
    var q := Subscribe(p, store, k, s);
    assert k in p.channels ==> ChannelInv(p, k);
    var m := q.sent[s][0];
    assert InSync([m], q.channels[k]) by {
      ReplayAppend([], m);
      assert [] + [m] == [m];
    }
  }

  lemma OtherSubscriber(p: State, store: Store, k: ChannelKey, s: SubId, t: SubId)
    requires PubInv(p) && s !in p.home && t in p.sent
    ensures var q := Subscribe(p, store, k, s);
      t in q.sent && SubscriberInv(q, t)
  {
    var q := Subscribe(p, store, k, s);
    assert SubscriberInv(p, t) && Subscribed(q, t) == Subscribed(p, t);
  }

  lemma NextInv(w: World, step: Step)
    requires Inv(w) && Enabled(w, step)
    ensures Inv(Next(w, step))
  {
    match step
    case DoSubscribe(k, s) => SubscribeInv(w, k, s);
    case DoNotify(heartbeat, delay, diffs) => NotifyInv(w, heartbeat, delay, diffs);
    case DoFlush(diffs) => FlushInv(w.pub, w.store, diffs);
    case DoReset => ResetInv(w.pub, w.store);
    case DoResync(s, diffs) =>
      FlushInv(w.pub, w.store, diffs);
      ResyncInv(w.pub, w.store, s, diffs);
    case DoUnsubscribe(s) => UnsubscribeInv(w, s);
    case StoreChange(_) =>
  }

  // ---- What every run guarantees ----

  ghost predicate ValidRun(w: World, steps: seq<Step>)
    decreases |steps|
  {
    steps == [] || (Enabled(w, steps[0]) && ValidRun(Next(w, steps[0]), steps[1..]))
  }

  ghost function Exec(w: World, steps: seq<Step>): World
    requires ValidRun(w, steps)
    decreases |steps|
  {
    if steps == [] then w else Exec(Next(w, steps[0]), steps[1..])
  }

  function Fresh(store: Store): World {
    World(State(map[], false, false, map[], map[]), store, false)
  }

  lemma {:induction false} RunInv(w: World, steps: seq<Step>)
    requires Inv(w) && ValidRun(w, steps)
    ensures Inv(Exec(w, steps))
    decreases |steps|
  {
    if steps != [] {
      NextInv(w, steps[0]);
      RunInv(Next(w, steps[0]), steps[1..]);
    }
  }

  lemma {:induction false} PatchesChain(messages: seq<Message>, i: nat)
    requires !Replay(messages).Broken? && i < |messages| && messages[i].Patched?
    ensures i > 0 && messages[i].baseRev == messages[i - 1].rev
    decreases |messages|
  {
    var front := messages[..|messages| - 1];
    if i < |front| {
      PatchesChain(front, i);
    } else if front != [] {
      assert Replay(front) == Receive(Replay(front[..|front| - 1]), front[|front| - 1]);
    }
  }

  /**
   * After any run, every patch any subscriber ever got builds on the message right before it;
   * a current subscriber's replica is its channel, with the revision lagging only while there is
   * no race; and unless a flush is due it is exactly `compute(key)`.
   */
  lemma SubscribersMirrorTheStore(store: Store, steps: seq<Step>, s: SubId)
    requires ValidRun(Fresh(store), steps)
    requires s in Exec(Fresh(store), steps).pub.sent
    ensures var w := Exec(Fresh(store), steps);
      var messages := w.pub.sent[s];
      && (forall i :: 0 <= i < |messages| && messages[i].Patched? ==> i > 0 && messages[i].baseRev == messages[i - 1].rev)
      && (Subscribed(w.pub, s) ==>
            var ch, r := w.pub.channels[w.pub.home[s]], Replay(messages);
            && r.Holding? && r.data == ch.data
            && (ch.data.Some? ==> r.rev == ch.rev) && r.rev <= ch.rev
            && (!w.pub.timer && !w.dirty ==> r.data == w.store.compute(w.pub.home[s])))
  {
    RunInv(Fresh(store), steps);
    var w := Exec(Fresh(store), steps);
    forall i | 0 <= i < |w.pub.sent[s]| && w.pub.sent[s][i].Patched?
      ensures i > 0 && w.pub.sent[s][i].baseRev == w.pub.sent[s][i - 1].rev
    {
      PatchesChain(w.pub.sent[s], i);
    }
  }

  lemma FreshInv(store: Store)
    ensures Inv(Fresh(store))
  {}

  lemma FlushedSubscriber(p: State, store: Store, diffs: Diffs, s: SubId)
    requires PubInv(p) && DiffsOk(p, store, diffs) && Subscribed(p, s)
    ensures var q := Flush(p, store, diffs);
      && Subscribed(q, s) && s in q.sent
      && Replay(q.sent[s]).Holding?
      && Replay(q.sent[s]).data == q.channels[q.home[s]].data == store.compute(q.home[s])
  {
    hide Flush, PubInv, DiffsOk, Replay, FlushChannel, FlushMessages;
    DiffKeys(p, store, diffs);
    FlushSubscribes(p, store, diffs, s);
    FlushSync(p, store, diffs, s);
    FlushChannels(p, store, diffs, p.home[s]);
    FlushedAt(p, store, diffs, p.home[s]);
  }

  /** Right after a flush, replica, channel and store agree. */
  lemma FlushedReplicaIsComputed(store: Store, steps: seq<Step>, diffs: Diffs, s: SubId)
    requires ValidRun(Fresh(store), steps) && DiffsOk(Exec(Fresh(store), steps).pub, Exec(Fresh(store), steps).store, diffs)
    requires Subscribed(Exec(Fresh(store), steps).pub, s)
    ensures var w := Exec(Fresh(store), steps);
      var q := Flush(w.pub, w.store, diffs);
      && Subscribed(q, s) && s in q.sent
      && Replay(q.sent[s]).Holding?
      && Replay(q.sent[s]).data == q.channels[q.home[s]].data == w.store.compute(q.home[s])
  {
    hide ValidRun, Exec, PubInv, DiffsOk, Flush;
    FreshInv(store);
    RunInv(Fresh(store), steps);
    assert PubInv(Exec(Fresh(store), steps).pub);
    FlushedSubscriber(Exec(Fresh(store), steps).pub, Exec(Fresh(store), steps).store, diffs, s);
  }

  /**
   * Liveness: a flush that carries a heartbeat hands every subscriber of a channel that shows or
   * showed a race exactly one message with the latest time; a flush without heartbeat stays silent
   * on channels that did not change.
   */
  lemma HeartbeatReachesEverySubscriber(p: State, store: Store, diffs: Diffs, s: SubId)
    requires PubInv(p) && DiffsOk(p, store, diffs) && Subscribed(p, s)
    ensures var k := p.home[s];
      var shown, next, q := p.channels[k].data, store.compute(k), Flush(p, store, diffs);
      && (p.pendingTick && (shown.Some? || next.Some?) ==>
            exists m :: q.sent[s] == p.sent[s] + [m] && m.timeOfDay == TimeOfDay(store) && m.rev == q.channels[k].rev)
      && (!p.pendingTick && shown == next ==> q.sent[s] == p.sent[s] && q.channels[k] == p.channels[k])
  {
    hide Flush, PubInv, DiffsOk, DiffOk, FlushMessages, FlushChannel, IsDiff, ApplyPatch;
    var k := p.home[s];
    SubscriberParts(p, s);
    DiffAt(p, store, diffs, k);
    DiffKeys(p, store, diffs);
    FlushSent(p, store, diffs, s);
    FlushedAt(p, store, diffs, k);
    HeartbeatOut(p.channels[k], store.compute(k), p.pendingTick, diffs[k], TimeOfDay(store));
    assert p.sent[s] + [] == p.sent[s];
  }

  lemma SubscriberParts(p: State, s: SubId)
    requires PubInv(p) && Subscribed(p, s)
    ensures s in p.sent && p.channels[p.home[s]].raceId == IdOf(p.channels[p.home[s]].data)
  {
    hide SubscriberInv;
    assert ChannelInv(p, p.home[s]);
  }

  lemma DiffAt(p: State, store: Store, diffs: Diffs, k: ChannelKey)
    requires DiffsOk(p, store, diffs) && k in p.channels
    ensures k in diffs && DiffOk(p.channels[k], store.compute(k), diffs[k])
  {
    hide DiffOk;
  }

  lemma FlushedAt(p: State, store: Store, diffs: Diffs, k: ChannelKey)
    requires diffs.Keys == p.channels.Keys && k in p.channels
    ensures k in Flush(p, store, diffs).channels
    ensures Flush(p, store, diffs).channels[k] == FlushChannel(p.channels[k], store.compute(k), p.pendingTick, diffs[k])
  {
    hide FlushChannel, FlushMessages;
  }

  /** What one channel sends in a flush, with and without a heartbeat. */
  lemma HeartbeatOut(ch: Channel, next: Option<Race>, tick: bool, ops: Patch, time: int)
    requires ch.raceId == IdOf(ch.data) && DiffOk(ch, next, ops)
    ensures tick && (ch.data.Some? || next.Some?) ==>
      exists m :: FlushMessages(ch, next, tick, ops, time) == [m] && m.timeOfDay == time && m.rev == FlushChannel(ch, next, tick, ops).rev
    ensures !tick && ch.data == next ==> FlushMessages(ch, next, tick, ops, time) == [] && FlushChannel(ch, next, tick, ops) == ch
  {
    hide ApplyPatch;
    var out := FlushMessages(ch, next, tick, ops, time);
    if tick && (ch.data.Some? || next.Some?) {
      assert out == [out[0]];
    }
  }

  /** A handle that was given up stays given up. */
  lemma GoneStaysGone(w: World, step: Step, s: SubId)
    requires Enabled(w, step) && s in w.pub.home && !Subscribed(w.pub, s)
    ensures s in Next(w, step).pub.home && !Subscribed(Next(w, step).pub, s)
  {
    hide Flush, DiffsOk, SnapshotOf;
    match step
    case DoSubscribe(_, _) =>
    case DoNotify(heartbeat, _, diffs) => DiffKeys(w.pub, w.store, diffs); FlushSubscribes(w.pub.(pendingTick := w.pub.pendingTick || heartbeat), w.store, diffs, s);
    case DoFlush(diffs) => DiffKeys(w.pub, w.store, diffs); FlushSubscribes(w.pub, w.store, diffs, s);
    case DoReset =>
    case DoResync(_, diffs) => DiffKeys(w.pub, w.store, diffs); FlushSubscribes(w.pub, w.store, diffs, s);
    case DoUnsubscribe(_) =>
    case StoreChange(_) =>
  }

  lemma DiffKeys(p: State, store: Store, diffs: Diffs)
    requires DiffsOk(p, store, diffs)
    ensures diffs.Keys == p.channels.Keys
  {}

  /** A flush changes neither homes nor subscriptions. */
  lemma FlushSubscribes(p: State, store: Store, diffs: Diffs, s: SubId)
    requires diffs.Keys == p.channels.Keys
    ensures var q := Flush(p, store, diffs);
      q.home == p.home && q.sent.Keys == p.sent.Keys && (Subscribed(q, s) <==> Subscribed(p, s))
  {
    hide FlushMessages;
  }

  /** Nothing that was handed to a subscriber is taken back. */
  lemma SentOnlyGrows(w: World, step: Step, s: SubId)
    requires Inv(w) && Enabled(w, step) && s in w.pub.sent
    ensures s in Next(w, step).pub.sent && w.pub.sent[s] <= Next(w, step).pub.sent[s]
  {
    hide Flush, Reset, PubInv, DiffsOk;
    HomesAreSent(w.pub);
    match step
    case DoSubscribe(_, _) =>
    case DoNotify(heartbeat, _, diffs) =>
      SameDiffs(w.pub, w.store, diffs, heartbeat);
      FlushGrows(w.pub.(pendingTick := w.pub.pendingTick || heartbeat), w.store, diffs, s);
    case DoFlush(diffs) => FlushGrows(w.pub, w.store, diffs, s);
    case DoReset => ResetSent(w.pub, w.store, s);
    case DoResync(_, diffs) => FlushGrows(w.pub, w.store, diffs, s);
    case DoUnsubscribe(_) =>
    case StoreChange(_) =>
  }

  lemma SameDiffs(p: State, store: Store, diffs: Diffs, heartbeat: bool)
    requires DiffsOk(p, store, diffs)
    ensures DiffsOk(p.(pendingTick := p.pendingTick || heartbeat), store, diffs)
  {
    hide DiffOk;
  }

  lemma FlushGrows(p: State, store: Store, diffs: Diffs, s: SubId)
    requires DiffsOk(p, store, diffs) && s in p.sent
    ensures s in Flush(p, store, diffs).sent && p.sent[s] <= Flush(p, store, diffs).sent[s]
  {
    hide Flush, FlushMessages, DiffsOk;
    DiffKeys(p, store, diffs);
    FlushSent(p, store, diffs, s);
  }

  lemma HomesAreSent(p: State)
    requires PubInv(p)
    ensures p.sent.Keys == p.home.Keys
  {}

  /** `s` follows a channel that shows a race, and a heartbeat waits for it. */
  ghost predicate Waits(p: State, s: SubId) {
    p.pendingTick && Subscribed(p, s) && s in p.sent && p.channels[p.home[s]].data.Some?
  }

  lemma FlushEndsTheWait(p: State, store: Store, diffs: Diffs, s: SubId)
    requires PubInv(p) && DiffsOk(p, store, diffs) && Waits(p, s)
    ensures var q := Flush(p, store, diffs);
      s in q.sent && Subscribed(q, s) && p.sent[s] < q.sent[s]
  {
    hide Flush, PubInv;
    FlushKeepsSubscribers(p, store, diffs, s);
    HeartbeatReachesEverySubscriber(p, store, diffs, s);
  }

  /** A step either hands the waiting subscriber a message or leaves him waiting. */
  lemma StepKeepsTheWait(w: World, step: Step, s: SubId)
    requires Inv(w) && Enabled(w, step) && Waits(w.pub, s)
    requires Subscribed(Next(w, step).pub, s)
    ensures var p, q := w.pub, Next(w, step).pub;
      s in q.sent && (p.sent[s] < q.sent[s] || (Waits(q, s) && q.sent[s] == p.sent[s]))
  {
    hide Flush, PubInv, FlushChannel, FlushMessages;
    match step
    case DoSubscribe(_, _) => HomesAreSent(w.pub);
    case DoNotify(_, _, _) =>
    case DoFlush(diffs) => FlushEndsTheWait(w.pub, w.store, diffs, s);
    case DoReset => ResetSent(w.pub, w.store, s);
    case DoResync(_, diffs) => FlushEndsTheWait(w.pub, w.store, diffs, s);
    case DoUnsubscribe(_) =>
    case StoreChange(_) =>
  }

  lemma {:induction false} RunKeepsTheWait(w: World, steps: seq<Step>, s: SubId)
    requires Inv(w) && ValidRun(w, steps) && Waits(w.pub, s) && Subscribed(Exec(w, steps).pub, s)
    ensures var p, q := w.pub, Exec(w, steps).pub;
      s in q.sent && (p.sent[s] < q.sent[s] || (Waits(q, s) && q.sent[s] == p.sent[s]))
    decreases |steps|
  {
    if steps != [] {
      hide Inv, Waits, Subscribed, Next, Enabled;
      var t := Next(w, steps[0]);
      WaitsMeans(w.pub, s);
      NextInv(w, steps[0]);
      SubscribedAllAlong(w, steps, s);
      StepKeepsTheWait(w, steps[0], s);
      if Waits(t.pub, s) {
        RunKeepsTheWait(t, steps[1..], s);
      } else {
        RunGrows(t, steps[1..], s);
      }
    }
  }

  lemma WaitsMeans(p: State, s: SubId)
    requires Waits(p, s)
    ensures s in p.home && s in p.sent && Subscribed(p, s)
  {}

  lemma {:induction false} RunGrows(w: World, steps: seq<Step>, s: SubId)
    requires Inv(w) && ValidRun(w, steps) && s in w.pub.sent
    ensures s in Exec(w, steps).pub.sent && w.pub.sent[s] <= Exec(w, steps).pub.sent[s]
    decreases |steps|
  {
    if steps != [] {
      hide Inv, Next, Enabled;
      NextInv(w, steps[0]);
      SentOnlyGrows(w, steps[0], s);
      RunGrows(Next(w, steps[0]), steps[1..], s);
    }
  }

  /** Who is subscribed at the end of a run, and known at its start, was subscribed throughout. */
  lemma {:induction false} SubscribedAllAlong(w: World, steps: seq<Step>, s: SubId)
    requires ValidRun(w, steps) && s in w.pub.home && Subscribed(Exec(w, steps).pub, s)
    ensures Subscribed(w.pub, s)
    ensures steps != [] ==> Subscribed(Next(w, steps[0]).pub, s)
    decreases |steps|
  {
    hide Subscribed, Next, Enabled;
    if steps != [] {
      if !Subscribed(w.pub, s) {
        GoneStaysGone(w, steps[0], s);
      } else {
        HomesStay(w, steps[0], s);
      }
      SubscribedAllAlong(Next(w, steps[0]), steps[1..], s);
    }
  }

  lemma HomesStay(w: World, step: Step, s: SubId)
    requires Enabled(w, step) && s in w.pub.home
    ensures s in Next(w, step).pub.home
  {
    hide FlushChannel, FlushMessages;
  }

  /**
   * Liveness over runs: once a heartbeat has been notified, whatever happens afterwards, a
   * subscriber that stays and saw a race has got a message since, or the heartbeat is still pending
   * behind a running timer; and then the timer's flush hands him one.
   */
  lemma HeartbeatIsRemembered(w: World, delay: int, diffs: Diffs, steps: seq<Step>, s: SubId, later: Diffs)
    requires Inv(w) && Enabled(w, DoNotify(true, delay, diffs))
    requires Subscribed(w.pub, s) && s in w.pub.sent && w.pub.channels[w.pub.home[s]].data.Some?
    requires ValidRun(Next(w, DoNotify(true, delay, diffs)), steps)
    requires var t := Exec(Next(w, DoNotify(true, delay, diffs)), steps);
      Subscribed(t.pub, s) && Enabled(t, DoFlush(later))
    ensures var t := Exec(Next(w, DoNotify(true, delay, diffs)), steps);
      && s in t.pub.sent
      && (w.pub.sent[s] < t.pub.sent[s] || (t.pub.pendingTick && t.pub.timer && t.pub.sent[s] == w.pub.sent[s]))
      && var u := Next(t, DoFlush(later));
      s in u.pub.sent && w.pub.sent[s] < u.pub.sent[s]
  {
    hide Exec, ValidRun;
    var step := DoNotify(true, delay, diffs);
    var v := Next(w, step);
    var t := Exec(v, steps);
    NotifyWaits(w, delay, diffs, s);
    NextInv(w, step);
    RunInv(v, steps);
    hide Inv, Waits, Subscribed, Next, Enabled, Notify;
    RunGrows(v, steps, s);
    SentOnlyGrows(t, DoFlush(later), s);
    if Waits(v.pub, s) {
      RunKeepsTheWait(v, steps, s);
      if Waits(t.pub, s) {
        PendingRunsATimer(t, s);
        PendingIsFlushed(t, later, s);
      }
    }
  }

  lemma NotifyWaits(w: World, delay: int, diffs: Diffs, s: SubId)
    requires Inv(w) && Enabled(w, DoNotify(true, delay, diffs))
    requires Subscribed(w.pub, s) && s in w.pub.sent && w.pub.channels[w.pub.home[s]].data.Some?
    ensures var q := Next(w, DoNotify(true, delay, diffs)).pub;
      s in q.sent && (w.pub.sent[s] < q.sent[s] || (Waits(q, s) && q.sent[s] == w.pub.sent[s]))
  {
    hide Flush, PubInv;
    var p := w.pub.(pendingTick := true);
    if !w.pub.timer && delay <= 0 {
      FlagsInv(w.pub, w.pub.timer, true);
      FlushEndsTheWait(p, w.store, diffs, s);
    }
  }

  lemma PendingRunsATimer(w: World, s: SubId)
    requires Inv(w) && Waits(w.pub, s)
    ensures w.pub.pendingTick && w.pub.timer
  {}

  lemma PendingIsFlushed(w: World, diffs: Diffs, s: SubId)
    requires Inv(w) && Waits(w.pub, s) && Enabled(w, DoFlush(diffs))
    ensures s in Next(w, DoFlush(diffs)).pub.sent && w.pub.sent[s] < Next(w, DoFlush(diffs)).pub.sent[s]
  {
    FlushEndsTheWait(w.pub, w.store, diffs, s);
  }
}
