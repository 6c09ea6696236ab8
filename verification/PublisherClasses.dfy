/** The publisher object, verified against the functions of module Publisher. */
module PublisherClasses {
  import opened Wrappers
  import opened JsonPatch
  import opened Publisher

  class SnapshotPublisher {
    var channels: map<ChannelKey, Channel>
    var timer: bool
    var pendingTick: bool
    /** The channel each subscription handle was created for. */
    var home: map<SubId, ChannelKey>
    /** What the send callbacks have been called with, per callback. */
    var sent: map<SubId, seq<Message>>

    ghost function State(): Publisher.State
      reads this
    {
      Publisher.State(channels, timer, pendingTick, home, sent)
    }

    ghost predicate Valid()
      reads this
    {
      && sent.Keys == home.Keys
      && HomesOk(State())
    }

    constructor ()
      ensures Valid() && State() == Fresh(Store(_ => None, 0, 0)).pub
    {
      channels, timer, pendingTick := map[], false, false;
      home, sent := map[], map[];
    }

    method Send(s: SubId, message: Message)
      requires s in sent
      modifies this`sent
      ensures sent == old(sent)[s := old(sent)[s] + [message]]
    {
      sent := sent[s := sent[s] + [message]];
    }

    method SendAll(subscribers: set<SubId>, message: Message)
      requires subscribers <= sent.Keys
      modifies this`sent
      ensures sent == SentBy(old(sent), subscribers, [message])
    {
      var todo := subscribers;
      while todo != {}
        invariant todo <= subscribers
        invariant sent == map s | s in old(sent) :: if s in subscribers - todo then old(sent)[s] + [message] else old(sent)[s]
        decreases |todo|
      {
        var s :| s in todo;
        Send(s, message);
        todo := todo - {s};
      }
    }

    method SendSnapshot(ch: Channel, s: SubId, store: Store)
      requires s in sent
      modifies this`sent
      ensures sent == old(sent)[s := old(sent)[s] + [SnapshotOf(ch, store)]]
    {
      Send(s, Snapshot(ch.raceId, ch.rev, ch.data, TimeOfDay(store)));
    }

    /** `send` is a callback that has not been subscribed before. */
    method Subscribe(store: Store, key: ChannelKey, send: SubId)
      requires Valid() && send !in home
      modifies this
      ensures Valid()
      ensures State() == Publisher.Subscribe(old(State()), store, key, send)
    {
      hide TimeOfDay, HomesOk, Publisher.Subscribe;
      ghost var p := State();
      SubscribeHomes(p, store, key, send);
      var ch: Channel;
      if key in channels {
        ch := channels[key];
      } else {
        ch := NewChannel(store.compute(key));
      }
      channels := channels[key := ch.(subscribers := ch.subscribers + {send})];
      home := home[send := key];
      sent := sent[send := []];
      SendSnapshot(ch, send, store);
      hide SnapshotOf;
      assert [] + [SnapshotOf(ch, store)] == [SnapshotOf(ch, store)];
      SubscribedState(p, store, key, send, ch, State());
    }

    /** The handle's resync: everything pending goes out first, then a snapshot to this subscriber. */
    method Resync(store: Store, send: SubId) returns (ghost diffs: Diffs)
      requires Valid() && Subscribed(State(), send)
      modifies this
      ensures Valid() && DiffsOk(old(State()), store, diffs)
      ensures State() == Publisher.Resync(old(State()), store, send, diffs)
    {
      hide Flush, DiffsOk, HomesOk, SnapshotOf;
      ghost var p := State();
      diffs := FlushNow(store);
      FlushKeepsSubscribers(p, store, diffs, send);
      SendHomes(State(), sent[send := sent[send] + [SnapshotOf(channels[home[send]], store)]]);
      SendSnapshot(channels[home[send]], send, store);
    }

    /** The handle's unsubscribe, at most once per handle. */
    method Unsubscribe(send: SubId)
      requires Valid() && Subscribed(State(), send)
      modifies this`channels
      ensures Valid()
      ensures State() == Publisher.Unsubscribe(old(State()), send)
    {
      var key := home[send];
      var ch := channels[key];
      ch := ch.(subscribers := ch.subscribers - {send});
      channels := channels[key := ch];
      if ch.subscribers == {} {
        channels := channels - {key};
      }
    }

    /** One channel's share of a flush: a snapshot on a race change, a patch on a change or tick. */
    method FlushOne(key: ChannelKey, store: Store, tick: bool) returns (ghost ops: Patch, ghost messages: seq<Message>)
      requires key in channels && channels[key].subscribers <= sent.Keys
      modifies this`channels, this`sent
      ensures key in channels && channels == old(channels)[key := channels[key]]
      ensures channels[key].subscribers == old(channels)[key].subscribers
      ensures FlushedTo(old(channels)[key], channels[key], key, store, tick, ops, messages)
      ensures sent == SentBy(old(sent), channels[key].subscribers, messages)
    {
      var ch, next := channels[key], store.compute(key);
      var patch := [];
      if ch.data.Some? && next.Some? {
        patch := Compare(ch.data.value.Doc(), next.value.Doc());
      }
      ops, messages := patch, FlushMessages(ch, next, tick, patch, TimeOfDay(store));
      if IdOf(next) != ch.raceId || next.None? != ch.data.None? {
        ch := ch.(rev := ch.rev + 1, data := next, raceId := IdOf(next));
        channels := channels[key := ch];
        SendAll(ch.subscribers, Snapshot(ch.raceId, ch.rev, ch.data, TimeOfDay(store)));
        return;
      }
      if patch == [] && !tick {
        return;
      }
      var baseRev := ch.rev;
      ch := ch.(rev := ch.rev + 1, data := next);
      channels := channels[key := ch];
      if next.None? {
        return;
      }
      SendAll(ch.subscribers, Patched(next.value.raceId, ch.rev, baseRev, patch, TimeOfDay(store)));
    }

    method FlushNow(store: Store) returns (ghost diffs: Diffs)
      requires Valid()
      modifies this
      ensures Valid()
      ensures DiffsOk(old(State()), store, diffs)
      ensures State() == Flush(old(State()), store, diffs)
    {
      hide Flushing, FlushedTo, Flush, Deliver, DiffsOk;
      ghost var p := State();
      FlushingStart(p, store);
      CancelTimer();
      var tick := pendingTick;
      pendingTick := false;
      diffs := map[];
      ghost var out: map<ChannelKey, seq<Message>> := map[];
      var todo := channels.Keys;
      while todo != {}
        invariant home == p.home && !timer && !pendingTick
        invariant Flushing(p, channels, sent, todo, store, diffs, out)
        decreases |todo|
      {
        var k :| k in todo;
        FlushingAt(p, channels, sent, todo, store, diffs, out, k);
        ghost var before := channels;
        ghost var ops, messages := FlushOne(k, store, tick);
        FlushingStep(p, before, channels, sent, todo, store, diffs, out, k, ops, messages);
        diffs, out, todo := diffs[k := ops], out[k := messages], todo - {k};
      }
      FlushDone(p, State(), store, diffs, out);
    }

    /** Called after every change of the store. */
    method Notify(store: Store, heartbeat: bool, delay: int) returns (ghost diffs: Diffs)
      requires Valid()
      modifies this
      ensures Valid()
      ensures DiffsOk(old(State()), store, diffs)
      ensures State() == Publisher.Notify(old(State()), store, heartbeat, delay, diffs)
    {
      if heartbeat {
        pendingTick := true;
      }
      if channels == map[] {
        pendingTick := false;
        return SomeDiffs(State(), store);
      }
      if timer {
        return SomeDiffs(State(), store);
      }
      if delay <= 0 {
        diffs := FlushNow(store);
        return;
      }
      timer := true;
      return SomeDiffs(State(), store);
    }

    method ResetOne(key: ChannelKey, store: Store) returns (ghost messages: seq<Message>)
      requires key in channels && channels[key].subscribers <= sent.Keys
      modifies this`channels, this`sent
      ensures key in channels && channels == old(channels)[key := channels[key]]
      ensures channels[key].subscribers == old(channels)[key].subscribers
      ensures ResetTo(old(channels)[key], channels[key], key, store, messages)
      ensures sent == SentBy(old(sent), channels[key].subscribers, messages)
    {
      var ch := channels[key];
      messages := [SnapshotOf(ResetChannel(ch, store.compute(key)), store)];
      ch := ch.(data := store.compute(key));
      ch := ch.(raceId := IdOf(ch.data), rev := ch.rev + 1);
      channels := channels[key := ch];
      SendAll(ch.subscribers, Snapshot(ch.raceId, ch.rev, ch.data, TimeOfDay(store)));
    }

    /** The store was replaced: every channel gets a new snapshot. */
    method Reset(store: Store)
      requires Valid()
      modifies this
      ensures Valid()
      ensures State() == Publisher.Reset(old(State()), store)
    {
      hide Resetting, ResetTo, Publisher.Reset, Deliver;
      ghost var p := State();
      ResettingStart(p, store);
      CancelTimer();
      pendingTick := false;
      ghost var out: map<ChannelKey, seq<Message>> := map[];
      var todo := channels.Keys;
      while todo != {}
        invariant home == p.home && !timer && !pendingTick
        invariant Resetting(p, channels, sent, todo, store, out)
        decreases |todo|
      {
        var k :| k in todo;
        ResettingAt(p, channels, sent, todo, store, out, k);
        ghost var before := channels;
        ghost var messages := ResetOne(k, store);
        ResettingStep(p, before, channels, sent, todo, store, out, k, messages);
        out, todo := out[k := messages], todo - {k};
      }
      ResetDone(p, State(), store, out);
    }

    method CancelTimer()
      modifies this`timer
      ensures !timer
    {
      timer := false;
    }
  }

  // ---- Value-level steps of the loops ----

  /** Every subscriber of a channel has that channel as its home. */
  ghost predicate HomesOk(p: Publisher.State) {
    forall k, s :: k in p.channels && s in p.channels[k].subscribers ==> s in p.home && p.home[s] == k
  }

  ghost predicate FlushedTo(before: Channel, after: Channel, k: ChannelKey, store: Store, tick: bool, ops: Patch, messages: seq<Message>) {
    && DiffOk(before, store.compute(k), ops)
    && after == FlushChannel(before, store.compute(k), tick, ops)
    && messages == FlushMessages(before, store.compute(k), tick, ops, TimeOfDay(store))
  }

  /** The flush loop has handled every channel outside `todo`. */
  ghost predicate Flushing(p: Publisher.State, channels: map<ChannelKey, Channel>, sent: map<SubId, seq<Message>>,
                           todo: set<ChannelKey>, store: Store, diffs: Diffs, out: map<ChannelKey, seq<Message>>)
  {
    && channels.Keys == p.channels.Keys && todo <= channels.Keys
    && diffs.Keys == channels.Keys - todo && out.Keys == channels.Keys - todo
    && (forall k :: k in todo ==> channels[k] == p.channels[k])
    && (forall k :: k in diffs ==> FlushedTo(p.channels[k], channels[k], k, store, p.pendingTick, diffs[k], out[k]))
    && sent == Deliver(p, out)
  }

  lemma FlushingStart(p: Publisher.State, store: Store)
    ensures Flushing(p, p.channels, p.sent, p.channels.Keys, store, map[], map[])
  {
    DeliverNothing(p);
  }

  /** What the flush loop needs to know of the channel it handles next. */
  lemma FlushingAt(p: Publisher.State, channels: map<ChannelKey, Channel>, sent: map<SubId, seq<Message>>,
                   todo: set<ChannelKey>, store: Store, diffs: Diffs, out: map<ChannelKey, seq<Message>>, k: ChannelKey)
    requires HomesOk(p) && p.sent.Keys == p.home.Keys && Flushing(p, channels, sent, todo, store, diffs, out) && k in todo
    ensures k in channels && k in p.channels && channels[k] == p.channels[k]
    ensures sent == Deliver(p, out) && channels[k].subscribers <= sent.Keys
  {
    SubscribersKnown(p, k);
  }

  lemma FlushingStep(p: Publisher.State, before: map<ChannelKey, Channel>, after: map<ChannelKey, Channel>,
                     sent: map<SubId, seq<Message>>, todo: set<ChannelKey>, store: Store, diffs: Diffs,
                     out: map<ChannelKey, seq<Message>>, k: ChannelKey, ops: Patch, messages: seq<Message>)
    requires HomesOk(p) && Flushing(p, before, Deliver(p, out), todo, store, diffs, out) && k in todo
    requires k in after && after == before[k := after[k]]
    requires FlushedTo(before[k], after[k], k, store, p.pendingTick, ops, messages)
    requires sent == SentBy(Deliver(p, out), p.channels[k].subscribers, messages)
    ensures Flushing(p, after, sent, todo - {k}, store, diffs[k := ops], out[k := messages])
  {
    hide FlushedTo, Deliver, HomesOk, SentBy;
    DeliverStep(p, out, k, messages);
  }

  ghost predicate ResetTo(before: Channel, after: Channel, k: ChannelKey, store: Store, messages: seq<Message>) {
    after == ResetChannel(before, store.compute(k)) && messages == [SnapshotOf(after, store)]
  }

  /** The reset loop has handled every channel outside `todo`. */
  ghost predicate Resetting(p: Publisher.State, channels: map<ChannelKey, Channel>, sent: map<SubId, seq<Message>>,
                            todo: set<ChannelKey>, store: Store, out: map<ChannelKey, seq<Message>>)
  {
    && channels.Keys == p.channels.Keys && todo <= channels.Keys && out.Keys == channels.Keys - todo
    && (forall k :: k in todo ==> channels[k] == p.channels[k])
    && (forall k :: k in out ==> ResetTo(p.channels[k], channels[k], k, store, out[k]))
    && sent == Deliver(p, out)
  }

  lemma ResettingStart(p: Publisher.State, store: Store)
    ensures Resetting(p, p.channels, p.sent, p.channels.Keys, store, map[])
  {
    DeliverNothing(p);
  }

  lemma ResettingAt(p: Publisher.State, channels: map<ChannelKey, Channel>, sent: map<SubId, seq<Message>>,
                    todo: set<ChannelKey>, store: Store, out: map<ChannelKey, seq<Message>>, k: ChannelKey)
    requires HomesOk(p) && p.sent.Keys == p.home.Keys && Resetting(p, channels, sent, todo, store, out) && k in todo
    ensures k in channels && k in p.channels && channels[k] == p.channels[k]
    ensures sent == Deliver(p, out) && channels[k].subscribers <= sent.Keys
  {
    SubscribersKnown(p, k);
  }

  lemma ResettingStep(p: Publisher.State, before: map<ChannelKey, Channel>, after: map<ChannelKey, Channel>,
                      sent: map<SubId, seq<Message>>, todo: set<ChannelKey>, store: Store,
                      out: map<ChannelKey, seq<Message>>, k: ChannelKey, messages: seq<Message>)
    requires HomesOk(p) && Resetting(p, before, Deliver(p, out), todo, store, out) && k in todo
    requires k in after && after == before[k := after[k]] && ResetTo(before[k], after[k], k, store, messages)
    requires sent == SentBy(Deliver(p, out), p.channels[k].subscribers, messages)
    ensures Resetting(p, after, sent, todo - {k}, store, out[k := messages])
  {
    hide ResetTo, Deliver, HomesOk, SentBy;
    DeliverStep(p, out, k, messages);
  }

  lemma SubscribedState(p: Publisher.State, store: Store, k: ChannelKey, s: SubId, ch: Channel, q: Publisher.State)
    requires s !in p.home && ch == if k in p.channels then p.channels[k] else NewChannel(store.compute(k))
    requires q.channels == p.channels[k := ch.(subscribers := ch.subscribers + {s})] && q.home == p.home[s := k]
    requires q.sent == p.sent[s := []][s := [SnapshotOf(ch, store)]] && q.timer == p.timer && q.pendingTick == p.pendingTick
    ensures q == Publisher.Subscribe(p, store, k, s)
  {
    hide SnapshotOf, NewChannel;
    assert q.sent == p.sent[s := [SnapshotOf(ch, store)]];
  }

  lemma SubscribeHomes(p: Publisher.State, store: Store, k: ChannelKey, s: SubId)
    requires HomesOk(p) && s !in p.home
    ensures HomesOk(Publisher.Subscribe(p, store, k, s))
  {
    hide SnapshotOf;
  }

  lemma SendHomes(p: Publisher.State, sent: map<SubId, seq<Message>>)
    requires HomesOk(p)
    ensures HomesOk(p.(sent := sent))
  {}

  lemma HomesKept(p: Publisher.State, q: Publisher.State)
    requires HomesOk(p) && q.home == p.home && q.channels.Keys == p.channels.Keys
    requires forall k :: k in p.channels ==> q.channels[k].subscribers == p.channels[k].subscribers
    ensures HomesOk(q)
  {
  }

  lemma FlushFromParts(p: Publisher.State, q: Publisher.State, store: Store, diffs: Diffs, out: map<ChannelKey, seq<Message>>)
    requires Flushing(p, q.channels, q.sent, {}, store, diffs, out)
    requires q.home == p.home && !q.timer && !q.pendingTick
    ensures DiffsOk(p, store, diffs) && q == Flush(p, store, diffs)
    ensures q.channels.Keys == p.channels.Keys
    ensures forall k :: k in p.channels ==> q.channels[k].subscribers == p.channels[k].subscribers
  {
    hide FlushChannel, FlushMessages, DiffOk, Deliver;
    assert q.channels == FlushedChannels(p, store, diffs);
    assert out == FlushOut(p, store, diffs);
    forall k | k in p.channels ensures q.channels[k].subscribers == p.channels[k].subscribers {
      FlushChannelKeeps(p.channels[k], store.compute(k), p.pendingTick, diffs[k]);
    }
  }

  lemma FlushChannelKeeps(ch: Channel, next: Option<Race>, tick: bool, ops: Patch)
    ensures FlushChannel(ch, next, tick, ops).subscribers == ch.subscribers
  {}

  lemma ResetFromParts(p: Publisher.State, q: Publisher.State, store: Store, out: map<ChannelKey, seq<Message>>)
    requires Resetting(p, q.channels, q.sent, {}, store, out)
    requires q.home == p.home && !q.timer && !q.pendingTick
    ensures q == Publisher.Reset(p, store)
    ensures q.channels.Keys == p.channels.Keys
    ensures forall k :: k in p.channels ==> q.channels[k].subscribers == p.channels[k].subscribers
  {
    assert q.channels == Publisher.Reset(p, store).channels;
    assert out == map k | k in p.channels :: [SnapshotOf(ResetChannel(p.channels[k], store.compute(k)), store)];
  }

  lemma FlushDone(p: Publisher.State, q: Publisher.State, store: Store, diffs: Diffs, out: map<ChannelKey, seq<Message>>)
    requires HomesOk(p) && Flushing(p, q.channels, q.sent, {}, store, diffs, out)
    requires q.home == p.home && !q.timer && !q.pendingTick
    ensures DiffsOk(p, store, diffs) && q == Flush(p, store, diffs)
    ensures HomesOk(q) && q.sent.Keys == p.sent.Keys
  {
    FlushFromParts(p, q, store, diffs, out);
    HomesKept(p, q);
  }

  lemma ResetDone(p: Publisher.State, q: Publisher.State, store: Store, out: map<ChannelKey, seq<Message>>)
    requires HomesOk(p) && Resetting(p, q.channels, q.sent, {}, store, out)
    requires q.home == p.home && !q.timer && !q.pendingTick
    ensures q == Publisher.Reset(p, store)
    ensures HomesOk(q) && q.sent.Keys == p.sent.Keys
  {
    ResetFromParts(p, q, store, out);
    HomesKept(p, q);
  }

  /** Diffs always exist: replacing everything is one. */
  ghost function SomeDiffs(p: Publisher.State, store: Store): (diffs: Diffs)
    ensures DiffsOk(p, store, diffs)
  {
    map k | k in p.channels :: SomeDiff(p.channels[k], store.compute(k))
  }

  ghost function SomeDiff(ch: Channel, next: Option<Race>): (ops: Patch)
    ensures DiffOk(ch, next, ops)
  {
    if ch.data.None? || next.None? || ch.data.value.Doc() == next.value.Doc() then []
    else
      var op := Replace([], next.value.Doc());
      assert ApplyOp(ch.data.value.Doc(), op) == Some(next.value.Doc());
      assert [op][1..] == [];
      assert ApplyPatch(next.value.Doc(), []) == Some(next.value.Doc());
      assert ApplyPatch(ch.data.value.Doc(), [op]) == Some(next.value.Doc());
      [op]
  }

  ghost function SentBy(sent: map<SubId, seq<Message>>, to: set<SubId>, messages: seq<Message>): map<SubId, seq<Message>> {
    if messages == [] then sent
    else map s | s in sent :: if s in to then sent[s] + messages else sent[s]
  }

  lemma DeliverNothing(p: Publisher.State)
    ensures Deliver(p, map[]) == p.sent
  {
  }

  lemma SubscribersKnown(p: Publisher.State, k: ChannelKey)
    requires HomesOk(p) && k in p.channels
    ensures p.channels[k].subscribers <= p.home.Keys
  {
  }

  lemma DeliverKeys(p: Publisher.State, out: map<ChannelKey, seq<Message>>)
    ensures Deliver(p, out).Keys == p.sent.Keys
  {}

  lemma DeliverStep(p: Publisher.State, out: map<ChannelKey, seq<Message>>, k: ChannelKey, messages: seq<Message>)
    requires HomesOk(p) && k in p.channels && k !in out
    ensures Deliver(p, out[k := messages]) == SentBy(Deliver(p, out), p.channels[k].subscribers, messages)
  {
    hide Deliver, HomesOk;
    var before, after := Deliver(p, out), Deliver(p, out[k := messages]);
    DeliverKeys(p, out);
    DeliverKeys(p, out[k := messages]);
    forall s | s in p.sent
      ensures after[s] == if s in p.channels[k].subscribers then before[s] + messages else before[s]
    {
      DeliverStepOne(p, out, k, messages, s);
    }
    if messages == [] {
      assert forall s :: s in before ==> before[s] + [] == before[s];
      assert after == before;
    }
  }

  lemma DeliverStepOne(p: Publisher.State, out: map<ChannelKey, seq<Message>>, k: ChannelKey, messages: seq<Message>, s: SubId)
    requires HomesOk(p) && k in p.channels && k !in out && s in p.sent
    ensures Deliver(p, out[k := messages])[s] ==
      if s in p.channels[k].subscribers then Deliver(p, out)[s] + messages else Deliver(p, out)[s]
  {
    if s in p.channels[k].subscribers {
      assert p.home[s] == k;
    }
  }
}
