/**
 * What subscribers can rely on, said of channels, messages and the store alone: who is subscribed,
 * what each call sends to whom, and which time it carries.
 */
module PublisherLaws {
  import opened Wrappers
  import opened JsonPatch
  import opened Publisher

  // ---- Who is subscribed ----

  /** Somebody else's unsubscribe changes nothing for `t`; a channel goes exactly with its last subscriber. */
  lemma UnsubscribeIsHisOwn(p: State, s: SubId, t: SubId, k: ChannelKey)
    requires PubInv(p) && Subscribed(p, s)
    ensures var q := Unsubscribe(p, s);
      && !Subscribed(q, s) && q.sent == p.sent && q.home == p.home && q.timer == p.timer && q.pendingTick == p.pendingTick
      && (t != s ==> (Subscribed(q, t) <==> Subscribed(p, t)))
      && (k in q.channels <==> k in p.channels && exists x :: x in p.channels[k].subscribers && x != s)
      && (k in q.channels ==> q.channels[k] == p.channels[k].(subscribers := p.channels[k].subscribers - {s}))
  {
    hide SubscriberInv;
    if k in p.channels {
      assert ChannelInv(p, k);
      SomeoneElse(p.channels[k].subscribers, s);
      if k != p.home[s] {
        assert s !in p.channels[k].subscribers;
        assert p.channels[k].subscribers - {s} == p.channels[k].subscribers;
      }
    }
    if Subscribed(p, t) {
      assert ChannelInv(p, p.home[t]);
    }
  }

  lemma SomeoneElse(subscribers: set<SubId>, s: SubId)
    ensures subscribers - {s} != {} <==> exists x :: x in subscribers && x != s
  {
    if subscribers - {s} != {} {
      var x :| x in subscribers - {s};
      assert x in subscribers && x != s;
    }
    if x :| x in subscribers && x != s {
      assert x in subscribers - {s};
    }
  }

  /** Channels are there for their subscribers: one for each key somebody follows, and no other. */
  lemma ChannelsAreFollowed(p: State, k: ChannelKey)
    requires PubInv(p)
    ensures k in p.channels <==> exists s :: Subscribed(p, s) && p.home[s] == k
  {
    hide SubscriberInv;
    if k in p.channels {
      assert ChannelInv(p, k);
      var s :| s in p.channels[k].subscribers;
      assert Subscribed(p, s) && p.home[s] == k;
    }
  }

  /** One step changes a subscription only if it is his own subscribe or unsubscribe. */
  lemma StepSubscribes(w: World, step: Step, s: SubId)
    requires Inv(w) && Enabled(w, step)
    ensures var p, q := w.pub, Next(w, step).pub;
      && (Subscribed(q, s) <==> (Subscribed(p, s) && !(step.DoUnsubscribe? && step.s == s)) || (step.DoSubscribe? && step.s == s))
      && (s in p.home ==> s in q.home && q.home[s] == p.home[s])
      && (s !in p.home ==> if step.DoSubscribe? && step.s == s then s in q.home && q.home[s] == step.k else s !in q.home)
  {
    hide Flush, DiffsOk, SnapshotOf, PubInv;
    match step
    case DoSubscribe(_, _) =>
    case DoNotify(heartbeat, _, diffs) =>
      DiffKeys(w.pub, w.store, diffs);
      FlushSubscribes(w.pub.(pendingTick := w.pub.pendingTick || heartbeat), w.store, diffs, s);
    case DoFlush(diffs) => DiffKeys(w.pub, w.store, diffs); FlushSubscribes(w.pub, w.store, diffs, s);
    case DoReset => 
    case DoResync(_, diffs) => DiffKeys(w.pub, w.store, diffs); FlushSubscribes(w.pub, w.store, diffs, s);
    case DoUnsubscribe(x) => UnsubscribeIsHisOwn(w.pub, x, s, w.pub.home[x]);
    case StoreChange(_) =>
  }

  predicate Joins(steps: seq<Step>, s: SubId) {
    exists i :: 0 <= i < |steps| && steps[i].DoSubscribe? && steps[i].s == s
  }

  predicate Leaves(steps: seq<Step>, s: SubId) {
    exists i :: 0 <= i < |steps| && steps[i].DoUnsubscribe? && steps[i].s == s
  }

  lemma JoinsFirst(steps: seq<Step>, s: SubId)
    requires steps != []
    ensures Joins(steps, s) <==> (steps[0].DoSubscribe? && steps[0].s == s) || Joins(steps[1..], s)
    ensures Leaves(steps, s) <==> (steps[0].DoUnsubscribe? && steps[0].s == s) || Leaves(steps[1..], s)
  {
    assert forall i :: 0 < i < |steps| ==> steps[i] == steps[1..][i - 1];
  }

  /**
   * A subscriber stays until his own unsubscribe, whatever the others do: after any run he is
   * subscribed exactly when he was or has subscribed, and has not unsubscribed.
   */
  lemma {:induction false} SubscribedUntilHeLeaves(w: World, steps: seq<Step>, s: SubId)
    requires Inv(w) && ValidRun(w, steps)
    ensures var q := Exec(w, steps).pub;
      && (Subscribed(q, s) <==> (Subscribed(w.pub, s) || (s !in w.pub.home && Joins(steps, s))) && !Leaves(steps, s))
      && (s in w.pub.home ==> s in q.home && q.home[s] == w.pub.home[s] && !Joins(steps, s))
      && (s !in w.pub.home && !Joins(steps, s) ==> s !in q.home)
      && (s !in q.home ==> !Leaves(steps, s))
    decreases |steps|
  {
    if steps != [] {
      StepSubscribes(w, steps[0], s);
      NextInv(w, steps[0]);
      JoinsFirst(steps, s);
      assert steps[0].DoUnsubscribe? && steps[0].s == s ==> Subscribed(w.pub, s);
      assert Subscribed(w.pub, s) ==> s in w.pub.home;
      assert steps[0].DoSubscribe? && steps[0].s == s ==> s !in w.pub.home;
      hide Inv, Next, Enabled, Subscribed, Joins, Leaves;
      SubscribedUntilHeLeaves(Next(w, steps[0]), steps[1..], s);
    }
  }

  // ---- What each call sends, and to whom ----

  /** Every message handed out by a step carries the latest heartbeat time, or while there is none that of the race shown. */
  lemma MessagesCarryTheLatestTime(w: World, step: Step, s: SubId, i: nat)
    requires Inv(w) && Enabled(w, step) && s in Next(w, step).pub.sent
    requires (if s in w.pub.sent then |w.pub.sent[s]| else 0) <= i < |Next(w, step).pub.sent[s]|
    ensures Next(w, step).pub.sent[s][i].timeOfDay == if w.store.currentTime == 0 then w.store.displayTime else w.store.currentTime
  {
    hide Flush, Reset, PubInv, DiffsOk, FlushMessages;
    HomesAreSent(w.pub);
    match step
    case DoSubscribe(_, _) =>
    case DoNotify(heartbeat, _, diffs) =>
      SameDiffs(w.pub, w.store, diffs, heartbeat);
      FlushTime(w.pub.(pendingTick := w.pub.pendingTick || heartbeat), w.store, diffs, s);
    case DoFlush(diffs) => FlushTime(w.pub, w.store, diffs, s);
    case DoReset => ResetSentTo(w.pub, w.store, s);
    case DoResync(_, diffs) => FlushTime(w.pub, w.store, diffs, s);
    case DoUnsubscribe(_) =>
    case StoreChange(_) =>
  }

  lemma FlushTime(p: State, store: Store, diffs: Diffs, s: SubId)
    requires DiffsOk(p, store, diffs)
    ensures var q := Flush(p, store, diffs);
      && (s in q.sent <==> s in p.sent)
      && (s in p.sent ==>
            && p.sent[s] <= q.sent[s]
            && forall i :: |p.sent[s]| <= i < |q.sent[s]| ==> q.sent[s][i].timeOfDay == TimeOfDay(store))
  {
    hide Flush, DiffsOk, TimeOfDay;
    DiffKeys(p, store, diffs);
    FlushSubscribes(p, store, diffs, s);
    if s in p.sent {
      FlushSent(p, store, diffs, s);
    }
  }

  lemma ResetSentTo(p: State, store: Store, s: SubId)
    ensures s in Reset(p, store).sent <==> s in p.sent
    ensures s in p.sent ==>
      Reset(p, store).sent[s] == p.sent[s] +
        if Subscribed(p, s) then [SnapshotOf(ResetChannel(p.channels[p.home[s]], store.compute(p.home[s])), store)] else []
  {
    if s in p.sent {
      ResetSent(p, store, s);
    }
  }

  /** A new subscriber gets one snapshot: of the channel as the others know it, or of the store for a new channel. */
  lemma SubscribeSends(p: State, store: Store, k: ChannelKey, s: SubId, t: SubId, j: ChannelKey)
    requires PubInv(p) && s !in p.home
    ensures var q := Subscribe(p, store, k, s);
      && Subscribed(q, s) && q.home[s] == k && s in q.sent
      && (k !in p.channels ==> q.sent[s] == [Snapshot(IdOf(store.compute(k)), 0, store.compute(k), TimeOfDay(store))])
      && (k in p.channels ==>
            var ch := p.channels[k];
            && q.sent[s] == [Snapshot(IdOf(ch.data), ch.rev, ch.data, TimeOfDay(store))]
            && q.channels[k] == ch.(subscribers := ch.subscribers + {s}))
      && (t in p.sent && t != s ==> t in q.sent && q.sent[t] == p.sent[t])
      && (j != k ==> (j in q.channels <==> j in p.channels) && (j in p.channels ==> q.channels[j] == p.channels[j]))
  {
    hide SubscriberInv;
    assert k in p.channels ==> ChannelInv(p, k);
    assert s !in p.sent;
  }

  lemma ChannelTells(ch: Channel, next: Option<Race>, tick: bool, ops: Patch, store: Store)
    requires ch.raceId == IdOf(ch.data) && DiffOk(ch, next, ops)
    ensures var after, out := FlushChannel(ch, next, tick, ops), FlushMessages(ch, next, tick, ops, TimeOfDay(store));
      && after.data == next
      && if ch.data.None? && next.None? then out == [] && after.rev == ch.rev + if tick then 1 else 0
         else if ch.data.None? || next.None? || ch.data.value.raceId != next.value.raceId then
           out == [Snapshot(IdOf(next), ch.rev + 1, next, TimeOfDay(store))] && after.rev == ch.rev + 1
         else if ch.data == next && !tick then out == [] && after.rev == ch.rev
         else
           && out == [Patched(next.value.raceId, ch.rev + 1, ch.rev, ops, TimeOfDay(store))]
           && after.rev == ch.rev + 1 && IsDiff(Obj(ch.data.value.members), Obj(next.value.members), ops)
  {
    hide ApplyPatch;
  }

  /**
   * What a flush sends to a subscriber: nothing while there is no race, a snapshot when the race
   * appears, disappears or is another one, and otherwise a patch on the revision before if anything
   * changed or a heartbeat is pending.
   */
  lemma FlushTells(p: State, store: Store, diffs: Diffs, s: SubId)
    requires PubInv(p) && DiffsOk(p, store, diffs) && Subscribed(p, s)
    ensures var k, q := p.home[s], Flush(p, store, diffs);
      var ch, next := p.channels[k], store.compute(k);
      && s in p.sent && s in q.sent && k in q.channels && k in diffs
      && q.channels[k].data == next && !q.timer && !q.pendingTick
      && if ch.data.None? && next.None? then q.sent[s] == p.sent[s] && q.channels[k].rev == ch.rev + if p.pendingTick then 1 else 0
         else if ch.data.None? || next.None? || ch.data.value.raceId != next.value.raceId then
           q.sent[s] == p.sent[s] + [Snapshot(IdOf(next), ch.rev + 1, next, TimeOfDay(store))] && q.channels[k].rev == ch.rev + 1
         else if ch.data == next && !p.pendingTick then q.sent[s] == p.sent[s] && q.channels[k].rev == ch.rev
         else
           && q.sent[s] == p.sent[s] + [Patched(next.value.raceId, ch.rev + 1, ch.rev, diffs[k], TimeOfDay(store))]
           && q.channels[k].rev == ch.rev + 1 && IsDiff(Obj(ch.data.value.members), Obj(next.value.members), diffs[k])
  {
    hide PubInv, DiffsOk, Flush, FlushChannel, FlushMessages, IsDiff, DiffOk, TimeOfDay, IdOf;
    var k := p.home[s];
    SubscriberParts(p, s);
    DiffKeys(p, store, diffs);
    DiffAt(p, store, diffs, k);
    FlushSent(p, store, diffs, s);
    FlushedAt(p, store, diffs, k);
    FlushStops(p, store, diffs);
    ChannelTells(p.channels[k], store.compute(k), p.pendingTick, diffs[k], store);
    assert p.sent[s] + [] == p.sent[s];
  }

  lemma FlushStops(p: State, store: Store, diffs: Diffs)
    requires diffs.Keys == p.channels.Keys
    ensures !Flush(p, store, diffs).timer && !Flush(p, store, diffs).pendingTick
  {}

  /** A resync sends what is pending to everybody and then one snapshot to the one who asked, who is up to date then. */
  lemma ResyncSends(p: State, store: Store, s: SubId, diffs: Diffs, t: SubId)
    requires PubInv(p) && DiffsOk(p, store, diffs) && Subscribed(p, s) && s in p.sent && t in p.sent
    ensures var f, q, next := Flush(p, store, diffs), Resync(p, store, s, diffs), store.compute(p.home[s]);
      && q.channels == f.channels && s in f.sent && t in f.sent && t in q.sent && p.home[s] in q.channels
      && q.sent[t] == f.sent[t] + (if t == s then [Snapshot(IdOf(next), q.channels[p.home[s]].rev, next, TimeOfDay(store))] else [])
      && Replay(q.sent[s]) == Holding(q.channels[p.home[s]].rev, next)
      && !q.timer && !q.pendingTick
  {
    hide Flush, PubInv, DiffsOk, Replay, FlushMessages, FlushChannel, SnapshotOf, TimeOfDay, Receive;
    DiffKeys(p, store, diffs);
    var f, k := Flush(p, store, diffs), p.home[s];
    FlushSubscribes(p, store, diffs, s);
    FlushSubscribes(p, store, diffs, t);
    FlushStops(p, store, diffs);
    FlushInv(p, store, diffs);
    FlushedSubscriber(p, store, diffs, s);
    SubscriberParts(f, s);
    SnapshotCatchesUp(f.sent[s], f.channels[k], store);
    assert t != s ==> f.sent[t] + [] == f.sent[t];
  }

  lemma SnapshotCatchesUp(messages: seq<Message>, ch: Channel, store: Store)
    requires Replay(messages).Holding? && ch.raceId == IdOf(ch.data)
    ensures SnapshotOf(ch, store) == Snapshot(IdOf(ch.data), ch.rev, ch.data, TimeOfDay(store))
    ensures Replay(messages + [SnapshotOf(ch, store)]) == Holding(ch.rev, ch.data)
  {
    hide Replay;
    ReplayAppend(messages, SnapshotOf(ch, store));
  }

  /** A reset sends each subscriber exactly one snapshot of the store and forgets what was pending. */
  lemma ResetSends(p: State, store: Store, s: SubId)
    requires PubInv(p) && s in p.sent
    ensures var q := Reset(p, store);
      && s in q.sent && !q.timer && !q.pendingTick
      && (!Subscribed(p, s) ==> q.sent[s] == p.sent[s])
      && (Subscribed(p, s) ==>
            var k := p.home[s];
            && k in q.channels && q.channels[k].data == store.compute(k) && q.channels[k].rev == p.channels[k].rev + 1
            && q.sent[s] == p.sent[s] + [Snapshot(IdOf(store.compute(k)), p.channels[k].rev + 1, store.compute(k), TimeOfDay(store))])
  {
    ResetSent(p, store, s);
    hide PubInv, Deliver;
  }

  // ---- Notifications coalesce ----

  /** The first notification of a burst starts the timer and sends nothing; without a delay it is flushed at once. */
  lemma NotifyStartsOrFlushes(w: World, heartbeat: bool, delay: int, diffs: Diffs, s: SubId)
    requires Inv(w) && DiffsOk(w.pub, w.store, diffs) && Subscribed(w.pub, s)
    ensures var p, q := w.pub, Next(w, DoNotify(heartbeat, delay, diffs)).pub;
      && (p.timer || delay > 0 ==> q == p.(timer := true, pendingTick := p.pendingTick || heartbeat))
      && (!p.timer && delay <= 0 ==>
            && !q.timer && !q.pendingTick && Subscribed(q, s) && s in q.sent && s in p.sent
            && Replay(q.sent[s]).Holding? && Replay(q.sent[s]).data == w.store.compute(p.home[s])
            && (heartbeat && w.store.compute(p.home[s]).Some? ==> |q.sent[s]| == |p.sent[s]| + 1))
  {
    var p := w.pub.(pendingTick := w.pub.pendingTick || heartbeat);
    if !w.pub.timer && delay <= 0 {
      FlagsInv(w.pub, w.pub.timer, p.pendingTick);
      SameDiffs(w.pub, w.store, diffs, heartbeat);
      hide PubInv, DiffsOk, Flush;
      FlushedSubscriber(p, w.store, diffs, s);
      FlushSubscribes(p, w.store, diffs, s);
      FlushTells(p, w.store, diffs, s);
    } else {
      hide PubInv, DiffsOk, Flush;
    }
  }

  predicate IsNotice(step: Step) {
    step.DoNotify? || step.StoreChange?
  }

  predicate HasHeartbeat(steps: seq<Step>)
    decreases |steps|
  {
    steps != [] && ((steps[0].DoNotify? && steps[0].heartbeat) || HasHeartbeat(steps[1..]))
  }

  /** Behind a running timer, changes and notifications send nothing; only heartbeats are remembered. */
  lemma {:induction false} NoticesWait(w: World, steps: seq<Step>)
    requires ValidRun(w, steps) && w.pub.timer && w.pub.channels != map[]
    requires forall i :: 0 <= i < |steps| ==> IsNotice(steps[i])
    ensures Exec(w, steps).pub == w.pub.(pendingTick := w.pub.pendingTick || HasHeartbeat(steps))
    decreases |steps|
  {
    if steps != [] {
      hide DiffsOk, Flush;
      assert IsNotice(steps[0]);
      assert Next(w, steps[0]).pub == w.pub.(pendingTick := w.pub.pendingTick || (steps[0].DoNotify? && steps[0].heartbeat));
      assert forall i :: 0 <= i < |steps| - 1 ==> steps[1..][i] == steps[i + 1];
      NoticesWait(Next(w, steps[0]), steps[1..]);
    }
  }

  /**
   * Coalescing: however many changes and notifications arrive while the timer runs, each subscriber
   * gets at most one message out of them, by the timer's flush, and shows the latest store after it.
   */
  lemma BurstSendsOneMessage(w: World, steps: seq<Step>, diffs: Diffs, s: SubId)
    requires Inv(w) && ValidRun(w, steps) && w.pub.timer && Subscribed(w.pub, s)
    requires forall i :: 0 <= i < |steps| ==> IsNotice(steps[i])
    requires DiffsOk(Exec(w, steps).pub, Exec(w, steps).store, diffs)
    ensures var v := Exec(w, steps);
      var q := Flush(v.pub, v.store, diffs);
      && s in w.pub.sent && s in q.sent && v.pub.sent == w.pub.sent
      && w.pub.sent[s] <= q.sent[s] && |q.sent[s]| <= |w.pub.sent[s]| + 1
      && Replay(q.sent[s]).Holding? && Replay(q.sent[s]).data == v.store.compute(w.pub.home[s])
      && (HasHeartbeat(steps) && v.store.compute(w.pub.home[s]).Some? ==> |q.sent[s]| == |w.pub.sent[s]| + 1)
  {
    hide Exec, ValidRun, PubInv, DiffsOk, Flush, Replay;
    NoticesWait(w, steps);
    RunInv(w, steps);
    var v := Exec(w, steps);
    FlushedSubscriber(v.pub, v.store, diffs, s);
    DiffKeys(v.pub, v.store, diffs);
    FlushSubscribes(v.pub, v.store, diffs, s);
    FlushTells(v.pub, v.store, diffs, s);
  }
}
