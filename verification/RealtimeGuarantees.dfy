/**
 * What the realtime protocol guarantees over whole runs: replicas hold real versions, an open
 * socket's queue leads to the current document, and no accepted write is lost or merged wrongly.
 */
module RealtimeGuarantees {
  import opened Wrappers
  import opened JsonPatch
  import opened RealtimeProtocol
  import opened RealtimeSystem

  // ---- Replicas hold versions the server really had ----

  /** A step counts the revision up by at most one and leaves recorded versions alone. */
  lemma StepGrows<Id>(s: System<Id>, step: Step<Id>)
    requires Inv(s) && Enabled(s, step)
    ensures var t := Next(s, step);
      && s.server.doc.rev <= t.server.doc.rev
      && forall r :: r in s.versions ==> r in t.versions && t.versions[r] == s.versions[r]
  {
    hide ApplyPatch, Broadcast, Push, ClientInv, ClientEvent;
  }

  /** Versions are never rewritten, so what a prefix of the run stored is still there at its end. */
  lemma {:induction false} VersionsOnlyGrow<Id>(s: System<Id>, steps: seq<Step<Id>>)
    requires Inv(s) && ValidRun(s, steps)
    ensures var t := Exec(s, steps);
      && s.server.doc.rev <= t.server.doc.rev
      && forall r :: r in s.versions ==> r in t.versions && t.versions[r] == s.versions[r]
    decreases |steps|
  {
    if steps != [] {
      hide Inv, Next, Enabled;
      NextInv(s, steps[0]);
      StepGrows(s, steps[0]);
      VersionsOnlyGrow(Next(s, steps[0]), steps[1..]);
    }
  }

  lemma CurrentIsVersion<Id>(s: System<Id>)
    requires Inv(s)
    ensures IsVersion(s.server.doc.rev, s.server.doc.data, s.versions)
  {}

  lemma OnlyCurrentIsNew<Id>(s: System<Id>, step: Step<Id>, r: nat)
    requires Inv(s) && Enabled(s, step) && r in Next(s, step).versions && r !in s.versions
    ensures r == Next(s, step).server.doc.rev
  {
    hide ApplyPatch, Broadcast, Push, ClientInv, ClientEvent;
  }

  /** Every recorded version is the document the server held after some prefix of the run. */
  lemma {:induction false} VersionComesFromPrefix<Id>(s: System<Id>, steps: seq<Step<Id>>, r: nat) returns (n: nat)
    requires Inv(s) && ValidRun(s, steps)
    requires r in Exec(s, steps).versions && (r in s.versions ==> r == s.server.doc.rev)
    ensures n <= |steps| && ValidRun(s, steps[..n])
    ensures Exec(s, steps[..n]).server.doc == RealtimeDoc(r, Exec(s, steps).versions[r])
    decreases |steps|
  {
    hide Inv, Next, Enabled;
    if r in s.versions {
      n := 0;
      CurrentIsVersion(s);
      VersionsOnlyGrow(s, steps);
      assert steps[..0] == [];
    } else {
      NextInv(s, steps[0]);
      if r in Next(s, steps[0]).versions {
        OnlyCurrentIsNew(s, steps[0], r);
      }
      var m := VersionComesFromPrefix(Next(s, steps[0]), steps[1..], r);
      n := m + 1;
      assert steps[..n][0] == steps[0] && steps[..n][1..] == steps[1..][..m];
    }
  }

  /**
   * After any run, a client that holds a document holds exactly the document the server had at
   * that revision, at some point of the same run.
   */
  lemma ReplicaIsAServerVersion<Id>(s: System<Id>, steps: seq<Step<Id>>, c: ClientId) returns (n: nat)
    requires Init(s) && ValidRun(s, steps) && c in s.clients
    requires c in Exec(s, steps).clients && Exec(s, steps).clients[c].data != Null
    ensures n <= |steps| && ValidRun(s, steps[..n])
    ensures var cl := Exec(s, steps).clients[c];
      Exec(s, steps[..n]).server.doc == RealtimeDoc(cl.rev, cl.data)
  {
    InitInv(s);
    RunInv(s, steps);
    var t := Exec(s, steps);
    assert ClientInv(t, c);
    n := VersionComesFromPrefix(s, steps, t.clients[c].rev);
  }

  // ---- The queue of an open socket leads to the current document ----

  /** Folds the snapshot and patch frames of a queue; None if a patch does not apply. */
  function ReadAll(q: seq<Event>, rev: nat, data: Json): Option<(nat, Json)>
    decreases |q|
  {
    if q == [] then Some((rev, data))
    else if q[0].Message? && q[0].frame.Snapshot? then ReadAll(q[1..], q[0].frame.rev, q[0].frame.data)
    else if q[0].Message? && q[0].frame.Patched? && Truthy(data) then
      var d :- ApplyPatch(data, q[0].frame.patch);
      ReadAll(q[1..], q[0].frame.rev, d)
    else ReadAll(q[1..], rev, data)
  }

  /** The revision from which patches are read: that of the last queued snapshot, else the client's own. */
  function Base(q: seq<Event>, rev: nat): nat
    decreases |q|
  {
    if q == [] then rev
    else Base(q[1..], if IsSnapshot(q[0]) then q[0].frame.rev else rev)
  }

  lemma {:induction false} BaseIgnoresRev(q: seq<Event>, rev: nat, rev': nat)
    requires SnapshotAhead(q)
    ensures Base(q, rev) == Base(q, rev')
    decreases |q|
  {
    if !IsSnapshot(q[0]) {
      var i :| 0 <= i < |q| && IsSnapshot(q[i]);
      assert IsSnapshot(q[1..][i - 1]);
      BaseIgnoresRev(q[1..], rev, rev');
    }
  }

  lemma {:induction false} BaseWithoutSnapshot(q: seq<Event>, rev: nat)
    requires !SnapshotAhead(q)
    ensures Base(q, rev) == rev
    decreases |q|
  {
    if q != [] {
      assert !IsSnapshot(q[0]);
      assert forall i :: 0 <= i < |q| - 1 ==> q[1..][i] == q[i + 1];
      BaseWithoutSnapshot(q[1..], rev);
    }
  }

  /** `v` holds a truthy document at every revision from `lo` up to but excluding `hi`. */
  ghost predicate TruthyFrom(v: map<nat, Json>, lo: nat, hi: nat) {
    forall x :: lo <= x < hi ==> x in v && Truthy(v[x])
  }

  lemma {:induction false} ChainReads(q: seq<Event>, rev: nat, data: Json, v: map<nat, Json>, current: nat)
    requires Chain(q, rev, data, v, true, current)
    requires IsVersion(rev, data, v) || SnapshotAhead(q)
    ensures var read := ReadAll(q, rev, data);
      && read.Some?
      && var (r, d) := read.value;
      && IsVersion(r, d, v) && Base(q, rev) <= r
      && TruthyFrom(v, Base(q, rev), r)
      && (r == current || !Truthy(d))
    decreases |q|
  {
    if q != [] {
      ChainTail(q, rev, data, v, true, current);
      var (r, d) := After(q[0], rev, data, v);
      if SnapshotAhead(q) && !IsSnapshot(q[0]) {
        var i :| 0 <= i < |q| && IsSnapshot(q[i]);
        assert IsSnapshot(q[1..][i - 1]);
      }
      ChainReads(q[1..], r, d, v, current);
      if SnapshotAhead(q[1..]) {
        BaseIgnoresRev(q[1..], rev, r);
      } else {
        BaseWithoutSnapshot(q[1..], rev);
        BaseWithoutSnapshot(q[1..], r);
      }
    }
  }

  /**
   * On an open socket, reading everything still queued never fails and ends on a version of the
   * server's document. It ends on the current one exactly when no earlier version since the last
   * snapshot was falsy: the client skips patches while it holds such a document.
   */
  lemma QueueLeadsToServer<Id>(s: System<Id>, c: ClientId)
    requires Inv(s) && c in s.clients && s.clients[c].socket.Some?
    requires s.server.conns[s.clients[c].socket.value].live
    ensures var q, cl, doc := s.server.conns[s.clients[c].socket.value].inbox, s.clients[c], s.server.doc;
      var read := ReadAll(q, cl.rev, cl.data);
      && read.Some?
      && IsVersion(read.value.0, read.value.1, s.versions)
      && (read.value == (doc.rev, doc.data) <==> TruthyFrom(s.versions, Base(q, cl.rev), doc.rev))
  {
    assert ClientInv(s, c);
    var q, cl := s.server.conns[s.clients[c].socket.value].inbox, s.clients[c];
    ChainReads(q, cl.rev, cl.data, s.versions, s.server.doc.rev);
  }

  // ---- Draining a socket ----

  ghost function Deliveries<Id>(id: Id, n: nat): seq<Step<Id>> {
    if n == 0 then [] else [Deliver(id)] + Deliveries(id, n - 1)
  }

  /** `q` waits first on the client's own socket, and does not end it. */
  ghost predicate Queued<Id>(s: System<Id>, c: ClientId, id: Id, q: seq<Event>) {
    && c in s.clients && s.clients[c].socket == Some(id)
    && id in s.server.conns && q <= s.server.conns[id].inbox && Closed !in q
  }

  /** Delivering the oldest event of the client's own socket. */
  lemma DeliverReads<Id>(s: System<Id>, c: ClientId, id: Id, q: seq<Event>)
    requires Inv(s) && Queued(s, c, id, q) && q != []
    ensures Enabled(s, Deliver(id))
    ensures var t := Next(s, Deliver(id));
      && Inv(t) && t.server.doc == s.server.doc && Queued(t, c, id, q[1..])
      && ReadAll(q, s.clients[c].rev, s.clients[c].data) == ReadAll(q[1..], t.clients[c].rev, t.clients[c].data)
  {
    assert ClientInv(s, c);
    var conn, cl := s.server.conns[id], s.clients[c];
    assert conn.inbox[0] == q[0] && q[0] in q;
    EventFollowsChain(cl, conn, s.versions, s.server.doc.rev);
    DeliverInv(s, id);
    hide Inv, ConnInv;
    DeliverQueue(s, c, id, q);
    ReadFirst(cl, conn, q, s.versions, s.server.doc.rev);
    assert forall e :: e in q[1..] ==> e in q;
  }

  lemma DeliverQueue<Id>(s: System<Id>, c: ClientId, id: Id, q: seq<Event>)
    requires Enabled(s, Deliver(id)) && c == s.owner[id] && s.clients[c].socket == Some(id)
    requires q != [] && q <= s.server.conns[id].inbox && q[0] != Closed && ClientEvent(s.clients[c], q[0]).Some?
    ensures var t, next := Next(s, Deliver(id)), ClientEvent(s.clients[c], q[0]).value;
      && t.server.doc == s.server.doc && c in t.clients && t.clients[c] == next && next.socket == Some(id)
      && id in t.server.conns && q[1..] <= t.server.conns[id].inbox
  {
    hide ApplyPatch;
    assert s.server.conns[id].inbox[0] == q[0];
  }

  lemma ReadFirst<Id>(cl: Client<Id>, conn: Conn, q: seq<Event>, v: map<nat, Json>, current: nat)
    requires ConnInv(conn, cl.rev, cl.data, v, current) && q != [] && q <= conn.inbox && ClientEvent(cl, q[0]).Some?
    ensures var next := ClientEvent(cl, q[0]).value;
      ReadAll(q, cl.rev, cl.data) == ReadAll(q[1..], next.rev, next.data)
  {
    hide ConnInv, ApplyPatch;
  }

  lemma RunCons<Id>(s: System<Id>, step: Step<Id>, steps: seq<Step<Id>>)
    requires Enabled(s, step) && ValidRun(Next(s, step), steps)
    ensures ValidRun(s, [step] + steps) && Exec(s, [step] + steps) == Exec(Next(s, step), steps)
  {
    hide Enabled, Next;
    assert ([step] + steps)[1..] == steps;
  }

  /** Delivering all of `q` leaves the client with what reading `q` gives. */
  ghost predicate Drains<Id>(s: System<Id>, c: ClientId, id: Id, q: seq<Event>) {
    && c in s.clients && ValidRun(s, Deliveries(id, |q|))
    && var t := Exec(s, Deliveries(id, |q|));
    && t.server.doc == s.server.doc && c in t.clients
    && ReadAll(q, s.clients[c].rev, s.clients[c].data) == Some((t.clients[c].rev, t.clients[c].data))
  }

  lemma DrainsNothing<Id>(s: System<Id>, c: ClientId, id: Id)
    requires c in s.clients
    ensures Drains(s, c, id, [])
  {}

  lemma DrainsMore<Id>(s: System<Id>, c: ClientId, id: Id, q: seq<Event>)
    requires q != [] && c in s.clients && Enabled(s, Deliver(id)) && Drains(Next(s, Deliver(id)), c, id, q[1..])
    requires var t := Next(s, Deliver(id));
      && t.server.doc == s.server.doc
      && ReadAll(q, s.clients[c].rev, s.clients[c].data) == ReadAll(q[1..], t.clients[c].rev, t.clients[c].data)
    ensures Drains(s, c, id, q)
  {
    hide Next, Enabled, ReadAll, ValidRun, Exec;
    RunCons(s, Deliver(id), Deliveries(id, |q| - 1));
  }

  /** Delivering `n` queued events changes the client as reading those events does. */
  lemma {:induction false} DrainReads<Id>(s: System<Id>, c: ClientId, id: Id, q: seq<Event>)
    requires Inv(s) && Queued(s, c, id, q)
    ensures Drains(s, c, id, q)
    decreases |q|
  {
    hide Inv, Next, Enabled, ReadAll, Drains;
    if q == [] {
      DrainsNothing(s, c, id);
    } else {
      DeliverReads(s, c, id, q);
      DrainReads(Next(s, Deliver(id)), c, id, q[1..]);
      DrainsMore(s, c, id, q);
    }
  }

  /** The documents `T extends object` of the source: objects and arrays are truthy. */
  ghost predicate ObjectsOnly<Id>(s: System<Id>) {
    forall r :: r in s.versions ==> s.versions[r].Obj? || s.versions[r].Arr?
  }

  lemma LiveQueue<Id>(s: System<Id>, c: ClientId)
    requires Inv(s) && c in s.clients && s.clients[c].socket.Some? && s.server.conns[s.clients[c].socket.value].live
    ensures var conn, cl := s.server.conns[s.clients[c].socket.value], s.clients[c];
      && Chain(conn.inbox, cl.rev, cl.data, s.versions, true, s.server.doc.rev)
      && (IsVersion(cl.rev, cl.data, s.versions) || SnapshotAhead(conn.inbox))
      && Closed !in conn.inbox && IsVersion(s.server.doc.rev, s.server.doc.data, s.versions)
  {
    assert ClientInv(s, c);
  }

  lemma LiveQueueReadsCurrent<Id>(s: System<Id>, c: ClientId)
    requires Inv(s) && c in s.clients && s.clients[c].socket.Some? && s.server.conns[s.clients[c].socket.value].live
    requires ObjectsOnly(s)
    ensures ReadAll(s.server.conns[s.clients[c].socket.value].inbox, s.clients[c].rev, s.clients[c].data) == Some((s.server.doc.rev, s.server.doc.data))
  {
    LiveQueue(s, c);
    hide Inv, ReadAll, Chain;
    var cl := s.clients[c];
    var q := s.server.conns[cl.socket.value].inbox;
    ChainReads(q, cl.rev, cl.data, s.versions, s.server.doc.rev);
    var (r, d) := ReadAll(q, cl.rev, cl.data).value;
    assert Truthy(d) && r == s.server.doc.rev;
  }

  lemma DrainFromInv<Id>(s: System<Id>, c: ClientId)
    requires Inv(s) && c in s.clients && s.clients[c].socket.Some? && s.clients[c].socket.value in s.server.conns
    requires s.server.conns[s.clients[c].socket.value].live && ObjectsOnly(s)
    ensures var id := s.clients[c].socket.value;
      var drain := Deliveries(id, |s.server.conns[id].inbox|);
      && ValidRun(s, drain)
      && var t := Exec(s, drain);
      && c in t.clients && t.server.doc == s.server.doc
      && RealtimeDoc(t.clients[c].rev, t.clients[c].data) == s.server.doc
  {
    hide ValidRun, Exec, Deliveries, ReadAll, Inv, ObjectsOnly, Chain, IsVersion;
    var id := s.clients[c].socket.value;
    LiveQueue(s, c);
    LiveQueueReadsCurrent(s, c);
    DrainReads(s, c, id, s.server.conns[id].inbox);
  }

  /**
   * Self-healing: in any reachable state, once everything queued on a client's open socket has
   * been delivered, the client holds the server's current revision and document; rejections,
   * resyncs and reconnects that happened before make no difference.
   */
  lemma DrainedClientIsCurrent<Id>(s0: System<Id>, steps: seq<Step<Id>>, c: ClientId)
    requires Init(s0) && ValidRun(s0, steps)
    requires var s := Exec(s0, steps);
      && c in s.clients && s.clients[c].socket.Some? && s.clients[c].socket.value in s.server.conns
      && s.server.conns[s.clients[c].socket.value].live && ObjectsOnly(s)
    ensures var s := Exec(s0, steps);
      var id := s.clients[c].socket.value;
      var drain := Deliveries(id, |s.server.conns[id].inbox|);
      && ValidRun(s, drain)
      && var t := Exec(s, drain);
      && c in t.clients && t.server.doc == s.server.doc
      && RealtimeDoc(t.clients[c].rev, t.clients[c].data) == s.server.doc
  {
    hide *;
    InitInv(s0);
    RunInv(s0, steps);
    DrainFromInv(Exec(s0, steps), c);
  }

  lemma {:induction false} RunExtend<Id>(s: System<Id>, steps: seq<Step<Id>>, step: Step<Id>)
    requires ValidRun(s, steps) && Enabled(Exec(s, steps), step)
    ensures ValidRun(s, steps + [step])
    ensures Exec(s, steps + [step]) == Next(Exec(s, steps), step)
    decreases |steps|
  {
    if steps == [] {
      assert (steps + [step])[1..] == [];
    } else {
      assert (steps + [step])[1..] == steps[1..] + [step];
      RunExtend(Next(s, steps[0]), steps[1..], step);
    }
  }

  /** One client on one socket, mid-run. */
  ghost function Scene(doc: RealtimeDoc, versions: map<nat, Json>, inbox: seq<Event>, client: Client<nat>): System<nat> {
    System(Server(doc, map[0 := Conn(true, inbox)]), map[0 := client], map[0 := 0], versions)
  }

  lemma SceneDeliver(doc: RealtimeDoc, v: map<nat, Json>, e: Event, rest: seq<Event>, cl: Client<nat>, cl': Client<nat>)
    requires cl.socket == Some(0) && ClientEvent(cl, e) == Some(cl') && !(e.Message? && ClosesSocket(e.frame))
    ensures var s := Scene(doc, v, [e] + rest, cl);
      Enabled(s, Deliver(0)) && Next(s, Deliver(0)) == Scene(doc, v, rest, cl')
  {
    assert ([e] + rest)[1..] == rest;
  }

  lemma SceneChange(doc: RealtimeDoc, v: map<nat, Json>, q: seq<Event>, cl: Client<nat>, data: Json)
    ensures var s := Scene(doc, v, q, cl);
      Enabled(s, ServerChange(_ => data)) &&
      Next(s, ServerChange(_ => data)) ==
        Scene(RealtimeDoc(doc.rev + 1, data), v[doc.rev + 1 := data], q + [Message(Patched(doc.rev + 1, [Replace([], data)]))], cl)
  {
  }

  /** A falsy document is not healed: the patch that would replace it is skipped. */
  lemma FalsyDocumentSticks(d: Json) returns (s: System<nat>, steps: seq<Step<nat>>)
    requires d.Obj?
    ensures Init(s) && ValidRun(s, steps)
    ensures var t := Exec(s, steps);
      t == Scene(RealtimeDoc(2, d), t.versions, [], Client(Some(0), 1, Null, Connected, false, false))
  {
    s := System(Server(RealtimeDoc(0, d), map[]), map[0 := NewClient()], map[], map[0 := d]);
    steps := ConnectsAndReads(s, d);
    hide ValidRun, Exec, Next, Enabled;
    var doc, v, cl := RealtimeDoc(0, d), map[0 := d], Client(Some(0), 0, d, Connected, false, false);
    var p1 := Message(Patched(1, [Replace([], Null)]));
    SceneChange(doc, v, [], cl, Null);
    assert [] + [p1] == [p1];
    RunExtend(s, steps, ServerChange(_ => Null));
    steps := steps + [ServerChange(_ => Null)];
    steps := StickAfterNull(s, steps, d, v[1 := Null]);
  }

  /** The one client connects and takes its first snapshot. */
  lemma ConnectsAndReads(s: System<nat>, d: Json) returns (steps: seq<Step<nat>>)
    requires d.Obj? && s == System(Server(RealtimeDoc(0, d), map[]), map[0 := NewClient()], map[], map[0 := d])
    ensures ValidRun(s, steps) && Exec(s, steps) == Scene(RealtimeDoc(0, d), map[0 := d], [], Client(Some(0), 0, d, Connected, false, false))
  {
    var doc, v, cl := RealtimeDoc(0, d), map[0 := d], Client(Some(0), 0, Null, Connecting, false, false);
    var snap := Message(Snapshot(0, d));
    var c0 := Connect(0, 0);
    RunExtend(s, [], c0);
    steps := [] + [c0];
    assert [Opened, snap] == [Opened] + [snap];
    assert Exec(s, steps) == Scene(doc, v, [Opened] + [snap], cl);
    hide ValidRun, Exec, Next, Enabled;
    SceneDeliver(doc, v, Opened, [snap], cl, cl.(status := Connected));
    RunExtend(s, steps, Deliver(0));
    steps := steps + [Deliver(0)];
    assert [snap] + [] == [snap];
    SceneDeliver(doc, v, snap, [], cl.(status := Connected), cl.(status := Connected, data := d));
    RunExtend(s, steps, Deliver(0));
    steps := steps + [Deliver(0)];
  }

  lemma StickAfterNull(s: System<nat>, steps: seq<Step<nat>>, d: Json, v: map<nat, Json>)
    returns (all: seq<Step<nat>>)
    requires d.Obj? && ValidRun(s, steps)
    requires Exec(s, steps) == Scene(RealtimeDoc(1, Null), v, [Message(Patched(1, [Replace([], Null)]))], Client(Some(0), 0, d, Connected, false, false))
    ensures ValidRun(s, all)
    ensures Exec(s, all) == Scene(RealtimeDoc(2, d), v[2 := d], [], Client(Some(0), 1, Null, Connected, false, false))
  {
    var cl := Client(Some(0), 0, d, Connected, false, false);
    var stuck := Client(Some(0), 1, Null, Connected, false, false);
    var p1, p2 := Message(Patched(1, [Replace([], Null)])), Message(Patched(2, [Replace([], d)]));
    SceneChange(RealtimeDoc(1, Null), v, [p1], cl, d);
    RunExtend(s, steps, ServerChange(_ => d));
    all := steps + [ServerChange(_ => d)];
    assert p1.frame.patch[1..] == [];
    SceneDeliver(RealtimeDoc(2, d), v[2 := d], p1, [p2], cl, stuck);
    RunExtend(s, all, Deliver(0));
    all := all + [Deliver(0)];
    assert [p2] + [] == [p2];
    SceneDeliver(RealtimeDoc(2, d), v[2 := d], p2, [], stuck, stuck);
    RunExtend(s, all, Deliver(0));
    all := all + [Deliver(0)];
  }

  // ---- No lost updates ----

  /** The change a step makes to the server's document, if it makes one. */
  ghost function Effect<Id>(s: System<Id>, step: Step<Id>): Option<Json -> Json>
    requires Enabled(s, step)
  {
    match step
    case LocalUpdate(c, mutator, patch) =>
      if CanWrite(s.clients[c], s.server.conns) && patch != [] && s.clients[c].rev == s.server.doc.rev
      then Some(mutator) else None
    case RawSend(_, WriteFrame(write)) =>
      if write.baseRev == s.server.doc.rev && ApplyPatch(s.server.doc.data, write.patch).Some?
      then Some(d => match ApplyPatch(d, write.patch) case Some(d') => d' case None => d) else None
    case ServerChange(updater) => Some(updater)
    case _ => None
  }

  /**
   * A write built by `update` is rejected for nothing but a stale revision; when it is accepted,
   * the server's own document has been put through the client's mutator.
   */
  lemma LocalUpdateOutcome<Id>(s: System<Id>, c: ClientId, mutator: Json -> Json, patch: Patch)
    requires Inv(s) && Enabled(s, LocalUpdate(c, mutator, patch))
    requires CanWrite(s.clients[c], s.server.conns) && patch != []
    ensures ApplyClientWrite(s.server.doc, ClientWrite(s.clients[c].rev, patch)) ==
      if s.clients[c].rev == s.server.doc.rev then Success(RealtimeDoc(s.server.doc.rev + 1, mutator(s.server.doc.data)))
      else Failure(Rejection(RevMismatch, true, Some(s.server.doc.rev)))
  {
    assert ClientInv(s, c);
  }

  lemma StepEffect<Id>(s: System<Id>, step: Step<Id>)
    requires Inv(s) && Enabled(s, step)
    ensures Next(s, step).server.doc ==
      match Effect(s, step)
      case None => s.server.doc
      case Some(f) => RealtimeDoc(s.server.doc.rev + 1, f(s.server.doc.data))
  {
    if step.LocalUpdate? && CanWrite(s.clients[step.c], s.server.conns) && step.patch != [] {
      LocalUpdateOutcome(s, step.c, step.mutator, step.patch);
    }
  }

  ghost function Effects<Id>(s: System<Id>, steps: seq<Step<Id>>): seq<Json -> Json>
    requires ValidRun(s, steps)
    decreases |steps|
  {
    if steps == [] then []
    else
      var rest := Effects(Next(s, steps[0]), steps[1..]);
      match Effect(s, steps[0]) case None => rest case Some(f) => [f] + rest
  }

  ghost function ApplyAll(fs: seq<Json -> Json>, d: Json): Json
    decreases |fs|
  {
    if fs == [] then d else ApplyAll(fs[1..], fs[0](d))
  }

  /**
   * Serializability: whatever the interleaving, the server's document is the accepted mutators
   * and server changes applied one after another, and the revision counts them.
   */
  lemma {:induction false} RunIsSerial<Id>(s: System<Id>, steps: seq<Step<Id>>)
    requires Inv(s) && ValidRun(s, steps)
    ensures var fs := Effects(s, steps);
      Exec(s, steps).server.doc == RealtimeDoc(s.server.doc.rev + |fs|, ApplyAll(fs, s.server.doc.data))
    decreases |steps|
  {
    if steps != [] {
      NextInv(s, steps[0]);
      StepEffect(s, steps[0]);
      RunIsSerial(Next(s, steps[0]), steps[1..]);
      var rest := Effects(Next(s, steps[0]), steps[1..]);
      if Effect(s, steps[0]).Some? {
        assert ([Effect(s, steps[0]).value] + rest)[1..] == rest;
      }
    }
  }
}
