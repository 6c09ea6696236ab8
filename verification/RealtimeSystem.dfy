/**
 * One document, one server, any number of clients, one FIFO inbox per socket.
 *
 * Every step is one atomic action of the source: a client connects, an event is delivered, a
 * client mutates its document, any frame arrives at the server, the server changes the document
 * itself, a connection drops, a client shuts down. `versions` is a ghost history.
 */
module RealtimeSystem {
  import opened Wrappers
  import opened JsonPatch
  import opened RealtimeProtocol

  type ClientId = nat

  datatype System<Id> = System(
    server: Server<Id>,
    clients: map<ClientId, Client<Id>>,
    owner: map<Id, ClientId>,
    versions: map<nat, Json>)

  datatype Step<Id> =
    | Connect(c: ClientId, id: Id)
    | Deliver(id: Id)
    | LocalUpdate(c: ClientId, mutator: Json -> Json, patch: Patch)
    | RawSend(id: Id, raw: RawFrame)
    | ServerChange(updater: Json -> Json)
    | Drop(id: Id)
    | Shutdown(c: ClientId)

  ghost predicate Enabled<Id>(s: System<Id>, step: Step<Id>) {
    match step
    case Connect(c, id) => c in s.clients && id !in s.server.conns && id !in s.owner
    case Deliver(id) => id in s.server.conns && s.server.conns[id].inbox != [] && id in s.owner && s.owner[id] in s.clients
    case LocalUpdate(c, mutator, patch) =>
      c in s.clients && var d := s.clients[c].data;
      Truthy(d) ==> IsDiff(d, mutator(d), patch)
    case RawSend(id, raw) => id in s.server.conns && s.server.conns[id].live
    case ServerChange(_) => true
    case Drop(id) => id in s.server.conns
    case Shutdown(c) =>
      c in s.clients && (s.clients[c].socket.Some? ==> s.clients[c].socket.value in s.server.conns)
  }

  ghost function WithServer<Id>(s: System<Id>, server: Server<Id>): System<Id> {
    s.(server := server, versions := s.versions[server.doc.rev := server.doc.data])
  }

  ghost function Next<Id>(s: System<Id>, step: Step<Id>): System<Id>
    requires Enabled(s, step)
  {
    match step
    case Connect(c, id) =>
      if s.clients[c].closed then s
      else s.(server := ServerConnect(s.server, id),
              clients := s.clients[c := ClientConnect(s.clients[c], id)],
              owner := s.owner[id := c])
    case Deliver(id) => DeliverNext(s, id)
    case LocalUpdate(c, _, patch) =>
      var cl := s.clients[c];
      if CanWrite(cl, s.server.conns) && patch != [] then
        WithServer(s, ServerReceive(s.server, cl.socket.value, WriteFrame(ClientWrite(cl.rev, patch))))
      else s
    case RawSend(id, raw) => WithServer(s, ServerReceive(s.server, id, raw))
    case ServerChange(updater) => WithServer(s, ServerUpdate(s.server, updater(s.server.doc.data)))
    case Drop(id) => s.(server := ServerClose(s.server, id))
    case Shutdown(c) =>
      var cl := s.clients[c];
      s.(server := if cl.socket.Some? then ServerClose(s.server, cl.socket.value) else s.server,
         clients := s.clients[c := ClientClose(cl)])
  }

  /** Hands the oldest queued event to the owner, which ignores every socket but its current one. */
  ghost function DeliverNext<Id>(s: System<Id>, id: Id): System<Id>
    requires Enabled(s, Deliver(id))
  {
    var conn, c := s.server.conns[id], s.owner[id];
    var event := conn.inbox[0];
    var popped := s.server.(conns := s.server.conns[id := conn.(inbox := conn.inbox[1..])]);
    if s.clients[c].socket != Some(id) then s.(server := popped)
    else
      match ClientEvent(s.clients[c], event)
      case None => s.(server := popped)
      case Some(cl) =>
        s.(server := if event.Message? && ClosesSocket(event.frame) then ServerClose(popped, id) else popped,
           clients := s.clients[c := cl])
  }

  // ---- The invariant ----

  /**
   * Reading `q` from (rev, data): snapshots carry a version, a patch that will be applied leads
   * from the version held to the next one, and on a `live` socket nothing is missing between the
   * last event and the current revision.
   */
  ghost predicate Chain(q: seq<Event>, rev: nat, data: Json, versions: map<nat, Json>, live: bool, current: nat)
    decreases |q|
  {
    if q == [] then live && Truthy(data) ==> rev == current
    else if q[0].Message? && q[0].frame.Snapshot? then
      var f := q[0].frame;
      f.rev in versions && versions[f.rev] == f.data && Chain(q[1..], f.rev, f.data, versions, live, current)
    else if q[0].Message? && q[0].frame.Patched? && Truthy(data) then
      var f := q[0].frame;
      && f.rev == rev + 1 && f.rev in versions
      && ApplyPatch(data, f.patch) == Some(versions[f.rev])
      && Chain(q[1..], f.rev, versions[f.rev], versions, live, current)
    else
      Chain(q[1..], rev, data, versions, live, current)
  }

  predicate IsSnapshot(e: Event) {
    e.Message? && e.frame.Snapshot?
  }

  ghost predicate SnapshotAhead(q: seq<Event>) {
    exists i :: 0 <= i < |q| && IsSnapshot(q[i])
  }

  /** (rev, data) is a version of the server's document. */
  ghost predicate IsVersion(rev: nat, data: Json, versions: map<nat, Json>) {
    rev in versions && versions[rev] == data
  }

  ghost predicate ServerInv<Id>(s: System<Id>) {
    && IsVersion(s.server.doc.rev, s.server.doc.data, s.versions)
    && (forall r :: r in s.versions ==> r <= s.server.doc.rev)
    && s.server.conns.Keys == s.owner.Keys
    && (forall id :: id in s.owner ==> s.owner[id] in s.clients)
  }

  ghost predicate ClientInv<Id>(s: System<Id>, c: ClientId)
    requires c in s.clients
  {
    var cl := s.clients[c];
    && (IsVersion(cl.rev, cl.data, s.versions) || (cl.rev == 0 && cl.data == Null))
    && (cl.socket.Some? ==> SocketInv(s, cl.socket.value, c))
  }

  /** What holds of the socket a client currently listens to. */
  ghost predicate SocketInv<Id>(s: System<Id>, id: Id, c: ClientId)
    requires c in s.clients
  {
    && id in s.server.conns && id in s.owner && s.owner[id] == c
    && ConnInv(s.server.conns[id], s.clients[c].rev, s.clients[c].data, s.versions, s.server.doc.rev)
  }

  ghost predicate ConnInv(conn: Conn, rev: nat, data: Json, v: map<nat, Json>, current: nat) {
    && Chain(conn.inbox, rev, data, v, conn.live, current)
    && (SnapshotAhead(conn.inbox) || IsVersion(rev, data, v))
    && (conn.live ==> Closed !in conn.inbox)
  }

  ghost predicate Inv<Id>(s: System<Id>) {
    ServerInv(s) && forall c :: c in s.clients ==> ClientInv(s, c)
  }

  /** A fresh server with some clients that have not connected yet. */
  ghost predicate Init<Id>(s: System<Id>) {
    && s.server.conns == map[] && s.owner == map[]
    && s.versions == map[s.server.doc.rev := s.server.doc.data]
    && forall c :: c in s.clients ==> s.clients[c] == NewClient()
  }

  lemma InitInv<Id>(s: System<Id>)
    requires Init(s)
    ensures Inv(s)
  {
  }

  // ---- How a chain survives what happens to its queue ----

  lemma {:induction false} ChainAppendSnapshot(q: seq<Event>, rev: nat, data: Json, v: map<nat, Json>, live: bool, current: nat)
    requires Chain(q, rev, data, v, live, current)
    requires current in v
    ensures Chain(q + [Message(Snapshot(current, v[current]))], rev, data, v, live, current)
    decreases |q|
  {
    var q' := q + [Message(Snapshot(current, v[current]))];
    if q == [] {
      assert q'[1..] == [];
    } else {
      assert q'[1..] == q[1..] + [Message(Snapshot(current, v[current]))];
      ChainTail(q, rev, data, v, live, current);
      var (r, d) := After(q[0], rev, data, v);
      ChainAppendSnapshot(q[1..], r, d, v, live, current);
    }
  }

  /** The revision and document held after reading one event along a chain. */
  ghost function After(e: Event, rev: nat, data: Json, v: map<nat, Json>): (nat, Json) {
    if e.Message? && e.frame.Snapshot? then (e.frame.rev, e.frame.data)
    else if e.Message? && e.frame.Patched? && Truthy(data) && e.frame.rev in v then (e.frame.rev, v[e.frame.rev])
    else (rev, data)
  }

  lemma ChainTail(q: seq<Event>, rev: nat, data: Json, v: map<nat, Json>, live: bool, current: nat)
    requires q != [] && Chain(q, rev, data, v, live, current)
    ensures var (r, d) := After(q[0], rev, data, v); Chain(q[1..], r, d, v, live, current)
  {
  }

  predicate Silent(e: Event) {
    !(e.Message? && (e.frame.Snapshot? || e.frame.Patched?))
  }

  lemma {:induction false} ChainAppendSilent(q: seq<Event>, e: Event, rev: nat, data: Json, v: map<nat, Json>, live: bool, current: nat)
    requires Chain(q, rev, data, v, live, current)
    requires Silent(e)
    ensures Chain(q + [e], rev, data, v, live, current)
    decreases |q|
  {
    if q == [] {
      assert (q + [e])[1..] == [];
    } else {
      assert (q + [e])[1..] == q[1..] + [e];
      ChainTail(q, rev, data, v, live, current);
      var (r, d) := After(q[0], rev, data, v);
      ChainAppendSilent(q[1..], e, r, d, v, live, current);
    }
  }

  lemma {:induction false} ChainDead(q: seq<Event>, rev: nat, data: Json, v: map<nat, Json>, live: bool, current: nat, current': nat)
    requires Chain(q, rev, data, v, live, current)
    ensures Chain(q, rev, data, v, false, current')
    decreases |q|
  {
    if q != [] {
      ChainTail(q, rev, data, v, live, current);
      var (r, d) := After(q[0], rev, data, v);
      ChainDead(q[1..], r, d, v, live, current, current');
    }
  }

  /** A new version: the broadcast patch extends every live chain that had reached the old one. */
  lemma {:induction false} ChainAdvance(q: seq<Event>, rev: nat, data: Json, v: map<nat, Json>, current: nat, patch: Patch, next: Json)
    requires Chain(q, rev, data, v, true, current)
    requires Truthy(data) ==> IsVersion(rev, data, v)
    requires forall r :: r in v ==> r <= current
    requires current in v && ApplyPatch(v[current], patch) == Some(next)
    ensures Chain(q + [Message(Patched(current + 1, patch))], rev, data, v[current + 1 := next], true, current + 1)
    decreases |q|
  {
    var e := Message(Patched(current + 1, patch));
    if q == [] {
      assert (q + [e])[1..] == [];
    } else {
      assert (q + [e])[1..] == q[1..] + [e];
      ChainTail(q, rev, data, v, true, current);
      var (r, d) := After(q[0], rev, data, v);
      ChainAdvance(q[1..], r, d, v, current, patch, next);
    }
  }

  lemma {:induction false} ChainMoreVersions(q: seq<Event>, rev: nat, data: Json, v: map<nat, Json>, v': map<nat, Json>, current: nat)
    requires Chain(q, rev, data, v, false, current)
    requires forall r :: r in v ==> r in v' && v'[r] == v[r]
    ensures Chain(q, rev, data, v', false, current)
    decreases |q|
  {
    if q != [] {
      ChainTail(q, rev, data, v, false, current);
      var (r, d) := After(q[0], rev, data, v);
      ChainMoreVersions(q[1..], r, d, v, v', current);
    }
  }

  // ---- What the server does to a connection keeps its invariant ----

  lemma PushSilent(conn: Conn, frame: Frame, rev: nat, data: Json, v: map<nat, Json>, current: nat)
    requires ConnInv(conn, rev, data, v, current) && Silent(Message(frame))
    ensures ConnInv(PushTo(conn, frame), rev, data, v, current)
  {
    if conn.live {
      ChainAppendSilent(conn.inbox, Message(frame), rev, data, v, true, current);
      SnapshotStaysAhead(conn.inbox, Message(frame));
    }
  }

  lemma SnapshotStaysAhead(q: seq<Event>, e: Event)
    ensures SnapshotAhead(q) || IsSnapshot(e) ==> SnapshotAhead(q + [e])
  {
    if SnapshotAhead(q) {
      var i :| 0 <= i < |q| && IsSnapshot(q[i]);
      assert IsSnapshot((q + [e])[i]);
    } else if IsSnapshot(e) {
      assert IsSnapshot((q + [e])[|q|]);
    }
  }

  lemma PushSnapshot(conn: Conn, rev: nat, data: Json, v: map<nat, Json>, current: nat)
    requires ConnInv(conn, rev, data, v, current) && current in v
    ensures ConnInv(PushTo(conn, Snapshot(current, v[current])), rev, data, v, current)
  {
    if conn.live {
      ChainAppendSnapshot(conn.inbox, rev, data, v, true, current);
      SnapshotStaysAhead(conn.inbox, Message(Snapshot(current, v[current])));
    }
  }

  lemma PushVersion(conn: Conn, rev: nat, data: Json, v: map<nat, Json>, current: nat, patch: Patch, next: Json)
    requires ConnInv(conn, rev, data, v, current)
    requires Truthy(data) ==> IsVersion(rev, data, v)
    requires forall r :: r in v ==> r <= current
    requires current in v && ApplyPatch(v[current], patch) == Some(next)
    ensures ConnInv(PushTo(conn, Patched(current + 1, patch)), rev, data, v[current + 1 := next], current + 1)
  {
    if conn.live {
      ChainAdvance(conn.inbox, rev, data, v, current, patch, next);
      SnapshotStaysAhead(conn.inbox, Message(Patched(current + 1, patch)));
    } else {
      ChainDead(conn.inbox, rev, data, v, false, current, current + 1);
      ChainMoreVersions(conn.inbox, rev, data, v, v[current + 1 := next], current + 1);
    }
  }

  lemma CloseKeeps(conn: Conn, rev: nat, data: Json, v: map<nat, Json>, current: nat)
    requires ConnInv(conn, rev, data, v, current)
    ensures ConnInv(CloseConn(conn), rev, data, v, current)
  {
    if conn.live {
      ChainAppendSilent(conn.inbox, Closed, rev, data, v, true, current);
      ChainDead(conn.inbox + [Closed], rev, data, v, true, current, current);
      SnapshotStaysAhead(conn.inbox, Closed);
    }
  }

  lemma PopKeeps(conn: Conn, rev: nat, data: Json, v: map<nat, Json>, current: nat)
    requires ConnInv(conn, rev, data, v, current) && conn.inbox != []
    ensures var (r, d) := After(conn.inbox[0], rev, data, v);
      && ConnInv(conn.(inbox := conn.inbox[1..]), r, d, v, current)
      && (IsVersion(rev, data, v) ==> IsVersion(r, d, v))
  {
    ChainTail(conn.inbox, rev, data, v, conn.live, current);
    if SnapshotAhead(conn.inbox) && !IsSnapshot(conn.inbox[0]) {
      var i :| 0 <= i < |conn.inbox| && IsSnapshot(conn.inbox[i]);
      assert IsSnapshot(conn.inbox[1..][i - 1]);
    }
  }

  /** Delivering one event never throws and leaves the client where the chain says. */
  lemma EventFollowsChain<Id>(cl: Client<Id>, conn: Conn, v: map<nat, Json>, current: nat)
    requires ConnInv(conn, cl.rev, cl.data, v, current) && conn.inbox != []
    ensures var next := ClientEvent(cl, conn.inbox[0]);
      && next.Some?
      && (next.value.rev, next.value.data) == After(conn.inbox[0], cl.rev, cl.data, v)
      && next.value.socket == (if conn.inbox[0].Closed? then None else cl.socket)
  {
  }

  // ---- Every step keeps the invariant ----

  lemma RejectInv<Id>(s: System<Id>, id: Id, rejection: Rejection)
    requires Inv(s) && id in s.server.conns
    ensures Inv(s.(server := Reject(s.server, id, rejection)))
  {
    var s' := s.(server := Reject(s.server, id, rejection));
    forall c | c in s'.clients ensures ClientInv(s', c) {
      var cl := s.clients[c];
      assert ClientInv(s, c);
      if cl.socket == Some(id) {
        var conn, rev := s.server.conns[id], s.server.doc.rev;
        PushSilent(conn, ToErrorFrame(rejection), cl.rev, cl.data, s.versions, rev);
        PushSnapshot(PushTo(conn, ToErrorFrame(rejection)), cl.rev, cl.data, s.versions, rev);
      }
    }
  }

  /** The next version is stored, broadcast as `patch` and acknowledged to `acked`. */
  ghost function Advanced<Id>(s: System<Id>, patch: Patch, next: Json, acked: Option<Id>): System<Id>
    requires acked.Some? ==> acked.value in s.server.conns
  {
    var doc := RealtimeDoc(s.server.doc.rev + 1, next);
    var conns := Broadcast(s.server.conns, Patched(doc.rev, patch));
    WithServer(s, Server(doc, if acked.Some? then Push(conns, acked.value, Ack(doc.rev)) else conns))
  }

  lemma AdvancedServer<Id>(s: System<Id>, patch: Patch, next: Json, acked: Option<Id>)
    requires ServerInv(s)
    requires acked.Some? ==> acked.value in s.server.conns
    ensures ServerInv(Advanced(s, patch, next, acked))
  {
    hide PushTo;
  }

  /** A connection that held its invariant holds it for the next version. */
  lemma AdvancedConn(conn: Conn, rev: nat, data: Json, v: map<nat, Json>, current: nat, patch: Patch, next: Json)
    requires ConnInv(conn, rev, data, v, current)
    requires Truthy(data) ==> IsVersion(rev, data, v)
    requires forall r :: r in v ==> r <= current
    requires current in v && ApplyPatch(v[current], patch) == Some(next)
    ensures ConnInv(PushTo(conn, Patched(current + 1, patch)), rev, data, v[current + 1 := next], current + 1)
    ensures ConnInv(PushTo(PushTo(conn, Patched(current + 1, patch)), Ack(current + 1)), rev, data, v[current + 1 := next], current + 1)
  {
    hide ConnInv, ApplyPatch, Truthy, PushTo;
    PushVersion(conn, rev, data, v, current, patch, next);
    PushSilent(PushTo(conn, Patched(current + 1, patch)), Ack(current + 1), rev, data, v[current + 1 := next], current + 1);
  }

  lemma AdvancedClient<Id>(s: System<Id>, patch: Patch, next: Json, acked: Option<Id>, c: ClientId)
    requires ServerInv(s) && c in s.clients && ClientInv(s, c)
    requires ApplyPatch(s.server.doc.data, patch) == Some(next)
    requires acked.Some? ==> acked.value in s.server.conns
    ensures ClientInv(Advanced(s, patch, next, acked), c)
  {
    hide ConnInv, ApplyPatch, PushTo;
    var cl := s.clients[c];
    if cl.socket.Some? {
      AdvancedConn(s.server.conns[cl.socket.value], cl.rev, cl.data, s.versions, s.server.doc.rev, patch, next);
    }
  }

  /** Accepting `patch` as the next version keeps the invariant. */
  lemma AdvanceInv<Id>(s: System<Id>, patch: Patch, next: Json, acked: Option<Id>)
    requires Inv(s)
    requires ApplyPatch(s.server.doc.data, patch) == Some(next)
    requires acked.Some? ==> acked.value in s.server.conns
    ensures Inv(Advanced(s, patch, next, acked))
  {
    hide ClientInv, ServerInv, ApplyPatch, Broadcast, Push;
    AdvancedServer(s, patch, next, acked);
    forall c | c in s.clients ensures ClientInv(Advanced(s, patch, next, acked), c) {
      AdvancedClient(s, patch, next, acked, c);
    }
  }

  lemma ReceiveInv<Id>(s: System<Id>, id: Id, raw: RawFrame)
    requires Inv(s) && id in s.server.conns
    ensures Inv(WithServer(s, ServerReceive(s.server, id, raw)))
  {
    hide ClientInv, ApplyPatch, Broadcast, Push, Reject;
    var parsed := ParseClientWrite(raw);
    assert s.versions == s.versions[s.server.doc.rev := s.server.doc.data];
    if parsed.Failure? {
      RejectKeepsDoc(s.server, id, parsed.error);
      RejectInv(s, id, parsed.error);
    } else {
      var applied := ApplyClientWrite(s.server.doc, parsed.value);
      if applied.Failure? {
        RejectKeepsDoc(s.server, id, applied.error);
        RejectInv(s, id, applied.error);
      } else {
        AdvanceInv(s, parsed.value.patch, applied.value.data, Some(id));
      }
    }
  }

  lemma RejectKeepsDoc<Id>(s: Server<Id>, id: Id, rejection: Rejection)
    requires id in s.conns
    ensures Reject(s, id, rejection).doc == s.doc
  {}

  lemma CloseInv<Id>(s: System<Id>, id: Id)
    requires Inv(s) && id in s.server.conns
    ensures Inv(s.(server := ServerClose(s.server, id)))
  {
    var s' := s.(server := ServerClose(s.server, id));
    forall c | c in s'.clients ensures ClientInv(s', c) {
      var cl := s.clients[c];
      assert ClientInv(s, c);
      if cl.socket == Some(id) {
        CloseKeeps(s.server.conns[id], cl.rev, cl.data, s.versions, s.server.doc.rev);
      }
    }
  }

  lemma ClientsInv<Id>(s: System<Id>, c: ClientId, cl: Client<Id>)
    requires Inv(s) && c in s.clients
    requires ClientInv(s.(clients := s.clients[c := cl]), c)
    ensures Inv(s.(clients := s.clients[c := cl]))
  {
    var s' := s.(clients := s.clients[c := cl]);
    forall k | k in s'.clients ensures ClientInv(s', k) {
      assert k != c ==> ClientInv(s, k);
    }
  }

  /** The server after the oldest event of a connection has been taken off its queue. */
  ghost function Popped<Id>(s: Server<Id>, id: Id): Server<Id>
    requires id in s.conns && s.conns[id].inbox != []
  {
    s.(conns := s.conns[id := s.conns[id].(inbox := s.conns[id].inbox[1..])])
  }

  /** Nobody listens to the connection any more. */
  lemma PoppedUnheard<Id>(s: System<Id>, id: Id)
    requires Inv(s) && Enabled(s, Deliver(id)) && s.clients[s.owner[id]].socket != Some(id)
    ensures Inv(s.(server := Popped(s.server, id)))
  {
    hide ConnInv;
    var s' := s.(server := Popped(s.server, id));
    forall k | k in s'.clients ensures ClientInv(s', k) {
      assert ClientInv(s, k);
    }
  }

  lemma PoppedHeard<Id>(s: System<Id>, id: Id, c: ClientId)
    requires Inv(s) && Enabled(s, Deliver(id)) && c == s.owner[id] && s.clients[c].socket == Some(id)
    ensures var conn, cl := s.server.conns[id], s.clients[c];
      var next := ClientEvent(cl, conn.inbox[0]);
      && next.Some?
      && Inv(s.(server := Popped(s.server, id), clients := s.clients[c := next.value]))
  {
    var conn, cl := s.server.conns[id], s.clients[c];
    assert ClientInv(s, c);
    PopKeeps(conn, cl.rev, cl.data, s.versions, s.server.doc.rev);
    EventFollowsChain(cl, conn, s.versions, s.server.doc.rev);
    hide ConnInv, ClientEvent;
    var next := ClientEvent(cl, conn.inbox[0]).value;
    if !IsVersion(cl.rev, cl.data, s.versions) {
      FirstDocument(conn, cl.rev, cl.data, s.versions, s.server.doc.rev);
    }
    PoppedClients(s, id, c, next);
  }

  lemma FirstDocument(conn: Conn, rev: nat, data: Json, v: map<nat, Json>, current: nat)
    requires ConnInv(conn, rev, data, v, current) && conn.inbox != [] && rev == 0 && data == Null
    ensures var (r, d) := After(conn.inbox[0], rev, data, v); IsVersion(r, d, v) || (r == 0 && d == Null)
  {}

  lemma PoppedClients<Id>(s: System<Id>, id: Id, c: ClientId, next: Client<Id>)
    requires Inv(s) && Enabled(s, Deliver(id)) && c == s.owner[id] && s.clients[c].socket == Some(id)
    requires next.socket == None || next.socket == Some(id)
    requires IsVersion(next.rev, next.data, s.versions) || (next.rev == 0 && next.data == Null)
    requires ConnInv(Popped(s.server, id).conns[id], next.rev, next.data, s.versions, s.server.doc.rev)
    ensures Inv(s.(server := Popped(s.server, id), clients := s.clients[c := next]))
  {
    hide ConnInv;
    var s' := s.(server := Popped(s.server, id), clients := s.clients[c := next]);
    forall k | k in s'.clients ensures ClientInv(s', k) {
      assert ClientInv(s, k);
    }
  }

  lemma DeliverInv<Id>(s: System<Id>, id: Id)
    requires Inv(s) && Enabled(s, Deliver(id))
    ensures Inv(DeliverNext(s, id))
    ensures s.clients[s.owner[id]].socket == Some(id) ==> ClientEvent(s.clients[s.owner[id]], s.server.conns[id].inbox[0]).Some?
  {
    hide Inv, ClientEvent, ServerClose, ClosesSocket;
    var c := s.owner[id];
    if s.clients[c].socket != Some(id) {
      PoppedUnheard(s, id);
    } else {
      PoppedHeard(s, id, c);
      var event := s.server.conns[id].inbox[0];
      var next := ClientEvent(s.clients[c], event).value;
      if event.Message? && ClosesSocket(event.frame) {
        CloseInv(s.(server := Popped(s.server, id), clients := s.clients[c := next]), id);
      }
    }
  }

  lemma ConnectInv<Id>(s: System<Id>, c: ClientId, id: Id)
    requires Inv(s) && Enabled(s, Connect(c, id))
    ensures Inv(Next(s, Connect(c, id)))
  {
    var s' := Next(s, Connect(c, id));
    if !s.clients[c].closed {
      forall k | k in s'.clients ensures ClientInv(s', k) {
        assert ClientInv(s, k);
        if k == c {
          var snap := Message(SnapshotOf(s.server.doc));
          var cl := s'.clients[c];
          assert [Opened, snap][1..] == [snap] && [snap][1..] == [];
          assert Chain([snap], cl.rev, cl.data, s'.versions, true, s.server.doc.rev);
          assert IsSnapshot([Opened, snap][1]);
        }
      }
    }
  }

  lemma ServerChangeInv<Id>(s: System<Id>, data: Json)
    requires Inv(s)
    ensures Inv(WithServer(s, ServerUpdate(s.server, data)))
  {
    hide Inv, Broadcast;
    ReplaceAll(s.server.doc.data, data);
    AdvanceInv(s, [Replace([], data)], data, None);
  }

  lemma ReplaceAll(doc: Json, data: Json)
    ensures ApplyPatch(doc, [Replace([], data)]) == Some(data)
  {
    var patch := [Replace([], data)];
    assert patch[1..] == [];
  }

  lemma ClientStops<Id>(s: System<Id>, c: ClientId)
    requires Inv(s) && c in s.clients
    ensures Inv(s.(clients := s.clients[c := ClientClose(s.clients[c])]))
  {
    hide SocketInv, ServerInv;
    assert ClientInv(s, c);
    ClientsInv(s, c, ClientClose(s.clients[c]));
  }

  lemma ShutdownInv<Id>(s: System<Id>, c: ClientId)
    requires Inv(s) && Enabled(s, Shutdown(c))
    ensures Inv(Next(s, Shutdown(c)))
  {
    hide Inv, ServerClose, ClientClose;
    var cl := s.clients[c];
    if cl.socket.Some? {
      CloseInv(s, cl.socket.value);
      ClientStops(s.(server := ServerClose(s.server, cl.socket.value)), c);
    } else {
      ClientStops(s, c);
    }
  }

  lemma NextInv<Id>(s: System<Id>, step: Step<Id>)
    requires Inv(s) && Enabled(s, step)
    ensures Inv(Next(s, step))
  {
    hide Inv, ServerReceive, ServerClose, ServerUpdate, DeliverNext, ClientClose, WithServer;
    match step
    case Connect(c, id) => ConnectInv(s, c, id);
    case Deliver(id) => DeliverInv(s, id);
    case LocalUpdate(c, _, patch) =>
      var cl := s.clients[c];
      if CanWrite(cl, s.server.conns) && patch != [] {
        ReceiveInv(s, cl.socket.value, WriteFrame(ClientWrite(cl.rev, patch)));
      }
    case RawSend(id, raw) => ReceiveInv(s, id, raw);
    case ServerChange(updater) => ServerChangeInv(s, updater(s.server.doc.data));
    case Drop(id) => CloseInv(s, id);
    case Shutdown(c) => ShutdownInv(s, c);
  }

  // ---- Runs ----

  ghost predicate ValidRun<Id>(s: System<Id>, steps: seq<Step<Id>>)
    decreases |steps|
  {
    steps == [] || (Enabled(s, steps[0]) && ValidRun(Next(s, steps[0]), steps[1..]))
  }

  ghost function Exec<Id>(s: System<Id>, steps: seq<Step<Id>>): System<Id>
    requires ValidRun(s, steps)
    decreases |steps|
  {
    if steps == [] then s else Exec(Next(s, steps[0]), steps[1..])
  }

  lemma {:induction false} RunInv<Id>(s: System<Id>, steps: seq<Step<Id>>)
    requires Inv(s) && ValidRun(s, steps)
    ensures Inv(Exec(s, steps))
    decreases |steps|
  {
    if steps != [] {
      NextInv(s, steps[0]);
      RunInv(Next(s, steps[0]), steps[1..]);
    }
  }
}
