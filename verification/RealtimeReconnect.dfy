/**
 * No client is left behind: whatever happens to its socket, a client that was not shut down is
 * connected, has its end announced in its queue, or waits for its reconnect timer; and what
 * follows brings it back to the server's document.
 */
module RealtimeReconnect {
  import opened Wrappers
  import opened JsonPatch
  import opened RealtimeProtocol
  import opened RealtimeSystem
  import opened RealtimeGuarantees

  // ---- Every client is attended ----

  /** An open connection is not announced as closed; a closed one announces it last and only once. */
  ghost predicate Announced(conn: Conn) {
    if conn.live then Closed !in conn.inbox
    else conn.inbox != [] && conn.inbox[|conn.inbox| - 1] == Closed && Closed !in conn.inbox[..|conn.inbox| - 1]
  }

  /** Shut down for good, waiting for the reconnect timer, or on a socket that is open or will report its end. */
  ghost predicate Attended<Id>(s: System<Id>, c: ClientId)
    requires c in s.clients
  {
    var cl := s.clients[c];
    if cl.closed then cl.socket.None? && !cl.timer
    else if cl.socket.None? then cl.timer
    else !cl.timer && cl.socket.value in s.server.conns && Announced(s.server.conns[cl.socket.value])
  }

  lemma PushAnnounced(conn: Conn, frame: Frame)
    requires Announced(conn)
    ensures Announced(PushTo(conn, frame))
  {}

  lemma CloseAnnounced(conn: Conn)
    requires Announced(conn)
    ensures Announced(CloseConn(conn))
  {
    if conn.live {
      assert (conn.inbox + [Closed])[..|conn.inbox|] == conn.inbox;
    }
  }

  lemma PopAnnounced(conn: Conn)
    requires Announced(conn) && conn.inbox != [] && conn.inbox[0] != Closed
    ensures Announced(conn.(inbox := conn.inbox[1..]))
  {
    var rest := conn.inbox[1..];
    if !conn.live {
      assert |rest| > 0 && rest[|rest| - 1] == conn.inbox[|conn.inbox| - 1];
      assert rest[..|rest| - 1] == conn.inbox[..|conn.inbox| - 1][1..];
    }
  }

  /** What the server does keeps every connection announced. */
  ghost predicate KeepsConns<Id>(s: Server<Id>, t: Server<Id>) {
    forall id :: id in s.conns ==> id in t.conns && (Announced(s.conns[id]) ==> Announced(t.conns[id]))
  }

  lemma PushKeepsConns<Id>(s: Server<Id>, id: Id, frame: Frame)
    requires id in s.conns
    ensures KeepsConns(s, s.(conns := Push(s.conns, id, frame)))
  {
    hide Announced, PushTo;
    if Announced(s.conns[id]) {
      PushAnnounced(s.conns[id], frame);
    }
  }

  lemma BroadcastKeepsConns<Id>(s: Server<Id>, doc: RealtimeDoc, frame: Frame)
    ensures KeepsConns(s, Server(doc, Broadcast(s.conns, frame)))
  {
    hide Announced, PushTo;
    forall id | id in s.conns && Announced(s.conns[id]) ensures Announced(Broadcast(s.conns, frame)[id]) {
      PushAnnounced(s.conns[id], frame);
    }
  }

  lemma CloseKeepsConns<Id>(s: Server<Id>, id: Id)
    requires id in s.conns
    ensures KeepsConns(s, ServerClose(s, id))
  {
    hide Announced, CloseConn;
    if Announced(s.conns[id]) {
      CloseAnnounced(s.conns[id]);
    }
  }

  lemma RejectKeepsConns<Id>(s: Server<Id>, id: Id, rejection: Rejection)
    requires id in s.conns
    ensures KeepsConns(s, Reject(s, id, rejection))
  {
    hide Announced, Push;
    var t := s.(conns := Push(s.conns, id, ToErrorFrame(rejection)));
    PushKeepsConns(s, id, ToErrorFrame(rejection));
    PushKeepsConns(t, id, SnapshotOf(s.doc));
  }

  lemma ReceiveKeepsConns<Id>(s: Server<Id>, id: Id, raw: RawFrame)
    requires id in s.conns
    ensures KeepsConns(s, ServerReceive(s, id, raw))
  {
    hide Announced, Push, Broadcast, Reject, ApplyPatch;
    match ParseClientWrite(raw)
    case Failure(rejection) => RejectKeepsConns(s, id, rejection);
    case Success(write) =>
      match ApplyClientWrite(s.doc, write)
      case Failure(rejection) => RejectKeepsConns(s, id, rejection);
      case Success(next) =>
        var t := Server(next, Broadcast(s.conns, Patched(next.rev, write.patch)));
        BroadcastKeepsConns(s, next, Patched(next.rev, write.patch));
        PushKeepsConns(t, id, Ack(next.rev));
  }

  lemma KeptConnAttends<Id>(s: System<Id>, t: System<Id>, c: ClientId)
    requires c in s.clients && Attended(s, c) && c in t.clients && t.clients[c] == s.clients[c]
    requires KeepsConns(s.server, t.server)
    ensures Attended(t, c)
  {
    hide Announced;
  }

  lemma ConnectAttends<Id>(s: System<Id>, c: ClientId, id: Id, k: ClientId)
    requires Enabled(s, Connect(c, id)) && k in s.clients && (k == c ==> s.clients[k].closed ==> Attended(s, k))
    requires k != c ==> Attended(s, k)
    ensures k in Next(s, Connect(c, id)).clients && Attended(Next(s, Connect(c, id)), k)
  {}

  lemma DeliverAttends<Id>(s: System<Id>, id: Id, k: ClientId)
    requires Inv(s) && Enabled(s, Deliver(id)) && k in s.clients && Attended(s, k)
    ensures k in Next(s, Deliver(id)).clients && Attended(Next(s, Deliver(id)), k)
  {
    var conn, c := s.server.conns[id], s.owner[id];
    if s.clients[k].socket == Some(id) {
      assert ClientInv(s, k);
      EventFollowsChain(s.clients[k], conn, s.versions, s.server.doc.rev);
      hide Inv, ConnInv, Announced;
      OwnDelivery(s, id);
    } else {
      hide Inv, Announced, ClientEvent, CloseConn;
    }
  }

  /** The oldest event of the client's own socket; its end arms the timer. */
  lemma OwnDelivery<Id>(s: System<Id>, id: Id)
    requires Enabled(s, Deliver(id)) && s.clients[s.owner[id]].socket == Some(id) && Attended(s, s.owner[id])
    requires ClientEvent(s.clients[s.owner[id]], s.server.conns[id].inbox[0]).Some?
    ensures Attended(Next(s, Deliver(id)), s.owner[id])
  {
    hide ApplyPatch;
    var conn := s.server.conns[id];
    if conn.inbox[0] != Closed {
      PopAnnounced(conn);
      CloseAnnounced(conn.(inbox := conn.inbox[1..]));
      hide Announced, CloseConn;
    }
  }

  /** Every step keeps every attended client attended. */
  lemma StaysAttended<Id>(s: System<Id>, step: Step<Id>, k: ClientId)
    requires Inv(s) && Enabled(s, step) && k in s.clients && Attended(s, k)
    ensures var t := Next(s, step);
      k in t.clients && Attended(t, k)
  {
    hide Inv, Attended, ServerReceive, ServerClose, Broadcast, DeliverNext;
    match step
    case Connect(c, id) => ConnectAttends(s, c, id, k);
    case Deliver(id) => DeliverAttends(s, id, k);
    case LocalUpdate(c, _, patch) =>
      var cl := s.clients[c];
      if CanWrite(cl, s.server.conns) && patch != [] {
        ReceiveKeepsConns(s.server, cl.socket.value, WriteFrame(ClientWrite(cl.rev, patch)));
        KeptConnAttends(s, Next(s, step), k);
      }
    case RawSend(id, raw) =>
      ReceiveKeepsConns(s.server, id, raw);
      KeptConnAttends(s, Next(s, step), k);
    case ServerChange(updater) =>
      var next := ServerUpdate(s.server, updater(s.server.doc.data));
      BroadcastKeepsConns(s.server, next.doc, Patched(next.doc.rev, [Replace([], next.doc.data)]));
      KeptConnAttends(s, Next(s, step), k);
    case Drop(id) =>
      CloseKeepsConns(s.server, id);
      KeptConnAttends(s, Next(s, step), k);
    case Shutdown(c) => ShutdownAttends(s, c, k);
  }

  lemma ShutdownAttends<Id>(s: System<Id>, c: ClientId, k: ClientId)
    requires Enabled(s, Shutdown(c)) && k in s.clients && Attended(s, k)
    ensures k in Next(s, Shutdown(c)).clients && Attended(Next(s, Shutdown(c)), k)
  {
    hide Announced;
    if k != c && s.clients[c].socket.Some? {
      CloseKeepsConns(s.server, s.clients[c].socket.value);
    }
  }

  // ---- Runs ----

  predicate Starts<Id>(step: Step<Id>, c: ClientId) {
    (step.Connect? || step.Shutdown?) && step.c == c
  }

  /** Only `Shutdown` ends a client, and a client that neither connects nor shuts down stays new. */
  lemma StepStarts<Id>(s: System<Id>, step: Step<Id>, c: ClientId)
    requires Inv(s) && Enabled(s, step) && c in s.clients
    ensures var t := Next(s, step);
      && c in t.clients
      && (t.clients[c].closed <==> s.clients[c].closed || (step.Shutdown? && step.c == c))
      && (!Starts(step, c) && s.clients[c].socket.None? ==> t.clients[c] == s.clients[c])
      && (Starts(step, c) && s.clients[c] == NewClient() ==> Attended(t, c))
  {
    hide Inv, ServerReceive, ServerUpdate, Broadcast, ApplyPatch, CloseConn;
  }

  /**
   * After any run, every client that was ever connected or shut down is attended: it was shut down,
   * waits for its reconnect timer, or has a socket that is open or has its end announced.
   */
  lemma {:induction false} RunAttends<Id>(s: System<Id>, steps: seq<Step<Id>>, c: ClientId)
    requires Inv(s) && ValidRun(s, steps) && c in s.clients
    requires Attended(s, c) || s.clients[c] == NewClient()
    ensures var t := Exec(s, steps);
      && c in t.clients
      && (Attended(t, c) || t.clients[c] == NewClient())
      && (Attended(s, c) || (exists i :: 0 <= i < |steps| && Starts(steps[i], c)) ==> Attended(t, c))
      && (t.clients[c].closed <==> s.clients[c].closed || exists i :: 0 <= i < |steps| && steps[i].Shutdown? && steps[i].c == c)
    decreases |steps|
  {
    if steps != [] {
      hide Inv, Next, Enabled, Attended;
      var t, rest := Next(s, steps[0]), steps[1..];
      NextInv(s, steps[0]);
      StepStarts(s, steps[0], c);
      if Attended(s, c) {
        StaysAttended(s, steps[0], c);
      }
      RunAttends(t, rest, c);
      assert forall i :: 0 <= i < |rest| ==> rest[i] == steps[i + 1];
      if i :| 0 <= i < |steps| && Starts(steps[i], c) {
        assert i > 0 ==> Starts(rest[i - 1], c);
      }
      if i :| 0 <= i < |steps| && steps[i].Shutdown? && steps[i].c == c {
        assert i > 0 ==> rest[i - 1].Shutdown? && rest[i - 1].c == c;
      }
    }
  }

  // ---- What one event does, and what a whole queue comes to ----

  predicate IsMismatch(e: Event) {
    e.Message? && e.frame.Error? && e.frame.code == RevMismatch
  }

  /** The client listens to socket `id`. */
  ghost predicate On<Id>(s: System<Id>, c: ClientId, id: Id) {
    c in s.clients && s.clients[c].socket == Some(id) && id in s.server.conns
  }

  /**
   * The oldest event of the client's own socket. The end of the socket leaves the client without
   * one and with its timer set; a revision mismatch makes it close the socket, which announces
   * itself behind what is queued; any other error only shows in the status.
   */
  lemma DeliverOwn<Id>(s: System<Id>, c: ClientId, id: Id)
    requires Inv(s) && On(s, c, id) && !s.clients[c].closed && s.server.conns[id].inbox != []
    ensures Enabled(s, Deliver(id))
    ensures var t := Next(s, Deliver(id));
      var conn, cl, rest := s.server.conns[id], s.clients[c], s.server.conns[id].inbox[1..];
      && t.server.doc == s.server.doc && t.clients.Keys == s.clients.Keys && t.server.conns.Keys == s.server.conns.Keys
      && (forall k :: k in s.clients && k != c ==> t.clients[k] == s.clients[k])
      && match conn.inbox[0]
         case Closed => t.clients[c] == cl.(socket := None, status := Disconnected, timer := true)
         case Opened => t.clients[c] == cl.(status := Connected) && t.server.conns[id] == Conn(conn.live, rest)
         case Message(Error(code, _, _)) =>
           if code == RevMismatch then t.clients[c] == cl && t.server.conns[id] == Conn(false, rest + if conn.live then [Closed] else [])
           else t.clients[c] == cl.(status := Errored) && t.server.conns[id] == Conn(conn.live, rest)
         case Message(Ack(_)) => t.clients[c] == cl && t.server.conns[id] == Conn(conn.live, rest)
         case Message(_) =>
           t.clients[c] == cl.(rev := t.clients[c].rev, data := t.clients[c].data) && t.server.conns[id] == Conn(conn.live, rest)
  {
    assert ClientInv(s, c);
    EventFollowsChain(s.clients[c], s.server.conns[id], s.versions, s.server.doc.rev);
    hide Inv, ConnInv, ClientEvent, ClosesSocket, CloseConn;
    DeliverShape(s, c, id);
    EventIs(s.clients[c], s.server.conns[id].inbox[0]);
    ClosedIs(Conn(s.server.conns[id].live, s.server.conns[id].inbox[1..]));
  }

  lemma DeliverShape<Id>(s: System<Id>, c: ClientId, id: Id)
    requires On(s, c, id) && s.server.conns[id].inbox != [] && id in s.owner && s.owner[id] == c
    requires ClientEvent(s.clients[c], s.server.conns[id].inbox[0]).Some?
    ensures Enabled(s, Deliver(id))
    ensures var t, e := Next(s, Deliver(id)), s.server.conns[id].inbox[0];
      var rest := Conn(s.server.conns[id].live, s.server.conns[id].inbox[1..]);
      && t.server.doc == s.server.doc && t.clients == s.clients[c := ClientEvent(s.clients[c], e).value]
      && t.server.conns == s.server.conns[id := if e.Message? && ClosesSocket(e.frame) then CloseConn(rest) else rest]
  {
    hide ClientEvent, ClosesSocket, CloseConn;
  }

  lemma ClosedIs(conn: Conn)
    ensures CloseConn(conn) == Conn(false, conn.inbox + if conn.live then [Closed] else [])
  {
    assert conn.inbox + [] == conn.inbox;
  }

  lemma EventIs<Id>(cl: Client<Id>, e: Event)
    requires ClientEvent(cl, e).Some?
    ensures var next := ClientEvent(cl, e).value;
      match e
      case Closed => !cl.closed ==> next == cl.(socket := None, status := Disconnected, timer := true)
      case Opened => next == cl.(status := Connected)
      case Message(Error(code, _, _)) =>
        (ClosesSocket(e.frame) <==> code == RevMismatch) && next == if code == RevMismatch then cl else cl.(status := Errored)
      case Message(Ack(_)) => !ClosesSocket(e.frame) && next == cl
      case Message(_) => !ClosesSocket(e.frame) && next == cl.(rev := next.rev, data := next.data)
  {
    hide ApplyPatch;
  }

  /** The socket has ended, or will when the client reads what is queued. */
  ghost predicate Ends(conn: Conn) {
    !conn.live || exists i :: 0 <= i < |conn.inbox| && IsMismatch(conn.inbox[i])
  }

  /** Everything queued, and the announcement of the end that is still to come. */
  function Remaining(conn: Conn): nat {
    |conn.inbox| + if conn.live then 1 else 0
  }

  /** `t` is `s` after the client has read its socket to the end. */
  ghost predicate Waiting<Id>(s: System<Id>, t: System<Id>, c: ClientId) {
    && c in s.clients && c in t.clients
    && t.clients[c] == s.clients[c].(socket := None, status := Disconnected, timer := true, rev := t.clients[c].rev, data := t.clients[c].data)
    && t.server.doc == s.server.doc && t.server.conns.Keys == s.server.conns.Keys && t.clients.Keys == s.clients.Keys
    && forall k :: k in s.clients && k != c ==> t.clients[k] == s.clients[k]
  }

  ghost predicate DrainsToTimer<Id>(s: System<Id>, c: ClientId, id: Id, n: nat) {
    ValidRun(s, Deliveries(id, n)) && Waiting(s, Exec(s, Deliveries(id, n)), c)
  }

  /** One delivery that leaves the client on its socket and changes nothing else outside. */
  ghost predicate Continues<Id>(s: System<Id>, t: System<Id>, c: ClientId, id: Id) {
    && On(s, c, id) && On(t, c, id) && !t.clients[c].closed && Attended(t, c) && Ends(t.server.conns[id])
    && Remaining(t.server.conns[id]) == Remaining(s.server.conns[id]) - 1
    && t.server.doc == s.server.doc && t.clients.Keys == s.clients.Keys && t.server.conns.Keys == s.server.conns.Keys
    && (forall k :: k in s.clients && k != c ==> t.clients[k] == s.clients[k])
    && t.clients[c] == s.clients[c].(rev := t.clients[c].rev, data := t.clients[c].data, status := t.clients[c].status)
  }

  lemma OneMore<Id>(s: System<Id>, c: ClientId, id: Id, n: nat)
    requires n > 0 && Enabled(s, Deliver(id)) && DrainsToTimer(Next(s, Deliver(id)), c, id, n - 1)
    requires Continues(s, Next(s, Deliver(id)), c, id)
    ensures DrainsToTimer(s, c, id, n)
  {
    hide Next, Enabled, ValidRun, Exec, Attended, Ends, Remaining;
    RunCons(s, Deliver(id), Deliveries(id, n - 1));
  }

  lemma LastOne<Id>(s: System<Id>, c: ClientId, id: Id)
    requires On(s, c, id) && Enabled(s, Deliver(id)) && Waiting(s, Next(s, Deliver(id)), c)
    ensures DrainsToTimer(s, c, id, 1)
  {
    hide Next, Enabled;
    assert Deliveries<Id>(id, 1) == [Deliver(id)] + [];
    RunCons(s, Deliver(id), []);
  }

  lemma EndsLater(conn: Conn)
    requires Announced(conn) && Ends(conn) && conn.inbox != [] && conn.inbox[0] != Closed && !IsMismatch(conn.inbox[0])
    ensures Ends(conn.(inbox := conn.inbox[1..])) && Remaining(conn.(inbox := conn.inbox[1..])) == Remaining(conn) - 1
  {
    if conn.live {
      var i :| 0 <= i < |conn.inbox| && IsMismatch(conn.inbox[i]);
      assert conn.inbox[1..][i - 1] == conn.inbox[i];
    }
  }

  lemma MismatchIs(e: Event)
    ensures IsMismatch(e) <==> e.Message? && e.frame.Error? && e.frame.code == RevMismatch
  {}

  lemma EndedSocketStep<Id>(s: System<Id>, c: ClientId, id: Id)
    requires Inv(s) && On(s, c, id) && !s.clients[c].closed && Attended(s, c) && Ends(s.server.conns[id])
    ensures s.server.conns[id].inbox != [] && Remaining(s.server.conns[id]) > 0 && Enabled(s, Deliver(id)) && Inv(Next(s, Deliver(id)))
    ensures var t := Next(s, Deliver(id));
      if s.server.conns[id].inbox[0] == Closed then Remaining(s.server.conns[id]) == 1 && Waiting(s, t, c) else Continues(s, t, c, id)
  {
    var conn := s.server.conns[id];
    DeliverOwn(s, c, id);
    NextInv(s, Deliver(id));
    StaysAttended(s, Deliver(id), c);
    hide Inv, Next, Enabled, IsMismatch;
    MismatchIs(conn.inbox[0]);
    if conn.inbox[0] != Closed {
      if !IsMismatch(conn.inbox[0]) {
        EndsLater(conn);
      }
      hide Attended, Announced;
    } else {
      assert |conn.inbox| == 1;
    }
  }

  /**
   * A client whose socket has ended, or has a revision mismatch waiting, reads its queue to the
   * end and then waits for its timer; nobody else notices.
   */
  lemma {:induction false} EndedSocketArmsTimer<Id>(s: System<Id>, c: ClientId, id: Id)
    requires Inv(s) && On(s, c, id) && !s.clients[c].closed && Attended(s, c) && Ends(s.server.conns[id])
    ensures DrainsToTimer(s, c, id, Remaining(s.server.conns[id]))
    decreases Remaining(s.server.conns[id])
  {
    hide Inv, Next, Enabled, DrainsToTimer, Attended, Ends, Remaining, Waiting;
    EndedSocketStep(s, c, id);
    if s.server.conns[id].inbox[0] == Closed {
      LastOne(s, c, id);
    } else {
      EndedSocketArmsTimer(Next(s, Deliver(id)), c, id);
      OneMore(s, c, id, Remaining(s.server.conns[id]));
    }
  }

  // ---- Healing: the end of a socket leads back to the current document ----

  lemma {:induction false} RunAppend<Id>(s: System<Id>, a: seq<Step<Id>>, b: seq<Step<Id>>)
    requires ValidRun(s, a) && ValidRun(Exec(s, a), b)
    ensures ValidRun(s, a + b) && Exec(s, a + b) == Exec(Exec(s, a), b)
    decreases |a|
  {
    if a == [] {
      assert a + b == b;
    } else {
      assert (a + b)[1..] == a[1..] + b;
      hide Next, Enabled;
      RunAppend(Next(s, a[0]), a[1..], b);
    }
  }

  /** The client is connected on `id`, has read everything and holds the server's document. */
  ghost predicate Healed<Id>(t: System<Id>, c: ClientId, id: Id, doc: RealtimeDoc) {
    && t.server.doc == doc && c in t.clients
    && t.clients[c] == Client(Some(id), doc.rev, doc.data, Connected, false, false)
    && id in t.server.conns && t.server.conns[id] == Conn(true, [])
  }

  ghost function Reconnect<Id>(c: ClientId, id: Id): seq<Step<Id>> {
    [Connect(c, id), Deliver(id), Deliver(id)]
  }

  lemma ConnectOpens<Id>(s: System<Id>, c: ClientId, id: Id)
    requires Inv(s) && c in s.clients && !s.clients[c].closed && id !in s.server.conns
    ensures Enabled(s, Connect(c, id))
    ensures var t := Next(s, Connect(c, id));
      && Inv(t) && On(t, c, id) && t.server.doc == s.server.doc
      && t.clients[c] == s.clients[c].(socket := Some(id), status := Connecting, timer := false)
      && t.server.conns[id] == Conn(true, [Opened, Message(Snapshot(s.server.doc.rev, s.server.doc.data))])
  {
    assert Enabled(s, Connect(c, id));
    NextInv(s, Connect(c, id));
    hide Inv;
  }

  lemma SnapshotHeals<Id>(s: System<Id>, c: ClientId, id: Id)
    requires Inv(s) && On(s, c, id) && !s.clients[c].closed && !s.clients[c].timer && s.clients[c].status == Connected
    requires s.server.conns[id] == Conn(true, [Message(Snapshot(s.server.doc.rev, s.server.doc.data))])
    ensures Enabled(s, Deliver(id)) && Healed(Next(s, Deliver(id)), c, id, s.server.doc)
  {
    assert ClientInv(s, c);
    hide Inv, ConnInv;
  }

  lemma ReconnectHeals<Id>(s: System<Id>, c: ClientId, id: Id)
    requires Inv(s) && c in s.clients && !s.clients[c].closed && id !in s.server.conns
    ensures ValidRun(s, Reconnect(c, id)) && Healed(Exec(s, Reconnect(c, id)), c, id, s.server.doc)
  {
    hide Next, Enabled, Inv, Healed;
    var c0, d := Connect(c, id), Deliver(id);
    ConnectOpens(s, c, id);
    var s1 := Next(s, c0);
    DeliverOwn(s1, c, id);
    NextInv(s1, d);
    SnapshotHeals(Next(s1, d), c, id);
    RunThree(s, c0, d, d);
  }

  lemma RunThree<Id>(s: System<Id>, a: Step<Id>, b: Step<Id>, c: Step<Id>)
    requires Enabled(s, a) && Enabled(Next(s, a), b) && Enabled(Next(Next(s, a), b), c)
    ensures ValidRun(s, [a, b, c]) && Exec(s, [a, b, c]) == Next(Next(Next(s, a), b), c)
  {
    hide Next, Enabled;
    RunCons(Next(Next(s, a), b), c, []);
    RunCons(Next(s, a), b, [c] + []);
    RunCons(s, a, [b] + ([c] + []));
    assert [a, b, c] == [a] + ([b] + ([c] + []));
  }

  lemma EndHeals<Id>(s: System<Id>, c: ClientId, id: Id, id2: Id)
    requires Inv(s) && On(s, c, id) && !s.clients[c].closed && Attended(s, c) && Ends(s.server.conns[id])
    requires id2 !in s.server.conns
    ensures var steps := Deliveries(id, Remaining(s.server.conns[id])) + Reconnect(c, id2);
      ValidRun(s, steps) && Healed(Exec(s, steps), c, id2, s.server.doc)
  {
    hide Inv, Attended, Ends, ValidRun, Exec, Reconnect, Deliveries, Healed;
    var drain := Deliveries(id, Remaining(s.server.conns[id]));
    EndedSocketArmsTimer(s, c, id);
    RunInv(s, drain);
    var t := Exec(s, drain);
    ReconnectHeals(t, c, id2);
    RunAppend(s, drain, Reconnect(c, id2));
  }

  /** A client with a socket can have been reached only through a connect, and was not shut down. */
  lemma Reached<Id>(s0: System<Id>, steps: seq<Step<Id>>, c: ClientId)
    requires Init(s0) && ValidRun(s0, steps) && c in Exec(s0, steps).clients && Exec(s0, steps).clients[c].socket.Some?
    ensures var s := Exec(s0, steps);
      Inv(s) && Attended(s, c) && !s.clients[c].closed && s.clients[c].socket.value in s.server.conns
  {
    hide Exec, ValidRun, Inv, Announced;
    InitInv(s0);
    RunInv(s0, steps);
    SameClients(s0, steps, c);
    assert s0.clients[c] == NewClient();
    RunAttends(s0, steps, c);
  }

  lemma {:induction false} SameClients<Id>(s: System<Id>, steps: seq<Step<Id>>, c: ClientId)
    requires Inv(s) && ValidRun(s, steps) && c in Exec(s, steps).clients
    ensures c in s.clients
    decreases |steps|
  {
    if steps != [] {
      NextInv(s, steps[0]);
      SameClients(Next(s, steps[0]), steps[1..], c);
      hide Inv, ServerReceive, ServerUpdate, Broadcast, ApplyPatch, CloseConn, ValidRun, Exec;
    }
  }

  /**
   * A dropped connection, wherever it happens in a run: the client reads what was still queued,
   * notices the end, and its reconnect brings it to the server's current document.
   */
  lemma DropHeals<Id>(s0: System<Id>, steps: seq<Step<Id>>, c: ClientId, id2: Id)
    requires Init(s0) && ValidRun(s0, steps)
    requires var s := Exec(s0, steps);
      c in s.clients && s.clients[c].socket.Some? && id2 !in s.server.conns
    ensures var s := Exec(s0, steps);
      var id := s.clients[c].socket.value;
      && Enabled(s, Drop(id)) && id in Next(s, Drop(id)).server.conns
      && var t, n := Next(s, Drop(id)), Remaining(Next(s, Drop(id)).server.conns[id]);
      var heal := Deliveries(id, n) + Reconnect(c, id2);
      ValidRun(t, heal) && Healed(Exec(t, heal), c, id2, s.server.doc)
  {
    hide Exec, ValidRun, Deliveries, Reconnect, Healed;
    Reached(s0, steps, c);
    var s := Exec(s0, steps);
    var id := s.clients[c].socket.value;
    DropEnds(s, c, id);
    hide *;
    EndHeals(Next(s, Drop(id)), c, id, id2);
  }

  lemma DropEnds<Id>(s: System<Id>, c: ClientId, id: Id)
    requires Inv(s) && On(s, c, id) && Attended(s, c) && !s.clients[c].closed
    ensures Enabled(s, Drop(id))
    ensures var t := Next(s, Drop(id));
      && Inv(t) && On(t, c, id) && Attended(t, c) && !t.clients[c].closed && Ends(t.server.conns[id])
      && t.server.doc == s.server.doc && t.server.conns.Keys == s.server.conns.Keys
  {
    NextInv(s, Drop(id));
    StaysAttended(s, Drop(id), c);
    hide Inv, Announced, CloseConn;
    assert !CloseConn(s.server.conns[id]).live by {
      DropsDead(s.server.conns[id]);
    }
  }

  lemma DropsDead(conn: Conn)
    ensures !CloseConn(conn).live
  {}

  /**
   * A write from an outdated revision, wherever it happens in a run: it changes nothing at the
   * server, and what it sets off (the error, the closed socket, the timer, the reconnect) brings
   * the client to the server's current document.
   */
  lemma StaleWriteHeals<Id>(s0: System<Id>, steps: seq<Step<Id>>, c: ClientId, mutator: Json -> Json, patch: Patch, id2: Id)
    requires Init(s0) && ValidRun(s0, steps)
    requires var s := Exec(s0, steps);
      && Enabled(s, LocalUpdate(c, mutator, patch)) && CanWrite(s.clients[c], s.server.conns) && patch != []
      && s.clients[c].rev != s.server.doc.rev && id2 !in s.server.conns
    ensures var s := Exec(s0, steps);
      var id, write := s.clients[c].socket.value, LocalUpdate(c, mutator, patch);
      && id in Next(s, write).server.conns
      && var t, n := Next(s, write), Remaining(Next(s, write).server.conns[id]);
      var heal := Deliveries(id, n) + Reconnect(c, id2);
      ValidRun(t, heal) && Healed(Exec(t, heal), c, id2, s.server.doc)
  {
    hide Exec, ValidRun, Deliveries, Reconnect, Healed;
    var s := Exec(s0, steps);
    Reached(s0, steps, c);
    StaleWriteEnds(s, c, mutator, patch);
    hide *;
    EndHeals(Next(s, LocalUpdate(c, mutator, patch)), c, s.clients[c].socket.value, id2);
  }

  lemma StaleWriteEnds<Id>(s: System<Id>, c: ClientId, mutator: Json -> Json, patch: Patch)
    requires Inv(s) && Enabled(s, LocalUpdate(c, mutator, patch)) && CanWrite(s.clients[c], s.server.conns) && patch != []
    requires s.clients[c].rev != s.server.doc.rev && Attended(s, c) && !s.clients[c].closed
    ensures var t, id := Next(s, LocalUpdate(c, mutator, patch)), s.clients[c].socket.value;
      && Inv(t) && On(t, c, id) && Attended(t, c) && !t.clients[c].closed && Ends(t.server.conns[id])
      && t.server.doc == s.server.doc && t.server.conns.Keys == s.server.conns.Keys
  {
    var write := LocalUpdate(c, mutator, patch);
    NextInv(s, write);
    StaysAttended(s, write, c);
    hide Inv, Announced;
    var id := s.clients[c].socket.value;
    var inbox, t := s.server.conns[id].inbox, Next(s, write);
    assert IsMismatch(t.server.conns[id].inbox[|inbox|]);
  }

  // ---- A shutdown is final ----

  lemma StepStaysDown<Id>(s: System<Id>, step: Step<Id>, c: ClientId)
    requires Inv(s) && Enabled(s, step) && c in s.clients && s.clients[c].closed && s.clients[c].socket.None?
    requires s.clients[c].status == Disconnected && !s.clients[c].timer
    ensures c in Next(s, step).clients && Next(s, step).clients[c] == s.clients[c]
  {
    hide Inv, ServerReceive, ServerUpdate, Broadcast, ApplyPatch, CloseConn;
  }

  lemma {:induction false} RunStaysDown<Id>(s: System<Id>, steps: seq<Step<Id>>, c: ClientId)
    requires Inv(s) && ValidRun(s, steps) && c in s.clients && s.clients[c].closed && s.clients[c].socket.None?
    requires s.clients[c].status == Disconnected && !s.clients[c].timer
    ensures c in Exec(s, steps).clients && Exec(s, steps).clients[c] == s.clients[c]
    decreases |steps|
  {
    if steps != [] {
      hide Inv, Next, Enabled;
      NextInv(s, steps[0]);
      StepStaysDown(s, steps[0], c);
      RunStaysDown(Next(s, steps[0]), steps[1..], c);
    }
  }

  /** After `close` nothing reconnects the client or changes its document, and its socket is closed. */
  lemma ShutdownIsFinal<Id>(s: System<Id>, c: ClientId, steps: seq<Step<Id>>)
    requires Inv(s) && Enabled(s, Shutdown(c)) && ValidRun(Next(s, Shutdown(c)), steps)
    ensures var t, cl := Exec(Next(s, Shutdown(c)), steps), s.clients[c];
      && c in t.clients && t.clients[c] == Client(None, cl.rev, cl.data, Disconnected, true, false)
      && (cl.socket.Some? ==> cl.socket.value in t.server.conns && !t.server.conns[cl.socket.value].live)
  {
    NextInv(s, Shutdown(c));
    hide Exec, ValidRun, Inv;
    var t := Next(s, Shutdown(c));
    assert t.clients[c] == s.clients[c].(socket := None, status := Disconnected, closed := true, timer := false);
    RunStaysDown(t, steps, c);
    if s.clients[c].socket.Some? {
      assert !t.server.conns[s.clients[c].socket.value].live;
      RunStaysDead(t, steps, s.clients[c].socket.value);
    }
  }

  lemma StepStaysDead<Id>(s: System<Id>, step: Step<Id>, id: Id)
    requires Inv(s) && Enabled(s, step) && id in s.server.conns && !s.server.conns[id].live
    ensures id in Next(s, step).server.conns && !Next(s, step).server.conns[id].live
  {
    hide Inv, ApplyPatch;
  }

  lemma {:induction false} RunStaysDead<Id>(s: System<Id>, steps: seq<Step<Id>>, id: Id)
    requires Inv(s) && ValidRun(s, steps) && id in s.server.conns && !s.server.conns[id].live
    ensures id in Exec(s, steps).server.conns && !Exec(s, steps).server.conns[id].live
    decreases |steps|
  {
    if steps != [] {
      hide Inv, Next, Enabled;
      NextInv(s, steps[0]);
      StepStaysDead(s, steps[0], id);
      RunStaysDead(Next(s, steps[0]), steps[1..], id);
    }
  }

  // ---- What a write does when it is sent ----

  /**
   * `update` with a document at hand: on an open socket a change based on the current revision
   * becomes the next version and reaches every open connection before it is acknowledged; a client
   * whose socket is closed or whose document is null sends nothing.
   */
  lemma UpdateLands<Id>(s: System<Id>, c: ClientId, mutator: Json -> Json, patch: Patch, other: Id)
    requires Inv(s) && Enabled(s, LocalUpdate(c, mutator, patch)) && other in s.server.conns
    ensures var t, cl := Next(s, LocalUpdate(c, mutator, patch)), s.clients[c];
      && t.clients == s.clients && other in t.server.conns
      && (cl.socket.None? || !s.server.conns[cl.socket.value].live || cl.data == Null || mutator(cl.data) == cl.data ==> t == s)
      && (cl.socket.Some? && s.server.conns[cl.socket.value].live && (cl.data.Obj? || cl.data.Arr?)
          && mutator(cl.data) != cl.data && cl.rev == s.server.doc.rev ==>
            && t.server.doc == RealtimeDoc(s.server.doc.rev + 1, mutator(s.server.doc.data))
            && var before, after := s.server.conns[other], t.server.conns[other];
            && after.live == before.live
            && after.inbox == before.inbox +
                 (if before.live then [Message(Patched(t.server.doc.rev, patch))] else []) +
                 (if other == cl.socket.value then [Message(Ack(t.server.doc.rev))] else []))
  {
    assert ClientInv(s, c);
    assert Truthy(s.clients[c].data) ==> (patch == [] <==> s.clients[c].data == mutator(s.clients[c].data));
    if CanWrite(s.clients[c], s.server.conns) && patch != [] {
      LocalUpdateOutcome(s, c, mutator, patch);
      hide Inv, ApplyPatch, ApplyClientWrite;
    }
  }
}
