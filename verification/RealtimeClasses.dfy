/**
 * The objects of the protocol: the in-memory server with its sockets, and the document client.
 * Every method is verified against the function on values that RealtimeSystem reasons about.
 */
module RealtimeClasses {
  import opened Wrappers
  import opened JsonPatch
  import opened RealtimeProtocol

  datatype ReadyState = CONNECTING | OPEN | CLOSED

  /** One client connection. `inbox` is what has been pushed and not yet delivered. */
  class FakeWebSocket {
    var readyState: ReadyState
    var inbox: seq<Event>
    const server: FakeRealtimeServer

    function View(): Conn
      reads this
    {
      Conn(readyState == OPEN, inbox)
    }

    constructor (server: FakeRealtimeServer)
      requires server.Valid()
      modifies server
      ensures this.server == server && server.Valid() && this !in old(server.known)
      ensures server.known == old(server.known) + {this}
      ensures server.State() == ServerConnect(old(server.State()), this)
    {
      this.server := server;
      readyState := CONNECTING;
      inbox := [];
      new;
      server.Connect(this);
    }

    /** The server's side of opening. */
    method Open()
      modifies this
      ensures readyState == OPEN && inbox == old(inbox) + [Opened]
    {
      readyState := OPEN;
      inbox := inbox + [Opened];
    }

    method Push(frame: Frame)
      requires readyState != CONNECTING
      modifies this`inbox
      ensures View() == PushTo(old(View()), frame)
    {
      if readyState == CLOSED {
        return;
      }
      inbox := inbox + [Message(frame)];
    }

    method Close()
      requires server.Valid() && this in server.known
      modifies this, server`sockets
      ensures server.Valid() && server.known == old(server.known)
      ensures server.State() == ServerClose(old(server.State()), this)
    {
      if readyState == CLOSED {
        assert server.State() == ServerClose(server.State(), this);
        return;
      }
      readyState := CLOSED;
      server.Disconnect(this);
      inbox := inbox + [Closed];
    }
  }

  lemma ClosedGetsNothing(conn: Conn, frame: Frame)
    requires !conn.live
    ensures PushTo(conn, frame) == conn
  {}

  class FakeRealtimeServer {
    var doc: RealtimeDoc
    var sockets: set<FakeWebSocket>
    /** Every socket ever connected; closed ones may still have deliveries queued. */
    ghost var known: set<FakeWebSocket>

    ghost predicate Valid()
      reads this, known
    {
      && sockets <= known
      && forall s :: s in known ==>
           s.server == this && s.readyState != CONNECTING && (s in sockets <==> s.readyState == OPEN)
    }

    ghost function State(): (s: Server<FakeWebSocket>)
      reads this, known
      ensures s.doc == doc && s.conns.Keys == known
    {
      Server(doc, map s | s in known :: s.View())
    }

    constructor (doc: RealtimeDoc)
      ensures Valid() && State() == Server(doc, map[])
    {
      this.doc := doc;
      sockets, known := {}, {};
    }

    method Connect(socket: FakeWebSocket)
      requires Valid()
      requires socket !in known && socket.server == this && socket.inbox == []
      modifies this`sockets, this`known, socket
      ensures Valid() && known == old(known) + {socket}
      ensures State() == ServerConnect(old(State()), socket)
    {
      sockets := sockets + {socket};
      known := known + {socket};
      socket.Open();
      SendSnapshot(socket);
      assert socket.inbox == [Opened, Message(SnapshotOf(doc))];
    }

    method Disconnect(socket: FakeWebSocket)
      modifies this`sockets
      ensures sockets == old(sockets) - {socket}
    {
      sockets := sockets - {socket};
    }

    method SendSnapshot(socket: FakeWebSocket)
      requires socket.readyState != CONNECTING
      modifies socket`inbox
      ensures socket.View() == PushTo(old(socket.View()), SnapshotOf(doc))
    {
      socket.Push(SnapshotOf(doc));
    }

    method Broadcast(frame: Frame)
      requires Valid()
      modifies sockets`inbox
      ensures Valid()
      ensures State() == old(State()).(conns := RealtimeProtocol.Broadcast(old(State()).conns, frame))
    {
      hide PushTo;
      var todo := sockets;
      while todo != {}
        invariant todo <= sockets
        invariant forall s :: s in known ==> s.View() == if s in sockets - todo then PushTo(old(s.View()), frame) else old(s.View())
        decreases |todo|
      {
        var s :| s in todo;
        s.Push(frame);
        todo := todo - {s};
      }
      forall s | s in known && s !in sockets ensures PushTo(old(s.View()), frame) == old(s.View()) {
        ClosedGetsNothing(old(s.View()), frame);
      }
    }

    /** One frame to one connection: no other connection changes. */
    method PushFrame(socket: FakeWebSocket, frame: Frame)
      requires Valid() && socket in known
      modifies socket`inbox
      ensures Valid()
      ensures State() == old(State()).(conns := Push(old(State()).conns, socket, frame))
    {
      hide PushTo;
      socket.Push(frame);
    }

    method StoreDoc(next: RealtimeDoc)
      requires Valid()
      modifies this`doc
      ensures Valid() && State() == old(State()).(doc := next)
    {
      doc := next;
    }

    method RejectWrite(socket: FakeWebSocket, rejection: Rejection)
      requires Valid() && socket in known
      modifies socket`inbox
      ensures Valid()
      ensures State() == Reject(old(State()), socket, rejection)
    {
      hide State, Valid, Push;
      PushFrame(socket, ToErrorFrame(rejection));
      if rejection.resync {
        PushFrame(socket, SnapshotOf(doc));
      }
    }

    method Receive(socket: FakeWebSocket, raw: RawFrame)
      requires Valid() && socket in known
      modifies this`doc, socket`inbox, sockets`inbox
      ensures Valid()
      ensures State() == ServerReceive(old(State()), socket, raw)
    {
      var parsed := ParseClientWrite(raw);
      if parsed.Failure? {
        RejectWrite(socket, parsed.error);
        return;
      }
      var result := ApplyClientWrite(doc, parsed.value);
      if result.Failure? {
        RejectWrite(socket, result.error);
        return;
      }
      Accept(socket, result.value, parsed.value.patch);
    }

    method Accept(socket: FakeWebSocket, next: RealtimeDoc, patch: Patch)
      requires Valid() && socket in known
      modifies this`doc, socket`inbox, sockets`inbox
      ensures Valid()
      ensures State() ==
        Server(next, Push(RealtimeProtocol.Broadcast(old(State()).conns, Patched(next.rev, patch)), socket, Ack(next.rev)))
    {
      hide State, Valid, Push, RealtimeProtocol.Broadcast;
      StoreDoc(next);
      Broadcast(Patched(next.rev, patch));
      PushFrame(socket, Ack(next.rev));
    }

    method Update(updater: Json -> Json)
      requires Valid()
      modifies this`doc, sockets`inbox
      ensures Valid()
      ensures State() == ServerUpdate(old(State()), updater(old(doc).data))
    {
      hide State, Valid, RealtimeProtocol.Broadcast;
      StoreDoc(RealtimeDoc(doc.rev + 1, updater(doc.data)));
      Broadcast(Patched(doc.rev, [Replace([], doc.data)]));
    }
  }

  class RealtimeDocClient {
    const server: FakeRealtimeServer
    var socket: FakeWebSocket?
    var reconnectTimer: bool
    var closed: bool
    var status: Status
    var rev: nat
    var data: Json

    ghost predicate Valid()
      reads this, server, server.known
    {
      server.Valid() && (socket != null ==> socket in server.known)
    }

    function View(): Client<FakeWebSocket>
      reads this
    {
      Client(if socket == null then None else Some(socket as FakeWebSocket), rev, data, status, closed, reconnectTimer)
    }

    constructor (server: FakeRealtimeServer)
      requires server.Valid()
      ensures Valid() && this.server == server
      ensures View() == NewClient()
    {
      this.server := server;
      socket, reconnectTimer, closed := null, false, false;
      status, rev, data := Disconnected, 0, Null;
    }

    method OpenSocket() returns (s: FakeWebSocket)
      requires server.Valid()
      modifies server
      ensures server.Valid() && fresh(s) && s in server.known
      ensures server.State() == ServerConnect(old(server.State()), s)
    {
      hide FakeRealtimeServer.State, FakeRealtimeServer.Valid, ServerConnect;
      s := new FakeWebSocket(server);
    }

    method Connect()
      requires Valid()
      modifies this, server
      ensures Valid()
      ensures old(closed) ==> View() == old(View()) && server.State() == old(server.State())
      ensures !old(closed) ==>
        && socket != null && fresh(socket)
        && View() == ClientConnect(old(View()), socket)
        && server.State() == ServerConnect(old(server.State()), socket)
    {
      if closed {
        return;
      }
      hide FakeRealtimeServer.State, FakeRealtimeServer.Valid, ServerConnect;
      ClearReconnectTimer();
      status := Connecting;
      var s := OpenSocket();
      socket := s;
    }

    method OnOpen(s: FakeWebSocket)
      modifies this
      ensures View() == if old(socket) == s then old(View()).(status := Connected) else old(View())
    {
      if socket != s {
        return;
      }
      status := Connected;
    }

    /** `threw` is an exception out of the handler, after which nothing has changed. */
    method OnMessage(s: FakeWebSocket, frame: Frame) returns (threw: bool)
      requires Valid() && s in server.known
      modifies this, s, server`sockets
      ensures Valid() && server.known == old(server.known)
      ensures old(socket) != s ==> !threw && View() == old(View()) && server.State() == old(server.State())
      ensures old(socket) == s ==>
        var next := ClientMessage(old(View()), frame);
        && threw == next.None?
        && View() == (if threw then old(View()) else next.value)
        && server.State() == (if ClosesSocket(frame) then ServerClose(old(server.State()), s) else old(server.State()))
    {
      threw := false;
      if socket != s {
        return;
      }
      match frame
      case Error(code, _, _) =>
        if code == RevMismatch {
          s.Close();
          return;
        }
        status := Errored;
      case Snapshot(r, d) =>
        rev, data := r, d;
      case Patched(r, patch) =>
        if Truthy(data) {
          var next := ApplyPatch(data, patch);
          if next.None? {
            threw := true;
            return;
          }
          data := next.value;
          rev := r;
        }
      case Ack(_) =>
    }

    method OnClose(s: FakeWebSocket)
      modifies this
      ensures View() == if old(socket) == s then ClientClosed(old(View())) else old(View())
      ensures old(socket) == s ==> socket == null && status == Disconnected && reconnectTimer == (old(reconnectTimer) || !closed)
      ensures old(socket) == s && !closed ==> reconnectTimer
    {
      if socket != s {
        return;
      }
      status := Disconnected;
      socket := null;
      ScheduleReconnect();
    }

    method CloseSocket(s: FakeWebSocket)
      requires server.Valid() && s in server.known
      modifies s, server`sockets
      ensures server.Valid() && server.known == old(server.known)
      ensures server.State() == ServerClose(old(server.State()), s)
    {
      hide FakeRealtimeServer.State, ServerClose;
      s.Close();
    }

    method Close()
      requires Valid()
      modifies this, server`sockets, if socket == null then {} else {socket}
      ensures Valid() && server.known == old(server.known)
      ensures View() == ClientClose(old(View()))
      ensures server.State() ==
        if old(socket) != null then ServerClose(old(server.State()), old(socket)) else old(server.State())
    {
      hide FakeRealtimeServer.State, FakeRealtimeServer.Valid, ServerClose;
      closed := true;
      ClearReconnectTimer();
      if socket != null {
        CloseSocket(socket);
      }
      socket := null;
      status := Disconnected;
    }

    /**
     * Sends the diff of a local mutation and nothing else; the local document changes only when
     * the server broadcasts the accepted patch. Documents are JSON objects or arrays.
     */
    method Update(mutator: Json -> Json) returns (sent: bool, ghost patch: Patch)
      requires Valid()
      requires Truthy(data) ==> SameContainer(data, mutator(data))
      modifies server`doc, server.known`inbox
      ensures Valid() && View() == old(View())
      ensures sent <==> CanWrite(old(View()), old(server.State()).conns) && mutator(data) != data
      ensures !sent ==> server.State() == old(server.State())
      ensures sent ==>
        && patch != [] && IsDiff(data, mutator(data), patch)
        && server.State() == ServerReceive(old(server.State()), socket, WriteFrame(ClientWrite(rev, patch)))
    {
      patch := [];
      var s := socket;
      if s == null || s.readyState != OPEN || !Truthy(data) {
        return false, [];
      }
      var ops := Compare(data, mutator(data));
      if ops == [] {
        return false, [];
      }
      server.Receive(s, WriteFrame(ClientWrite(rev, ops)));
      return true, ops;
    }

    method ScheduleReconnect()
      modifies this`reconnectTimer
      ensures reconnectTimer == (old(reconnectTimer) || !closed)
    {
      if closed || reconnectTimer {
        return;
      }
      reconnectTimer := true;
    }

    method ClearReconnectTimer()
      modifies this`reconnectTimer
      ensures !reconnectTimer
    {
      reconnectTimer := false;
    }
  }
}
