/**
 * The realtime document protocol as functions on values: the server's acceptance rule, the
 * reaction of the server and of the client to each event. The classes in RealtimeClasses are
 * verified against these functions; RealtimeSystem proves what they guarantee together.
 */
module RealtimeProtocol {
  import opened Wrappers
  import opened JsonPatch

  // ---- Documents, frames and the acceptance rule ----

  datatype RealtimeDoc = RealtimeDoc(rev: nat, data: Json)

  datatype ErrorCode = InvalidJson | InvalidPayload | RevMismatch | PatchFailed | PatchApplyFailed | InternalError

  datatype ClientWrite = ClientWrite(baseRev: int, patch: Patch)

  /** A raw client frame, classified by what its text parses to. */
  datatype RawFrame = NotJson | NotAWrite | WriteFrame(write: ClientWrite)

  datatype Rejection = Rejection(code: ErrorCode, resync: bool, rev: Option<nat>)

  datatype Frame =
    | Snapshot(rev: nat, data: Json)
    | Patched(rev: nat, patch: Patch)
    | Error(code: ErrorCode, currentRev: Option<nat>, retryable: bool)
    | Ack(rev: nat)

  function ParseClientWrite(raw: RawFrame): Result<ClientWrite, Rejection> {
    match raw
    case NotJson => Failure(Rejection(InvalidJson, false, None))
    case NotAWrite => Failure(Rejection(InvalidPayload, false, None))
    case WriteFrame(write) => Success(write)
  }

  function ApplyClientWrite(current: RealtimeDoc, write: ClientWrite): Result<RealtimeDoc, Rejection> {
    if current.rev != write.baseRev then
      Failure(Rejection(RevMismatch, true, Some(current.rev)))
    else
      match ApplyPatch(current.data, write.patch)
      case None => Failure(Rejection(PatchApplyFailed, true, Some(current.rev)))
      case Some(data) => Success(RealtimeDoc(current.rev + 1, data))
  }

  function ToErrorFrame(rejection: Rejection): Frame {
    Error(rejection.code, if rejection.resync then rejection.rev else None, rejection.resync)
  }

  // ---- Connections and the server ----

  /** What a socket still has to deliver to its client's handlers, oldest first. */
  datatype Event = Opened | Message(frame: Frame) | Closed

  /** One connection: in the server's set and writable while `live`, drained in order. */
  datatype Conn = Conn(live: bool, inbox: seq<Event>)

  datatype Server<Id> = Server(doc: RealtimeDoc, conns: map<Id, Conn>)

  function PushTo(conn: Conn, frame: Frame): Conn {
    if conn.live then conn.(inbox := conn.inbox + [Message(frame)]) else conn
  }

  function Push<Id>(conns: map<Id, Conn>, id: Id, frame: Frame): map<Id, Conn>
    requires id in conns
  {
    conns[id := PushTo(conns[id], frame)]
  }

  function Broadcast<Id>(conns: map<Id, Conn>, frame: Frame): map<Id, Conn> {
    map id | id in conns :: PushTo(conns[id], frame)
  }

  function SnapshotOf(doc: RealtimeDoc): Frame {
    Snapshot(doc.rev, doc.data)
  }

  /** A new connection opens at once and its first frame is a snapshot. */
  function ServerConnect<Id>(s: Server<Id>, id: Id): Server<Id>
    requires id !in s.conns
  {
    s.(conns := s.conns[id := Conn(true, [Opened, Message(SnapshotOf(s.doc))])])
  }

  /** Closing leaves queued deliveries in place and announces itself behind them. */
  function CloseConn(conn: Conn): Conn {
    if conn.live then Conn(false, conn.inbox + [Closed]) else conn
  }

  function ServerClose<Id>(s: Server<Id>, id: Id): Server<Id>
    requires id in s.conns
  {
    s.(conns := s.conns[id := CloseConn(s.conns[id])])
  }

  function Reject<Id>(s: Server<Id>, id: Id, rejection: Rejection): Server<Id>
    requires id in s.conns
  {
    var conns := Push(s.conns, id, ToErrorFrame(rejection));
    s.(conns := if rejection.resync then Push(conns, id, SnapshotOf(s.doc)) else conns)
  }

  /** The write pipeline: validate, check the revision, apply, store, broadcast, acknowledge. */
  function ServerReceive<Id>(s: Server<Id>, id: Id, raw: RawFrame): Server<Id>
    requires id in s.conns
  {
    match ParseClientWrite(raw)
    case Failure(rejection) => Reject(s, id, rejection)
    case Success(write) =>
      match ApplyClientWrite(s.doc, write)
      case Failure(rejection) => Reject(s, id, rejection)
      case Success(next) =>
        Server(next, Push(Broadcast(s.conns, Patched(next.rev, write.patch)), id, Ack(next.rev)))
  }

  predicate Acceptable(doc: RealtimeDoc, raw: RawFrame) {
    raw.WriteFrame? && raw.write.baseRev == doc.rev && ApplyPatch(doc.data, raw.write.patch).Some?
  }

  /**
   * What one frame does to the document and to every queue: an acceptable write reaches every
   * live connection before it is acknowledged to its writer; any other frame leaves the document
   * and all other connections alone and is answered with an error, followed by a snapshot of the
   * current document exactly when it was a write.
   */
  lemma FrameIsAnswered<Id>(s: Server<Id>, id: Id, raw: RawFrame, other: Id)
    requires id in s.conns && s.conns[id].live && other in s.conns && other != id
    ensures var t := ServerReceive(s, id, raw);
      && t.conns.Keys == s.conns.Keys && t.conns[other].live == s.conns[other].live
      && (Acceptable(s.doc, raw) ==>
            var message := Message(Patched(s.doc.rev + 1, raw.write.patch));
            && t.doc.rev == s.doc.rev + 1 && ApplyPatch(s.doc.data, raw.write.patch) == Some(t.doc.data)
            && t.conns[id].inbox == s.conns[id].inbox + [message, Message(Ack(t.doc.rev))]
            && t.conns[other].inbox == s.conns[other].inbox + if s.conns[other].live then [message] else [])
      && (!Acceptable(s.doc, raw) ==>
            && t.doc == s.doc && t.conns[other] == s.conns[other]
            && var code := if raw.NotJson? then InvalidJson else if raw.NotAWrite? then InvalidPayload
                 else if raw.write.baseRev != s.doc.rev then RevMismatch else PatchApplyFailed;
               var error := Message(Error(code, if raw.WriteFrame? then Some(s.doc.rev) else None, raw.WriteFrame?));
               t.conns[id].inbox == s.conns[id].inbox + [error] + if raw.WriteFrame? then [Message(SnapshotOf(s.doc))] else [])
  {
    var t := ServerReceive(s, id, raw);
    var before := s.conns[id].inbox;
    if Acceptable(s.doc, raw) {
      var message := Message(Patched(s.doc.rev + 1, raw.write.patch));
      assert before + [message] + [Message(Ack(t.doc.rev))] == before + [message, Message(Ack(t.doc.rev))];
    } else if raw.WriteFrame? {
      var code := if raw.write.baseRev != s.doc.rev then RevMismatch else PatchApplyFailed;
      assert t.conns[id].inbox == before + [Message(Error(code, Some(s.doc.rev), true))] + [Message(SnapshotOf(s.doc))];
    } else {
      var code := if raw.NotJson? then InvalidJson else InvalidPayload;
      assert t.conns[id].inbox == before + [Message(Error(code, None, false))] + [];
    }
  }

  /** A server-originated change is broadcast as a replacement of the whole document. */
  function ServerUpdate<Id>(s: Server<Id>, data: Json): Server<Id> {
    var next := RealtimeDoc(s.doc.rev + 1, data);
    Server(next, Broadcast(s.conns, Patched(next.rev, [Replace([], data)])))
  }

  // ---- The client ----

  datatype Status = Connecting | Connected | Disconnected | Errored

  /** `data == Null` is a client without a document. */
  datatype Client<+Id> =
    Client(socket: Option<Id>, rev: nat, data: Json, status: Status, closed: bool, timer: bool)

  function NewClient<Id>(): Client<Id> {
    Client(None, 0, Null, Disconnected, false, false)
  }

  function ClientConnect<Id>(c: Client<Id>, id: Id): Client<Id> {
    if c.closed then c else c.(socket := Some(id), status := Connecting, timer := false)
  }

  /** Only a revision mismatch makes the client give up its socket. */
  predicate ClosesSocket(frame: Frame) {
    frame.Error? && frame.code.RevMismatch?
  }

  /** A patch that does not apply throws in the source's handler: None. */
  function ClientMessage<Id>(c: Client<Id>, frame: Frame): Option<Client<Id>> {
    match frame
    case Error(code, _, _) => Some(if code.RevMismatch? then c else c.(status := Errored))
    case Snapshot(rev, data) => Some(c.(rev := rev, data := data))
    case Patched(rev, patch) =>
      if Truthy(c.data) then
        var data :- ApplyPatch(c.data, patch);
        Some(c.(rev := rev, data := data))
      else Some(c)
    case Ack(_) => Some(c)
  }

  function ClientClosed<Id>(c: Client<Id>): Client<Id> {
    c.(status := Disconnected, socket := None, timer := c.timer || !c.closed)
  }

  function ClientEvent<Id>(c: Client<Id>, event: Event): Option<Client<Id>> {
    match event
    case Opened => Some(c.(status := Connected))
    case Message(frame) => ClientMessage(c, frame)
    case Closed => Some(ClientClosed(c))
  }

  function ClientClose<Id>(c: Client<Id>): Client<Id> {
    c.(closed := true, timer := false, socket := None, status := Disconnected)
  }

  /** The client sends only on an open socket and only with a document at hand. */
  predicate CanWrite<Id>(c: Client<Id>, conns: map<Id, Conn>) {
    c.socket.Some? && c.socket.value in conns && conns[c.socket.value].live && Truthy(c.data)
  }
}
