/**
 * The stateful stream decoder: any chunking of a byte stream, noise included, is cut into frames
 * at START and the first END after it, and every delimited frame becomes exactly one record.
 */
module P3Stream {
  import opened Wrappers
  import opened Crc16
  import opened P3Codec
  import opened P3Frame

  // ---- Records ----

  /** What the decoder reports for one delimited frame; the errors are set when parsing failed. */
  datatype Record = Record(
    header: Header,
    wire: Bytes,
    frame: Bytes,
    body: Bytes,
    tlvs: seq<Tlv>,
    crcValid: bool,
    computedCrc: int,
    parseError: Option<P3Error>,
    deEscapeError: Option<P3Error>)

  function RecordOf(f: Frame): Record {
    Record(f.header, f.wire, f.frame, f.body, f.tlvs, f.crcValid, f.computedCrc, None, None)
  }

  function ByteOrMissing(frame: Bytes, i: int): int {
    if 0 <= i < |frame| then frame[i] as int else -1
  }

  function ReadU16LeSafe(frame: Bytes, offset: nat): int {
    if offset + 1 >= |frame| then -1 else ReadU16Le(frame, offset)
  }

  function HeaderBestEffort(frame: Bytes): Header {
    Header(ByteOrMissing(frame, 0), ByteOrMissing(frame, 1), ReadU16LeSafe(frame, 2), ReadU16LeSafe(frame, 4),
           ReadU16LeSafe(frame, 6), ReadU16LeSafe(frame, 8), ByteOrMissing(frame, |frame| - 1))
  }

  /** The diagnostic record for a frame that even best-effort parsing rejects. */
  function ParseErrorRecord(wire: Bytes, error: P3Error): Record {
    var unescaped := DeEscape(wire);
    var frame := if unescaped.Success? then unescaped.value else wire;
    var header := HeaderBestEffort(frame);
    var body := if header.length >= 0 && |frame| >= 11 then BodyOf(frame) else [];
    var crc := CrcValue(HeaderCrc(frame));
    Record(header, wire, frame, body, [], header.crc >= 0 && header.crc == crc, crc, Some(error),
           if unescaped.Success? then None else Some(unescaped.error))
  }

  /** Strict parsing, then best-effort parsing, then the bare diagnostic record. */
  function DecodeFrame(wire: Bytes, strict: bool, reject: bool): Record {
    match ParseFrame(wire, strict, reject)
    case Success(f) => RecordOf(f)
    case Failure(error) =>
      match ParseFrame(wire, false, false)
      case Success(f) => RecordOf(f).(parseError := Some(error))
      case Failure(_) => ParseErrorRecord(wire, error)
  }

  function DecodeAll(frames: seq<Bytes>, strict: bool, reject: bool): (records: seq<Record>)
    ensures |records| == |frames|
    ensures forall i :: 0 <= i < |frames| ==> records[i] == DecodeFrame(frames[i], strict, reject)
  {
    seq(|frames|, i requires 0 <= i < |frames| => DecodeFrame(frames[i], strict, reject))
  }

  // ---- Cutting a buffer into frames ----

  /** The first position of `b` at or after `from`; -1 if there is none. */
  function IndexOf(s: Bytes, b: Byte, from: nat): (r: int)
    ensures r == -1 || (from <= r < |s| && s[r] == b)
    ensures forall i :: from <= i < (if r < 0 then |s| else r) ==> s[i] != b
    decreases |s| - from
  {
    if from >= |s| then -1 else if s[from] == b then from else IndexOf(s, b, from + 1)
  }

  /** All complete frames of a buffer, and what has to wait for more bytes. */
  function Drain(buffer: Bytes): (seq<Bytes>, Bytes)
    decreases |buffer|
  {
    var start := IndexOf(buffer, START, 0);
    if start < 0 then ([], [])
    else
      var b := buffer[start..];
      var end := IndexOf(b, END, 1);
      if end < 0 then ([], b)
      else
        var (frames, rest) := Drain(b[end + 1..]);
        ([b[..end + 1]] + frames, rest)
  }

  /** Delimited as on the wire: starts with START and has its only END at the end. */
  ghost predicate Delimited(w: Bytes) {
    |w| >= 2 && w[0] == START && w[|w| - 1] == END && forall i :: 1 <= i < |w| - 1 ==> w[i] != END
  }

  ghost predicate Noise(s: Bytes) {
    START !in s
  }

  /** Waiting bytes: nothing, or an unfinished frame from its START on. */
  ghost predicate Waiting(s: Bytes) {
    s == [] || (s[0] == START && forall i :: 1 <= i < |s| ==> s[i] != END)
  }

  lemma IndexIs(s: Bytes, b: Byte, from: nat, at: nat)
    requires from <= at < |s| && s[at] == b && forall i :: from <= i < at ==> s[i] != b
    ensures IndexOf(s, b, from) == at
  {
  }

  lemma DrainNoise(s: Bytes)
    requires Noise(s)
    ensures Drain(s) == ([], [])
  {
  }

  lemma DrainWaiting(noise: Bytes, s: Bytes)
    requires Noise(noise) && Waiting(s)
    ensures Drain(noise + s) == ([], s)
  {
    if s != [] {
      IndexIs(noise + s, START, 0, |noise|);
      assert (noise + s)[|noise|..] == s;
    } else {
      assert noise + s == noise;
    }
  }

  /** Noise, then a frame: the frame comes out, and cutting goes on behind it. */
  lemma DrainFrame(noise: Bytes, w: Bytes, tail: Bytes)
    requires Noise(noise) && Delimited(w)
    ensures Drain(noise + w + tail) == ([w] + Drain(tail).0, Drain(tail).1)
  {
    var s := noise + w + tail;
    IndexIs(s, START, 0, |noise|);
    var b := s[|noise|..];
    assert b == w + tail;
    IndexIs(b, END, 1, |w| - 1);
    assert b[..|w|] == w && b[|w|..] == tail;
  }

  /** The three ways a buffer can begin. */
  lemma BufferCases(s: Bytes) returns (noise: Bytes, w: Bytes, tail: Bytes)
    ensures s == noise + w + tail && Noise(noise)
    ensures if tail == [] && Waiting(w) then Drain(s) == ([], w) else Delimited(w) && |tail| < |s|
  {
    hide Drain;
    var start := IndexOf(s, START, 0);
    if start < 0 {
      noise, w, tail := s, [], [];
      DrainWaiting(noise, w);
      Rejoin(s, |s|);
      return;
    }
    var b := s[start..];
    noise := s[..start];
    Rejoin(s, start);
    var end := IndexOf(b, END, 1);
    if end < 0 {
      w, tail := b, [];
      DrainWaiting(noise, w);
      return;
    }
    FrontFrame(b, end);
    w, tail := b[..end + 1], b[end + 1..];
    Assoc(noise, w, tail);
  }

  lemma Rejoin(s: Bytes, i: nat)
    requires i <= |s|
    ensures s[..i] + s[i..] == s && s[..i] + s[i..] + [] == s
    ensures i == |s| ==> s[..i] == s && s[i..] == []
  {
  }

  lemma Assoc(a: Bytes, b: Bytes, c: Bytes)
    ensures a + b + c == a + (b + c)
  {
  }

  lemma FrontFrame(b: Bytes, end: nat)
    requires 1 <= end < |b| && b[0] == START && b[end] == END && forall i :: 1 <= i < end ==> b[i] != END
    ensures Delimited(b[..end + 1]) && !Waiting(b[..end + 1]) && b[..end + 1] + b[end + 1..] == b
  {
    assert b[..end + 1][end] == END;
  }

  /**
   * Cutting is incremental: cutting the first part, keeping what waits and continuing with the
   * rest gives the same frames and the same waiting bytes as cutting everything at once.
   */
  lemma {:induction false} DrainIncremental(a: Bytes, c: Bytes)
    ensures var (frames, rest) := Drain(a);
      Drain(a + c) == (frames + Drain(rest + c).0, Drain(rest + c).1)
    decreases |a|
  {
    hide Drain;
    hide Noise;
    hide Waiting;
    hide Delimited;
    var noise, w, tail := BufferCases(a);
    if tail == [] && Waiting(w) {
      assert noise + w + tail == noise + w;
      assert a + c == noise + (w + c);
      DrainSkipNoise(noise, w + c);
      assert [] + Drain(w + c).0 == Drain(w + c).0;
    } else {
      DrainFrame(noise, w, tail);
      DrainFrame(noise, w, tail + c);
      assert a + c == noise + w + (tail + c);
      DrainIncremental(tail, c);
      var (frames, rest) := Drain(tail);
      assert [w] + (frames + Drain(rest + c).0) == ([w] + frames) + Drain(rest + c).0;
    }
  }

  lemma DrainSkipNoise(noise: Bytes, s: Bytes)
    requires Noise(noise)
    ensures Drain(noise + s) == Drain(s)
  {
    hide Drain;
    hide Waiting;
    hide Delimited;
    var inner, w, tail := BufferCases(s);
    assert Noise(noise + inner);
    hide Noise;
    if tail == [] && Waiting(w) {
      assert inner + w + tail == inner + w;
      assert noise + s == (noise + inner) + w;
      DrainWaiting(noise + inner, w);
    } else {
      assert noise + s == (noise + inner) + w + tail;
      DrainFrame(noise + inner, w, tail);
      DrainFrame(inner, w, tail);
    }
  }

  // ---- Conservation ----

  /** Noise and frames alternating: noises[0] frames[0] noises[1] ... noises[n]. */
  ghost function Weave(noises: seq<Bytes>, frames: seq<Bytes>): Bytes
    requires |noises| == |frames| + 1
    decreases |frames|
  {
    if frames == [] then noises[0] else noises[0] + frames[0] + Weave(noises[1..], frames[1..])
  }

  ghost predicate AllNoise(noises: seq<Bytes>) {
    forall i :: 0 <= i < |noises| ==> Noise(noises[i])
  }

  ghost predicate AllDelimited(frames: seq<Bytes>) {
    forall i :: 0 <= i < |frames| ==> Delimited(frames[i])
  }

  /**
   * Every byte is accounted for: the input is the frames, in order, with discarded START-free
   * bytes around them, followed by what waits; and what waits is nothing or an unfinished frame.
   */
  lemma {:induction false} DrainConserves(s: Bytes) returns (noises: seq<Bytes>)
    ensures var (frames, rest) := Drain(s);
      && |noises| == |frames| + 1 && AllNoise(noises) && AllDelimited(frames)
      && s == Weave(noises, frames) + rest
      && Waiting(rest)
    decreases |s|
  {
    hide Drain;
    hide Noise;
    hide Waiting;
    hide Delimited;
    var noise, w, tail := BufferCases(s);
    if tail == [] && Waiting(w) {
      noises := [noise];
      assert noise + w + tail == noise + w;
    } else {
      DrainFrame(noise, w, tail);
      var more := DrainConserves(tail);
      noises := [noise] + more;
      var (frames, rest) := Drain(tail);
      WeaveMore(noise, w, more, frames, rest);
    }
  }

  lemma WeaveMore(noise: Bytes, w: Bytes, noises: seq<Bytes>, frames: seq<Bytes>, rest: Bytes)
    requires |noises| == |frames| + 1
    ensures Weave([noise] + noises, [w] + frames) + rest == noise + w + (Weave(noises, frames) + rest)
  {
    assert ([w] + frames)[1..] == frames && ([noise] + noises)[1..] == noises;
  }

  /** Conversely, frames with arbitrary noise around them are cut out exactly. */
  lemma {:induction false} DrainWeave(noises: seq<Bytes>, frames: seq<Bytes>)
    requires |noises| == |frames| + 1 && AllNoise(noises) && AllDelimited(frames)
    ensures Drain(Weave(noises, frames)) == (frames, [])
    decreases |frames|
  {
    if frames == [] {
      DrainNoise(noises[0]);
    } else {
      hide Drain;
      hide Delimited;
      DrainWeave(noises[1..], frames[1..]);
      DrainFrame(noises[0], frames[0], Weave(noises[1..], frames[1..]));
      assert [frames[0]] + frames[1..] == frames;
    }
  }

  // ---- Chunks ----

  ghost function Flatten(chunks: seq<Bytes>): Bytes
    decreases |chunks|
  {
    if chunks == [] then [] else chunks[0] + Flatten(chunks[1..])
  }

  /** The records of pushing all chunks one after another, and the buffer at the end. */
  ghost function PushAll(buffer: Bytes, chunks: seq<Bytes>, strict: bool, reject: bool): (seq<Record>, Bytes)
    decreases |chunks|
  {
    if chunks == [] then ([], buffer)
    else
      var (frames, rest) := Drain(buffer + chunks[0]);
      var (records, last) := PushAll(rest, chunks[1..], strict, reject);
      (DecodeAll(frames, strict, reject) + records, last)
  }

  lemma DecodeAllAppend(p: seq<Bytes>, q: seq<Bytes>, strict: bool, reject: bool)
    ensures |q| == 1 ==> DecodeAll(q, strict, reject) == [DecodeFrame(q[0], strict, reject)]
    ensures DecodeAll(p + q, strict, reject) == DecodeAll(p, strict, reject) + DecodeAll(q, strict, reject)
  {
    hide DecodeFrame;
  }

  lemma {:induction false} PushAllIsDrain(buffer: Bytes, chunks: seq<Bytes>, strict: bool, reject: bool)
    requires Waiting(buffer)
    ensures var (frames, rest) := Drain(buffer + Flatten(chunks));
      PushAll(buffer, chunks, strict, reject) == (DecodeAll(frames, strict, reject), rest)
    decreases |chunks|
  {
    hide Drain;
    hide DecodeAll;
    if chunks == [] {
      assert [] + buffer == buffer + [] == buffer;
      DrainWaiting([], buffer);
      assert DecodeAll([], strict, reject) == [];
    } else {
      hide Waiting;
      var (frames, rest) := Drain(buffer + chunks[0]);
      var tail := Flatten(chunks[1..]);
      assert buffer + Flatten(chunks) == (buffer + chunks[0]) + tail;
      DrainIncremental(buffer + chunks[0], tail);
      var _ := DrainConserves(buffer + chunks[0]);
      PushAllIsDrain(rest, chunks[1..], strict, reject);
      DecodeAllAppend(frames, Drain(rest + tail).0, strict, reject);
    }
  }

  /** Chunking does not matter: equal bytes give equal records and an equal final buffer. */
  lemma ChunkingDoesNotMatter(chunks: seq<Bytes>, others: seq<Bytes>, strict: bool, reject: bool)
    requires Flatten(chunks) == Flatten(others)
    ensures PushAll([], chunks, strict, reject) == PushAll([], others, strict, reject)
  {
    PushAllIsDrain([], chunks, strict, reject);
    PushAllIsDrain([], others, strict, reject);
  }

  /**
   * One record per frame, even when parsing fails, and nothing else is lost: the bytes pushed are
   * the wires of the records with START-free bytes between them, followed by the buffer.
   */
  lemma EveryByteIsAccountedFor(chunks: seq<Bytes>, strict: bool, reject: bool) returns (noises: seq<Bytes>, wires: seq<Bytes>)
    ensures var (records, buffer) := PushAll([], chunks, strict, reject);
      && |records| == |wires| && (forall i :: 0 <= i < |wires| ==> records[i].wire == wires[i])
      && |noises| == |wires| + 1 && AllNoise(noises) && AllDelimited(wires)
      && Flatten(chunks) == Weave(noises, wires) + buffer
      && Waiting(buffer)
  {
    hide Drain;
    PushAllIsDrain([], chunks, strict, reject);
    assert [] + Flatten(chunks) == Flatten(chunks);
    noises := DrainConserves(Flatten(chunks));
    wires := Drain(Flatten(chunks)).0;
    forall i | 0 <= i < |wires| ensures DecodeFrame(wires[i], strict, reject).wire == wires[i] {
      KeepsWire(wires[i], strict, reject);
    }
    hide DecodeFrame;
  }

  lemma KeepsWire(wire: Bytes, strict: bool, reject: bool)
    ensures DecodeFrame(wire, strict, reject).wire == wire
  {
    hide DeEscape;
    hide CrcValid;
    hide HeaderCrc;
  }

  // ---- End to end ----

  datatype Request = Request(version: int, flags: int, tor: int, fields: seq<Tlv>)

  ghost predicate Sendable(r: Request) {
    Encodable(r.fields)
  }

  ghost function FrameOf(r: Request): Bytes
    requires Sendable(r)
  {
    BuildFrame(r.version, r.flags, r.tor, EncodeTlvs(r.fields))
  }

  lemma WireIsDelimited(frame: Bytes)
    requires |frame| > 2 && frame[0] == START && frame[|frame| - 1] == END
    ensures Delimited(Escape(frame))
  {
    var inside := frame[1..|frame| - 1];
    EscapedInsideIsClean(inside);
    EscapedInsideLength(inside);
    var w := Escape(frame);
    forall i | 1 <= i < |w| - 1 ensures w[i] != END {
      assert w[i] == EscapeInside(inside)[i - 1];
    }
  }

  /** A clean record that carries exactly what the request was built from. */
  ghost predicate Answers(rec: Record, r: Request)
    requires Sendable(r)
  {
    && rec.parseError == None && rec.deEscapeError == None && rec.crcValid
    && rec.header.version == r.version % 256 && rec.header.flags == r.flags % 65536 && rec.header.tor == r.tor % 65536
    && rec.header.length == |rec.frame| % 65536 && rec.header.crc == rec.computedCrc
    && rec.body == EncodeTlvs(r.fields) && rec.tlvs == r.fields
    && rec.frame == FrameOf(r) && rec.wire == Escape(FrameOf(r))
  }

  lemma BuiltRecordAnswers(r: Request, strict: bool, reject: bool)
    requires Sendable(r)
    ensures Delimited(Escape(FrameOf(r)))
    ensures Answers(DecodeFrame(Escape(FrameOf(r)), strict, reject), r)
  {
    BuiltFrameReads(r.version, r.flags, r.tor, EncodeTlvs(r.fields));
    WireIsDelimited(FrameOf(r));
    ParseBuiltFrame(r.version, r.flags, r.tor, r.fields, strict, reject);
    hide ParseFrame;
    hide BuildFrame;
    hide Escape;
    hide HeaderOf;
  }

  /**
   * End to end: requests built by the builder, sent with arbitrary START-free noise before,
   * between and after them and received in any chunks, come out as exactly one clean record each,
   * in order, and nothing is left in the buffer.
   */
  lemma EndToEnd(requests: seq<Request>, noises: seq<Bytes>, chunks: seq<Bytes>, strict: bool, reject: bool)
    requires forall i :: 0 <= i < |requests| ==> Sendable(requests[i])
    requires |noises| == |requests| + 1 && AllNoise(noises)
    requires Flatten(chunks) == Weave(noises, seq(|requests|, i requires 0 <= i < |requests| => Escape(FrameOf(requests[i]))))
    ensures var (records, buffer) := PushAll([], chunks, strict, reject);
      && buffer == [] && |records| == |requests|
      && forall i :: 0 <= i < |requests| ==> Answers(records[i], requests[i])
  {
    hide Answers, DecodeFrame, Delimited, Escape, FrameOf, Drain, PushAll, Weave, Flatten, AllNoise, Sendable;
    var wires := seq(|requests|, i requires 0 <= i < |requests| => Escape(FrameOf(requests[i])));
    forall i | 0 <= i < |requests|
      ensures Delimited(wires[i]) && Answers(DecodeFrame(wires[i], strict, reject), requests[i])
    {
      BuiltRecordAnswers(requests[i], strict, reject);
    }
    PushAllIsDrain([], chunks, strict, reject);
    assert [] + Flatten(chunks) == Flatten(chunks);
    DrainWeave(noises, wires);
  }

  // ---- When a record is clean ----

  /**
   * A record carries no parse error exactly when its frame de-escapes, is long enough, has both
   * delimiters, its body is a complete list of fields if the parser is strict, and its CRC is right
   * if mismatches are rejected.
   */
  lemma CleanRecordIff(wire: Bytes, strict: bool, reject: bool)
    ensures var rec, frame := DecodeFrame(wire, strict, reject), DeEscape(wire);
      rec.parseError == None <==>
        && frame.Success? && |frame.value| >= 11
        && frame.value[0] == START && frame.value[|frame.value| - 1] == END
        && (strict ==> exists fields :: Encodable(fields) && BodyOf(frame.value) == EncodeTlvs(fields))
        && (reject ==> CrcValid(frame.value))
  {
    var frame := DeEscape(wire);
    if frame.Success? && |frame.value| >= 11 {
      var body := BodyOf(frame.value);
      var parsed := ParseTlvs(body, true);
      if parsed.Success? {
        StrictParseIffEncoding(body, parsed.value);
      }
      forall fields | Encodable(fields) && body == EncodeTlvs(fields) ensures parsed.Success? {
        StrictParseIffEncoding(body, fields);
      }
    }
  }

  // ---- The decoder object ----

  /** `done` frames have been cut off the front of `input`; `buffer` is still to be cut. */
  ghost predicate CutTo(input: Bytes, done: seq<Bytes>, buffer: Bytes) {
    Drain(input) == (done + Drain(buffer).0, Drain(buffer).1)
  }

  lemma CutNothing(input: Bytes)
    ensures CutTo(input, [], input)
  {
    assert [] + Drain(input).0 == Drain(input).0;
  }

  lemma CutSkip(input: Bytes, done: seq<Bytes>, buffer: Bytes, start: nat)
    requires CutTo(input, done, buffer) && start < |buffer| && Noise(buffer[..start])
    ensures CutTo(input, done, buffer[start..])
  {
    DrainSkipNoise(buffer[..start], buffer[start..]);
    assert buffer[..start] + buffer[start..] == buffer;
  }

  lemma CutFrame(input: Bytes, done: seq<Bytes>, buffer: Bytes, end: nat)
    requires CutTo(input, done, buffer) && 1 <= end < |buffer| && Delimited(buffer[..end + 1])
    ensures CutTo(input, done + [buffer[..end + 1]], buffer[end + 1..])
  {
    hide Drain;
    var w, tail := buffer[..end + 1], buffer[end + 1..];
    DrainFrame([], w, tail);
    assert [] + w + tail == buffer;
    assert done + ([w] + Drain(tail).0) == (done + [w]) + Drain(tail).0;
  }

  lemma CutEnd(input: Bytes, done: seq<Bytes>, buffer: Bytes, rest: Bytes)
    requires CutTo(input, done, buffer) && Waiting(rest)
    requires buffer == rest || (rest == [] && Noise(buffer))
    ensures Drain(input) == (done, rest)
  {
    if buffer == rest {
      DrainWaiting([], rest);
      assert [] + rest == rest;
    } else {
      DrainNoise(buffer);
    }
    assert done + [] == done;
  }

  class P3StreamDecoder {
    const parser: P3Parser
    const recoveryParser: P3Parser
    var buffer: Bytes

    ghost predicate Valid()
      reads this, parser, parser.crcTable, recoveryParser, recoveryParser.crcTable
    {
      && parser.Valid() && recoveryParser.Valid()
      && !recoveryParser.strict && !recoveryParser.rejectOnCrcMismatch
      && Waiting(buffer)
    }

    constructor (parser: P3Parser)
      requires parser.Valid()
      ensures Valid() && this.parser == parser && buffer == []
    {
      this.parser := parser;
      recoveryParser := new P3Parser(false, false);
      buffer := [];
    }

    method Push(chunk: Bytes) returns (records: seq<Record>)
      requires Valid()
      modifies this`buffer
      ensures Valid()
      ensures var (frames, rest) := Drain(old(buffer) + chunk);
        records == DecodeAll(frames, parser.strict, parser.rejectOnCrcMismatch) && buffer == rest
    {
      hide Drain;
      hide DecodeAll;
      hide DecodeFrame;
      ghost var input := old(buffer) + chunk;
      ghost var done: seq<Bytes> := [];
      buffer := buffer + chunk;
      records := [];
      CutNothing(input);
      while true
        invariant parser.Valid() && recoveryParser.Valid()
        invariant CutTo(input, done, buffer)
        invariant records == DecodeAll(done, parser.strict, parser.rejectOnCrcMismatch)
        decreases |buffer|
      {
        var start := IndexOf(buffer, START, 0);
        if start < 0 {
          CutEnd(input, done, buffer, []);
          buffer := [];
          break;
        }
        CutSkip(input, done, buffer, start);
        buffer := buffer[start..];
        var end := IndexOf(buffer, END, 1);
        if end < 0 {
          CutEnd(input, done, buffer, buffer);
          break;
        }
        var frame := buffer[..end + 1];
        CutFrame(input, done, buffer, end);
        buffer := buffer[end + 1..];
        var record := DecodeOne(frame);
        DecodeAllAppend(done, [frame], parser.strict, parser.rejectOnCrcMismatch);
        records := records + [record];
        done := done + [frame];
      }
    }

    method DecodeOne(frame: Bytes) returns (record: Record)
      requires parser.Valid() && recoveryParser.Valid() && !recoveryParser.strict && !recoveryParser.rejectOnCrcMismatch
      ensures record == DecodeFrame(frame, parser.strict, parser.rejectOnCrcMismatch)
    {
      var parsed := parser.Parse(frame);
      if parsed.Success? {
        return RecordOf(parsed.value);
      }
      var recovered := recoveryParser.Parse(frame);
      if recovered.Success? {
        return RecordOf(recovered.value).(parseError := Some(parsed.error));
      }
      return ParseErrorRecord(frame, parsed.error);
    }

    method Reset()
      requires Valid()
      modifies this`buffer
      ensures Valid() && buffer == []
    {
      buffer := [];
    }
  }
}
