/** P3 frames: header, CRC, builder and parser, and the records a frame is turned into. */
module P3Frame {
  import opened Wrappers
  import opened Crc16
  import opened P3Codec

  // ---- Little-endian numbers ----

  function Lo(v: int): Byte {
    (v % 256) as Byte
  }

  /** Two bytes of any number; higher bits are cut off as the byte array does. */
  function U16(v: int): Bytes {
    [Lo(v), Lo(v / 256)]
  }

  function ReadU16Le(bytes: Bytes, offset: nat): int
    requires offset + 1 < |bytes|
  {
    bytes[offset] as int + 256 * bytes[offset + 1] as int
  }

  lemma LoRoundTrip(v: int)
    ensures Lo(v) as int == v % 256
  {
    ByteRoundTrip(v % 256);
  }

  lemma TwoDigits(v: int)
    ensures v % 256 + 256 * (v / 256 % 256) == v % 65536
  {}

  lemma U16Reads(bytes: Bytes, offset: nat, v: int)
    requires offset + 1 < |bytes| && bytes[offset] == Lo(v) && bytes[offset + 1] == Lo(v / 256)
    ensures ReadU16Le(bytes, offset) == v % 65536
  {
    hide Lo;
    LoRoundTrip(v);
    LoRoundTrip(v / 256);
    TwoDigits(v);
  }

  /** The register as the number the header stores. */
  function CrcValue(c: bv16): int {
    PairValue(CrcLow(c), CrcHigh(c))
  }

  function PairValue(lo: Byte, hi: Byte): int {
    ValueOf(lo) + 256 * ValueOf(hi)
  }

  function ValueOf(b: Byte): int {
    b as int
  }

  function CrcLow(c: bv16): Byte {
    (c & 0xff) as Byte
  }

  function CrcHigh(c: bv16): Byte {
    (c >> 8) as Byte
  }

  function CrcJoin(lo: Byte, hi: Byte): bv16 {
    (lo as bv16) | ((hi as bv16) << 8)
  }

  lemma CrcSplits(c: bv16)
    ensures CrcJoin(CrcLow(c), CrcHigh(c)) == c
  {
  }

  lemma LoOfByte(b: Byte)
    ensures Lo(b as int) == b
  {
    ByteOfInt(b);
  }

  lemma LoOfTwo(lo: int, hi: int)
    requires 0 <= lo < 256 && 0 <= hi < 256
    ensures Lo(lo + 256 * hi) == Lo(lo) && Lo((lo + 256 * hi) / 256) == Lo(hi)
    ensures 0 <= lo + 256 * hi < 65536
  {
    assert (lo + 256 * hi) % 256 == lo && (lo + 256 * hi) / 256 == hi;
  }

  lemma ValueOfByte(b: Byte)
    ensures Lo(ValueOf(b)) == b && 0 <= ValueOf(b) < 256
  {
    hide Lo;
    LoOfByte(b);
    ByteOfInt(b);
  }

  lemma PairBytes(lo: Byte, hi: Byte)
    ensures Lo(PairValue(lo, hi)) == lo && Lo(PairValue(lo, hi) / 256) == hi && 0 <= PairValue(lo, hi) < 65536
  {
    hide Lo, ValueOf;
    ValueOfByte(lo);
    ValueOfByte(hi);
    LoOfTwo(ValueOf(lo), ValueOf(hi));
  }

  lemma CrcValueBytes(c: bv16)
    ensures Lo(CrcValue(c)) == CrcLow(c) && Lo(CrcValue(c) / 256) == CrcHigh(c)
    ensures 0 <= CrcValue(c) < 65536
  {
    hide Lo, PairValue, CrcLow, CrcHigh;
    PairBytes(CrcLow(c), CrcHigh(c));
  }

  lemma CrcValueInjective(c: bv16, d: bv16)
    requires CrcValue(c) == CrcValue(d)
    ensures c == d
  {
    hide *;
    CrcValueBytes(c);
    CrcValueBytes(d);
    CrcSplits(c);
    CrcSplits(d);
  }

  // ---- Frames ----

  /** Field values as stored; -1 is a field that the frame is too short to hold. */
  datatype Header = Header(start: int, version: int, length: int, crc: int, flags: int, tor: int, end: int)

  function HeaderOf(frame: Bytes): Header
    requires |frame| >= 11
  {
    Header(frame[0] as int, frame[1] as int, ReadU16Le(frame, 2), ReadU16Le(frame, 4),
           ReadU16Le(frame, 6), ReadU16Le(frame, 8), frame[|frame| - 1] as int)
  }

  function BodyOf(frame: Bytes): Bytes
    requires |frame| >= 11
  {
    frame[10..|frame| - 1]
  }

  /** The CRC is computed with its own two bytes set to zero. */
  function HeaderCrc(frame: Bytes): bv16 {
    if |frame| < 6 then Crc(frame) else Crc(frame[4 := 0][5 := 0])
  }

  predicate CrcValid(frame: Bytes) {
    |frame| >= 11 && CrcValue(HeaderCrc(frame)) == HeaderOf(frame).crc
  }

  function RawFrame(version: int, crc: int, flags: int, tor: int, body: Bytes): Bytes {
    [START, Lo(version)] + U16(11 + |body|) + U16(crc) + U16(flags) + U16(tor) + body + [END]
  }

  function BuildFrame(version: int, flags: int, tor: int, body: Bytes): Bytes {
    RawFrame(version, CrcValue(Crc(RawFrame(version, 0, flags, tor, body))), flags, tor, body)
  }

  lemma RawFrameBytes(version: int, crc: int, flags: int, tor: int, body: Bytes)
    ensures var f := RawFrame(version, crc, flags, tor, body);
      && |f| == 11 + |body| && f[0] == START && f[|f| - 1] == END && BodyOf(f) == body
      && f[1] == Lo(version) && f[2] == Lo(11 + |body|) && f[3] == Lo((11 + |body|) / 256)
      && f[4] == Lo(crc) && f[5] == Lo(crc / 256) && f[6] == Lo(flags) && f[7] == Lo(flags / 256)
      && f[8] == Lo(tor) && f[9] == Lo(tor / 256)
  {
    hide Lo;
  }

  lemma RawFrameReads(version: int, crc: int, flags: int, tor: int, body: Bytes)
    ensures var f := RawFrame(version, crc, flags, tor, body);
      && |f| == 11 + |body| && f[0] == START && f[|f| - 1] == END
      && BodyOf(f) == body
      && HeaderOf(f) == Header(START as int, version % 256, (11 + |body|) % 65536, crc % 65536, flags % 65536, tor % 65536, END as int)
  {
    hide Lo, RawFrame, BodyOf, ReadU16Le;
    var f := RawFrame(version, crc, flags, tor, body);
    RawFrameBytes(version, crc, flags, tor, body);
    LoRoundTrip(version);
    U16Reads(f, 2, 11 + |body|);
    U16Reads(f, 4, crc);
    U16Reads(f, 6, flags);
    U16Reads(f, 8, tor);
  }

  lemma RawFrameZeroed(version: int, crc: int, flags: int, tor: int, body: Bytes)
    ensures |RawFrame(version, crc, flags, tor, body)| == 11 + |body|
    ensures RawFrame(version, crc, flags, tor, body)[4 := 0][5 := 0] == RawFrame(version, 0, flags, tor, body)
  {
    ZeroLo();
    hide Lo;
  }

  lemma ZeroLo()
    ensures Lo(0) == 0 && Lo(0 / 256) == 0
  {
  }

  /** A built frame carries its arguments and a valid CRC. */
  lemma BuiltFrameReads(version: int, flags: int, tor: int, body: Bytes)
    ensures var f := BuildFrame(version, flags, tor, body);
      && |f| == 11 + |body| && f[0] == START && f[|f| - 1] == END
      && BodyOf(f) == body && CrcValid(f)
      && HeaderOf(f).version == version % 256 && HeaderOf(f).length == |f| % 65536
      && HeaderOf(f).flags == flags % 65536 && HeaderOf(f).tor == tor % 65536
  {
    hide RawFrame;
    hide Crc;
    hide CrcValue;
    hide BodyOf;
    hide HeaderOf;
    var c := Crc(RawFrame(version, 0, flags, tor, body));
    RawFrameReads(version, CrcValue(c), flags, tor, body);
    RawFrameZeroed(version, CrcValue(c), flags, tor, body);
    CrcValueBytes(c);
  }

  /** Without its CRC field. */
  function Zeroed(frame: Bytes): Bytes
    requires |frame| >= 6
  {
    frame[4 := 0][5 := 0]
  }

  lemma ZeroedDiffers(frame: Bytes, damaged: Bytes)
    requires |frame| == |damaged| >= 6 && damaged != frame && damaged[4] == frame[4] && damaged[5] == frame[5]
    ensures Zeroed(damaged) != Zeroed(frame)
  {
    var j :| 0 <= j < |frame| && damaged[j] != frame[j];
    assert Zeroed(damaged)[j] != Zeroed(frame)[j];
  }

  /** The stored CRC is the same number exactly when its two bytes are. */
  lemma SameStoredCrc(frame: Bytes, damaged: Bytes)
    requires |frame| == |damaged| >= 11 && damaged[4] == frame[4] && damaged[5] == frame[5]
    ensures HeaderOf(damaged).crc == HeaderOf(frame).crc
  {}

  /**
   * A frame with a valid CRC that is changed only inside two adjacent bytes, none of them one of
   * the two CRC bytes, is always recognised as damaged.
   */
  lemma BurstIsDetected(frame: Bytes, damaged: Bytes, i: nat)
    requires CrcValid(frame) && |damaged| == |frame| && i + 1 < |frame| && damaged != frame
    requires forall j :: 0 <= j < |frame| && ((j != i && j != i + 1) || j == 4 || j == 5) ==> damaged[j] == frame[j]
    ensures !CrcValid(damaged)
  {
    hide HeaderOf, CrcValue, Crc;
    ZeroedDiffers(frame, damaged);
    SameStoredCrc(frame, damaged);
    BurstChangesCrc(Zeroed(frame), Zeroed(damaged), i);
    if CrcValid(damaged) {
      CrcValueInjective(HeaderCrc(frame), HeaderCrc(damaged));
    }
  }

  // ---- Parsing ----

  datatype Frame = Frame(wire: Bytes, frame: Bytes, header: Header, body: Bytes, tlvs: seq<Tlv>, crcValid: bool, computedCrc: int)

  function ParseFrame(wire: Bytes, strict: bool, rejectOnCrcMismatch: bool): Result<Frame, P3Error> {
    var frame :- DeEscape(wire);
    if |frame| < 11 then Failure(FrameTooShort(|frame|))
    else if frame[0] != START then Failure(InvalidStart)
    else if frame[|frame| - 1] != END then Failure(InvalidEnd)
    else
      var tlvs :- ParseTlvs(BodyOf(frame), strict);
      if rejectOnCrcMismatch && !CrcValid(frame) then Failure(CrcMismatch)
      else Success(Frame(wire, frame, HeaderOf(frame), BodyOf(frame), tlvs, CrcValid(frame), CrcValue(HeaderCrc(frame))))
  }

  /** Whatever is built from fields is parsed back, in every parser mode. */
  lemma ParseBuiltFrame(version: int, flags: int, tor: int, fields: seq<Tlv>, strict: bool, reject: bool)
    requires Encodable(fields)
    ensures var f := BuildFrame(version, flags, tor, EncodeTlvs(fields));
      ParseFrame(Escape(f), strict, reject) ==
        Success(Frame(Escape(f), f, HeaderOf(f), EncodeTlvs(fields), fields, true, HeaderOf(f).crc))
  {
    hide BuildFrame;
    hide HeaderCrc;
    var f := BuildFrame(version, flags, tor, EncodeTlvs(fields));
    DeEscapeEscape(f);
    BuiltFrameReads(version, flags, tor, EncodeTlvs(fields));
    StrictParseIffEncoding(EncodeTlvs(fields), fields);
  }

  // ---- The builder and the parser as they run ----

  method WriteU16Le(target: array<Byte>, offset: nat, value: int)
    requires offset + 1 < target.Length
    modifies target
    ensures target[..] == old(target[..])[offset := Lo(value)][offset + 1 := Lo(value / 256)]
  {
    target[offset] := Lo(value);
    target[offset + 1] := Lo(value / 256);
  }

  /** START, version and the four header numbers, the CRC still zero. */
  ghost predicate HeaderWritten(f: Bytes, version: int, flags: int, tor: int) {
    && |f| >= 11
    && f[0] == START && f[1] == Lo(version) && f[2] == Lo(|f|) && f[3] == Lo(|f| / 256)
    && f[4] == Lo(0) && f[5] == Lo(0) && f[6] == Lo(flags) && f[7] == Lo(flags / 256)
    && f[8] == Lo(tor) && f[9] == Lo(tor / 256)
  }

  method WriteHeader(f: array<Byte>, version: int, flags: int, tor: int)
    requires f.Length >= 11
    modifies f
    ensures HeaderWritten(f[..], version, flags, tor)
  {
    hide Lo;
    f[0] := START;
    f[1] := Lo(version);
    WriteU16Le(f, 2, f.Length);
    WriteU16Le(f, 4, 0);
    WriteU16Le(f, 6, flags);
    WriteU16Le(f, 8, tor);
  }

  method FillFrame(version: int, flags: int, tor: int, body: Bytes) returns (f: array<Byte>)
    ensures fresh(f) && f[..] == RawFrame(version, 0, flags, tor, body)
  {
    hide Lo, RawFrame, HeaderWritten;
    var length := 11 + |body|;
    f := new Byte[length](_ => 0);
    WriteHeader(f, version, flags, tor);
    ghost var written := f[..];
    forall i | 0 <= i < |body| {
      f[10 + i] := body[i];
    }
    f[length - 1] := END;
    SameHeader(written, f[..], version, flags, tor);
    RawFrameIs(f[..], version, flags, tor, body);
  }

  lemma SameHeader(f: Bytes, g: Bytes, version: int, flags: int, tor: int)
    requires HeaderWritten(f, version, flags, tor) && |g| == |f| && forall i :: 0 <= i < 10 ==> g[i] == f[i]
    ensures HeaderWritten(g, version, flags, tor)
  {
    hide Lo;
  }

  method BuildP3Request(version: int, flags: int, tor: int, body: Bytes) returns (frame: Bytes, escapedFrame: Bytes)
    ensures frame == BuildFrame(version, flags, tor, body)
    ensures escapedFrame == Escape(frame)
  {
    hide Lo;
    hide CrcValue;
    hide RawFrame;
    hide Crc;
    hide Escape;
    var f := FillFrame(version, flags, tor, body);
    var table := CreateCrcTable();
    var crc := CalcCrc16(table, f[..]);
    RawFramePatch(version, CrcValue(crc), flags, tor, body);
    WriteU16Le(f, 4, CrcValue(crc));
    frame := f[..];
    escapedFrame := EscapeMessage(frame);
  }

  lemma RawFrameIs(f: Bytes, version: int, flags: int, tor: int, body: Bytes)
    requires |f| == 11 + |body| && HeaderWritten(f, version, flags, tor) && f[|f| - 1] == END
    requires f[10..|f| - 1] == body
    ensures f == RawFrame(version, 0, flags, tor, body)
  {
    hide Lo;
    assert 0 / 256 == 0;
    var g := RawFrame(version, 0, flags, tor, body);
    assert |g| == |f|;
    assert forall k :: 10 <= k < |f| - 1 ==> f[k] == f[10..|f| - 1][k - 10];
  }

  lemma RawFramePatch(version: int, crc: int, flags: int, tor: int, body: Bytes)
    ensures |RawFrame(version, 0, flags, tor, body)| == 11 + |body|
    ensures RawFrame(version, 0, flags, tor, body)[4 := Lo(crc)][5 := Lo(crc / 256)] == RawFrame(version, crc, flags, tor, body)
  {
    hide Lo;
  }

  method CalcHeaderCrc(frame: Bytes, table: array<bv16>) returns (crc: bv16)
    requires IsCrcTable(table[..])
    ensures crc == HeaderCrc(frame)
  {
    if |frame| < 6 {
      crc := CalcCrc16(table, frame);
      return;
    }
    crc := CalcCrc16(table, frame[4 := 0][5 := 0]);
  }

  class P3Parser {
    const strict: bool
    const rejectOnCrcMismatch: bool
    const crcTable: array<bv16>

    ghost predicate Valid()
      reads crcTable
    {
      IsCrcTable(crcTable[..])
    }

    constructor (strict: bool, rejectOnCrcMismatch: bool)
      ensures Valid() && fresh(crcTable)
      ensures this.strict == strict && this.rejectOnCrcMismatch == rejectOnCrcMismatch
    {
      this.strict, this.rejectOnCrcMismatch := strict, rejectOnCrcMismatch;
      var table := CreateCrcTable();
      crcTable := table;
    }

    method Parse(wire: Bytes) returns (r: Result<Frame, P3Error>)
      requires Valid()
      ensures r == ParseFrame(wire, strict, rejectOnCrcMismatch)
    {
      var unescaped := DeEscapeMessage(wire);
      if unescaped.Failure? {
        return Failure(unescaped.error);
      }
      var frame := unescaped.value;
      if |frame| < 11 {
        return Failure(FrameTooShort(|frame|));
      }
      if frame[0] != START {
        return Failure(InvalidStart);
      }
      if frame[|frame| - 1] != END {
        return Failure(InvalidEnd);
      }
      var header, body := HeaderOf(frame), frame[10..|frame| - 1];
      var tlvs := ParseTlvFields(body, strict);
      if tlvs.Failure? {
        return Failure(tlvs.error);
      }
      var crc := CalcHeaderCrc(frame, crcTable);
      var crcValid := CrcValue(crc) == header.crc;
      if rejectOnCrcMismatch && !crcValid {
        return Failure(CrcMismatch);
      }
      return Success(Frame(wire, frame, header, body, tlvs.value, crcValid, CrcValue(crc)));
    }
  }
}
