/**
 * What every record tells about its frame, whichever of the three parsing attempts produced it:
 * the header read byte by byte, the fields, the first fault, and whether the CRC is right.
 */
module P3Diagnostics {
  import opened Wrappers
  import opened Crc16
  import opened P3Codec
  import opened P3Frame
  import opened P3Stream

  /** The bytes a record is about: the de-escaped frame, or the wire when an escape dangles. */
  function FrameSeen(wire: Bytes): Bytes {
    match DeEscape(wire)
    case Success(frame) => frame
    case Failure(_) => wire
  }

  /** The CRC of the frame with its CRC field zeroed stands in bytes 4 and 5, low byte first. */
  ghost predicate CrcStands(frame: Bytes) {
    |frame| >= 6 && var crc := Crc(frame[4 := 0][5 := 0]);
    frame[4] == (crc & 0xff) as Byte && frame[5] == (crc >> 8) as Byte
  }

  lemma StoredNumberIsTheBytes(lo: Byte, hi: Byte, crc: bv16)
    ensures CrcValue(crc) == lo as int + 256 * hi as int <==> lo == CrcLow(crc) && hi == CrcHigh(crc)
  {
    hide CrcLow, CrcHigh;
    SameNumber(lo, hi, CrcLow(crc), CrcHigh(crc));
  }

  lemma SameNumber(lo: Byte, hi: Byte, lo': Byte, hi': Byte)
    ensures PairValue(lo, hi) == lo as int + 256 * hi as int
    ensures PairValue(lo, hi) == PairValue(lo', hi') <==> lo == lo' && hi == hi'
  {
    hide Lo, PairValue;
    PairBytes(lo, hi);
    PairBytes(lo', hi');
    PairIs(lo, hi);
  }

  lemma PairIs(lo: Byte, hi: Byte)
    ensures PairValue(lo, hi) == lo as int + 256 * hi as int
  {}

  lemma StoredCrc(frame: Bytes)
    requires |frame| >= 6
    ensures CrcValue(HeaderCrc(frame)) == ReadU16Le(frame, 4) <==> CrcStands(frame)
  {
    hide Crc, CrcValue;
    StoredNumberIsTheBytes(frame[4], frame[5], Crc(frame[4 := 0][5 := 0]));
  }

  /** A record says that its CRC is right exactly when the frame carries the CRC of the rest of it. */
  lemma CrcIsReported(wire: Bytes, strict: bool, reject: bool)
    ensures var rec := DecodeFrame(wire, strict, reject);
      && rec.crcValid == CrcStands(FrameSeen(wire))
      && var f := FrameSeen(wire);
      rec.computedCrc == CrcValue(Crc(if |f| < 6 then f else f[4 := 0][5 := 0]))
  {
    hide DeEscape, Crc, CrcValue, ParseTlvs, CrcStands, BodyOf;
    var frame := FrameSeen(wire);
    if |frame| >= 6 {
      StoredCrc(frame);
    } else {
      TooShortForACrc(frame);
    }
  }

  lemma TooShortForACrc(frame: Bytes)
    requires |frame| < 6
    ensures !CrcStands(frame)
  {}

  lemma ValidCrcStands(frame: Bytes)
    requires |frame| >= 11
    ensures CrcValid(frame) <==> CrcStands(frame)
  {
    hide CrcStands, HeaderCrc, CrcValue;
    StoredCrc(frame);
  }

  /**
   * A frame with a right CRC that is damaged only inside two adjacent bytes, none of them one of its
   * CRC bytes, is reported with a wrong CRC in every mode, however it arrives on the wire.
   */
  lemma BurstIsReported(frame: Bytes, damaged: Bytes, i: nat, wire: Bytes, strict: bool, reject: bool)
    requires |frame| >= 11 && CrcStands(frame) && |damaged| == |frame| && i + 1 < |frame| && damaged != frame
    requires forall j :: 0 <= j < |frame| && ((j != i && j != i + 1) || j == 4 || j == 5) ==> damaged[j] == frame[j]
    requires DeEscape(wire) == Success(damaged)
    ensures !DecodeFrame(wire, strict, reject).crcValid
    ensures reject ==> DecodeFrame(wire, strict, reject).parseError.Some?
  {
    hide CrcStands, CrcValid, DecodeFrame;
    ValidCrcStands(frame);
    BurstIsDetected(frame, damaged, i);
    ValidCrcStands(damaged);
    CrcIsReported(wire, strict, reject);
    CleanRecordIff(wire, strict, reject);
  }

  // ---- Header, body and fields ----

  /** Every record keeps its wire and frame, and has the header and body as far as the frame goes. */
  lemma FrameIsShown(wire: Bytes, strict: bool, reject: bool)
    ensures var f, rec := FrameSeen(wire), DecodeFrame(wire, strict, reject);
      && rec.wire == wire && rec.frame == f && rec.header == HeaderBestEffort(f)
      && rec.body == if |f| < 11 then [] else f[10..|f| - 1]
  {
    hide DeEscape, HeaderCrc, CrcValue, ParseTlvs, CrcValid, HeaderOf, HeaderBestEffort;
    var f := FrameSeen(wire);
    if |f| >= 11 {
      WholeHeader(f);
    }
    HasLength(f);
  }

  lemma WholeHeader(f: Bytes)
    requires |f| >= 11
    ensures HeaderBestEffort(f) == HeaderOf(f)
  {
    hide ReadU16Le;
  }

  lemma HasLength(f: Bytes)
    ensures |f| >= 4 ==> HeaderBestEffort(f).length >= 0
  {
    hide ByteOrMissing;
  }

  /** The header of a cut frame is that of the whole frame where it reaches, and -1 elsewhere. */
  lemma CutHeader(f: Bytes, rest: Bytes)
    requires |f + rest| >= 11 && |rest + f| >= 11
    ensures var cut, whole := HeaderBestEffort(f), HeaderOf(f + rest);
      && cut.start == (if |f| > 0 then whole.start else -1)
      && cut.version == (if |f| > 1 then whole.version else -1)
      && cut.length == (if |f| > 3 then whole.length else -1)
      && cut.crc == (if |f| > 5 then whole.crc else -1)
      && cut.flags == (if |f| > 7 then whole.flags else -1)
      && cut.tor == (if |f| > 9 then whole.tor else -1)
      && cut.end == (if |f| > 0 then HeaderOf(rest + f).end else -1)
  {
    CutNumber(f, rest, 2);
    CutNumber(f, rest, 4);
    CutNumber(f, rest, 6);
    CutNumber(f, rest, 8);
    hide ReadU16Le, ReadU16LeSafe;
  }

  lemma CutNumber(f: Bytes, rest: Bytes, offset: nat)
    requires offset + 1 < |f + rest|
    ensures ReadU16LeSafe(f, offset) == if offset + 1 < |f| then ReadU16Le(f + rest, offset) else -1
  {}

  ghost predicate Framed(f: Bytes) {
    |f| >= 11 && f[0] == START && f[|f| - 1] == END
  }

  /**
   * The fields are the longest complete list that fits the front of the body, for every frame with
   * both delimiters; a record of anything else has none.
   */
  lemma FieldsAreKept(wire: Bytes, strict: bool, reject: bool, other: seq<Tlv>)
    ensures var rec := DecodeFrame(wire, strict, reject);
      && (DeEscape(wire).Success? && Framed(FrameSeen(wire)) ==>
            && Encodable(rec.tlvs) && EncodeTlvs(rec.tlvs) <= rec.body
            && (Encodable(other) && EncodeTlvs(other) <= rec.body ==> other <= rec.tlvs))
      && (!(DeEscape(wire).Success? && Framed(FrameSeen(wire))) ==> rec.tlvs == [])
  {
    hide CrcValid, HeaderCrc, CrcValue, HeaderOf, Decode, EncodeTlvs, Encodable;
    if DeEscape(wire).Success? && Framed(FrameSeen(wire)) {
      LenientParseIsLongestPrefix(BodyOf(FrameSeen(wire)), other);
    }
  }

  /** The error of a record is that of the first check its frame fails; the last resort also says why it could not be de-escaped. */
  lemma ErrorNamesTheFirstFault(wire: Bytes, strict: bool, reject: bool)
    ensures var f, rec := FrameSeen(wire), DecodeFrame(wire, strict, reject);
      && (DeEscape(wire).Failure? ==> rec.parseError == Some(DanglingEscape) && rec.deEscapeError == Some(DanglingEscape))
      && (DeEscape(wire).Success? ==>
            && rec.deEscapeError == None
            && rec.parseError ==
                 if |f| < 11 then Some(FrameTooShort(|f|))
                 else if f[0] != 0x8e then Some(InvalidStart)
                 else if f[|f| - 1] != 0x8f then Some(InvalidEnd)
                 else if strict && ParseTlvs(f[10..|f| - 1], true).Failure? then Some(ParseTlvs(f[10..|f| - 1], true).error)
                 else if reject && !CrcStands(f) then Some(CrcMismatch)
                 else None)
  {
    hide HeaderCrc, CrcValue, HeaderOf, Decode, CrcValid, CrcStands;
    var f := FrameSeen(wire);
    if |f| >= 11 {
      ValidCrcStands(f);
    }
    LenientParseIsLongestPrefix(if |f| < 11 then [] else f[10..|f| - 1], []);
  }

  /** Strict parsing stops where the last complete field ends, and says whether tag and length or the value is missing. */
  lemma StrictFaultIsWhereFieldsEnd(body: Bytes)
    requires ParseTlvs(body, true).Failure?
    ensures ParseTlvs(body, false).Success? && Encodable(ParseTlvs(body, false).value)
    ensures var end := |EncodeTlvs(ParseTlvs(body, false).value)|;
      && end < |body|
      && ParseTlvs(body, true).error == if end + 1 == |body| then TruncatedHeader(end) else TruncatedValue(body[end], end)
  {
    hide Decode, EncodeTlvs, Encodable;
    DecodeSound(body);
  }
}
