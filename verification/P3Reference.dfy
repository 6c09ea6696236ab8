/**
 * A frame known from the wire: the discovery request that the source carries as a literal. Building
 * it from its fields gives exactly those bytes, so delimiters, escapes, byte order, start value and
 * polynomial are the ones in use.
 */
module P3Reference {
  import opened Crc16
  import opened P3Codec
  import opened P3Frame

  /** What follows the CRC: flags, the record type 0x0036 and ten empty fields. */
  const TAIL: Bytes := [
    0x00, 0x00, 0x36, 0x00, 0x01, 0x00, 0x02, 0x00, 0x03, 0x00, 0x04, 0x00,
    0x05, 0x00, 0x06, 0x00, 0x07, 0x00, 0x08, 0x00, 0x09, 0x00, 0x0a, 0x00]

  const WIRE: Bytes := [0x8e, 0x00, 0x1f, 0x00, 0xdd, 0x8d, 0xaf] + TAIL + [0x8f]

  /** The frame, escapes removed, with the given CRC bytes. */
  function Documented(lo: Byte, hi: Byte): Bytes {
    [0x8e, 0x00, 0x1f, 0x00, lo, hi] + TAIL + [0x8f]
  }

  /** The register before each byte of the head and of the tail, and after the last. */
  const HEAD_REGISTERS: seq<bv16> := [0xffff, 0xe17e, 0x930f, 0xbcc5, 0xa357, 0xd289, 0x623f]
  const TAIL_REGISTERS: seq<bv16> := [
    0x623f, 0x73e4, 0xaaf4, 0xe096, 0x6b2e, 0xf3cc, 0x137c, 0x5e50, 0xeb3b, 0x7746, 0x4870, 0xb9c8,
    0xfef2, 0xfcd4, 0xfa93, 0xdd53, 0x49d0, 0x09ea, 0x7b29, 0xe6f4, 0x69e8, 0x1586, 0xc494, 0x0dc2, 0x13ad]

  const TAGS: Bytes := [0x01, 0x02, 0x03, 0x04, 0x05, 0x06, 0x07, 0x08, 0x09, 0x0a]

  function EmptyFields(): (fields: seq<Tlv>)
    ensures Encodable(fields)
  {
    seq(10, i requires 0 <= i < 10 => Tlv(TAGS[i], []))
  }

  lemma {:induction false} Registers(regs: seq<bv16>, bytes: Bytes)
    requires |regs| == |bytes| + 1 && forall i :: 0 <= i < |bytes| ==> Step(regs[i], bytes[i]) == regs[i + 1]
    ensures CrcFrom(regs[0], bytes) == regs[|bytes|]
    decreases |bytes|
  {
    hide Step;
    if bytes != [] {
      assert forall i :: 0 <= i < |bytes| - 1 ==> regs[1..][i] == regs[i + 1] && bytes[1..][i] == bytes[i + 1];
      Registers(regs[1..], bytes[1..]);
    }
  }

  lemma HeadSteps(head: Bytes)
    requires head == [0x8e, 0x00, 0x1f, 0x00, 0x00, 0x00]
    ensures forall i :: 0 <= i < 6 ==> Step(HEAD_REGISTERS[i], head[i]) == HEAD_REGISTERS[i + 1]
    ensures Step(TAIL_REGISTERS[24], END) == 0x8fdd
  {
    assert Step(0xffff, 0x8e) == 0xe17e;
    assert Step(0xe17e, 0x00) == 0x930f;
    assert Step(0x930f, 0x1f) == 0xbcc5;
    assert Step(0xbcc5, 0x00) == 0xa357;
    assert Step(0xa357, 0x00) == 0xd289;
    assert Step(0xd289, 0x00) == 0x623f;
  }

  lemma TailSteps()
    ensures forall i :: 0 <= i < 24 ==> Step(TAIL_REGISTERS[i], TAIL[i]) == TAIL_REGISTERS[i + 1]
  {
    assert Step(0x623f, 0x00) == 0x73e4;
    assert Step(0x73e4, 0x00) == 0xaaf4;
    assert Step(0xaaf4, 0x36) == 0xe096;
    assert Step(0xe096, 0x00) == 0x6b2e;
    assert Step(0x6b2e, 0x01) == 0xf3cc;
    assert Step(0xf3cc, 0x00) == 0x137c;
    assert Step(0x137c, 0x02) == 0x5e50;
    assert Step(0x5e50, 0x00) == 0xeb3b;
    assert Step(0xeb3b, 0x03) == 0x7746;
    assert Step(0x7746, 0x00) == 0x4870;
    assert Step(0x4870, 0x04) == 0xb9c8;
    assert Step(0xb9c8, 0x00) == 0xfef2;
    assert Step(0xfef2, 0x05) == 0xfcd4;
    assert Step(0xfcd4, 0x00) == 0xfa93;
    assert Step(0xfa93, 0x06) == 0xdd53;
    assert Step(0xdd53, 0x00) == 0x49d0;
    assert Step(0x49d0, 0x07) == 0x09ea;
    assert Step(0x09ea, 0x00) == 0x7b29;
    assert Step(0x7b29, 0x08) == 0xe6f4;
    assert Step(0xe6f4, 0x00) == 0x69e8;
    assert Step(0x69e8, 0x09) == 0x1586;
    assert Step(0x1586, 0x00) == 0xc494;
    assert Step(0xc494, 0x0a) == 0x0dc2;
    assert Step(0x0dc2, 0x00) == 0x13ad;
  }

  lemma BlankCrc()
    ensures Crc(Documented(0, 0)) == 0x8fdd
  {
    hide Step, CrcFrom;
    var head := [0x8e, 0x00, 0x1f, 0x00, 0x00, 0x00];
    HeadSteps(head);
    TailSteps();
    Registers(HEAD_REGISTERS, head);
    Registers(TAIL_REGISTERS, TAIL);
    Registers([TAIL_REGISTERS[24], 0x8fdd], [END]);
    CrcAppend(0xffff, head, TAIL + [END]);
    CrcAppend(HEAD_REGISTERS[6], TAIL, [END]);
    assert Documented(0, 0) == head + (TAIL + [END]);
  }

  lemma {:induction false} EmptyFieldsEncode(tags: Bytes, fields: seq<Tlv>)
    requires |fields| == |tags| && forall i :: 0 <= i < |tags| ==> fields[i] == Tlv(tags[i], [])
    ensures Encodable(fields)
    ensures |EncodeTlvs(fields)| == 2 * |tags|
    ensures forall i :: 0 <= i < |tags| ==> EncodeTlvs(fields)[2 * i] == tags[i] && EncodeTlvs(fields)[2 * i + 1] == 0
    decreases |tags|
  {
    if tags != [] {
      EmptyFieldsEncode(tags[1..], fields[1..]);
      var rest := EncodeTlvs(fields[1..]);
      assert EncodeTlvs(fields) == [tags[0], 0] + rest;
      forall i | 0 <= i < |tags| ensures EncodeTlvs(fields)[2 * i] == tags[i] && EncodeTlvs(fields)[2 * i + 1] == 0 {
        if i > 0 {
          assert EncodeTlvs(fields)[2 * i] == rest[2 * (i - 1)] && EncodeTlvs(fields)[2 * i + 1] == rest[2 * (i - 1) + 1];
          assert tags[i] == tags[1..][i - 1];
        }
      }
    }
  }

  lemma BodyIs()
    ensures EncodeTlvs(EmptyFields()) == TAIL[4..]
  {
    hide EncodeTlvs;
    EmptyFieldsEncode(TAGS, EmptyFields());
    var body := EncodeTlvs(EmptyFields());
    forall i | 0 <= i < 10 ensures body[2 * i] == TAIL[4..][2 * i] && body[2 * i + 1] == TAIL[4..][2 * i + 1] {
      assert i == 0 || i == 1 || i == 2 || i == 3 || i == 4 || i == 5 || i == 6 || i == 7 || i == 8 || i == 9;
    }
    forall k | 0 <= k < 20 ensures body[k] == TAIL[4..][k] {
      assert k == 2 * (k / 2) || k == 2 * (k / 2) + 1;
    }
  }

  lemma BlankIs()
    ensures RawFrame(0, 0, 0, 0x36, TAIL[4..]) == Documented(0, 0)
  {
    assert 0x1f % 256 == 0x1f && 0x1f / 256 == 0 && 0x36 % 256 == 0x36;
  }

  lemma CrcBytes(crc: bv16)
    requires crc == 0x8fdd
    ensures Lo(CrcValue(crc)) == 0xdd && Lo(CrcValue(crc) / 256) == 0x8f
  {
    hide Lo, CrcValue;
    CrcValueBytes(crc);
  }

  /** Building the documented request from its ten empty fields gives the frame with its CRC. */
  lemma BuiltIs()
    ensures BuildFrame(0, 0, 0x36, EncodeTlvs(EmptyFields())) == Documented(0xdd, 0x8f)
  {
    hide RawFrame, CrcValue, Crc, Lo, EncodeTlvs;
    BodyIs();
    BlankIs();
    BlankCrc();
    CrcBytes(Crc(Documented(0, 0)));
    RawFramePatch(0, CrcValue(Crc(Documented(0, 0))), 0, 0x36, TAIL[4..]);
  }

  lemma {:induction false} PlainEscapes(s: Bytes)
    requires START !in s && ESC !in s && END !in s
    ensures EscapeInside(s) == s
    decreases |s|
  {
    if s != [] {
      PlainEscapes(s[1..]);
      assert [s[0]] + s[1..] == s;
    }
  }

  lemma TailIsPlain()
    ensures START !in TAIL && ESC !in TAIL && END !in TAIL
  {}

  lemma WireIs()
    ensures Escape(Documented(0xdd, 0x8f)) == WIRE
  {
    hide EscapeInside, Escape;
    var p := [0x00, 0x1f, 0x00, 0xdd];
    TailIsPlain();
    PlainEscapes(p);
    PlainEscapes(TAIL);
    EscapeInsideAppend(p, [0x8f] + TAIL);
    EscapeInsideAppend([0x8f], TAIL);
    EscapeOne(0x8f);
    EscapeFraming(p + ([0x8f] + TAIL));
    EscapedEnd();
    assert Documented(0xdd, 0x8f) == [0x8e] + (p + ([0x8f] + TAIL)) + [0x8f];
    assert WIRE == [0x8e] + (p + ([0x8d, 0xaf] + TAIL)) + [0x8f];
  }

  lemma EscapedEnd()
    ensures EscapeByte(0x8f) == [0x8d, 0xaf]
  {}

  lemma EscapeFraming(inside: Bytes)
    requires inside != []
    ensures Escape([0x8e] + inside + [0x8f]) == [0x8e] + EscapeInside(inside) + [0x8f]
  {
    hide EscapeInside;
    assert ([0x8e] + inside + [0x8f])[1..|inside| + 1] == inside;
  }

  lemma DocumentedHeader()
    ensures HeaderOf(Documented(0xdd, 0x8f)) == Header(0x8e, 0, 31, 0x8fdd, 0, 0x36, 0x8f)
  {}

  /**
   * The documented request: building it from its ten empty fields gives its literal bytes, and in
   * every mode they parse back to those fields with a valid CRC.
   */
  lemma DocumentedRequest(strict: bool, reject: bool)
    ensures Escape(BuildFrame(0, 0, 0x36, EncodeTlvs(EmptyFields()))) == WIRE
    ensures var r := ParseFrame(WIRE, strict, reject);
      && r.Success? && r.value.tlvs == EmptyFields() && r.value.crcValid
      && r.value.header == Header(0x8e, 0, 31, 0x8fdd, 0, 0x36, 0x8f)
  {
    hide BuildFrame, EncodeTlvs, Escape, ParseFrame, EmptyFields, HeaderOf;
    BuiltIs();
    WireIs();
    DocumentedHeader();
    ParseBuiltFrame(0, 0, 0x36, EmptyFields(), strict, reject);
  }
}
