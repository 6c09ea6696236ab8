/** The RESEND request: numbers and decoder ids in the byte orders of the wire and of the display. */
module P3Resend {
  import opened Wrappers
  import opened Crc16
  import opened P3Codec
  import opened P3Frame
  import opened P3Stream
  import opened Sequences

  // ---- Hexadecimal text ----

  const DIGITS := "0123456789ABCDEF"

  predicate IsHex(c: char) {
    '0' <= c <= '9' || 'a' <= c <= 'f' || 'A' <= c <= 'F'
  }

  function Upper(c: char): char {
    if 'a' <= c <= 'f' then 'A' + (c - 'a') else c
  }

  function HexValue(c: char): int {
    if '0' <= c <= '9' then c as int - '0' as int
    else if 'A' <= c <= 'F' then c as int - 'A' as int + 10
    else if 'a' <= c <= 'f' then c as int - 'a' as int + 10
    else 0
  }

  /** Hex digits only, in upper case: separators are dropped. */
  function Clean(s: string): (r: string)
    ensures |r| <= |s|
    decreases |s|
  {
    if s == "" then "" else (if IsHex(s[0]) then [Upper(s[0])] else "") + Clean(s[1..])
  }

  function ToHex(b: Byte): string {
    [DIGITS[b as int / 16], DIGITS[b as int % 16]]
  }

  function BytesToHex(bytes: Bytes, sep: string): string
    decreases |bytes|
  {
    if bytes == [] then "" else if |bytes| == 1 then ToHex(bytes[0]) else ToHex(bytes[0]) + sep + BytesToHex(bytes[1..], sep)
  }

  /** Bytes of an even number of hex digits. */
  function FromHex(digits: string): Bytes
    decreases |digits|
  {
    if |digits| < 2 then [] else [Lo(16 * HexValue(digits[0]) + HexValue(digits[1]))] + FromHex(digits[2..])
  }

  function Reversed(bytes: Bytes): Bytes
    decreases |bytes|
  {
    if bytes == [] then [] else Reversed(bytes[1..]) + [bytes[0]]
  }

  function DecoderIdToWireBytes(id: string): Result<Bytes, P3Error> {
    var clean := Clean(id);
    if |clean| != 8 then Failure(BadDecoderId) else Success(FromHex(clean))
  }

  /** The display form of an id in the byte order requests expect; other strings stay as they are. */
  function DecoderIdToRequestOrder(displayId: string): string {
    var c := Clean(displayId);
    if |c| != 8 then displayId
    else c[6..8] + "-" + c[4..6] + "-" + c[2..4] + "-" + c[0..2]
  }

  // ---- Numbers ----

  function U32Le(v: int): Result<Bytes, P3Error> {
    if v < 0 || v > 0xffff_ffff then Failure(OutOfRange(v))
    else Success([Lo(v), Lo(v / 256), Lo(v / 256 / 256), Lo(v / 256 / 256 / 256)])
  }

  function NumericLe(raw: Bytes): nat
    decreases |raw|
  {
    if raw == [] then 0 else raw[0] as int + 256 * NumericLe(raw[1..])
  }

  lemma U32RoundTrip(v: int)
    requires 0 <= v <= 0xffff_ffff
    ensures U32Le(v).Success? && |U32Le(v).value| == 4 && NumericLe(U32Le(v).value) == v
  {
    hide Lo;
    var a, b, c := v / 256, v / 256 / 256, v / 256 / 256 / 256;
    LoRoundTrip(v);
    LoRoundTrip(a);
    LoRoundTrip(b);
    LoRoundTrip(c);
    Digits(Lo(v), Lo(a), Lo(b), Lo(c));
    hide NumericLe;
    Base256(v, a, b, c);
  }

  lemma NumericStep(b: Byte, rest: Bytes)
    ensures NumericLe([b] + rest) == b as int + 256 * NumericLe(rest)
  {
    assert ([b] + rest)[1..] == rest;
  }

  lemma NumericNothing()
    ensures NumericLe([]) == 0
  {}

  /** A list of four, taken apart from the front. */
  lemma Four<T>(a: T, b: T, c: T, d: T)
    ensures [a, b, c, d] == [a] + ([b] + ([c] + ([d] + [])))
  {}

  lemma Digits(w: Byte, x: Byte, y: Byte, z: Byte)
    ensures NumericLe([w, x, y, z]) == w as int + 256 * (x as int + 256 * (y as int + 256 * z as int))
  {
    hide NumericLe;
    Four(w, x, y, z);
    NumericStep(w, [x] + ([y] + ([z] + [])));
    NumericStep(x, [y] + ([z] + []));
    NumericStep(y, [z] + []);
    NumericStep(z, []);
    NumericNothing();
  }

  lemma Base256(v: int, a: int, b: int, c: int)
    requires 0 <= v <= 0xffff_ffff && a == v / 256 && b == a / 256 && c == b / 256
    ensures v % 256 + 256 * (a % 256 + 256 * (b % 256 + 256 * (c % 256))) == v
  {
    assert v == 256 * a + v % 256 && a == 256 * b + a % 256 && b == 256 * c + b % 256;
    assert 0 <= c < 256;
  }

  // ---- The request and its parse ----

  const FROM: Byte := 0x01
  const TO: Byte := 0x02
  const DECODER_ID: Byte := 0x81
  const FIELD_131: Byte := 0x83
  const RESEND := 4

  function ResendFields(from: int, to: int, decoderId: string): Result<seq<Tlv>, P3Error> {
    var fromBytes :- U32Le(from);
    var toBytes :- U32Le(to);
    var id :- DecoderIdToWireBytes(decoderId);
    Success([Tlv(FROM, fromBytes), Tlv(TO, toBytes), Tlv(DECODER_ID, id)])
  }

  datatype Resend = Resend(
    fromPassing: Option<nat>,
    toPassing: Option<nat>,
    decoderId: Option<string>,
    observedField131: Option<nat>,
    unknownFields: seq<Tlv>)

  /** One field of the record; a later field of the same type overwrites, other types stay unknown. */
  function ReadField(r: Resend, f: Tlv): Resend {
    if f.tag == FROM then r.(fromPassing := Some(NumericLe(f.raw)))
    else if f.tag == TO then r.(toPassing := Some(NumericLe(f.raw)))
    else if f.tag == DECODER_ID then r.(decoderId := Some(BytesToHex(Reversed(f.raw), "-")))
    else if f.tag == FIELD_131 then r.(observedField131 := Some(NumericLe(f.raw)))
    else r.(unknownFields := r.unknownFields + [f])
  }

  function ReadFields(r: Resend, fields: seq<Tlv>): Resend
    decreases |fields|
  {
    if fields == [] then r else ReadFields(ReadField(r, fields[0]), fields[1..])
  }

  function ParseResend(tlvs: seq<Tlv>): Resend {
    ReadFields(Resend(None, None, None, None, []), tlvs)
  }

  function CleanChar(c: char): string {
    if IsHex(c) then [Upper(c)] else ""
  }

  lemma CleanFirst(c: char, s: string)
    ensures Clean([c] + s) == CleanChar(c) + Clean(s)
  {
    assert ([c] + s)[1..] == s;
  }

  lemma {:induction false} CleanAppend(s: string, t: string)
    ensures Clean(s + t) == Clean(s) + Clean(t)
    decreases |s|
  {
    if s == "" {
      assert s + t == t && Clean(s) == "";
    } else {
      hide Clean;
      hide CleanChar;
      var c, rest := s[0], s[1..];
      assert [c] + rest == s && [c] + (rest + t) == s + t;
      CleanFirst(c, rest);
      CleanFirst(c, rest + t);
      CleanAppend(rest, t);
    }
  }

  lemma HexRoundTrip(b: Byte)
    ensures var h := ToHex(b);
      |h| == 2 && Clean(h) == h && 16 * HexValue(h[0]) + HexValue(h[1]) == b as int
  {
    var hi, lo := b as int / 16, b as int % 16;
    DigitIsHex(hi);
    DigitIsHex(lo);
    var h := ToHex(b);
    assert h[1..] == [h[1]] && h[1..][1..] == "";
    assert Clean(h[1..]) == [h[1]];
  }

  lemma DigitIsHex(n: int)
    requires 0 <= n < 16
    ensures IsHex(DIGITS[n]) && Upper(DIGITS[n]) == DIGITS[n] && HexValue(DIGITS[n]) == n
  {
  }

  lemma CleanDash(t: string)
    ensures Clean("-" + t) == Clean(t)
  {
    assert ("-" + t)[1..] == t;
  }

  /** Four bytes joined with dashes: cleaning leaves the eight digits. */
  lemma CleanDisplay(a: Byte, b: Byte, c: Byte, d: Byte)
    ensures Clean(ToHex(a) + "-" + ToHex(b) + "-" + ToHex(c) + "-" + ToHex(d)) == ToHex(a) + ToHex(b) + ToHex(c) + ToHex(d)
  {
    hide ToHex;
    var ha, hb, hc, hd := ToHex(a), ToHex(b), ToHex(c), ToHex(d);
    HexRoundTrip(a);
    HexRoundTrip(b);
    HexRoundTrip(c);
    HexRoundTrip(d);
    hide Clean;
    CleanDash(hd);
    CleanAppend(hc, "-" + hd);
    CleanDash(hc + ("-" + hd));
    CleanAppend(hb, "-" + (hc + ("-" + hd)));
    CleanDash(hb + ("-" + (hc + ("-" + hd))));
    CleanAppend(ha, "-" + (hb + ("-" + (hc + ("-" + hd)))));
    assert ha + "-" + hb + "-" + hc + "-" + hd == ha + ("-" + (hb + ("-" + (hc + ("-" + hd)))));
    assert ha + (hb + (hc + hd)) == ha + hb + hc + hd;
  }

  lemma Regroup(p: string, q: string, r: string, s: string)
    ensures p + q + r + s == p + (q + (r + (s + "")))
  {}

  lemma FromHexFour(a: Byte, b: Byte, c: Byte, d: Byte)
    ensures FromHex(ToHex(a) + ToHex(b) + ToHex(c) + ToHex(d)) == [a, b, c, d]
  {
    hide *;
    var ha, hb, hc, hd := ToHex(a), ToHex(b), ToHex(c), ToHex(d);
    Regroup(ha, hb, hc, hd);
    FromHexMore(a, hb + (hc + (hd + "")));
    FromHexMore(b, hc + (hd + ""));
    FromHexMore(c, hd + "");
    FromHexMore(d, "");
    FromHexNothing();
    Four(a, b, c, d);
  }

  lemma FromHexNothing()
    ensures FromHex("") == []
  {}

  lemma FromHexMore(a: Byte, rest: string)
    ensures FromHex(ToHex(a) + rest) == [a] + FromHex(rest)
  {
    hide ToHex, HexValue, Lo;
    HexRoundTrip(a);
    LoOfByte(a);
    FromHexTwo(ToHex(a)[0], ToHex(a)[1], rest);
    assert [ToHex(a)[0], ToHex(a)[1]] + rest == ToHex(a) + rest;
  }

  lemma FromHexTwo(x: char, y: char, rest: string)
    ensures FromHex([x, y] + rest) == [Lo(16 * HexValue(x) + HexValue(y))] + FromHex(rest)
  {
    hide HexValue, Lo;
    assert ([x, y] + rest)[2..] == rest;
  }

  lemma DisplayStep(b: Byte, rest: Bytes)
    ensures BytesToHex([b] + rest, "-") == if rest == [] then ToHex(b) else ToHex(b) + "-" + BytesToHex(rest, "-")
  {
    hide ToHex;
    assert ([b] + rest)[1..] == rest;
  }

  lemma RegroupDashed(p: string, q: string, r: string, s: string)
    ensures p + "-" + (q + "-" + (r + "-" + s)) == p + "-" + q + "-" + r + "-" + s
  {}

  lemma DisplayFour(a: Byte, b: Byte, c: Byte, d: Byte)
    ensures BytesToHex([a, b, c, d], "-") == ToHex(a) + "-" + ToHex(b) + "-" + ToHex(c) + "-" + ToHex(d)
  {
    hide *;
    Four(a, b, c, d);
    DisplayStep(a, [b] + ([c] + ([d] + [])));
    DisplayStep(b, [c] + ([d] + []));
    DisplayStep(c, [d] + []);
    DisplayStep(d, []);
    RegroupDashed(ToHex(a), ToHex(b), ToHex(c), ToHex(d));
  }

  lemma PairsOf(p: string, q: string, r: string, s: string)
    requires |p| == |q| == |r| == |s| == 2
    ensures var all := p + q + r + s;
      |all| == 8 && all[0..2] == p && all[2..4] == q && all[4..6] == r && all[6..8] == s
  {}

  lemma RequestOrderOf(display: string, p: string, q: string, r: string, s: string)
    requires |p| == |q| == |r| == |s| == 2 && Clean(display) == p + q + r + s
    ensures DecoderIdToRequestOrder(display) == s + "-" + r + "-" + q + "-" + p
  {
    hide Clean;
    PairsOf(p, q, r, s);
  }

  lemma WireBytesOf(display: string, a: Byte, b: Byte, c: Byte, d: Byte)
    requires Clean(display) == ToHex(a) + ToHex(b) + ToHex(c) + ToHex(d)
    ensures DecoderIdToWireBytes(display) == Success([a, b, c, d])
  {
    hide Clean, ToHex, FromHex;
    HexLength(a);
    HexLength(b);
    HexLength(c);
    HexLength(d);
    FromHexFour(a, b, c, d);
  }

  /** Reordering a displayed id turns its bytes around: the wire carries them reversed. */
  lemma RequestOrderReverses(a: Byte, b: Byte, c: Byte, d: Byte)
    ensures var display := BytesToHex([a, b, c, d], "-");
      && DecoderIdToRequestOrder(display) == BytesToHex([d, c, b, a], "-")
      && DecoderIdToWireBytes(DecoderIdToRequestOrder(display)) == Success([d, c, b, a])
  {
    hide *;
    var display := BytesToHex([a, b, c, d], "-");
    DisplayFour(a, b, c, d);
    CleanDisplay(a, b, c, d);
    HexLength(a);
    HexLength(b);
    HexLength(c);
    HexLength(d);
    RequestOrderOf(display, ToHex(a), ToHex(b), ToHex(c), ToHex(d));
    DisplayFour(d, c, b, a);
    CleanDisplay(d, c, b, a);
    WireBytesOf(BytesToHex([d, c, b, a], "-"), d, c, b, a);
  }

  lemma HexLength(b: Byte)
    ensures |ToHex(b)| == 2
  {
  }

  lemma ReversedStep(b: Byte, rest: Bytes)
    ensures Reversed([b] + rest) == Reversed(rest) + [b]
  {
    assert ([b] + rest)[1..] == rest;
  }

  lemma ReversedNothing()
    ensures Reversed([]) == []
  {}

  lemma ReversedFour(a: Byte, b: Byte, c: Byte, d: Byte)
    ensures Reversed([d, c, b, a]) == [a, b, c, d]
  {
    hide Reversed;
    Four(d, c, b, a);
    ReversedStep(d, [c] + ([b] + ([a] + [])));
    ReversedStep(c, [b] + ([a] + []));
    ReversedStep(b, [a] + []);
    ReversedStep(a, []);
    ReversedNothing();
  }

  lemma FieldsAre(from: int, to: int, requestId: string)
    requires U32Le(from).Success? && |U32Le(from).value| == 4 && U32Le(to).Success? && |U32Le(to).value| == 4
    requires DecoderIdToWireBytes(requestId).Success? && |DecoderIdToWireBytes(requestId).value| == 4
    ensures var fields := ResendFields(from, to, requestId);
      && fields.Success? && Encodable(fields.value)
      && fields.value == [Tlv(FROM, U32Le(from).value), Tlv(TO, U32Le(to).value), Tlv(DECODER_ID, DecoderIdToWireBytes(requestId).value)]
  {
    hide U32Le;
    hide DecoderIdToWireBytes;
  }

  /** The three fields of a request parse back to the range and the displayed id. */
  lemma ResendFieldsReadBack(from: int, to: int, id: Bytes)
    requires 0 <= from <= 0xffff_ffff && 0 <= to <= 0xffff_ffff && |id| == 4
    ensures var display := BytesToHex(id, "-");
      var fields := ResendFields(from, to, DecoderIdToRequestOrder(display));
      && fields.Success? && Encodable(fields.value)
      && ParseResend(fields.value) == Resend(Some(from), Some(to), Some(display), None, [])
  {
    hide *;
    var a, b, c, d := id[0], id[1], id[2], id[3];
    assert id == [a, b, c, d];
    U32RoundTrip(from);
    U32RoundTrip(to);
    RequestOrderReverses(a, b, c, d);
    ReversedFour(a, b, c, d);
    FieldsAre(from, to, DecoderIdToRequestOrder(BytesToHex(id, "-")));
    var fields := ResendFields(from, to, DecoderIdToRequestOrder(BytesToHex(id, "-"))).value;
    ReadThree(fields, from, to, BytesToHex(id, "-"));
  }

  /**
   * A RESEND request for any passing range and any displayed four-byte id, put into request order,
   * sent as a frame and parsed, gives back the range and the displayed id.
   */
  lemma ResendRoundTrip(from: int, to: int, id: Bytes, strict: bool, reject: bool)
    requires 0 <= from <= 0xffff_ffff && 0 <= to <= 0xffff_ffff && |id| == 4
    ensures var display := BytesToHex(id, "-");
      var fields := ResendFields(from, to, DecoderIdToRequestOrder(display));
      && fields.Success? && Encodable(fields.value)
      && var rec := DecodeFrame(Escape(BuildFrame(0, 0, RESEND, EncodeTlvs(fields.value))), strict, reject);
      && rec.parseError == None && rec.crcValid && rec.header.tor == RESEND
      && ParseResend(rec.tlvs) == Resend(Some(from), Some(to), Some(display), None, [])
  {
    hide *;
    ResendFieldsReadBack(from, to, id);
    var fields := ResendFields(from, to, DecoderIdToRequestOrder(BytesToHex(id, "-"))).value;
    ResendRecord(fields, strict, reject);
  }

  lemma ResendRecord(fields: seq<Tlv>, strict: bool, reject: bool)
    requires Encodable(fields)
    ensures var rec := DecodeFrame(Escape(BuildFrame(0, 0, RESEND, EncodeTlvs(fields))), strict, reject);
      rec.parseError == None && rec.crcValid && rec.header.tor == RESEND && rec.tlvs == fields
  {
    hide DecodeFrame;
    hide BuildFrame;
    hide Escape;
    BuiltRecordAnswers(Request(0, 0, RESEND, fields), strict, reject);
  }

  lemma ReadThree(fields: seq<Tlv>, from: nat, to: nat, display: string)
    requires |fields| == 3 && fields[0].tag == FROM && fields[1].tag == TO && fields[2].tag == DECODER_ID
    requires NumericLe(fields[0].raw) == from && NumericLe(fields[1].raw) == to
    requires BytesToHex(Reversed(fields[2].raw), "-") == display
    ensures ParseResend(fields) == Resend(Some(from), Some(to), Some(display), None, [])
  {
    hide NumericLe;
    hide BytesToHex;
    var r0 := Resend(None, None, None, None, []);
    assert fields[1..][0] == fields[1] && fields[1..][1..][0] == fields[2] && fields[1..][1..][1..] == [];
    var r1 := ReadField(r0, fields[0]);
    var r2 := ReadField(r1, fields[1]);
    var r3 := ReadField(r2, fields[2]);
    assert ReadFields(r3, fields[1..][1..][1..]) == r3;
    assert ReadFields(r2, fields[1..][1..]) == r3;
    assert ReadFields(r1, fields[1..]) == r3;
  }

  // ---- What a request needs, and what a record reads ----

  /** A request can be built exactly for numbers of 32 bits and an id with eight hex digits, whatever stands between them. */
  lemma RequestIsBuiltIff(from: int, to: int, decoderId: string)
    ensures ResendFields(from, to, decoderId).Success? <==>
      0 <= from < 0x1_0000_0000 && 0 <= to < 0x1_0000_0000 && |Clean(decoderId)| == 8
  {
    hide Clean, FromHex, Lo;
  }

  /** The value of the last field with a tag. */
  function LastWith(fields: seq<Tlv>, tag: Byte): Option<Bytes>
    decreases |fields|
  {
    if fields == [] then None
    else if fields[|fields| - 1].tag == tag then Some(fields[|fields| - 1].raw)
    else LastWith(fields[..|fields| - 1], tag)
  }

  function NumberIn(raw: Option<Bytes>): Option<nat> {
    match raw case None => None case Some(bytes) => Some(NumericLe(bytes))
  }

  predicate IsKnown(tag: Byte) {
    tag == 0x01 || tag == 0x02 || tag == 0x81 || tag == 0x83
  }

  lemma {:induction false} ReadFieldsSnoc(r: Resend, fields: seq<Tlv>, f: Tlv)
    ensures ReadFields(r, fields + [f]) == ReadField(ReadFields(r, fields), f)
    decreases |fields|
  {
    hide ReadField;
    if fields == [] {
      assert ([] + [f])[1..] == [];
    } else {
      assert (fields + [f])[1..] == fields[1..] + [f];
      ReadFieldsSnoc(ReadField(r, fields[0]), fields[1..], f);
    }
  }

  lemma KnownFields(tag: Byte)
    ensures IsKnown(tag) <==> tag == FROM || tag == TO || tag == DECODER_ID || tag == FIELD_131
  {}

  /** Of several fields with one tag the last one counts, and all fields with other tags are kept, in order. */
  lemma {:induction false} LastFieldCounts(fields: seq<Tlv>)
    ensures var r := ParseResend(fields);
      && r.fromPassing == NumberIn(LastWith(fields, 0x01)) && r.toPassing == NumberIn(LastWith(fields, 0x02))
      && r.observedField131 == NumberIn(LastWith(fields, 0x83))
      && (r.decoderId.None? <==> LastWith(fields, 0x81).None?)
      && (r.decoderId.Some? ==> r.decoderId.value == BytesToHex(Reversed(LastWith(fields, 0x81).value), "-"))
      && r.unknownFields == Where(fields, (f: Tlv) => !IsKnown(f.tag))
    decreases |fields|
  {
    if fields == [] {
      assert ReadFields(Resend(None, None, None, None, []), fields) == Resend(None, None, None, None, []);
    } else {
      hide NumericLe, BytesToHex, Reversed, ReadFields, IsKnown;
      var front, last := fields[..|fields| - 1], fields[|fields| - 1];
      assert fields == front + [last];
      LastFieldCounts(front);
      ReadFieldsSnoc(Resend(None, None, None, None, []), front, last);
      KnownFields(last.tag);
      assert Where(front, (f: Tlv) => !IsKnown(f.tag)) + [] == Where(front, (f: Tlv) => !IsKnown(f.tag));
    }
  }

  /** The decoder of the documented captures: its bytes on the wire, as displayed, and in request order. */
  lemma DocumentedDecoderId()
    ensures BytesToHex(Reversed([0x92, 0x03, 0x0c, 0x00]), "-") == "00-0C-03-92"
    ensures DecoderIdToRequestOrder("00-0C-03-92") == "92-03-0C-00"
  {
    hide *;
    ReversedFour(0x00, 0x0c, 0x03, 0x92);
    DisplayFour(0x00, 0x0c, 0x03, 0x92);
    DisplayFour(0x92, 0x03, 0x0c, 0x00);
    RequestOrderReverses(0x00, 0x0c, 0x03, 0x92);
    DocumentedHex();
    assert "00" + "-" + "0C" + "-" + "03" + "-" + "92" == "00-0C-03-92";
    assert "92" + "-" + "03" + "-" + "0C" + "-" + "00" == "92-03-0C-00";
  }

  lemma DocumentedHex()
    ensures ToHex(0x00) == "00" && ToHex(0x0c) == "0C" && ToHex(0x03) == "03" && ToHex(0x92) == "92"
  {}

  // ---- The loops ----

  /** What has been added up before `i`, and the weight of the byte at `i`. */
  ghost predicate ReadTo(bytes: Bytes, result: nat, unit: nat, i: nat) {
    i <= |bytes| && result + unit * NumericLe(bytes[i..]) == NumericLe(bytes)
  }

  lemma ReadStep(bytes: Bytes, result: nat, unit: nat, i: nat, digit: nat)
    requires ReadTo(bytes, result, unit, i) && i < |bytes| && digit == bytes[i] as int
    ensures ReadTo(bytes, result + unit * digit, unit * 256, i + 1)
  {
    hide NumericLe;
    var rest := NumericLe(bytes[i + 1..]);
    assert bytes[i..] == [bytes[i]] + bytes[i + 1..];
    NumericStep(bytes[i], bytes[i + 1..]);
    Distribute(unit, digit, rest);
  }

  lemma Distribute(unit: nat, b: nat, rest: nat)
    ensures unit * (b + 256 * rest) == unit * b + unit * 256 * rest
  {
  }

  lemma ReadAll(bytes: Bytes, result: nat, unit: nat)
    requires ReadTo(bytes, result, unit, |bytes|)
    ensures result == NumericLe(bytes)
  {
    assert bytes[|bytes|..] == [];
  }

  method ReadBigUIntLe(bytes: Bytes) returns (result: nat)
    ensures result == NumericLe(bytes)
  {
    hide NumericLe;
    result := 0;
    var unit: nat := 1;
    assert bytes[0..] == bytes;
    for i := 0 to |bytes|
      invariant ReadTo(bytes, result, unit, i)
    {
      hide ReadTo;
      var digit := bytes[i] as int;
      ReadStep(bytes, result, unit, i, digit);
      result := result + unit * digit;
      unit := unit * 256;
    }
    ReadAll(bytes, result, unit);
  }

  method ParseResendRecord(tlvs: seq<Tlv>) returns (record: Resend)
    ensures record == ParseResend(tlvs)
  {
    record := Resend(None, None, None, None, []);
    assert tlvs[0..] == tlvs;
    for i := 0 to |tlvs|
      invariant ReadFields(record, tlvs[i..]) == ParseResend(tlvs)
    {
      assert tlvs[i..][0] == tlvs[i] && tlvs[i..][1..] == tlvs[i + 1..];
      var tlv := tlvs[i];
      if tlv.tag == FROM {
        var n := ReadBigUIntLe(tlv.raw);
        record := record.(fromPassing := Some(n));
      } else if tlv.tag == TO {
        var n := ReadBigUIntLe(tlv.raw);
        record := record.(toPassing := Some(n));
      } else if tlv.tag == DECODER_ID {
        record := record.(decoderId := Some(BytesToHex(Reversed(tlv.raw), "-")));
      } else if tlv.tag == FIELD_131 {
        var n := ReadBigUIntLe(tlv.raw);
        record := record.(observedField131 := Some(n));
      } else {
        record := record.(unknownFields := record.unknownFields + [tlv]);
      }
    }
  }
}
