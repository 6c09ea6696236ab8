/**
 * The byte layer of the P3 decoder protocol: escaping of control bytes and type-length-value
 * fields, with the loops of the source verified against recursive specifications.
 */
module P3Codec {
  import opened Wrappers
  import opened Crc16

  type Bytes = seq<Byte>

  const START: Byte := 0x8e
  const ESC: Byte := 0x8d
  const END: Byte := 0x8f

  datatype P3Error =
    | DanglingEscape
    | FrameTooShort(length: nat)
    | InvalidStart
    | InvalidEnd
    | TruncatedHeader(offset: nat)
    | TruncatedValue(tag: Byte, offset: nat)
    | CrcMismatch
    | FieldTooLarge(size: nat)
    | OutOfRange(value: int)
    | BadDecoderId

  // ---- Escaping ----

  predicate IsControl(b: Byte) {
    b == START || b == ESC || b == END
  }

  function EscapeByte(b: Byte): Bytes {
    if IsControl(b) then [ESC, b + 0x20] else [b]
  }

  /** Escapes every byte of the inside of a frame. */
  function EscapeInside(inside: Bytes): Bytes
    decreases |inside|
  {
    if inside == [] then [] else EscapeByte(inside[0]) + EscapeInside(inside[1..])
  }

  /** None: an escape byte with nothing after it. */
  function UnescapeInside(wire: Bytes): Option<Bytes>
    decreases |wire|
  {
    if wire == [] then Some([])
    else if wire[0] != ESC then
      var rest :- UnescapeInside(wire[1..]);
      Some([wire[0]] + rest)
    else if |wire| == 1 then None
    else
      var rest :- UnescapeInside(wire[2..]);
      Some([wire[1] - 0x20] + rest)
  }

  /** The delimiters themselves are never escaped; two bytes or fewer have no inside. */
  function Escape(frame: Bytes): Bytes {
    if |frame| <= 2 then frame
    else [frame[0]] + EscapeInside(frame[1..|frame| - 1]) + [frame[|frame| - 1]]
  }

  function DeEscape(wire: Bytes): Result<Bytes, P3Error> {
    if |wire| <= 2 then Success(wire)
    else
      match UnescapeInside(wire[1..|wire| - 1])
      case None => Failure(DanglingEscape)
      case Some(inside) => Success([wire[0]] + inside + [wire[|wire| - 1]])
  }

  lemma {:induction false} UnescapeEscape(inside: Bytes)
    ensures UnescapeInside(EscapeInside(inside)) == Some(inside)
    decreases |inside|
  {
    if inside != [] {
      var rest := EscapeInside(inside[1..]);
      UnescapeEscape(inside[1..]);
      if IsControl(inside[0]) {
        assert ([ESC, inside[0] + 0x20] + rest)[2..] == rest;
      } else {
        assert ([inside[0]] + rest)[1..] == rest;
      }
      assert [inside[0]] + inside[1..] == inside;
    }
  }

  lemma {:induction false} EscapedInsideLength(inside: Bytes)
    ensures |EscapeInside(inside)| >= |inside|
    decreases |inside|
  {
    if inside != [] {
      EscapedInsideLength(inside[1..]);
    }
  }

  lemma {:induction false} UnescapeAppend(p: Bytes, q: Bytes)
    requires UnescapeInside(p).Some?
    ensures UnescapeInside(p + q) ==
      match UnescapeInside(q) case None => None case Some(more) => Some(UnescapeInside(p).value + more)
    decreases |p|
  {
    if p == [] {
      assert p + q == q && forall more: Bytes :: [] + more == more;
    } else {
      var n := if p[0] == ESC then 2 else 1;
      assert (p + q)[n..] == p[n..] + q;
      UnescapeAppend(p[n..], q);
      var b := if p[0] == ESC then p[1] - 0x20 else p[0];
      assert forall x: Bytes, y: Bytes :: [b] + (x + y) == [b] + x + y;
    }
  }

  /** Only an escape byte that has nothing left to escape is an error. */
  lemma {:induction false} DanglingIff(wire: Bytes)
    ensures UnescapeInside(wire).None? <==> wire != [] && wire[|wire| - 1] == ESC && UnescapeInside(wire[..|wire| - 1]).Some?
    decreases |wire|
  {
    if wire != [] {
      var front, last := wire[..|wire| - 1], wire[|wire| - 1];
      assert wire == front + [last];
      if UnescapeInside(front).Some? {
        UnescapeAppend(front, [last]);
        assert [last][1..] == [];
      } else {
        DanglingIff(front);
        var before := front[..|front| - 1];
        assert wire == before + [ESC, last];
        UnescapeAppend(before, [ESC, last]);
        assert [ESC, last][2..] == [];
      }
    }
  }

  /** Escaping loses nothing, whatever the frame contains. */
  lemma DeEscapeEscape(frame: Bytes)
    ensures DeEscape(Escape(frame)) == Success(frame)
  {
    hide EscapeInside;
    hide UnescapeInside;
    if |frame| > 2 {
      var inside := frame[1..|frame| - 1];
      UnescapeEscape(inside);
      EscapedInsideLength(inside);
      var wire := Escape(frame);
      assert |wire| > 2 && wire[1..|wire| - 1] == EscapeInside(inside);
      assert [frame[0]] + inside + [frame[|frame| - 1]] == frame;
    }
  }

  lemma NoDelimiterAfterEscape(b: Byte)
    ensures START !in EscapeByte(b) && END !in EscapeByte(b)
  {
    if IsControl(b) {
      assert b + 0x20 == 0xae || b + 0x20 == 0xad || b + 0x20 == 0xaf;
    }
  }

  /** An escaped inside contains no delimiter, so the frame's END is the first one after its START. */
  lemma {:induction false} EscapedInsideIsClean(inside: Bytes)
    ensures START !in EscapeInside(inside) && END !in EscapeInside(inside)
    decreases |inside|
  {
    if inside != [] {
      NoDelimiterAfterEscape(inside[0]);
      EscapedInsideIsClean(inside[1..]);
    }
  }

  lemma {:induction false} EscapeInsideAppend(a: Bytes, b: Bytes)
    ensures EscapeInside(a + b) == EscapeInside(a) + EscapeInside(b)
    decreases |a|
  {
    if a == [] {
      assert a + b == b;
    } else {
      assert (a + b)[1..] == a[1..] + b;
      EscapeInsideAppend(a[1..], b);
    }
  }

  /** `out` is what the bytes before `i` escape to. */
  ghost predicate EscapedTo(bytes: Bytes, out: Bytes, i: nat) {
    |bytes| > 2 && 1 <= i < |bytes| && out == [bytes[0]] + EscapeInside(bytes[1..i])
  }

  lemma EscapedStep(bytes: Bytes, out: Bytes, i: nat)
    requires EscapedTo(bytes, out, i) && i + 1 < |bytes|
    ensures EscapedTo(bytes, out + EscapeByte(bytes[i]), i + 1)
  {
    hide EscapeByte;
    assert bytes[1..i + 1] == bytes[1..i] + [bytes[i]];
    EscapeInsideAppend(bytes[1..i], [bytes[i]]);
    EscapeOne(bytes[i]);
  }

  lemma EscapeOne(b: Byte)
    ensures EscapeInside([b]) == EscapeByte(b)
  {
    hide EscapeByte;
    assert [b][1..] == [];
    EscapeEmpty([]);
  }

  lemma EscapedStart(bytes: Bytes)
    requires |bytes| > 2
    ensures EscapedTo(bytes, [bytes[0]], 1)
  {
    EscapeEmpty(bytes[1..1]);
  }

  method EscapeMessage(bytes: Bytes) returns (out: Bytes)
    ensures out == Escape(bytes)
  {
    if |bytes| <= 2 {
      return bytes;
    }
    hide EscapeInside;
    out := [bytes[0]];
    var last := |bytes| - 1;
    EscapedStart(bytes);
    for i := 1 to last
      invariant EscapedTo(bytes, out, i)
    {
      hide EscapedTo;
      var b := bytes[i];
      EscapedStep(bytes, out, i);
      if b == START || b == ESC || b == END {
        out := out + [ESC, b + 0x20];
      } else {
        out := out + [b];
      }
    }
    out := out + [bytes[last]];
  }

  lemma EscapeEmpty(s: Bytes)
    requires s == []
    ensures EscapeInside(s) == []
  {
  }

  /** `out` is what the bytes before `i` de-escape to, as far as the rest allows. */
  ghost predicate UnescapedTo(bytes: Bytes, out: Bytes, i: nat) {
    && |bytes| > 2 && 1 <= i < |bytes|
    && var whole, rest := UnescapeInside(bytes[1..|bytes| - 1]), UnescapeInside(bytes[i..|bytes| - 1]);
       if rest.None? then whole.None? else whole.Some? && out + rest.value == [bytes[0]] + whole.value
  }

  lemma UnescapeAt(bytes: Bytes, i: nat)
    requires i < |bytes| - 1
    ensures var rest := bytes[i..|bytes| - 1];
      UnescapeInside(rest) ==
        if bytes[i] != ESC then
          match UnescapeInside(bytes[i + 1..|bytes| - 1]) case None => None case Some(more) => Some([bytes[i]] + more)
        else if i + 1 == |bytes| - 1 then None
        else
          match UnescapeInside(bytes[i + 2..|bytes| - 1]) case None => None case Some(more) => Some([bytes[i + 1] - 0x20] + more)
  {
    var rest := bytes[i..|bytes| - 1];
    assert rest[1..] == bytes[i + 1..|bytes| - 1];
    if i + 1 < |bytes| - 1 {
      assert rest[2..] == bytes[i + 2..|bytes| - 1];
    }
  }

  lemma UnescapeStep(bytes: Bytes, out: Bytes, i: nat, b: Byte, next: nat)
    requires UnescapedTo(bytes, out, i) && i < next < |bytes|
    requires UnescapeInside(bytes[i..|bytes| - 1]) ==
      match UnescapeInside(bytes[next..|bytes| - 1]) case None => None case Some(more) => Some([b] + more)
    ensures UnescapedTo(bytes, out + [b], next)
  {
    hide UnescapeInside;
    var rest := UnescapeInside(bytes[next..|bytes| - 1]);
    if rest.Some? {
      assert out + [b] + rest.value == out + ([b] + rest.value);
    }
  }

  lemma UnescapeEnd(bytes: Bytes, out: Bytes)
    requires bytes != [] && UnescapedTo(bytes, out, |bytes| - 1)
    ensures DeEscape(bytes) == Success(out + [bytes[|bytes| - 1]])
  {
    assert bytes[|bytes| - 1..|bytes| - 1] == [] && out + [] == out;
  }

  method DeEscapeMessage(bytes: Bytes) returns (r: Result<Bytes, P3Error>)
    ensures r == DeEscape(bytes)
  {
    if |bytes| <= 2 {
      return Success(bytes);
    }
    var out := [bytes[0]];
    var last := |bytes| - 1;
    var i := 1;
    while i < last
      invariant UnescapedTo(bytes, out, i)
    {
      hide UnescapeInside, UnescapedTo;
      var b := bytes[i];
      UnescapeAt(bytes, i);
      if b == ESC {
        i := i + 1;
        if i >= last {
          DanglingFails(bytes, out);
          return Failure(DanglingEscape);
        }
        UnescapeStep(bytes, out, i - 1, bytes[i] - 0x20, i + 1);
        out := out + [bytes[i] - 0x20];
      } else {
        UnescapeStep(bytes, out, i, b, i + 1);
        out := out + [b];
      }
      i := i + 1;
    }
    UnescapeEnd(bytes, out);
    out := out + [bytes[last]];
    return Success(out);
  }

  lemma DanglingFails(bytes: Bytes, out: Bytes)
    requires |bytes| > 2 && UnescapedTo(bytes, out, |bytes| - 2) && UnescapeInside(bytes[|bytes| - 2..|bytes| - 1]).None?
    ensures DeEscape(bytes) == Failure(DanglingEscape)
  {
    hide UnescapeInside;
  }

  // ---- Type-length-value fields ----

  datatype Tlv = Tlv(tag: Byte, raw: Bytes)

  ghost predicate Encodable(fields: seq<Tlv>) {
    forall i :: 0 <= i < |fields| ==> |fields[i].raw| <= 255
  }

  function EncodeTlv(f: Tlv): Bytes
    requires |f.raw| <= 255
  {
    [f.tag, |f.raw| as Byte] + f.raw
  }

  function EncodeTlvs(fields: seq<Tlv>): Bytes
    requires Encodable(fields)
    decreases |fields|
  {
    if fields == [] then [] else EncodeTlv(fields[0]) + EncodeTlvs(fields[1..])
  }

  method BuildOutboundField(f: Tlv) returns (r: Result<Bytes, P3Error>)
    ensures r.Failure? <==> |f.raw| > 255
    ensures r.Success? ==> r.value == EncodeTlv(f)
    ensures r.Failure? ==> r.error == FieldTooLarge(|f.raw|)
  {
    if |f.raw| > 255 {
      return Failure(FieldTooLarge(|f.raw|));
    }
    var out := new Byte[2 + |f.raw|];
    out[0], out[1] := f.tag, |f.raw| as Byte;
    for i := 0 to |f.raw|
      invariant out[0] == f.tag && out[1] == |f.raw| as Byte
      invariant forall j :: 0 <= j < i ==> out[2 + j] == f.raw[j]
    {
      out[2 + i] := f.raw[i];
    }
    assert out[..] == EncodeTlv(f);
    r := Success(out[..]);
  }

  lemma {:induction false} EncodeSnoc(fields: seq<Tlv>, f: Tlv)
    requires Encodable(fields) && |f.raw| <= 255
    ensures Encodable(fields + [f]) && EncodeTlvs(fields + [f]) == EncodeTlvs(fields) + EncodeTlv(f)
    decreases |fields|
  {
    hide EncodeTlv;
    if fields == [] {
      assert fields + [f] == [f] && [f][1..] == [];
    } else {
      assert (fields + [f])[1..] == fields[1..] + [f];
      EncodeSnoc(fields[1..], f);
    }
  }

  /** Builds the fields one by one and concatenates them; a field that is too large stops it. */
  method BuildBody(fields: seq<Tlv>) returns (r: Result<Bytes, P3Error>)
    ensures r.Success? <==> Encodable(fields)
    ensures r.Success? ==> r.value == EncodeTlvs(fields)
  {
    hide EncodeTlv;
    var body: Bytes := [];
    for i := 0 to |fields|
      invariant Encodable(fields[..i]) && body == EncodeTlvs(fields[..i])
    {
      var field := BuildOutboundField(fields[i]);
      if field.Failure? {
        return Failure(field.error);
      }
      EncodeSnoc(fields[..i], fields[i]);
      assert fields[..i + 1] == fields[..i] + [fields[i]];
      body := body + field.value;
    }
    assert fields[..|fields|] == fields;
    r := Success(body);
  }

  /** A complete field stands at the front. */
  predicate HasField(body: Bytes) {
    |body| >= 2 && 2 + body[1] as int <= |body|
  }

  function FirstField(body: Bytes): (f: Tlv)
    requires HasField(body)
  {
    Tlv(body[0], body[2..2 + body[1] as int])
  }

  function AfterField(body: Bytes): Bytes
    requires HasField(body)
  {
    body[2 + body[1] as int..]
  }

  /** The fields that can be decoded from the front, and what is left. */
  function Decode(body: Bytes): (r: (seq<Tlv>, Bytes))
    ensures |r.1| <= |body|
    decreases |body|
  {
    if !HasField(body) then ([], body)
    else
      var (fields, rest) := Decode(AfterField(body));
      ([FirstField(body)] + fields, rest)
  }

  function ParseTlvs(body: Bytes, strict: bool): Result<seq<Tlv>, P3Error> {
    var (fields, rest) := Decode(body);
    if !strict || rest == [] then Success(fields)
    else
      Failure(if |rest| < 2 then TruncatedHeader(|body| - |rest|) else TruncatedValue(rest[0], |body| - |rest|))
  }

  lemma NextByte(b: Byte, n: nat)
    requires b as int + 1 == n && b != 255
    ensures (b + 1) as int == n && n as Byte == b + 1
  {
  }

  lemma {:induction false} ByteRoundTrip(n: nat)
    requires n < 256
    ensures (n as Byte) as int == n
  {
    if n == 0 {
      assert (0 as Byte) as int == 0;
    } else {
      ByteRoundTrip(n - 1);
      NextByte((n - 1) as Byte, n);
    }
  }

  lemma FieldRoundTrip(f: Tlv, tail: Bytes)
    requires |f.raw| <= 255
    ensures var body := EncodeTlv(f) + tail;
      HasField(body) && FirstField(body) == f && AfterField(body) == tail
  {
    var body, n := EncodeTlv(f) + tail, |f.raw|;
    ByteRoundTrip(n);
    assert body[0] == f.tag && body[1] == n as Byte;
    assert body[2..2 + n] == f.raw && body[2 + n..] == tail;
  }

  lemma ByteOfInt(b: Byte)
    ensures (b as int) as Byte == b && 0 <= b as int < 256
  {
  }

  lemma CutInFour(s: Bytes, n: nat)
    requires 2 + n <= |s|
    ensures s == [s[0], s[1]] + s[2..2 + n] + s[2 + n..]
  {}

  lemma FieldLength(body: Bytes) returns (n: nat)
    requires HasField(body)
    ensures n == body[1] as int && n <= 255 && n as Byte == body[1]
  {
    hide HasField;
    OneByteMore(body);
    ByteOfInt(body[1]);
    n := body[1] as int;
  }

  lemma OneByteMore(body: Bytes)
    requires HasField(body)
    ensures |body| >= 2
  {}

  lemma FieldCut(body: Bytes, n: nat)
    requires HasField(body) && n == body[1] as int
    ensures 2 + n <= |body|
    ensures FirstField(body) == Tlv(body[0], body[2..2 + n]) && AfterField(body) == body[2 + n..]
  {}

  lemma FieldRebuilds(body: Bytes)
    requires HasField(body)
    ensures |FirstField(body).raw| <= 255 && body == EncodeTlv(FirstField(body)) + AfterField(body)
  {
    hide EncodeTlv, HasField, FirstField, AfterField;
    OneByteMore(body);
    var n := FieldLength(body);
    FieldCut(body, n);
    CutInFour(body, n);
    EncodeIs(Tlv(body[0], body[2..2 + n]), body[1]);
  }

  lemma EncodeIs(f: Tlv, length: Byte)
    requires |f.raw| <= 255 && |f.raw| as Byte == length
    ensures EncodeTlv(f) == [f.tag, length] + f.raw
  {}

  lemma {:induction false} DecodeSound(body: Bytes)
    ensures var (fields, rest) := Decode(body);
      Encodable(fields) && body == EncodeTlvs(fields) + rest && !HasField(rest)
    decreases |body|
  {
    hide HasField;
    hide FirstField;
    hide AfterField;
    if HasField(body) {
      FieldRebuilds(body);
      DecodeSound(AfterField(body));
      var (fields, rest) := Decode(AfterField(body));
      assert ([FirstField(body)] + fields)[1..] == fields;
      assert body == EncodeTlv(FirstField(body)) + (EncodeTlvs(fields) + rest);
    }
  }

  lemma DecodeFront(f: Tlv, tail: Bytes)
    requires |f.raw| <= 255
    ensures Decode(EncodeTlv(f) + tail) == ([f] + Decode(tail).0, Decode(tail).1)
  {
    hide HasField;
    hide FirstField;
    hide AfterField;
    hide EncodeTlv;
    FieldRoundTrip(f, tail);
  }

  lemma {:induction false} DecodeEncoded(fields: seq<Tlv>, tail: Bytes)
    requires Encodable(fields)
    ensures Decode(EncodeTlvs(fields) + tail) == (fields + Decode(tail).0, Decode(tail).1)
    decreases |fields|
  {
    hide Decode;
    hide EncodeTlv;
    if fields == [] {
      assert EncodeTlvs(fields) + tail == tail && fields + Decode(tail).0 == Decode(tail).0;
    } else {
      var more := EncodeTlvs(fields[1..]) + tail;
      assert EncodeTlvs(fields) + tail == EncodeTlv(fields[0]) + more;
      DecodeFront(fields[0], more);
      DecodeEncoded(fields[1..], tail);
      assert [fields[0]] + (fields[1..] + Decode(tail).0) == fields + Decode(tail).0;
    }
  }

  /** Strict parsing succeeds with `fields` exactly on the bytes that `fields` encode to. */
  lemma StrictParseIffEncoding(body: Bytes, fields: seq<Tlv>)
    ensures ParseTlvs(body, true) == Success(fields) <==> Encodable(fields) && body == EncodeTlvs(fields)
  {
    DecodeSound(body);
    var (found, rest) := Decode(body);
    assert rest == [] ==> EncodeTlvs(found) + rest == EncodeTlvs(found);
    if Encodable(fields) && body == EncodeTlvs(fields) {
      DecodeEncoded(fields, []);
      assert body + [] == body && fields + [] == fields;
    }
  }

  /** Best-effort parsing never fails; it returns the longest list of fields that fits the front. */
  lemma LenientParseIsLongestPrefix(body: Bytes, other: seq<Tlv>)
    ensures var r := ParseTlvs(body, false);
      && r.Success? && Encodable(r.value) && EncodeTlvs(r.value) <= body
      && (Encodable(other) && EncodeTlvs(other) <= body ==> other <= r.value)
  {
    hide Decode, EncodeTlvs, HasField, Encodable;
    DecodeSound(body);
    if Encodable(other) && EncodeTlvs(other) <= body {
      var tail := body[|EncodeTlvs(other)|..];
      assert body == EncodeTlvs(other) + tail;
      DecodeEncoded(other, tail);
    }
  }

  /** `result` is what has been decoded before `offset`. */
  ghost predicate DecodedTo(body: Bytes, result: seq<Tlv>, offset: nat) {
    && offset <= |body|
    && Decode(body) == (result + Decode(body[offset..]).0, Decode(body[offset..]).1)
  }

  lemma SliceOfDrop(s: Bytes, offset: nat, from: nat, to: nat)
    requires from <= to && offset + to <= |s|
    ensures s[offset..][from..to] == s[offset + from..offset + to]
    ensures s[offset..][to..] == s[offset + to..]
  {}

  lemma FieldAt(body: Bytes, offset: nat)
    requires offset <= |body| && HasField(body[offset..])
    ensures var end := offset + 2 + body[offset + 1] as int;
      && end <= |body|
      && FirstField(body[offset..]) == Tlv(body[offset], body[offset + 2..end])
      && AfterField(body[offset..]) == body[end..]
  {
    var front, n := body[offset..], body[offset + 1] as int;
    assert front[0] == body[offset] && front[1] == body[offset + 1];
    SliceOfDrop(body, offset, 2, 2 + n);
  }

  lemma DecodeStep(body: Bytes, result: seq<Tlv>, offset: nat)
    requires DecodedTo(body, result, offset) && HasField(body[offset..])
    ensures var end := offset + 2 + body[offset + 1] as int;
      end <= |body| && DecodedTo(body, result + [Tlv(body[offset], body[offset + 2..end])], end)
  {
    hide HasField;
    hide FirstField;
    hide AfterField;
    FieldAt(body, offset);
    var front := body[offset..];
    var more := Decode(AfterField(front)).0;
    assert result + ([FirstField(front)] + more) == (result + [FirstField(front)]) + more;
  }

  lemma DecodeEnd(body: Bytes, result: seq<Tlv>, offset: nat, strict: bool)
    requires DecodedTo(body, result, offset) && !HasField(body[offset..])
    ensures ParseTlvs(body, strict) ==
      if !strict || offset == |body| then Success(result)
      else Failure(if offset + 2 > |body| then TruncatedHeader(offset) else TruncatedValue(body[offset], offset))
  {
    assert result + [] == result;
  }

  method ParseTlvFields(body: Bytes, strict: bool) returns (r: Result<seq<Tlv>, P3Error>)
    ensures r == ParseTlvs(body, strict)
  {
    var result: seq<Tlv> := [];
    var offset := 0;
    assert body[0..] == body && [] + Decode(body).0 == Decode(body).0;
    while offset < |body|
      invariant DecodedTo(body, result, offset)
    {
      if offset + 2 > |body| {
        DecodeEnd(body, result, offset, strict);
        return if strict then Failure(TruncatedHeader(offset)) else Success(result);
      }
      var start := offset + 2;
      var end := start + body[offset + 1] as int;
      if end > |body| {
        DecodeEnd(body, result, offset, strict);
        return if strict then Failure(TruncatedValue(body[offset], offset)) else Success(result);
      }
      DecodeStep(body, result, offset);
      result := result + [Tlv(body[offset], body[start..end])];
      offset := end;
    }
    DecodeEnd(body, result, offset, strict);
    return Success(result);
  }
}
