/**
 ECHONET Lite frames (cmd/hm-echonet-collector/main.go:301-336), after chapter 3 of
 Part II of the ECHONET Lite Specification.
 */
module Echonet {
  import opened Bytes
  import opened Wrappers

  datatype Error = InvalidFrame | TruncatedHeader | TruncatedData
  datatype Eoj = Eoj(group: byte, kind: byte, instance: byte)
  datatype Property = Property(seoj: Eoj, epc: byte, edt: seq<byte>)
  datatype Frame = Frame(tid: nat, seoj: Eoj, deoj: Eoj, esv: byte, properties: seq<Property>)

  const CONTROLLER := Eoj(0x05, 0xff, 0x01)
  const ESV_GET: byte := 0x62
  const HEADER := 12

  // ---------------------------------------------------------------- wire format

  function Objects(seoj: Eoj, deoj: Eoj): seq<byte> {
    [seoj.group, seoj.kind, seoj.instance, deoj.group, deoj.kind, deoj.instance]
  }

  /** The twelve bytes before the properties. */
  function Header(tid: nat, seoj: Eoj, deoj: Eoj, esv: byte, count: byte): (r: seq<byte>)
    ensures |r| == HEADER
  {
    [0x10, 0x81] + BigEndian16(tid) + Objects(seoj, deoj) + [esv, count]
  }

  function EncodeProperty(p: Property): seq<byte> { [p.epc, |p.edt| % 256] + p.edt }

  function EncodeProperties(ps: seq<Property>): seq<byte> {
    if ps == [] then [] else EncodeProperty(ps[0]) + EncodeProperties(ps[1..])
  }

  function Encode(f: Frame): seq<byte> {
    Header(f.tid, f.seoj, f.deoj, f.esv, |f.properties| % 256) + EncodeProperties(f.properties)
  }

  /** A frame that the wire format can carry. */
  predicate Formed(f: Frame) {
    f.tid < 65536 && |f.properties| < 256 && AllFormed(f.properties, f.seoj)
  }

  /** Empty properties, as a request carries them. */
  function Requests(seoj: Eoj, epcs: seq<byte>): (r: seq<Property>)
    ensures |r| == |epcs|
  {
    seq(|epcs|, i requires 0 <= i < |epcs| => Property(seoj, epcs[i], []))
  }

  /** n properties from the front of the data. */
  function ParseProperties(data: seq<byte>, n: nat, seoj: Eoj): Result<seq<Property>, Error> {
    if n == 0 then Ok([])
    else if |data| < 2 then Err(TruncatedHeader)
    else
      var end := 2 + (data[1] as int);
      if |data| < end then Err(TruncatedData)
      else Before(Property(seoj, data[0], data[2..end]), ParseProperties(data[end..], n - 1, seoj))
  }

  function Before(p: Property, others: Result<seq<Property>, Error>): Result<seq<Property>, Error> {
    if others.Err? then others else Ok([p] + others.value)
  }

  predicate HasHeader(data: seq<byte>) { |data| >= HEADER && data[0] == 0x10 && data[1] == 0x81 }

  function Parse(data: seq<byte>): Result<Frame, Error> {
    if !HasHeader(data) then Err(InvalidFrame)
    else
      var seoj := Eoj(data[4], data[5], data[6]);
      var properties := ParseProperties(data[HEADER..], data[11], seoj);
      if properties.Err? then Err(properties.error)
      else Ok(Frame(FromBigEndian16(data[2], data[3]), seoj, Eoj(data[7], data[8], data[9]), data[10],
                    properties.value))
  }

  // ---------------------------------------------------------------- the loops

  method BuildGetFrame(tid: nat, deoj: Eoj, epcs: seq<byte>) returns (frame: seq<byte>)
    requires tid < 65536
    ensures frame == GetBytes(tid, deoj, epcs)
  {
    frame := Header(tid, CONTROLLER, deoj, ESV_GET, |epcs| % 256);
    ghost var header := frame;
    for i := 0 to |epcs|
      invariant frame == header + EncodeProperties(Requests(CONTROLLER, epcs[..i]))
    {
      frame := frame + [epcs[i], 0x00];
      RequestsGrow(CONTROLLER, epcs[..i], epcs[i]);
      assert epcs[..i] + [epcs[i]] == epcs[..i + 1];
    }
    assert epcs[..|epcs|] == epcs;
  }

  lemma {:induction false} RequestsGrow(seoj: Eoj, epcs: seq<byte>, epc: byte)
    ensures EncodeProperties(Requests(seoj, epcs + [epc])) == EncodeProperties(Requests(seoj, epcs)) + [epc, 0]
  {
    var last := Property(seoj, epc, []);
    assert Requests(seoj, epcs + [epc]) == Requests(seoj, epcs) + [last];
    EncodeConcat(Requests(seoj, epcs), [last]);
    assert EncodeProperties([last]) == EncodeProperty(last) + [];
  }

  lemma {:induction false} EncodeConcat(a: seq<Property>, b: seq<Property>)
    ensures EncodeProperties(a + b) == EncodeProperties(a) + EncodeProperties(b)
  {
    if a == [] {
      assert a + b == b;
    } else {
      EncodeConcat(a[1..], b);
      assert (a + b)[0] == a[0] && (a + b)[1..] == a[1..] + b;
    }
  }

  method ParseFrame(data: seq<byte>) returns (r: Result<Frame, Error>)
    ensures r == Parse(data)
  {
    if |data| < HEADER || data[0] != 0x10 || data[1] != 0x81 {
      return Err(InvalidFrame);
    }
    var tid, seoj := FromBigEndian16(data[2], data[3]), Eoj(data[4], data[5], data[6]);
    var deoj, esv := Eoj(data[7], data[8], data[9]), data[10];
    var opc := data[11];
    var pos := HEADER;
    var properties: seq<Property> := [];
    ghost var whole := ParseProperties(data[HEADER..], opc, seoj);
    NothingAfter(whole);
    for i := 0 to opc
      invariant HEADER <= pos <= |data|
      invariant whole == After(properties, ParseProperties(data[pos..], opc - i, seoj))
    {
      if pos + 2 > |data| {
        return Err(TruncatedHeader);
      }
      var epc, pdc: int := data[pos], data[pos + 1];
      ghost var before := pos;
      pos := pos + 2;
      if pos + pdc > |data| {
        return Err(TruncatedData);
      }
      var edt := data[pos..pos + pdc];
      pos := pos + pdc;
      NextProperty(data, before, pos, opc - i, Property(seoj, epc, edt), properties, whole);
      properties := properties + [Property(seoj, epc, edt)];
    }
    assert properties + [] == properties;
    return Ok(Frame(tid, seoj, deoj, esv, properties));
  }

  function After(ps: seq<Property>, r: Result<seq<Property>, Error>): Result<seq<Property>, Error> {
    if r.Err? then r else Ok(ps + r.value)
  }

  lemma {:induction false} NothingAfter(r: Result<seq<Property>, Error>)
    ensures After([], r) == r
  {
    if r.Ok? {
      assert [] + r.value == r.value;
    }
  }

  lemma {:induction false} AfterBefore(ps: seq<Property>, p: Property, r: Result<seq<Property>, Error>)
    ensures After(ps, Before(p, r)) == After(ps + [p], r)
  {
    if r.Ok? {
      assert ps + ([p] + r.value) == ps + [p] + r.value;
    }
  }

  lemma {:induction false} NextProperty(data: seq<byte>, pos: nat, next: nat, n: nat, p: Property, ps: seq<Property>,
                                        whole: Result<seq<Property>, Error>)
    requires n > 0 && pos + 2 <= next <= |data| && next == pos + 2 + (data[pos + 1] as int)
    requires p.epc == data[pos] && p.edt == data[pos + 2..next]
    requires whole == After(ps, ParseProperties(data[pos..], n, p.seoj))
    ensures whole == After(ps + [p], ParseProperties(data[next..], n - 1, p.seoj))
  {
    OneProperty(data, pos, next, n, p);
    AfterBefore(ps, p, ParseProperties(data[next..], n - 1, p.seoj));
  }

  lemma {:induction false} OneProperty(data: seq<byte>, pos: nat, next: nat, n: nat, p: Property)
    requires n > 0 && pos + 2 <= next <= |data| && next == pos + 2 + (data[pos + 1] as int)
    requires p.epc == data[pos] && p.edt == data[pos + 2..next]
    ensures ParseProperties(data[pos..], n, p.seoj) == Before(p, ParseProperties(data[next..], n - 1, p.seoj))
  {
    var rest, end := data[pos..], next - pos;
    assert rest[1] == data[pos + 1] && rest[2..end] == data[pos + 2..next];
    assert rest[end..] == data[next..];
  }

  // ---------------------------------------------------------------- frames

  predicate AllFormed(ps: seq<Property>, seoj: Eoj) {
    forall p :: p in ps ==> p.seoj == seoj && |p.edt| < 256
  }

  lemma {:induction false} PropertiesReadBack(ps: seq<Property>, seoj: Eoj, after: seq<byte>)
    requires AllFormed(ps, seoj)
    ensures ParseProperties(EncodeProperties(ps) + after, |ps|, seoj) == Ok(ps)
  {
    if ps == [] {
    } else {
      PropertiesReadBack(ps[1..], seoj, after);
      FirstReadsBack(ps[0], EncodeProperties(ps[1..]), after, |ps|, ps[1..]);
      assert [ps[0]] + ps[1..] == ps;
    }
  }

  lemma {:induction false} FirstReadsBack(p: Property, code: seq<byte>, after: seq<byte>, n: nat, others: seq<Property>)
    requires n > 0 && |p.edt| < 256 && ParseProperties(code + after, n - 1, p.seoj) == Ok(others)
    ensures ParseProperties(EncodeProperty(p) + code + after, n, p.seoj) == Ok([p] + others)
  {
    var data := EncodeProperty(p) + code + after;
    assert data[2..2 + |p.edt|] == p.edt && data[2 + |p.edt|..] == code + after;
    OneProperty(data, 0, 2 + |p.edt|, n, p);
    assert data[0..] == data;
  }

  lemma {:induction false} PropertiesAreEncoded(data: seq<byte>, n: nat, seoj: Eoj, ps: seq<Property>)
    requires ParseProperties(data, n, seoj) == Ok(ps)
    ensures |ps| == n && AllFormed(ps, seoj) && EncodeProperties(ps) <= data
  {
    if n == 0 {
    } else {
      var end := 2 + (data[1] as int);
      var p := Property(seoj, data[0], data[2..end]);
      assert ps == [p] + ps[1..];
      PropertiesAreEncoded(data[end..], n - 1, seoj, ps[1..]);
      FirstIsEncoded(data, end, p, EncodeProperties(ps[1..]));
    }
  }

  lemma {:induction false} FirstIsEncoded(data: seq<byte>, end: nat, p: Property, code: seq<byte>)
    requires 2 <= end <= |data| && end == 2 + (data[1] as int) && p.epc == data[0] && p.edt == data[2..end]
    requires code <= data[end..]
    ensures EncodeProperty(p) + code <= data
  {
  }

  lemma {:induction false} HeaderFields(tid: nat, seoj: Eoj, deoj: Eoj, esv: byte, count: byte, body: seq<byte>)
    requires tid < 65536
    ensures var data := Header(tid, seoj, deoj, esv, count) + body;
      HasHeader(data) && FromBigEndian16(data[2], data[3]) == tid && Eoj(data[4], data[5], data[6]) == seoj
      && Eoj(data[7], data[8], data[9]) == deoj && data[10] == esv && data[11] == count && data[HEADER..] == body
  {
  }

  lemma {:induction false} FrameReadsBack(f: Frame, after: seq<byte>, count: byte, code: seq<byte>)
    requires Formed(f) && count == |f.properties| && ParseProperties(code + after, count, f.seoj) == Ok(f.properties)
    ensures Parse(Header(f.tid, f.seoj, f.deoj, f.esv, count) + code + after) == Ok(f)
  {
    HeaderFields(f.tid, f.seoj, f.deoj, f.esv, count, code + after);
    assert Header(f.tid, f.seoj, f.deoj, f.esv, count) + code + after
      == Header(f.tid, f.seoj, f.deoj, f.esv, count) + (code + after);
  }

  lemma {:induction false} EncodingOf(f: Frame, count: byte)
    requires count == |f.properties|
    ensures Encode(f) == Header(f.tid, f.seoj, f.deoj, f.esv, count) + EncodeProperties(f.properties)
  {
  }

  /** Every frame that the format can carry reads back; what follows it is ignored. */
  lemma {:induction false} FrameRoundTrip(f: Frame, after: seq<byte>)
    requires Formed(f)
    ensures Parse(Encode(f) + after) == Ok(f)
  {
    var count: byte := |f.properties|;
    PropertiesReadBack(f.properties, f.seoj, after);
    EncodingOf(f, count);
    FrameReadsBack(f, after, count, EncodeProperties(f.properties));
  }

  lemma {:induction false} HeaderIsEncoded(data: seq<byte>, seoj: Eoj, deoj: Eoj)
    requires HasHeader(data)
    requires seoj == Eoj(data[4], data[5], data[6]) && deoj == Eoj(data[7], data[8], data[9])
    ensures Header(FromBigEndian16(data[2], data[3]), seoj, deoj, data[10], data[11]) == data[..HEADER]
  {
  }

  /** A frame is read exactly from the data that starts with its encoding. */
  lemma {:induction false} ParsesIffEncoded(data: seq<byte>, f: Frame)
    ensures Parse(data) == Ok(f) <==> Formed(f) && Encode(f) <= data
  {
    if Parse(data) == Ok(f) {
      HeaderIsEncoded(data, f.seoj, f.deoj);
      PropertiesAreEncoded(data[HEADER..], data[11], f.seoj, f.properties);
      assert data == data[..HEADER] + data[HEADER..];
    }
    if Formed(f) && Encode(f) <= data {
      FrameRoundTrip(f, data[|Encode(f)|..]);
      assert Encode(f) + data[|Encode(f)|..] == data;
    }
  }

  /** A frame that is cut short anywhere is refused. */
  lemma {:induction false} TruncatedFrameIsRefused(f: Frame, k: nat)
    requires Formed(f) && k < |Encode(f)|
    ensures Parse(Encode(f)[..k]).Err?
  {
    var data := Encode(f)[..k];
    if Parse(data).Ok? {
      var g := Parse(data).value;
      ParsesIffEncoded(data, g);
      ParsesIffEncoded(Encode(f), g);
      ParsesIffEncoded(Encode(f), f);
    }
  }

  // ---------------------------------------------------------------- requests

  function GetFrame(tid: nat, deoj: Eoj, epcs: seq<byte>): Frame {
    Frame(tid, CONTROLLER, deoj, ESV_GET, Requests(CONTROLLER, epcs))
  }

  /** What BuildGetFrame returns. */
  function GetBytes(tid: nat, deoj: Eoj, epcs: seq<byte>): seq<byte> {
    Header(tid, CONTROLLER, deoj, ESV_GET, |epcs| % 256) + EncodeProperties(Requests(CONTROLLER, epcs))
  }

  lemma {:induction false} RequestsSplit(epcs: seq<byte>, n: nat)
    requires n <= |epcs|
    ensures EncodeProperties(Requests(CONTROLLER, epcs))
      == EncodeProperties(Requests(CONTROLLER, epcs[..n])) + EncodeProperties(Requests(CONTROLLER, epcs[n..]))
  {
    EncodeConcat(Requests(CONTROLLER, epcs[..n]), Requests(CONTROLLER, epcs[n..]));
    assert Requests(CONTROLLER, epcs) == Requests(CONTROLLER, epcs[..n]) + Requests(CONTROLLER, epcs[n..]);
  }

  /** The receiver sees the first |epcs| % 256 codes: the count of the frame is one byte. */
  lemma {:induction false} GetFrameReads(tid: nat, deoj: Eoj, epcs: seq<byte>)
    requires tid < 65536
    ensures Parse(GetBytes(tid, deoj, epcs)) == Ok(GetFrame(tid, deoj, epcs[..|epcs| % 256]))
  {
    var n: byte := |epcs| % 256;
    var header := Header(tid, CONTROLLER, deoj, ESV_GET, n);
    var head := EncodeProperties(Requests(CONTROLLER, epcs[..n]));
    var tail := EncodeProperties(Requests(CONTROLLER, epcs[n..]));
    RequestsSplit(epcs, n);
    PropertiesReadBack(Requests(CONTROLLER, epcs[..n]), CONTROLLER, tail);
    FrameReadsBack(GetFrame(tid, deoj, epcs[..n]), tail, n, head);
    assert header + (head + tail) == header + head + tail;
  }

  /** A request reads back with all its codes and empty data iff there are at most 255. */
  lemma {:induction false} GetRoundTrip(tid: nat, deoj: Eoj, epcs: seq<byte>)
    requires tid < 65536
    ensures Parse(GetBytes(tid, deoj, epcs)) == Ok(GetFrame(tid, deoj, epcs)) <==> |epcs| <= 255
  {
    GetFrameReads(tid, deoj, epcs);
    if |epcs| <= 255 {
      assert epcs[..|epcs| % 256] == epcs;
    } else {
      assert |GetFrame(tid, deoj, epcs).properties| != |GetFrame(tid, deoj, epcs[..|epcs| % 256]).properties|;
    }
  }
}
