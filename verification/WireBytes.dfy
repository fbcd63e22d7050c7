/**
 The bytes themselves: what the wire formats look like at given bytes, written out, and
 which error a stream meets where it ends or exceeds its limit.
 */
module WireBytes {
  import opened Bytes
  import E = Echonet
  import V = EchonetValues
  import M = MqttFraming
  import opened Wrappers

  // ---------------------------------------------------------------- MQTT

  /** Two-byte lengths have the high byte first. */
  lemma {:induction false} TopicLengthBytes(high: byte, low: byte)
    ensures FromBigEndian16(high, low) == 256 * high + low && BigEndian16(256 * high + low) == [high, low]
  {
  }

  /** Packet lengths have seven bits a byte, the lowest first; every byte but the last has its top bit set. */
  lemma {:induction false} LengthBytes(a: nat, b: nat, c: nat, d: nat, after: seq<byte>)
    requires a < 128 && b < 128 && c < 128 && d < 128
    ensures M.DecodeLength([a] + after, 0, 1, 0) == M.Read(Ok(a), after)
    ensures M.DecodeLength([a + 128, b] + after, 0, 1, 0) == M.Read(Ok(a + 128 * b), after)
    ensures M.DecodeLength([a + 128, b + 128, c] + after, 0, 1, 0) == M.Read(Ok(a + 128 * b + 16384 * c), after)
    ensures M.DecodeLength([a + 128, b + 128, c + 128, d] + after, 0, 1, 0)
      == M.Read(Ok(a + 128 * b + 16384 * c + 2097152 * d), after)
  {
    LastByte(a, 0, 1, 0, after);
    TwoBytes(a, b, after);
    ThreeBytes(a, b, c, after);
    FourBytes(a, b, c, d, after);
  }

  lemma {:induction false} TwoBytes(a: nat, b: nat, after: seq<byte>)
    requires a < 128 && b < 128
    ensures M.DecodeLength([a + 128, b] + after, 0, 1, 0) == M.Read(Ok(a + 128 * b), after)
  {
    assert [a + 128, b] + after == [a + 128] + ([b] + after);
    OneByte(a, 0, 1, 0, [b] + after);
    LastByte(b, 1, 128, a, after);
  }

  lemma {:induction false} ThreeBytes(a: nat, b: nat, c: nat, after: seq<byte>)
    requires a < 128 && b < 128 && c < 128
    ensures M.DecodeLength([a + 128, b + 128, c] + after, 0, 1, 0) == M.Read(Ok(a + 128 * b + 16384 * c), after)
  {
    var rest := [c] + after;
    assert [a + 128, b + 128, c] + after == [a + 128] + ([b + 128] + rest);
    OneByte(a, 0, 1, 0, [b + 128] + rest);
    OneByte(b, 1, 128, a, rest);
    LastByte(c, 2, 16384, a + 128 * b, after);
  }

  lemma {:induction false} FourBytes(a: nat, b: nat, c: nat, d: nat, after: seq<byte>)
    requires a < 128 && b < 128 && c < 128 && d < 128
    ensures M.DecodeLength([a + 128, b + 128, c + 128, d] + after, 0, 1, 0)
      == M.Read(Ok(a + 128 * b + 16384 * c + 2097152 * d), after)
  {
    var rest := [d] + after;
    assert [a + 128, b + 128, c + 128, d] + after == [a + 128] + ([b + 128] + ([c + 128] + rest));
    OneByte(a, 0, 1, 0, [b + 128] + ([c + 128] + rest));
    OneByte(b, 1, 128, a, [c + 128] + rest);
    OneByte(c, 2, 16384, a + 128 * b, rest);
    LastByte(d, 3, 2097152, a + 128 * b + 16384 * c, after);
  }

  lemma {:induction false} OneByte(a: nat, i: nat, multiplier: nat, value: nat, rest: seq<byte>)
    requires a < 128 && i < 4
    ensures M.DecodeLength([a + 128] + rest, i, multiplier, value)
      == M.DecodeLength(rest, i + 1, multiplier * 128, value + a * multiplier)
  {
    assert ([a + 128] + rest)[1..] == rest && (a + 128) % 128 == a;
  }

  lemma {:induction false} LastByte(a: nat, i: nat, multiplier: nat, value: nat, rest: seq<byte>)
    requires a < 128 && i < 4
    ensures M.DecodeLength([a] + rest, i, multiplier, value) == M.Read(Ok(value + a * multiplier), rest)
  {
    assert ([a] + rest)[1..] == rest;
  }

  /** A packet of up to 127 bytes: the upper half of the first byte, one length byte, and the payload. */
  lemma {:induction false} ShortPacket(kind: nat, flags: nat, payload: seq<byte>, after: seq<byte>, maxPacket: int)
    requires kind < 16 && flags < 16 && |payload| < 128 && (maxPacket <= 0 || |payload| <= maxPacket)
    ensures M.Decode([16 * kind + flags, |payload|] + payload + after, maxPacket)
      == M.Read(Ok(M.Packet(kind, payload)), after)
  {
    var s := [16 * kind + flags, |payload|] + payload + after;
    assert s[1..] == [|payload|] + (payload + after);
    LastByte(|payload|, 0, 1, 0, payload + after);
    assert (payload + after)[..|payload|] == payload && (payload + after)[|payload|..] == after;
  }

  /** The limit is one MiB unless a positive one is set. */
  lemma {:induction false} TooLargeIff(header: byte, length: nat, after: seq<byte>, maxPacket: int)
    requires length <= 268435455
    ensures M.Decode([header] + Base128(length) + after, maxPacket).result == Err(M.PacketTooLarge(length))
      <==> length > if maxPacket > 0 then maxPacket else 1048576
  {
    var s := [header] + Base128(length) + after;
    assert s[1..] == Base128(length) + after;
    M.LengthRoundTrip(length, after);
  }

  /** Where the stream ends before the packet does: at a boundary it is Eof, inside the payload UnexpectedEof. */
  lemma {:induction false} EndOfStream(header: byte, length: nat, part: seq<byte>, maxPacket: int)
    requires |part| < length <= 268435455 && length <= if maxPacket > 0 then maxPacket else 1048576
    ensures M.Decode([], maxPacket).result == Err(M.Eof) && M.Decode([header], maxPacket).result == Err(M.Eof)
    ensures M.Decode([header] + Base128(length) + part, maxPacket).result
      == Err(if part == [] then M.Eof else M.UnexpectedEof)
  {
    var s := [header] + Base128(length) + part;
    assert s[1..] == Base128(length) + part;
    M.LengthRoundTrip(length, part);
  }

  // ---------------------------------------------------------------- ECHONET Lite

  /** The request for one code, byte by byte. */
  lemma {:induction false} RequestBytes(tid: nat, deoj: E.Eoj, epc: byte)
    requires tid < 65536
    ensures E.GetBytes(tid, deoj, [epc])
      == [0x10, 0x81, tid / 256, tid % 256, 0x05, 0xff, 0x01, deoj.group, deoj.kind, deoj.instance, 0x62, 1, epc, 0]
  {
    E.RequestsGrow(E.CONTROLLER, [], epc);
    assert [] + [epc] == [epc];
    assert E.EncodeProperties(E.Requests(E.CONTROLLER, [])) == [];
  }

  /** Where the fields of a frame are. */
  lemma {:induction false} FrameFields(data: seq<byte>)
    requires E.Parse(data).Ok?
    ensures |data| >= 12 && data[0] == 0x10 && data[1] == 0x81
    ensures E.Parse(data).value.tid == 256 * (data[2] as int) + data[3]
    ensures E.Parse(data).value.seoj == E.Eoj(data[4], data[5], data[6])
    ensures E.Parse(data).value.deoj == E.Eoj(data[7], data[8], data[9])
    ensures E.Parse(data).value.esv == data[10] && |E.Parse(data).value.properties| == data[11]
  {
    E.PropertiesAreEncoded(data[12..], data[11], E.Eoj(data[4], data[5], data[6]), E.Parse(data).value.properties);
  }

  /** Which error a frame meets: a wrong start, a property without its two head bytes, or one without its data. */
  lemma {:induction false} FrameErrors(head: seq<byte>, ps: seq<E.Property>, rest: seq<byte>)
    requires |head| == 12 && E.AllFormed(ps, E.Eoj(head[4], head[5], head[6])) && |ps| < head[11] as int
    ensures E.Parse(head) == Err(E.InvalidFrame) <==> head[0] != 0x10 || head[1] != 0x81
    ensures head[0] == 0x10 && head[1] == 0x81 && |rest| < 2 ==>
      E.Parse(head + (E.EncodeProperties(ps) + rest)) == Err(E.TruncatedHeader)
    ensures head[0] == 0x10 && head[1] == 0x81 && |rest| >= 2 && |rest| < 2 + rest[1] as int ==>
      E.Parse(head + (E.EncodeProperties(ps) + rest)) == Err(E.TruncatedData)
  {
    var seoj, data := E.Eoj(head[4], head[5], head[6]), head + (E.EncodeProperties(ps) + rest);
    assert data[12..] == E.EncodeProperties(ps) + rest && data[..12] == head;
    PropertyErrors(ps, rest, head[11] as int, seoj);
    assert head[12..] == [];
  }

  lemma {:induction false} PropertyErrors(ps: seq<E.Property>, rest: seq<byte>, n: nat, seoj: E.Eoj)
    requires E.AllFormed(ps, seoj) && |ps| < n
    ensures |rest| < 2 ==> E.ParseProperties(E.EncodeProperties(ps) + rest, n, seoj) == Err(E.TruncatedHeader)
    ensures |rest| >= 2 && |rest| < 2 + rest[1] as int ==>
      E.ParseProperties(E.EncodeProperties(ps) + rest, n, seoj) == Err(E.TruncatedData)
  {
    if ps == [] {
      assert E.EncodeProperties(ps) + rest == rest;
    } else {
      var more := E.EncodeProperties(ps[1..]) + rest;
      PropertyErrors(ps[1..], rest, n - 1, seoj);
      assert E.EncodeProperties(ps) + rest == E.EncodeProperty(ps[0]) + more;
      FirstIsRead(ps[0], more, n);
    }
  }

  lemma {:induction false} FirstIsRead(p: E.Property, more: seq<byte>, n: nat)
    requires n > 0 && |p.edt| < 256
    ensures E.ParseProperties(E.EncodeProperty(p) + more, n, p.seoj)
      == E.Before(p, E.ParseProperties(more, n - 1, p.seoj))
  {
    var data := E.EncodeProperty(p) + more;
    assert data[2..2 + |p.edt|] == p.edt && data[2 + |p.edt|..] == more && data[0..] == data;
    E.OneProperty(data, 0, 2 + |p.edt|, n, p);
  }

  /** Values have one to eight bytes, the highest first, and are negative exactly if the top bit is set. */
  lemma {:induction false} ValueBytes(a: byte, b: byte, c: byte, d: byte, data: seq<byte>)
    ensures V.Supported(data) <==> |data| == 1 || |data| == 2 || |data| == 3 || |data| == 4
                                   || |data| == 5 || |data| == 6 || |data| == 7 || |data| == 8
    ensures V.BigEndian([a]) == a && V.BigEndian([a, b]) == 256 * a + b
    ensures V.BigEndian([a, b, c, d]) == 16777216 * a + 65536 * b + 256 * c + d
    ensures V.TwosComplement([a]) == if a < 128 then a else a - 256
    ensures V.TwosComplement([a, b]) == if a < 128 then 256 * a + b else 256 * a + b - 65536
  {
    NextByte([], a);
    NextByte([a], b);
    NextByte([a, b], c);
    NextByte([a, b, c], d);
    assert [] + [a] == [a] && [a] + [b] == [a, b] && [a, b] + [c] == [a, b, c] && [a, b, c] + [d] == [a, b, c, d];
    assert V.Power(1) == 256 && V.Power(2) == 65536;
  }

  lemma {:induction false} NextByte(data: seq<byte>, b: byte)
    ensures V.BigEndian(data + [b]) == 256 * V.BigEndian(data) + b
  {
    assert (data + [b])[..|data|] == data;
  }
}
