/**
 MQTT framing (cmd/hm-cisco-iot-orchestrator-collector/mqtt.go:120-196) over
 complete byte streams, after sections 2.2.3 and 3.3 of MQTT 3.1.1.
 */
module MqttFraming {
  import opened Bytes
  import opened Wrappers

  datatype ReadError = Eof | UnexpectedEof | MalformedLength | PacketTooLarge(length: nat)

  /** What a read answers, and the stream after it. */
  datatype Read<T> = Read(result: Result<T, ReadError>, rest: seq<byte>)

  datatype Packet = Packet(packetType: int, payload: seq<byte>)
  datatype Publish = Publish(topic: seq<byte>, body: seq<byte>)

  const DEFAULT_MAX_PACKET := 0x10_0000
  const MAX_LENGTH := 268435455

  // ---------------------------------------------------------------- wire format

  function Frame(header: byte, payload: seq<byte>): seq<byte> {
    [header] + Base128(|payload|) + payload
  }

  function EncodeString(value: seq<byte>): seq<byte> { BigEndian16(|value| % 65536) + value }

  /** io.ReadFull: all the bytes asked for, or an error that says whether there were any. */
  function Take(s: seq<byte>, n: nat): Read<seq<byte>> {
    if n <= |s| then Read(Ok(s[..n]), s[n..])
    else Read(Err(if s == [] then Eof else UnexpectedEof), [])
  }

  /** The rest of a length whose first i bytes were worth `value`. */
  function DecodeLength(s: seq<byte>, i: nat, multiplier: nat, value: nat): Read<nat>
    requires i <= 4
    decreases 4 - i
  {
    if i == 4 then Read(Err(MalformedLength), s)
    else if s == [] then Read(Err(Eof), [])
    else
      var value' := value + (s[0] as int) % 128 * multiplier;
      if s[0] < 128 then Read(Ok(value'), s[1..]) else DecodeLength(s[1..], i + 1, multiplier * 128, value')
  }

  function Limit(maxPacket: int): nat { if maxPacket <= 0 then DEFAULT_MAX_PACKET else maxPacket }

  function Decode(s: seq<byte>, maxPacket: int): Read<Packet> {
    var header := Take(s, 1);
    if header.result.Err? then Read(Err(header.result.error), header.rest)
    else
      var length := DecodeLength(header.rest, 0, 1, 0);
      if length.result.Err? then Read(Err(length.result.error), length.rest)
      else if length.result.value > Limit(maxPacket) then Read(Err(PacketTooLarge(length.result.value)), length.rest)
      else
        var payload := Take(length.rest, length.result.value);
        if payload.result.Err? then Read(Err(payload.result.error), payload.rest)
        else Read(Ok(Packet(s[0] / 16, payload.result.value)), payload.rest)
  }

  function ParsePublish(payload: seq<byte>): Result<Publish, ReadError> {
    if |payload| < 2 then Err(UnexpectedEof)
    else
      var topicLength := FromBigEndian16(payload[0], payload[1]);
      if |payload| < 2 + topicLength then Err(UnexpectedEof)
      else Ok(Publish(payload[2..2 + topicLength], payload[2 + topicLength..]))
  }

  // ---------------------------------------------------------------- reading and writing

  /** A buffer that is written to at the end. */
  class Buffer {
    var data: seq<byte>

    constructor ()
      ensures data == []
    {
      data := [];
    }

    method WriteRemainingLength(given: nat)
      modifies this
      ensures data == old(data) + Base128(given)
    {
      var length := given;
      while true
        invariant data + Base128(length) == old(data) + Base128(given)
        decreases length
      {
        var encoded := length % 128;
        ghost var before := length;
        length := length / 128;
        if length > 0 {
          encoded := encoded + 128;
        }
        data := data + [encoded];
        if length == 0 {
          return;
        }
      }
    }

    method WriteMQTTPacket(header: byte, payload: seq<byte>)
      modifies this
      ensures data == old(data) + Frame(header, payload)
    {
      data := data + [header];
      WriteRemainingLength(|payload|);
      data := data + payload;
    }

    method WriteMQTTString(value: seq<byte>)
      modifies this
      ensures data == old(data) + EncodeString(value)
    {
      data := data + BigEndian16(|value| % 65536);
      data := data + value;
    }
  }

  /** A stream that is read from the front. */
  class Stream {
    var rest: seq<byte>

    constructor (bytes: seq<byte>)
      ensures rest == bytes
    {
      rest := bytes;
    }

    method ReadFull(n: nat) returns (r: Result<seq<byte>, ReadError>)
      modifies this
      ensures Read(r, rest) == Take(old(rest), n)
    {
      if n <= |rest| {
        r, rest := Ok(rest[..n]), rest[n..];
      } else {
        r, rest := Err(if rest == [] then Eof else UnexpectedEof), [];
      }
    }

    method ReadRemainingLength() returns (r: Result<nat, ReadError>)
      modifies this
      ensures Read(r, rest) == DecodeLength(old(rest), 0, 1, 0)
    {
      var multiplier: nat, value: nat := 1, 0;
      for i := 0 to 4
        invariant DecodeLength(rest, i, multiplier, value) == DecodeLength(old(rest), 0, 1, 0)
      {
        var encoded := ReadFull(1);
        if encoded.Err? {
          return Err(encoded.error);
        }
        value := value + (encoded.value[0] as int) % 128 * multiplier;
        if encoded.value[0] < 128 {
          return Ok(value);
        }
        multiplier := multiplier * 128;
      }
      return Err(MalformedLength);
    }

    method ReadMQTTPacket(maxPacket: int) returns (r: Result<Packet, ReadError>)
      modifies this
      ensures Read(r, rest) == Decode(old(rest), maxPacket)
    {
      var header := ReadFull(1);
      if header.Err? {
        return Err(header.error);
      }
      var length := ReadRemainingLength();
      if length.Err? {
        return Err(length.error);
      }
      var limit := maxPacket;
      if limit <= 0 {
        limit := DEFAULT_MAX_PACKET;
      }
      if length.value > limit {
        return Err(PacketTooLarge(length.value));
      }
      var payload := ReadFull(length.value);
      if payload.Err? {
        return Err(payload.error);
      }
      return Ok(Packet(header.value[0] / 16, payload.value));
    }
  }

  // ---------------------------------------------------------------- round trips

  /** 128 to the power i, and how many lengths fit the bytes left after i of four. */
  function Weight(i: nat): nat
    requires i <= 4
  {
    if i == 0 then 1 else if i == 1 then 128 else if i == 2 then 16384 else if i == 3 then 2097152 else 268435456
  }

  lemma {:induction false} WeightSplit(length: nat, i: nat)
    requires i < 4
    ensures Weight(i + 1) == 128 * Weight(i)
    ensures length % 128 * Weight(i) + length / 128 * Weight(i + 1) == length * Weight(i)
    ensures length / 128 < Weight(3 - i) <==> length < Weight(4 - i)
  {
  }

  lemma {:induction false} LengthContinues(length: nat, i: nat, value: nat, after: seq<byte>)
    requires i <= 4
    ensures var read := DecodeLength(Base128(length) + after, i, Weight(i), value);
      if i < 4 && length < Weight(4 - i) then read == Read(Ok(value + length * Weight(i)), after)
      else read.result == Err(MalformedLength)
    decreases 4 - i
  {
    if i < 4 {
      var s := Base128(length) + after;
      WeightSplit(length, i);
      if length < 128 {
        assert s[0] == length && s[1..] == after;
      } else {
        assert s[0] == length % 128 + 128 && s[1..] == Base128(length / 128) + after;
        LengthContinues(length / 128, i + 1, value + length % 128 * Weight(i), after);
      }
    }
  }

  /** A written length reads back, consuming exactly its bytes, iff it fits four of them. */
  lemma {:induction false} LengthRoundTrip(length: nat, after: seq<byte>)
    ensures DecodeLength(Base128(length) + after, 0, 1, 0) == Read(Ok(length), after) <==> length <= MAX_LENGTH
    ensures length > MAX_LENGTH ==> DecodeLength(Base128(length) + after, 0, 1, 0).result == Err(MalformedLength)
  {
    LengthContinues(length, 0, 0, after);
  }

  predicate Fits(payload: seq<byte>, maxPacket: int) {
    |payload| <= Limit(maxPacket) && |payload| <= MAX_LENGTH
  }

  /** A written packet reads back, leaving what follows it, iff it is within both limits. */
  lemma {:induction false} PacketRoundTrip(header: byte, payload: seq<byte>, after: seq<byte>, maxPacket: int)
    ensures Decode(Frame(header, payload) + after, maxPacket) == Read(Ok(Packet(header / 16, payload)), after)
      <==> Fits(payload, maxPacket)
    ensures !Fits(payload, maxPacket) ==> Decode(Frame(header, payload) + after, maxPacket).result.Err?
  {
    var s := Frame(header, payload) + after;
    assert s[0] == header && s[1..] == Base128(|payload|) + (payload + after);
    LengthContinues(|payload|, 0, 0, payload + after);
    assert (payload + after)[..|payload|] == payload && (payload + after)[|payload|..] == after;
  }

  datatype Outgoing = Outgoing(header: byte, payload: seq<byte>)

  function Frames(packets: seq<Outgoing>): seq<byte> {
    if packets == [] then [] else Frame(packets[0].header, packets[0].payload) + Frames(packets[1..])
  }

  function Received(packets: seq<Outgoing>): (r: seq<Packet>)
    ensures |r| == |packets|
  {
    seq(|packets|, i requires 0 <= i < |packets| => Packet(packets[i].header / 16, packets[i].payload))
  }

  /** Reads n packets, or stops at the first error. */
  function DecodeMany(s: seq<byte>, n: nat, maxPacket: int): Read<seq<Packet>> {
    if n == 0 then Read(Ok([]), s)
    else
      var first := Decode(s, maxPacket);
      if first.result.Err? then Read(Err(first.result.error), first.rest)
      else
        var others := DecodeMany(first.rest, n - 1, maxPacket);
        if others.result.Err? then others else Read(Ok([first.result.value] + others.result.value), others.rest)
  }

  /** A stream of packets reads back as the same packets. */
  lemma {:induction false} StreamRoundTrip(packets: seq<Outgoing>, after: seq<byte>, maxPacket: int)
    requires forall p :: p in packets ==> Fits(p.payload, maxPacket)
    ensures DecodeMany(Frames(packets) + after, |packets|, maxPacket) == Read(Ok(Received(packets)), after)
  {
    if packets == [] {
      assert Frames(packets) + after == after;
    } else {
      var first, more := packets[0], packets[1..];
      StreamRoundTrip(more, after, maxPacket);
      assert Received(packets) == [Packet(first.header / 16, first.payload)] + Received(more);
      FirstFrame(Frame(first.header, first.payload), first, Frames(more), |more|, Received(more), after, maxPacket);
    }
  }

  lemma {:induction false} FirstFrame(frame: seq<byte>, first: Outgoing, others: seq<byte>, n: nat,
                                      received: seq<Packet>, after: seq<byte>, maxPacket: int)
    requires frame == Frame(first.header, first.payload) && Fits(first.payload, maxPacket)
    requires DecodeMany(others + after, n, maxPacket) == Read(Ok(received), after)
    ensures DecodeMany(frame + others + after, n + 1, maxPacket)
      == Read(Ok([Packet(first.header / 16, first.payload)] + received), after)
  {
    PacketRoundTrip(first.header, first.payload, others + after, maxPacket);
    FirstOfMany(frame + (others + after), others + after, Packet(first.header / 16, first.payload), n, received, after,
                maxPacket);
    assert frame + others + after == frame + (others + after);
  }

  lemma {:induction false} FirstOfMany(s: seq<byte>, rest: seq<byte>, packet: Packet, n: nat, received: seq<Packet>,
                                       after: seq<byte>, maxPacket: int)
    requires Decode(s, maxPacket) == Read(Ok(packet), rest)
    requires DecodeMany(rest, n, maxPacket) == Read(Ok(received), after)
    ensures DecodeMany(s, n + 1, maxPacket) == Read(Ok([packet] + received), after)
  {
  }

  // ---------------------------------------------------------------- truncated streams

  lemma {:induction false} LengthIsStable(s: seq<byte>, i: nat, multiplier: nat, value: nat, after: seq<byte>)
    requires i <= 4
    requires DecodeLength(s, i, multiplier, value).result.Ok?
    ensures var whole := DecodeLength(s, i, multiplier, value);
      DecodeLength(s + after, i, multiplier, value) == Read(whole.result, whole.rest + after)
    decreases 4 - i
  {
    if i < 4 && s[0] >= 128 {
      assert (s + after)[1..] == s[1..] + after;
      LengthIsStable(s[1..], i + 1, multiplier * 128, value + (s[0] as int) % 128 * multiplier, after);
    } else {
      assert (s + after)[1..] == s[1..] + after;
    }
  }

  /** Bytes that arrive later never change a packet already read. */
  lemma {:induction false} PacketIsStable(s: seq<byte>, after: seq<byte>, maxPacket: int)
    requires Decode(s, maxPacket).result.Ok?
    ensures Decode(s + after, maxPacket) == Read(Decode(s, maxPacket).result, Decode(s, maxPacket).rest + after)
  {
    assert (s + after)[1..] == s[1..] + after;
    LengthIsStable(s[1..], 0, 1, 0, after);
    var length := DecodeLength(s[1..], 0, 1, 0);
    var n := length.result.value;
    assert (length.rest + after)[..n] == length.rest[..n];
    assert (length.rest + after)[n..] == length.rest[n..] + after;
  }

  /** No packet is ever read from a frame that is cut short. */
  lemma {:induction false} TruncatedFrameIsRefused(header: byte, payload: seq<byte>, k: nat, maxPacket: int)
    requires k < |Frame(header, payload)|
    ensures Decode(Frame(header, payload)[..k], maxPacket).result.Err?
  {
    var frame := Frame(header, payload);
    assert frame[..k] + frame[k..] == frame && frame + [] == frame;
    PacketRoundTrip(header, payload, [], maxPacket);
    NothingShorterReads(frame[..k], frame[k..], maxPacket, Decode(frame, maxPacket));
  }

  lemma {:induction false} NothingShorterReads(head: seq<byte>, tail: seq<byte>, maxPacket: int, whole: Read<Packet>)
    requires tail != [] && whole == Decode(head + tail, maxPacket) && (whole.result.Ok? ==> whole.rest == [])
    ensures Decode(head, maxPacket).result.Err?
  {
    if Decode(head, maxPacket).result.Ok? {
      PacketIsStable(head, tail, maxPacket);
    }
  }

  // ---------------------------------------------------------------- publish

  /** A length-prefixed topic and its body are recovered iff the topic's length fits two bytes. */
  lemma {:induction false} PublishRoundTrip(topic: seq<byte>, body: seq<byte>)
    ensures ParsePublish(EncodeString(topic) + body) == Ok(Publish(topic, body)) <==> |topic| <= 65535
  {
    var n := |topic| % 65536;
    var high, low := BigEndian16(n)[0], BigEndian16(n)[1];
    BigEndianRoundTrip(n);
    TextFollowsLength(topic, body, high, low);
    ParseTopic(high, low, topic + body, n);
    TopicIsSplitOff(topic, body, n);
  }

  lemma {:induction false} TextFollowsLength(topic: seq<byte>, body: seq<byte>, high: byte, low: byte)
    requires BigEndian16(|topic| % 65536) == [high, low]
    ensures EncodeString(topic) + body == [high, low] + (topic + body)
  {
    assert [high, low] + topic + body == [high, low] + (topic + body);
  }

  lemma {:induction false} ParseTopic(high: byte, low: byte, text: seq<byte>, n: nat)
    requires n == FromBigEndian16(high, low)
    ensures ParsePublish([high, low] + text)
      == if n <= |text| then Ok(Publish(text[..n], text[n..])) else Err(UnexpectedEof)
  {
    var payload := [high, low] + text;
    assert payload[0] == high && payload[1] == low && payload[2..] == text;
    if n <= |text| {
      assert payload[2..2 + n] == text[..n] && payload[2 + n..] == text[n..];
    }
  }

  lemma {:induction false} TopicIsSplitOff(topic: seq<byte>, body: seq<byte>, n: nat)
    requires n == |topic| % 65536
    ensures n <= |topic + body|
      && (Publish((topic + body)[..n], (topic + body)[n..]) == Publish(topic, body) <==> |topic| <= 65535)
  {
    if |topic| <= 65535 {
      assert (topic + body)[..n] == topic && (topic + body)[n..] == body;
    } else {
      assert |(topic + body)[..n]| < |topic|;
    }
  }
}
