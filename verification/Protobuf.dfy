/**
 The hand-written protobuf reader (cmd/hm-cisco-iot-orchestrator-collector/protobuf.go).
 Strings stay byte sequences. The OR of disjoint bit ranges is written as a sum.
 */
module Protobuf {
  import opened Bytes
  import opened Wrappers

  datatype Error = UnexpectedEof | UnsupportedWireType(wire: nat)
  type Messages = Result<seq<Subscription>, Error>

  datatype Consumed<T> = Consumed(value: T, rest: seq<byte>)
  datatype ProtoKey = ProtoKey(field: nat, wire: nat)

  datatype Timestamp = Timestamp(seconds: int, nanos: int)
  datatype Advertisement = Advertisement(mac: seq<byte>, rssi: Option<int>)
  datatype Subscription = Subscription(deviceId: seq<byte>, data: seq<byte>, ts: Option<Timestamp>, apMac: seq<byte>,
                                       bleMac: seq<byte>, rssi: Option<int>, application: seq<byte>)

  const TWO_32: nat := 0x1_0000_0000

  // ---------------------------------------------------------------- primitive values

  /** b & 0x7f */
  function LowBits(b: byte): nat { if b < 128 then b else b - 128 }

  /** n << 7i in 64 bits. */
  function Shifted(n: nat, i: nat): nat {
    if i == 0 then n else Shifted(n, i - 1) * 128 % TWO_64
  }

  /** The rest of a varint whose first i bytes were worth `value`; at most ten bytes are read. */
  function VarintFrom(data: seq<byte>, i: nat, value: nat): (r: Result<Consumed<nat>, Error>)
    requires i <= 10
    ensures r.Ok? ==> Suffix(r.value.rest, data)
    decreases 10 - i
  {
    if data == [] || i == 10 then Err(UnexpectedEof)
    else if data[0] < 128 then Ok(Consumed(value + Shifted(LowBits(data[0]), i), data[1..]))
    else VarintFrom(data[1..], i + 1, value + Shifted(LowBits(data[0]), i))
  }

  /** A proper suffix: what a successful consume leaves. */
  predicate Suffix(rest: seq<byte>, data: seq<byte>) {
    |rest| < |data| && rest == data[|data| - |rest|..]
  }

  function Varint(data: seq<byte>): (r: Result<Consumed<nat>, Error>)
    ensures r.Ok? ==> Suffix(r.value.rest, data)
  {
    VarintFrom(data, 0, 0)
  }

  function ConsumeKey(data: seq<byte>): (r: Result<Consumed<ProtoKey>, Error>)
    ensures r.Ok? ==> Suffix(r.value.rest, data)
  {
    var key := Varint(data);
    if key.Err? then Err(key.error)
    else Ok(Consumed(ProtoKey(key.value.value / 8, key.value.value % 8), key.value.rest))
  }

  function ConsumeBytes(data: seq<byte>): (r: Result<Consumed<seq<byte>>, Error>)
    ensures r.Ok? ==> Suffix(r.value.rest, data)
  {
    var length := Varint(data);
    if length.Err? then Err(length.error)
    else if length.value.value > |length.value.rest| then Err(UnexpectedEof)
    else Ok(Consumed(length.value.rest[..length.value.value], length.value.rest[length.value.value..]))
  }

  function SkipValue(wire: nat, data: seq<byte>): (r: Result<seq<byte>, Error>)
    ensures r.Ok? ==> Suffix(r.value, data)
  {
    match wire
    case 0 => var v := Varint(data); if v.Ok? then Ok(v.value.rest) else Err(v.error)
    case 1 => if |data| < 8 then Err(UnexpectedEof) else Ok(data[8..])
    case 2 => var v := ConsumeBytes(data); if v.Ok? then Ok(v.value.rest) else Err(v.error)
    case 5 => if |data| < 4 then Err(UnexpectedEof) else Ok(data[4..])
    case _ => Err(UnsupportedWireType(wire))
  }

  /** int32(value) */
  function ToInt32(value: nat): int {
    var v := value % TWO_32;
    if v < TWO_32 / 2 then v else v - TWO_32
  }

  // ---------------------------------------------------------------- messages

  const NANOS := 1_000_000_000
  const ZERO_SECONDS := -62135596800  // the first second of year 1

  /** time.Unix: nanoseconds carry into the seconds, which wrap; the zero time is None. */
  function UnixTime(seconds: int, nanos: int): Option<Timestamp> {
    var t := Timestamp(ToInt64((seconds + nanos / NANOS) % TWO_64), nanos % NANOS);
    if t == Timestamp(ZERO_SECONDS, 0) then None else Some(t)
  }

  /** The zero time, None here, stands for malformed and for missing timestamps. */
  function TimestampFrom(data: seq<byte>, seconds: int, nanos: int): Option<Timestamp>
    decreases |data|
  {
    if data == [] then
      if seconds == 0 && nanos == 0 then None else UnixTime(seconds, nanos)
    else
      var key := ConsumeKey(data);
      if key.Err? then None
      else if key.value.value.field == 1 || key.value.value.field == 2 then
        var v := Varint(key.value.rest);
        if v.Err? then None
        else if key.value.value.field == 1 then TimestampFrom(v.value.rest, ToInt64(v.value.value), nanos)
        else TimestampFrom(v.value.rest, seconds, ToInt32(v.value.value))
      else
        var rest := SkipValue(key.value.value.wire, key.value.rest);
        if rest.Err? then None else TimestampFrom(rest.value, seconds, nanos)
  }

  /** A malformed field ends the advertisement and leaves its own zero value behind. */
  function AdvertisementFrom(data: seq<byte>, a: Advertisement): Advertisement
    decreases |data|
  {
    if data == [] then a
    else
      var key := ConsumeKey(data);
      if key.Err? then a
      else if key.value.value.field == 1 then
        var v := ConsumeBytes(key.value.rest);
        if v.Err? then a.(mac := []) else AdvertisementFrom(v.value.rest, a.(mac := v.value.value))
      else if key.value.value.field == 2 then
        var v := Varint(key.value.rest);
        if v.Err? then a.(rssi := Some(0))
        else AdvertisementFrom(v.value.rest, a.(rssi := Some(ToInt32(v.value.value))))
      else
        var rest := SkipValue(key.value.value.wire, key.value.rest);
        if rest.Err? then a else AdvertisementFrom(rest.value, a)
  }

  function ApplicationFrom(data: seq<byte>): seq<byte>
    decreases |data|
  {
    if data == [] then []
    else
      var key := ConsumeKey(data);
      if key.Err? then []
      else if key.value.value == ProtoKey(1, 2) then
        var v := ConsumeBytes(key.value.rest);
        if v.Err? then [] else v.value.value
      else
        var rest := SkipValue(key.value.value.wire, key.value.rest);
        if rest.Err? then [] else ApplicationFrom(rest.value)
  }

  const EMPTY := Subscription([], [], None, [], [], None, [])

  predicate IsKnown(field: nat) {
    field == 1 || field == 2 || field == 3 || field == 4 || field == 12 || field == 16
  }

  /** What a known field sets; its wire type is not looked at. */
  function WithField(msg: Subscription, field: nat, value: seq<byte>): Subscription {
    match field
    case 1 => msg.(deviceId := value)
    case 2 => msg.(data := value)
    case 3 => msg.(ts := TimestampFrom(value, 0, 0))
    case 4 => msg.(apMac := value)
    case 12 =>
      var a := AdvertisementFrom(value, Advertisement([], None));
      msg.(bleMac := a.mac, rssi := a.rssi)
    case 16 => msg.(application := ApplicationFrom(value))
    case _ => msg
  }

  /** One field of a subscription: the message with it, and the bytes after it. */
  function FieldOf(msg: Subscription, data: seq<byte>): (r: Result<Consumed<Subscription>, Error>)
    ensures r.Ok? ==> Suffix(r.value.rest, data)
  {
    var key := ConsumeKey(data);
    if key.Err? then Err(key.error)
    else if IsKnown(key.value.value.field) then
      var v := ConsumeBytes(key.value.rest);
      if v.Err? then Err(v.error) else Ok(Consumed(WithField(msg, key.value.value.field, v.value.value), v.value.rest))
    else
      var rest := SkipValue(key.value.value.wire, key.value.rest);
      if rest.Err? then Err(rest.error) else Ok(Consumed(msg, rest.value))
  }

  function SubscriptionFrom(msg: Subscription, data: seq<byte>): Result<Subscription, Error>
    decreases |data|
  {
    if data == [] then Ok(msg)
    else
      var field := FieldOf(msg, data);
      if field.Err? then Err(field.error) else SubscriptionFrom(field.value.value, field.value.rest)
  }

  /** One field of a batch: the messages it adds, and the bytes after it. */
  function ItemOf(data: seq<byte>): (r: Result<Consumed<seq<Subscription>>, Error>)
    ensures r.Ok? ==> Suffix(r.value.rest, data)
  {
    var key := ConsumeKey(data);
    if key.Err? then Err(key.error)
    else if key.value.value != ProtoKey(1, 2) then
      var rest := SkipValue(key.value.value.wire, key.value.rest);
      if rest.Err? then Err(rest.error) else Ok(Consumed([], rest.value))
    else
      var item := ConsumeBytes(key.value.rest);
      if item.Err? then Err(item.error)
      else
        var msg := SubscriptionFrom(EMPTY, item.value.value);
        if msg.Err? then Err(msg.error) else Ok(Consumed([msg.value], item.value.rest))
  }

  function Batch(data: seq<byte>): Messages
    decreases |data|
  {
    if data == [] then Ok([])
    else
      var item := ItemOf(data);
      if item.Err? then Err(item.error)
      else Prepended(item.value.value, Batch(item.value.rest))
  }

  // ---------------------------------------------------------------- the loops

  method ConsumeVarint(data: seq<byte>) returns (r: Result<Consumed<nat>, Error>)
    ensures r == Varint(data)
  {
    var value: nat, i: nat := 0, 0;
    ghost var whole, here := Varint(data), data;
    while i < |data| && i < 10
      invariant i <= |data| && i <= 10 && here == data[i..]
      invariant VarintFrom(here, i, value) == whole
    {
      var b := data[i];
      ghost var rest := data[i + 1..];
      var next := value + Shifted(LowBits(b), i);
      VarintAt(here, i, value, b, rest, next);
      if b < 128 {
        return Ok(Consumed(next, data[i + 1..]));
      }
      i, value, here := i + 1, next, rest;
    }
    VarintEnds(here, i, value);
    return Err(UnexpectedEof);
  }

  lemma {:induction false} VarintAt(here: seq<byte>, i: nat, value: nat, b: byte, rest: seq<byte>, next: nat)
    requires here == [b] + rest && i < 10 && next == value + Shifted(LowBits(b), i)
    ensures VarintFrom(here, i, value) == if b < 128 then Ok(Consumed(next, rest)) else VarintFrom(rest, i + 1, next)
  {
    assert here[1..] == rest;
  }

  lemma {:induction false} VarintEnds(here: seq<byte>, i: nat, value: nat)
    requires i <= 10 && (here == [] || i == 10)
    ensures VarintFrom(here, i, value) == Err(UnexpectedEof)
  {
  }

  method ParseDataSubscription(given: seq<byte>) returns (r: Result<Subscription, Error>)
    ensures r == SubscriptionFrom(EMPTY, given)
  {
    ghost var whole := SubscriptionFrom(EMPTY, given);
    var data, msg := given, EMPTY;
    while |data| > 0
      invariant SubscriptionFrom(msg, data) == whole
      decreases |data|
    {
      var key := ConsumeKey(data);
      if key.Err? {
        return Err(key.error);
      }
      data := key.value.rest;
      if IsKnown(key.value.value.field) {
        var value := ConsumeBytes(data);
        if value.Err? {
          return Err(value.error);
        }
        data := value.value.rest;
        match key.value.value.field {
          case 1 => msg := msg.(deviceId := value.value.value);
          case 2 => msg := msg.(data := value.value.value);
          case 3 => msg := msg.(ts := TimestampFrom(value.value.value, 0, 0));
          case 4 => msg := msg.(apMac := value.value.value);
          case 12 =>
            var a := AdvertisementFrom(value.value.value, Advertisement([], None));
            msg := msg.(bleMac := a.mac, rssi := a.rssi);
          case _ => msg := msg.(application := ApplicationFrom(value.value.value));
        }
      } else {
        var rest := SkipValue(key.value.value.wire, data);
        if rest.Err? {
          return Err(rest.error);
        }
        data := rest.value;
      }
    }
    return Ok(msg);
  }

  method ParseDataBatch(given: seq<byte>) returns (r: Messages)
    ensures r == Batch(given)
  {
    ghost var whole := Batch(given);
    var data := given;
    var messages: seq<Subscription> := [];
    PrependNothing(whole);
    while |data| > 0
      invariant whole == Prepended(messages, Batch(data))
      decreases |data|
    {
      ghost var left := data;
      var key := ConsumeKey(data);
      if key.Err? {
        return Err(key.error);
      }
      data := key.value.rest;
      if key.value.value.field != 1 || key.value.value.wire != 2 {
        var rest := SkipValue(key.value.value.wire, data);
        if rest.Err? {
          return Err(rest.error);
        }
        data := rest.value;
        BatchStep(messages, left, Consumed([], data), whole);
        assert messages + [] == messages;
        continue;
      }
      var item := ConsumeBytes(data);
      if item.Err? {
        return Err(item.error);
      }
      data := item.value.rest;
      var msg := ParseDataSubscription(item.value.value);
      if msg.Err? {
        return Err(msg.error);
      }
      BatchStep(messages, left, Consumed([msg.value], data), whole);
      messages := messages + [msg.value];
    }
    assert messages + [] == messages;
    return Ok(messages);
  }

  function Prepended(messages: seq<Subscription>, r: Messages): Messages {
    if r.Ok? then Ok(messages + r.value) else r
  }

  lemma {:induction false} PrependNothing(r: Messages)
    ensures Prepended([], r) == r
  {
    if r.Ok? {
      assert [] + r.value == r.value;
    }
  }

  lemma {:induction false} PrependTwice(a: seq<Subscription>, b: seq<Subscription>, r: Messages)
    ensures Prepended(a, Prepended(b, r)) == Prepended(a + b, r)
  {
    if r.Ok? {
      assert a + (b + r.value) == a + b + r.value;
    }
  }

  lemma {:induction false} BatchStep(messages: seq<Subscription>, data: seq<byte>, item: Consumed<seq<Subscription>>,
                                     whole: Messages)
    requires data != [] && ItemOf(data) == Ok(item) && whole == Prepended(messages, Batch(data))
    ensures whole == Prepended(messages + item.value, Batch(item.rest))
  {
    PrependTwice(messages, item.value, Batch(item.rest));
  }
}
