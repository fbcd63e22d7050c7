/**
 Laws of the protobuf reader: more input never changes what was read, batches and
 subscriptions are homomorphisms on concatenation, unknown fields are invisible,
 and reading inverts the base-128 and length-delimited encodings.
 */
module ProtobufLaws {
  import opened Bytes
  import opened Wrappers
  import opened Protobuf

  // ---------------------------------------------------------------- later bytes

  lemma {:induction false} TailGrows(a: seq<byte>, b: seq<byte>)
    requires a != []
    ensures (a + b)[0] == a[0] && (a + b)[1..] == a[1..] + b
  {
  }

  lemma {:induction false} VarintIsStable(a: seq<byte>, b: seq<byte>, i: nat, value: nat, read: Consumed<nat>)
    requires i <= 10 && VarintFrom(a, i, value) == Ok(read)
    ensures VarintFrom(a + b, i, value) == Ok(Consumed(read.value, read.rest + b))
    decreases 10 - i
  {
    TailGrows(a, b);
    if a[0] >= 128 {
      VarintIsStable(a[1..], b, i + 1, value + Shifted(LowBits(a[0]), i), read);
    }
  }

  lemma {:induction false} KeyIsStable(a: seq<byte>, b: seq<byte>, key: Consumed<ProtoKey>)
    requires ConsumeKey(a) == Ok(key)
    ensures ConsumeKey(a + b) == Ok(Consumed(key.value, key.rest + b))
  {
    VarintIsStable(a, b, 0, 0, Varint(a).value);
  }

  lemma {:induction false} BytesAreStable(a: seq<byte>, b: seq<byte>, v: Consumed<seq<byte>>)
    requires ConsumeBytes(a) == Ok(v)
    ensures ConsumeBytes(a + b) == Ok(Consumed(v.value, v.rest + b))
  {
    VarintIsStable(a, b, 0, 0, Varint(a).value);
    SplitIsStable(Varint(a).value.rest, b, Varint(a).value.value);
  }

  lemma {:induction false} SplitIsStable(rest: seq<byte>, b: seq<byte>, n: nat)
    requires n <= |rest|
    ensures (rest + b)[..n] == rest[..n] && (rest + b)[n..] == rest[n..] + b
  {
  }

  lemma {:induction false} SkipIsStable(wire: nat, a: seq<byte>, b: seq<byte>, rest: seq<byte>)
    requires SkipValue(wire, a) == Ok(rest)
    ensures SkipValue(wire, a + b) == Ok(rest + b)
  {
    match wire
    case 0 => VarintIsStable(a, b, 0, 0, Varint(a).value);
    case 1 => assert (a + b)[8..] == a[8..] + b;
    case 2 => BytesAreStable(a, b, ConsumeBytes(a).value);
    case 5 => assert (a + b)[4..] == a[4..] + b;
  }

  lemma {:induction false} FieldIsStable(msg: Subscription, a: seq<byte>, b: seq<byte>, field: Consumed<Subscription>)
    requires FieldOf(msg, a) == Ok(field)
    ensures FieldOf(msg, a + b) == Ok(Consumed(field.value, field.rest + b))
  {
    var key := ConsumeKey(a).value;
    KeyIsStable(a, b, key);
    if IsKnown(key.value.field) {
      BytesAreStable(key.rest, b, ConsumeBytes(key.rest).value);
    } else {
      SkipIsStable(key.value.wire, key.rest, b, SkipValue(key.value.wire, key.rest).value);
    }
  }

  lemma {:induction false} ItemIsStable(a: seq<byte>, b: seq<byte>, item: Consumed<seq<Subscription>>)
    requires ItemOf(a) == Ok(item)
    ensures ItemOf(a + b) == Ok(Consumed(item.value, item.rest + b))
  {
    var key := ConsumeKey(a).value;
    KeyIsStable(a, b, key);
    if key.value != ProtoKey(1, 2) {
      SkipIsStable(key.value.wire, key.rest, b, SkipValue(key.value.wire, key.rest).value);
    } else {
      BytesAreStable(key.rest, b, ConsumeBytes(key.rest).value);
    }
  }

  // ---------------------------------------------------------------- homomorphisms

  /** A batch followed by more bytes is its messages followed by what those bytes give, or their failure. */
  lemma {:induction false} BatchHomomorphism(a: seq<byte>, b: seq<byte>)
    requires Batch(a).Ok?
    ensures Batch(a + b) == Prepended(Batch(a).value, Batch(b))
    decreases |a|
  {
    if a == [] {
      assert a + b == b;
      PrependNothing(Batch(b));
    } else {
      var item := ItemOf(a).value;
      BatchHomomorphism(item.rest, b);
      ItemIsStable(a, b, item);
      PrependTwice(item.value, Batch(item.rest).value, Batch(b));
    }
  }

  /** A subscription continues from the message that its first whole fields set. */
  lemma {:induction false} SubscriptionHomomorphism(msg: Subscription, a: seq<byte>, b: seq<byte>)
    requires SubscriptionFrom(msg, a).Ok?
    ensures SubscriptionFrom(msg, a + b) == SubscriptionFrom(SubscriptionFrom(msg, a).value, b)
    decreases |a|
  {
    if a == [] {
      assert a + b == b;
    } else {
      var field := FieldOf(msg, a).value;
      SubscriptionHomomorphism(field.value, field.rest, b);
      FieldIsStable(msg, a, b, field);
    }
  }

  // ---------------------------------------------------------------- unknown fields

  /** One whole field, of any readable wire type, under a number the subscription does not use. */
  predicate UnknownField(u: seq<byte>) {
    var key := ConsumeKey(u);
    key.Ok? && !IsKnown(key.value.value.field) && SkipValue(key.value.value.wire, key.value.rest) == Ok([])
  }

  lemma {:induction false} UnknownFieldIsSkipped(msg: Subscription, u: seq<byte>)
    ensures UnknownField(u) ==> SubscriptionFrom(msg, u) == Ok(msg)
  {
  }

  lemma {:induction false} SameContinuation(msg: Subscription, a: seq<byte>, b: seq<byte>, c: seq<byte>)
    ensures var start := SubscriptionFrom(msg, a);
      start.Ok? && SubscriptionFrom(start.value, b) == SubscriptionFrom(start.value, c) ==>
        SubscriptionFrom(msg, a + b) == SubscriptionFrom(msg, a + c)
  {
    if SubscriptionFrom(msg, a).Ok? {
      SubscriptionHomomorphism(msg, a, b);
      SubscriptionHomomorphism(msg, a, c);
    }
  }

  /** An unknown field between two fields changes neither the message nor the error. */
  lemma {:induction false} UnknownFieldIsInvisible(a: seq<byte>, u: seq<byte>, b: seq<byte>)
    requires SubscriptionFrom(EMPTY, a).Ok? && UnknownField(u)
    ensures SubscriptionFrom(EMPTY, a + u + b) == SubscriptionFrom(EMPTY, a + b)
  {
    var msg := SubscriptionFrom(EMPTY, a).value;
    UnknownFieldIsSkipped(msg, u);
    SubscriptionHomomorphism(msg, u, b);
    SameContinuation(EMPTY, a, u + b, b);
    Associative(a, u, b);
  }

  /** One whole field of a batch that is not a message. */
  predicate ForeignItem(u: seq<byte>) {
    var key := ConsumeKey(u);
    key.Ok? && key.value.value != ProtoKey(1, 2) && SkipValue(key.value.value.wire, key.value.rest) == Ok([])
  }

  lemma {:induction false} ForeignItemIsSkipped(u: seq<byte>)
    requires ForeignItem(u)
    ensures Batch(u) == Ok([])
  {
    assert u != [];
    assert ItemOf(u) == Ok(Consumed([], []));
    PrependNothing(Ok([]));
  }

  lemma {:induction false} BatchAppends(a: seq<byte>, b: seq<byte>, first: seq<Subscription>,
                                        second: Messages)
    requires Batch(a) == Ok(first) && Batch(b) == second
    ensures Batch(a + b) == Prepended(first, second)
  {
    BatchHomomorphism(a, b);
  }

  lemma {:induction false} SameTail(a: seq<byte>, b: seq<byte>, c: seq<byte>)
    requires Batch(a).Ok? && Batch(b) == Batch(c)
    ensures Batch(a + b) == Batch(a + c)
  {
    BatchAppends(a, b, Batch(a).value, Batch(b));
    BatchAppends(a, c, Batch(a).value, Batch(b));
  }

  lemma {:induction false} Associative(a: seq<byte>, b: seq<byte>, c: seq<byte>)
    ensures a + (b + c) == a + b + c
  {
  }

  lemma {:induction false} ForeignItemIsInvisible(a: seq<byte>, u: seq<byte>, b: seq<byte>)
    requires Batch(a).Ok? && ForeignItem(u)
    ensures Batch(a + u + b) == Batch(a + b)
  {
    ForeignItemIsSkipped(u);
    BatchAppends(u, b, [], Batch(b));
    PrependNothing(Batch(b));
    SameTail(a, u + b, b);
    Associative(a, u, b);
  }

  // ---------------------------------------------------------------- varints

  /** n times 128 to the power i. */
  function Worth(n: nat, i: nat): nat {
    if i == 0 then n else 128 * Worth(n, i - 1)
  }

  lemma {:induction false} ShiftIsExact(n: nat, i: nat)
    requires Worth(n, i) < TWO_64
    ensures Shifted(n, i) == Worth(n, i)
  {
    if i == 0 {
    } else {
      ShiftIsExact(n, i - 1);
    }
  }

  lemma {:induction false} DigitSplit(n: nat, i: nat)
    ensures Worth(n % 128, i) + Worth(n / 128, i + 1) == Worth(n, i)
  {
    if i == 0 {
    } else {
      DigitSplit(n, i - 1);
    }
  }

  lemma {:induction false} LastWorths(n: nat)
    ensures Worth(n, 8) == 0x100_0000_0000_0000 * n
    ensures Worth(n, 9) == TWO_63 * n
  {
    assert Worth(n, 1) == 128 * n;
    assert Worth(n, 2) == 0x4000 * n;
    assert Worth(n, 4) == 0x1000_0000 * n;
    assert Worth(n, 6) == 0x400_0000_0000 * n;
  }

  lemma {:induction false} OnlyOneBitIsLeft(n: nat)
    requires Worth(n, 9) < TWO_64
    ensures n < 2
  {
    LastWorths(n);
  }

  lemma {:induction false} DigitReads(digit: byte, i: nat, value: nat, tail: seq<byte>, next: nat)
    requires i <= 9 && next == value + Shifted(LowBits(digit), i)
    ensures VarintFrom([digit] + tail, i, value)
      == if digit < 128 then Ok(Consumed(next, tail)) else VarintFrom(tail, i + 1, next)
  {
  }

  lemma {:induction false} EncodingSplits(n: nat, after: seq<byte>)
    requires n >= 128
    ensures Base128(n) + after == [n % 128 + 128] + (Base128(n / 128) + after)
  {
  }

  lemma {:induction false} VarintReadsBack(n: nat, i: nat, value: nat, total: nat, after: seq<byte>)
    requires i <= 9 && Worth(n, i) < TWO_64 && total == value + Worth(n, i)
    ensures VarintFrom(Base128(n) + after, i, value) == Ok(Consumed(total, after))
    decreases 10 - i
  {
    if n < 128 {
      ShiftIsExact(n, i);
      DigitReads(n, i, value, after, total);
    } else {
      if i == 9 {
        OnlyOneBitIsLeft(n);
      }
      DigitSplit(n, i);
      ShiftIsExact(n % 128, i);
      var next := value + Shifted(n % 128, i);
      VarintReadsBack(n / 128, i + 1, next, total, after);
      DigitReads(n % 128 + 128, i, value, Base128(n / 128) + after, next);
      EncodingSplits(n, after);
    }
  }

  /** Every uint64 reads back from its base-128 digits, which are consumed exactly. */
  lemma {:induction false} VarintRoundTrip(n: nat, after: seq<byte>)
    requires n < TWO_64
    ensures Varint(Base128(n) + after) == Ok(Consumed(n, after))
  {
    VarintReadsBack(n, 0, 0, n, after);
  }

  /** What i groups of seven bits can hold; the tenth group has one bit. */
  function Capacity(i: nat): nat {
    if i >= 10 then TWO_64 else Worth(1, i)
  }

  lemma {:induction false} ShiftFits(digit: nat, i: nat)
    requires digit < 128 && i <= 9
    ensures Shifted(digit, i) + Capacity(i) <= Capacity(i + 1)
  {
    if i < 9 {
      DigitFits(digit, i);
    } else {
      TopBit(digit);
    }
  }

  lemma {:induction false} DigitFits(digit: nat, i: nat)
    requires digit < 128 && i <= 8
    ensures Shifted(digit, i) + Worth(1, i) <= Worth(1, i + 1) <= TWO_63
  {
    LastWorths(1);
    if i == 0 {
    } else {
      DigitFits(digit, i - 1);
    }
  }

  lemma {:induction false} TopBit(digit: nat)
    requires digit < 128
    ensures Shifted(digit, 9) <= TWO_63 && Worth(1, 9) == TWO_63
  {
    LastWorths(1);
    LastWorths(digit);
    ShiftIsExact(digit, 8);
    OneBitStays(digit, TWO_63 * digit);
  }

  lemma {:induction false} OneBitStays(digit: nat, shifted: nat)
    requires shifted == TWO_63 * digit
    ensures shifted % TWO_64 <= TWO_63
  {
  }

  lemma {:induction false} VarintFits(data: seq<byte>, i: nat, value: nat, read: nat)
    requires i <= 10 && value < Capacity(i) && VarintFrom(data, i, value).Ok?
    requires read == VarintFrom(data, i, value).value.value
    ensures read < TWO_64
    decreases 10 - i
  {
    var next := value + Shifted(LowBits(data[0]), i);
    ShiftFits(LowBits(data[0]), i);
    if data[0] >= 128 {
      VarintFits(data[1..], i + 1, next, read);
    } else {
      CapacityGrows(i + 1);
      assert read == next;
    }
  }

  lemma {:induction false} CapacityGrows(i: nat)
    requires i <= 10
    ensures Capacity(i) <= TWO_64
    decreases 10 - i
  {
    if i < 10 {
      ShiftFits(0, i);
      CapacityGrows(i + 1);
    }
  }

  /** A varint is at most 64 bits wide, so its sum is the OR of disjoint ranges. */
  lemma {:induction false} VarintIsUint64(data: seq<byte>)
    requires Varint(data).Ok?
    ensures Varint(data).value.value < TWO_64
  {
    VarintFits(data, 0, 0, Varint(data).value.value);
  }

  // ---------------------------------------------------------------- messages

  function Tag(field: nat, wire: nat): seq<byte> { Base128(8 * field + wire) }

  function Delimited(value: seq<byte>): seq<byte> { Base128(|value|) + value }

  lemma {:induction false} KeyRoundTrip(field: nat, wire: nat, after: seq<byte>)
    requires 8 * field < TWO_64 && wire < 8
    ensures ConsumeKey(Tag(field, wire) + after) == Ok(Consumed(ProtoKey(field, wire), after))
  {
    var n := 8 * field + wire;
    VarintRoundTrip(n, after);
    assert n / 8 == field && n % 8 == wire;
    assert Varint(Base128(n) + after) == Ok(Consumed(n, after));
  }

  lemma {:induction false} BytesRoundTrip(value: seq<byte>, after: seq<byte>)
    requires |value| < TWO_64
    ensures ConsumeBytes(Delimited(value) + after) == Ok(Consumed(value, after))
  {
    VarintRoundTrip(|value|, value + after);
    assert Delimited(value) + after == Base128(|value|) + (value + after);
    assert (value + after)[..|value|] == value && (value + after)[|value|..] == after;
  }

  /** uint64(x) and uint64(uint32(x)). */
  function Unsigned64(x: int): nat { x % TWO_64 }
  function Unsigned32(x: int): nat { x % TWO_32 }

  predicate IsInt64(x: int) { -0x8000_0000_0000_0000 <= x < 0x8000_0000_0000_0000 }
  predicate IsInt32(x: int) { -0x8000_0000 <= x < 0x8000_0000 }

  lemma {:induction false} SignRoundTrip(x: int)
    ensures IsInt64(x) ==> ToInt64(Unsigned64(x)) == x
    ensures IsInt32(x) ==> ToInt32(Unsigned32(x)) == x
  {
  }

  function Number(field: nat, n: nat): seq<byte> { Tag(field, 0) + Base128(n) }

  function EncodeTimestamp(ts: Timestamp): seq<byte> {
    Number(1, Unsigned64(ts.seconds)) + Number(2, Unsigned32(ts.nanos))
  }

  function EncodeAdvertisement(mac: seq<byte>, rssi: Option<int>): seq<byte> {
    Field(1, mac) + if rssi.None? then [] else Number(2, Unsigned32(rssi.value))
  }

  function Field(number: nat, value: seq<byte>): seq<byte> { Tag(number, 2) + Delimited(value) }

  function Encode(msg: Subscription): seq<byte> {
    Field(1, msg.deviceId) + (Field(2, msg.data)
      + ((if msg.ts.None? then [] else Field(3, EncodeTimestamp(msg.ts.value)))
        + (Field(4, msg.apMac)
          + (Field(12, EncodeAdvertisement(msg.bleMac, msg.rssi)) + Field(16, Field(1, msg.application))))))
  }

  lemma {:induction false} FieldReads(msg: Subscription, number: nat, value: seq<byte>, after: seq<byte>)
    requires IsKnown(number) && |value| < TWO_64
    ensures SubscriptionFrom(msg, Field(number, value) + after)
      == SubscriptionFrom(WithField(msg, number, value), after)
  {
    var s := Field(number, value) + after;
    assert s == Tag(number, 2) + (Delimited(value) + after);
    KeyRoundTrip(number, 2, Delimited(value) + after);
    BytesRoundTrip(value, after);
    assert FieldOf(msg, s) == Ok(Consumed(WithField(msg, number, value), after));
  }

  /** A time that the wire can carry: normalised, and neither of the pairs that mean no time. */
  predicate IsTimestamp(ts: Timestamp) {
    IsInt64(ts.seconds) && 0 <= ts.nanos < NANOS && ts != Timestamp(0, 0) && ts != Timestamp(ZERO_SECONDS, 0)
  }

  lemma {:induction false} UnixTimeIsNormal(ts: Timestamp)
    requires IsTimestamp(ts)
    ensures UnixTime(ts.seconds, ts.nanos) == Some(ts)
  {
    SignRoundTrip(ts.seconds);
  }

  /** Whatever comes back is normalised, and is not the zero time. */
  lemma {:induction false} TimesAreNormal(data: seq<byte>, seconds: int, nanos: int)
    ensures var ts := TimestampFrom(data, seconds, nanos);
      ts.Some? ==> IsInt64(ts.value.seconds) && 0 <= ts.value.nanos < NANOS && ts.value != Timestamp(ZERO_SECONDS, 0)
    decreases |data|
  {
    if data != [] && ConsumeKey(data).Ok? {
      var key := ConsumeKey(data).value;
      if key.value.field == 1 || key.value.field == 2 {
        var v := Varint(key.rest);
        if v.Ok? {
          TimesAreNormal(v.value.rest, if key.value.field == 1 then ToInt64(v.value.value) else seconds,
                         if key.value.field == 1 then nanos else ToInt32(v.value.value));
        }
      } else if SkipValue(key.value.wire, key.rest).Ok? {
        TimesAreNormal(SkipValue(key.value.wire, key.rest).value, seconds, nanos);
      }
    }
  }

  lemma {:induction false} NumberReads(field: nat, n: nat, after: seq<byte>)
    requires 8 * field < TWO_64 && n < TWO_64
    ensures ConsumeKey(Number(field, n) + after) == Ok(Consumed(ProtoKey(field, 0), Base128(n) + after))
    ensures Varint(Base128(n) + after) == Ok(Consumed(n, after))
  {
    assert Number(field, n) + after == Tag(field, 0) + (Base128(n) + after);
    KeyRoundTrip(field, 0, Base128(n) + after);
    VarintRoundTrip(n, after);
  }

  lemma {:induction false} TimestampField(data: seq<byte>, field: nat, n: nat, after: seq<byte>, seconds: int,
                                          nanos: int)
    requires (field == 1 || field == 2) && n < TWO_64 && data == Number(field, n) + after
    ensures TimestampFrom(data, seconds, nanos)
      == if field == 1 then TimestampFrom(after, ToInt64(n), nanos) else TimestampFrom(after, seconds, ToInt32(n))
  {
    NumberReads(field, n, after);
  }

  lemma {:induction false} TwoTimestampFields(first: nat, second: nat, data: seq<byte>)
    requires first < TWO_64 && second < TWO_64 && data == Number(1, first) + Number(2, second)
    ensures TimestampFrom(data, 0, 0) == TimestampFrom([], ToInt64(first), ToInt32(second))
  {
    TimestampField(data, 1, first, Number(2, second), 0, 0);
    assert Number(2, second) + [] == Number(2, second);
    TimestampField(Number(2, second), 2, second, [], ToInt64(first), 0);
  }

  lemma {:induction false} TimestampRoundTrip(ts: Timestamp)
    requires IsTimestamp(ts)
    ensures TimestampFrom(EncodeTimestamp(ts), 0, 0) == Some(ts)
  {
    TwoTimestampFields(Unsigned64(ts.seconds), Unsigned32(ts.nanos), EncodeTimestamp(ts));
    SignRoundTrip(ts.seconds);
    SignRoundTrip(ts.nanos);
    UnixTimeIsNormal(ts);
  }

  lemma {:induction false} AddressReads(mac: seq<byte>, after: seq<byte>)
    requires |mac| < TWO_64
    ensures AdvertisementFrom(Field(1, mac) + after, Advertisement([], None))
      == AdvertisementFrom(after, Advertisement(mac, None))
  {
    assert Field(1, mac) + after == Tag(1, 2) + (Delimited(mac) + after);
    KeyRoundTrip(1, 2, Delimited(mac) + after);
    BytesRoundTrip(mac, after);
  }

  lemma {:induction false} StrengthReads(n: nat, a: Advertisement)
    requires n < TWO_64
    ensures AdvertisementFrom(Number(2, n), a) == a.(rssi := Some(ToInt32(n)))
  {
    NumberReads(2, n, []);
    assert Number(2, n) + [] == Number(2, n);
  }

  lemma {:induction false} AdvertisementRoundTrip(mac: seq<byte>, rssi: Option<int>)
    requires |mac| < TWO_64 && (rssi.Some? ==> IsInt32(rssi.value))
    ensures AdvertisementFrom(EncodeAdvertisement(mac, rssi), Advertisement([], None)) == Advertisement(mac, rssi)
  {
    if rssi.None? {
      AddressReads(mac, []);
    } else {
      AddressReads(mac, Number(2, Unsigned32(rssi.value)));
      StrengthReads(Unsigned32(rssi.value), Advertisement(mac, None));
      SignRoundTrip(rssi.value);
    }
  }

  lemma {:induction false} ApplicationRoundTrip(text: seq<byte>)
    requires |text| < TWO_64
    ensures ApplicationFrom(Field(1, text)) == text
  {
    assert Field(1, text) == Tag(1, 2) + (Delimited(text) + []);
    KeyRoundTrip(1, 2, Delimited(text) + []);
    BytesRoundTrip(text, []);
  }

  /** A message whose values fit the types of the wire. */
  predicate Encodable(msg: Subscription) {
    |msg.deviceId| < TWO_64 && |msg.data| < TWO_64 && |msg.apMac| < TWO_64 && |msg.bleMac| < TWO_64
    && |msg.application| < TWO_64
    && (msg.ts.Some? ==> IsTimestamp(msg.ts.value) && |EncodeTimestamp(msg.ts.value)| < TWO_64)
    && (msg.rssi.Some? ==> IsInt32(msg.rssi.value))
    && |EncodeAdvertisement(msg.bleMac, msg.rssi)| < TWO_64 && |Field(1, msg.application)| < TWO_64
  }

  lemma {:induction false} LateFields(start: Subscription, msg: Subscription)
    requires Encodable(msg)
    ensures
      var advertisement := Field(12, EncodeAdvertisement(msg.bleMac, msg.rssi));
      SubscriptionFrom(start, advertisement + Field(16, Field(1, msg.application)))
      == Ok(start.(bleMac := msg.bleMac, rssi := msg.rssi, application := msg.application))
  {
    FieldReads(start, 12, EncodeAdvertisement(msg.bleMac, msg.rssi), Field(16, Field(1, msg.application)));
    AdvertisementRoundTrip(msg.bleMac, msg.rssi);
    var middle := start.(bleMac := msg.bleMac, rssi := msg.rssi);
    assert Field(16, Field(1, msg.application)) + [] == Field(16, Field(1, msg.application));
    FieldReads(middle, 16, Field(1, msg.application), []);
    ApplicationRoundTrip(msg.application);
  }

  lemma {:induction false} EarlyFields(msg: Subscription, late: seq<byte>, times: seq<byte>, start: Subscription)
    requires Encodable(msg)
    requires times == if msg.ts.None? then [] else Field(3, EncodeTimestamp(msg.ts.value))
    requires start == EMPTY.(deviceId := msg.deviceId, data := msg.data)
    ensures
      SubscriptionFrom(EMPTY, Field(1, msg.deviceId) + (Field(2, msg.data) + (times + (Field(4, msg.apMac) + late))))
      == SubscriptionFrom(start.(ts := msg.ts, apMac := msg.apMac), late)
  {
    var fromAp := Field(4, msg.apMac) + late;
    FieldReads(EMPTY, 1, msg.deviceId, Field(2, msg.data) + (times + fromAp));
    FieldReads(EMPTY.(deviceId := msg.deviceId), 2, msg.data, times + fromAp);
    if msg.ts.None? {
      assert times + fromAp == fromAp;
    } else {
      FieldReads(start, 3, EncodeTimestamp(msg.ts.value), fromAp);
      TimestampRoundTrip(msg.ts.value);
    }
    FieldReads(start.(ts := msg.ts), 4, msg.apMac, late);
  }

  /** Every message reads back from its encoding. */
  lemma {:induction false} SubscriptionRoundTrip(msg: Subscription)
    requires Encodable(msg)
    ensures SubscriptionFrom(EMPTY, Encode(msg)) == Ok(msg)
  {
    var late := Field(12, EncodeAdvertisement(msg.bleMac, msg.rssi)) + Field(16, Field(1, msg.application));
    var times := if msg.ts.None? then [] else Field(3, EncodeTimestamp(msg.ts.value));
    var start := EMPTY.(deviceId := msg.deviceId, data := msg.data);
    EarlyFields(msg, late, times, start);
    LateFields(start.(ts := msg.ts, apMac := msg.apMac), msg);
  }

  function EncodeBatch(messages: seq<Subscription>): seq<byte> {
    if messages == [] then [] else Field(1, Encode(messages[0])) + EncodeBatch(messages[1..])
  }

  lemma {:induction false} ItemReads(msg: Subscription, encoded: seq<byte>, item: seq<byte>)
    requires SubscriptionFrom(EMPTY, encoded) == Ok(msg) && |encoded| < TWO_64 && item == Field(1, encoded)
    ensures Batch(item) == Ok([msg])
  {
    assert item == Tag(1, 2) + (Delimited(encoded) + []);
    KeyRoundTrip(1, 2, Delimited(encoded) + []);
    BytesRoundTrip(encoded, []);
    assert ItemOf(item) == Ok(Consumed([msg], []));
    assert [msg] + [] == [msg];
  }

  lemma {:induction false} FirstItem(msg: Subscription, encoded: seq<byte>, rest: seq<byte>)
    requires SubscriptionFrom(EMPTY, encoded) == Ok(msg) && |encoded| < TWO_64
    ensures Batch(Field(1, encoded) + rest) == Prepended([msg], Batch(rest))
  {
    ItemReads(msg, encoded, Field(1, encoded));
    BatchHomomorphism(Field(1, encoded), rest);
  }

  /** A batch of encoded messages reads back as those messages. */
  lemma {:induction false} BatchRoundTrip(messages: seq<Subscription>)
    requires forall m :: m in messages ==> Encodable(m) && |Encode(m)| < TWO_64
    ensures Batch(EncodeBatch(messages)) == Ok(messages)
  {
    if messages == [] {
    } else {
      SubscriptionRoundTrip(messages[0]);
      BatchRoundTrip(messages[1..]);
      FirstItem(messages[0], Encode(messages[0]), EncodeBatch(messages[1..]));
      assert [messages[0]] + messages[1..] == messages;
    }
  }
}
