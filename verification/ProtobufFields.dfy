/**
 How wide the values of each wire type are, and what malformed or unknown fields do to
 each kind of message (cmd/hm-cisco-iot-orchestrator-collector/protobuf.go:48-260).
 */
module ProtobufFields {
  import opened Bytes
  import opened Protobuf
  import opened ProtobufLaws
  import opened Wrappers

  // ---------------------------------------------------------------- what is too short

  /** A varint is unreadable exactly if none of the first ten bytes ends it. */
  lemma {:induction false} VarintFailsIff(data: seq<byte>, i: nat, value: nat)
    requires i <= 10
    ensures VarintFrom(data, i, value).Err? <==> forall k :: 0 <= k < |data| && k < 10 - i ==> data[k] >= 128
    ensures VarintFrom(data, i, value).Err? ==> VarintFrom(data, i, value).error == UnexpectedEof
    decreases 10 - i
  {
    if data != [] && i < 10 && data[0] >= 128 {
      VarintFailsIff(data[1..], i + 1, value + Shifted(LowBits(data[0]), i));
      assert forall k :: 0 <= k < |data[1..]| ==> data[1..][k] == data[k + 1];
      assert forall k :: 0 < k < |data| ==> data[k] == data[1..][k - 1];
    }
  }

  lemma {:induction false} NumberFailsIff(data: seq<byte>)
    ensures Varint(data).Err? <==> forall k :: 0 <= k < |data| && k < 10 ==> data[k] >= 128
    ensures Varint(data).Err? ==> Varint(data).error == UnexpectedEof
  {
    VarintFailsIff(data, 0, 0);
  }

  /** A delimited value is unreadable exactly if its length is, or reaches past the end. */
  lemma {:induction false} BytesFailIff(n: nat, rest: seq<byte>)
    requires n < TWO_64
    ensures ConsumeBytes(Base128(n) + rest).Err? <==> n > |rest|
    ensures n > |rest| ==> ConsumeBytes(Base128(n) + rest) == Err(UnexpectedEof)
  {
    VarintRoundTrip(n, rest);
  }

  // ---------------------------------------------------------------- values of each wire type

  /** A value as its wire type writes it: a varint, eight bytes, a delimited value, four bytes. */
  ghost predicate IsValue(wire: nat, value: seq<byte>) {
    || (wire == 0 && exists n: nat :: n < TWO_64 && value == Base128(n))
    || (wire == 1 && |value| == 8)
    || (wire == 2 && exists v: seq<byte> :: |v| < TWO_64 && value == Delimited(v))
    || (wire == 5 && |value| == 4)
  }

  lemma {:induction false} ValueIsSkipped(wire: nat, value: seq<byte>, after: seq<byte>)
    requires IsValue(wire, value)
    ensures SkipValue(wire, value + after) == Ok(after)
  {
    if wire == 0 {
      var n: nat :| n < TWO_64 && value == Base128(n);
      VarintRoundTrip(n, after);
    } else if wire == 2 {
      var v: seq<byte> :| |v| < TWO_64 && value == Delimited(v);
      BytesRoundTrip(v, after);
    } else {
      assert (value + after)[|value|..] == after;
    }
  }

  lemma {:induction false} ShortValueFails(wire: nat, data: seq<byte>)
    ensures SkipValue(1, data).Err? <==> |data| < 8
    ensures SkipValue(5, data).Err? <==> |data| < 4
    ensures wire != 0 && wire != 1 && wire != 2 && wire != 5 ==> SkipValue(wire, data) == Err(UnsupportedWireType(wire))
    ensures wire == 1 || wire == 5 ==> SkipValue(wire, data).Ok? || SkipValue(wire, data).error == UnexpectedEof
  {
  }

  // ---------------------------------------------------------------- subscriptions and batches

  predicate IsFieldNumber(field: nat) { 8 * field + 7 < TWO_64 }

  lemma {:induction false} UnusedField(field: nat, wire: nat, value: seq<byte>)
    requires IsFieldNumber(field) && field !in {1, 2, 3, 4, 12, 16} && IsValue(wire, value)
    ensures UnknownField(Tag(field, wire) + value)
  {
    KeyRoundTrip(field, wire, value);
    assert value + [] == value;
    ValueIsSkipped(wire, value, []);
  }

  /** A field under any other number than those of the message may stand anywhere and changes nothing. */
  lemma {:induction false} UnusedFieldIsInvisible(a: seq<byte>, field: nat, wire: nat, value: seq<byte>, b: seq<byte>)
    requires SubscriptionFrom(EMPTY, a).Ok?
    requires IsFieldNumber(field) && field !in {1, 2, 3, 4, 12, 16} && IsValue(wire, value)
    ensures SubscriptionFrom(EMPTY, a + (Tag(field, wire) + value) + b) == SubscriptionFrom(EMPTY, a + b)
  {
    UnusedField(field, wire, value);
    UnknownFieldIsInvisible(a, Tag(field, wire) + value, b);
  }

  /** Under those numbers, whatever the wire type, the value is taken as delimited. */
  lemma {:induction false} UsedFieldNeedsBytes(msg: Subscription, field: nat, wire: nat, rest: seq<byte>)
    requires field in {1, 2, 3, 4, 12, 16} && wire < 8 && ConsumeBytes(rest).Err?
    ensures SubscriptionFrom(msg, Tag(field, wire) + rest) == Err(UnexpectedEof)
  {
    var data := Tag(field, wire) + rest;
    KeyRoundTrip(field, wire, rest);
    BytesError(rest);
    assert data != [] && FieldOf(msg, data) == Err(ConsumeBytes(rest).error);
  }

  lemma {:induction false} BytesError(rest: seq<byte>)
    requires ConsumeBytes(rest).Err?
    ensures ConsumeBytes(rest).error == UnexpectedEof
  {
    NumberFailsIff(rest);
  }

  /** An unknown wire type under an unused number refuses the message. */
  lemma {:induction false} UnknownWireTypeIsRefused(a: seq<byte>, field: nat, wire: nat, b: seq<byte>)
    requires SubscriptionFrom(EMPTY, a).Ok? && IsFieldNumber(field) && field !in {1, 2, 3, 4, 12, 16}
    requires wire < 8 && wire !in {0, 1, 2, 5}
    ensures SubscriptionFrom(EMPTY, a + (Tag(field, wire) + b)) == Err(UnsupportedWireType(wire))
  {
    var msg, data := SubscriptionFrom(EMPTY, a).value, Tag(field, wire) + b;
    KeyRoundTrip(field, wire, b);
    SubscriptionHomomorphism(EMPTY, a, data);
    assert data != [] && FieldOf(msg, data) == Err(UnsupportedWireType(wire));
  }

  /** One malformed message refuses the whole batch, with its own error. */
  lemma {:induction false} BrokenMessageRefusesBatch(a: seq<byte>, item: seq<byte>, b: seq<byte>)
    requires Batch(a).Ok? && |item| < TWO_64 && SubscriptionFrom(EMPTY, item).Err?
    ensures Batch(a + (Field(1, item) + b)) == Err(SubscriptionFrom(EMPTY, item).error)
  {
    BrokenItem(item, b);
    BatchHomomorphism(a, Field(1, item) + b);
  }

  lemma {:induction false} BrokenItem(item: seq<byte>, b: seq<byte>)
    requires |item| < TWO_64 && SubscriptionFrom(EMPTY, item).Err?
    ensures Batch(Field(1, item) + b) == Err(SubscriptionFrom(EMPTY, item).error)
  {
    var data := Field(1, item) + b;
    assert data == Tag(1, 2) + (Delimited(item) + b);
    KeyRoundTrip(1, 2, Delimited(item) + b);
    BytesRoundTrip(item, b);
    assert data != [] && ItemOf(data) == Err(SubscriptionFrom(EMPTY, item).error);
  }

  // ---------------------------------------------------------------- the parts of a message

  /** Seconds and nanoseconds of a plain time, nanoseconds of more than a second, and the two times that mean none. */
  lemma {:induction false} TimesInSeconds(seconds: int, nanos: int)
    requires -0x8000_0000_0000_0000 <= seconds < 0x7fff_ffff_ffff_ffff && 0 <= nanos < 1_000_000_000
    requires nanos != 0 || (seconds != -62135596800 && seconds + 1 != -62135596800)
    ensures UnixTime(seconds, nanos) == Some(Timestamp(seconds, nanos))
    ensures UnixTime(seconds, 1_000_000_000 + nanos) == Some(Timestamp(seconds + 1, nanos))
    ensures UnixTime(-62135596800, 0) == None && TimestampFrom([], 0, 0) == None
  {
    assert ToInt64(seconds % TWO_64) == seconds && ToInt64((seconds + 1) % TWO_64) == seconds + 1;
  }

  lemma {:induction false} TimeSkipsUnusedFields(field: nat, wire: nat, value: seq<byte>, after: seq<byte>,
                                                 seconds: int, nanos: int)
    requires IsFieldNumber(field) && field != 1 && field != 2 && IsValue(wire, value)
    ensures TimestampFrom(Tag(field, wire) + (value + after), seconds, nanos) == TimestampFrom(after, seconds, nanos)
  {
    KeyRoundTrip(field, wire, value + after);
    ValueIsSkipped(wire, value, after);
  }

  /** A time with an unreadable field is missing, whatever it held before. */
  lemma {:induction false} BrokenTimeIsMissing(field: nat, wire: nat, rest: seq<byte>, seconds: int, nanos: int)
    requires IsFieldNumber(field) && wire < 8
    requires if field == 1 || field == 2 then Varint(rest).Err? else SkipValue(wire, rest).Err?
    ensures TimestampFrom(Tag(field, wire) + rest, seconds, nanos) == None
  {
    KeyRoundTrip(field, wire, rest);
  }

  lemma {:induction false} AdvertisementSkipsUnusedFields(field: nat, wire: nat, value: seq<byte>, after: seq<byte>,
                                                          a: Advertisement)
    requires IsFieldNumber(field) && field != 1 && field != 2 && IsValue(wire, value)
    ensures AdvertisementFrom(Tag(field, wire) + (value + after), a) == AdvertisementFrom(after, a)
  {
    KeyRoundTrip(field, wire, value + after);
    ValueIsSkipped(wire, value, after);
  }

  /** An advertisement ends at an unreadable field, which leaves an empty address or a strength of zero behind. */
  lemma {:induction false} BrokenAdvertisementEnds(field: nat, wire: nat, rest: seq<byte>, a: Advertisement)
    requires IsFieldNumber(field) && wire < 8
    ensures field == 1 && ConsumeBytes(rest).Err? ==>
      AdvertisementFrom(Tag(1, wire) + rest, a) == Advertisement([], a.rssi)
    ensures field == 2 && Varint(rest).Err? ==>
      AdvertisementFrom(Tag(2, wire) + rest, a) == Advertisement(a.mac, Some(0))
    ensures field != 1 && field != 2 && SkipValue(wire, rest).Err? ==>
      AdvertisementFrom(Tag(field, wire) + rest, a) == a
  {
    KeyRoundTrip(field, wire, rest);
  }

  /** The first delimited field 1 is the application event; what follows is not looked at. */
  lemma {:induction false} FirstApplicationCounts(text: seq<byte>, after: seq<byte>)
    requires |text| < TWO_64
    ensures ApplicationFrom(Field(1, text) + after) == text
  {
    assert Field(1, text) + after == Tag(1, 2) + (Delimited(text) + after);
    KeyRoundTrip(1, 2, Delimited(text) + after);
    BytesRoundTrip(text, after);
  }

  lemma {:induction false} ApplicationSkipsOtherFields(field: nat, wire: nat, value: seq<byte>, after: seq<byte>)
    requires IsFieldNumber(field) && (field != 1 || wire != 2) && IsValue(wire, value)
    ensures ApplicationFrom(Tag(field, wire) + (value + after)) == ApplicationFrom(after)
  {
    KeyRoundTrip(field, wire, value + after);
    ValueIsSkipped(wire, value, after);
  }

  /** An unreadable field before it leaves no application event. */
  lemma {:induction false} BrokenApplicationIsEmpty(field: nat, wire: nat, rest: seq<byte>)
    requires IsFieldNumber(field) && wire < 8
    requires if field == 1 && wire == 2 then ConsumeBytes(rest).Err? else SkipValue(wire, rest).Err?
    ensures ApplicationFrom(Tag(field, wire) + rest) == []
  {
    KeyRoundTrip(field, wire, rest);
  }
}
