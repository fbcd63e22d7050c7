/** Property values of one to eight bytes (cmd/hm-echonet-collector/main.go:443-464), as integers. */
module EchonetValues {
  import opened Bytes
  import opened Wrappers

  datatype Error = UnsupportedLength(length: nat)

  /** 256 to the power n. */
  function Power(n: nat): (r: nat)
    ensures r > 0
  {
    if n == 0 then 1 else 256 * Power(n - 1)
  }

  /** The unsigned value, most significant byte first. */
  function BigEndian(data: seq<byte>): nat {
    if data == [] then 0 else 256 * BigEndian(data[..|data| - 1]) + data[|data| - 1]
  }

  predicate Supported(data: seq<byte>) { 1 <= |data| <= 8 }

  /** Two's complement on the width of the data. */
  function TwosComplement(data: seq<byte>): int
    requires data != []
  {
    if data[0] >= 128 then BigEndian(data) - Power(|data|) else BigEndian(data)
  }

  // ---------------------------------------------------------------- 64-bit shifts

  /** value << 8k. */
  function ShiftLeft(value: nat, k: nat): nat {
    if k == 0 then value else ShiftLeft(value, k - 1) * 256 % TWO_64
  }

  /** value >> 8k, keeping the sign. */
  function ShiftRight(value: int, k: nat): int
    decreases k
  {
    if k == 0 then value else ShiftRight(value / 256, k - 1)
  }

  /** x times 256 to the power k. */
  function Scaled(x: int, k: nat): int {
    if k == 0 then x else 256 * Scaled(x, k - 1)
  }

  // ---------------------------------------------------------------- decoders

  method DecodeUnsigned(data: seq<byte>) returns (r: Result<nat, Error>)
    ensures r == if Supported(data) then Ok(BigEndian(data)) else Err(UnsupportedLength(|data|))
  {
    if |data| == 0 || |data| > 8 {
      return Err(UnsupportedLength(|data|));
    }
    var value := Accumulate(data);
    return Ok(value);
  }

  /** The loop that both decoders share: shifting eight bits in at a time never overflows. */
  method Accumulate(data: seq<byte>) returns (value: nat)
    requires Supported(data)
    ensures value == BigEndian(data)
  {
    value := 0;
    for i := 0 to |data|
      invariant value == BigEndian(data[..i])
    {
      assert data[..i + 1][..i] == data[..i];
      ValueFits(data[..i]);
      PowersFit(i);
      assert ShiftLeft(value, 1) == 256 * value;
      value := ShiftLeft(value, 1) + data[i];
      assert data[..i + 1][|data[..i + 1]| - 1] == data[i];
    }
    assert data[..|data|] == data;
  }

  method DecodeSigned(data: seq<byte>) returns (r: Result<int, Error>)
    ensures r == if Supported(data) then Ok(TwosComplement(data)) else Err(UnsupportedLength(|data|))
  {
    if |data| == 0 || |data| > 8 {
      return Err(UnsupportedLength(|data|));
    }
    var unsigned := Accumulate(data);
    var shift := 8 - |data|;
    SignExtends(data, shift);
    return Ok(ShiftRight(ToInt64(ShiftLeft(unsigned, shift)), shift));
  }

  // ---------------------------------------------------------------- lemmas

  lemma {:induction false} ValueFits(data: seq<byte>)
    ensures BigEndian(data) < Power(|data|)
  {
    if data == [] {
    } else {
      ValueFits(data[..|data| - 1]);
    }
  }

  lemma {:induction false} PowersFit(n: nat)
    requires n < 8
    ensures 256 * Power(n) <= TWO_64
    decreases 8 - n
  {
    if n < 7 {
      PowersFit(n + 1);
    } else {
      EighthPower();
    }
  }

  lemma {:induction false} EighthPower()
    ensures Power(8) == TWO_64
  {
  }

  lemma {:induction false} ScaledDifference(x: int, y: int, k: nat)
    ensures Scaled(x - y, k) == Scaled(x, k) - Scaled(y, k)
    ensures x < y <==> Scaled(x, k) < Scaled(y, k)
  {
    if k == 0 {
    } else {
      ScaledDifference(x, y, k - 1);
    }
  }

  lemma {:induction false} ScaledPower(n: nat, k: nat)
    ensures Scaled(Power(n), k) == Power(n + k)
  {
    if k == 0 {
    } else {
      ScaledPower(n, k - 1);
    }
  }

  lemma {:induction false} ShiftLeftIsExact(x: nat, k: nat)
    requires 0 <= Scaled(x, k) < TWO_64
    ensures ShiftLeft(x, k) == Scaled(x, k)
  {
    if k == 0 {
    } else {
      ShiftLeftIsExact(x, k - 1);
    }
  }

  /** Shifting right undoes scaling, for negative values too. */
  lemma {:induction false} ShiftRightUndoes(x: int, k: nat)
    ensures ShiftRight(Scaled(x, k), k) == x
  {
    if k == 0 {
    } else {
      ShiftRightUndoes(x, k - 1);
    }
  }

  /** The top bit says in which half of the range the value is. */
  lemma {:induction false} TopBitIsUpperHalf(data: seq<byte>)
    requires data != []
    ensures data[0] >= 128 <==> 2 * BigEndian(data) >= Power(|data|)
  {
    if |data| == 1 {
      assert data[..0] == [];
    } else {
      TopBitIsUpperHalf(data[..|data| - 1]);
    }
  }

  lemma {:induction false} SignedAtTheTop(u: nat, limit: nat, k: nat)
    requires u < limit && Scaled(limit, k) == TWO_64
    ensures ToInt64(ShiftLeft(u, k)) == Scaled(if 2 * u >= limit then u - limit else u, k)
  {
    ScaledDifference(u, limit, k);
    ScaledZero(k);
    ScaledDifference(0, u, k);
    ShiftLeftIsExact(u, k);
    ScaledDifference(2 * u, u, k);
    ScaledDifference(2 * u, limit, k);
  }

  /** Moving the value to the top of 64 bits and back gives two's complement on its own width. */
  lemma {:induction false} SignExtends(data: seq<byte>, k: nat)
    requires Supported(data) && k == 8 - |data|
    ensures ShiftRight(ToInt64(ShiftLeft(BigEndian(data), k)), k) == TwosComplement(data)
  {
    ValueFits(data);
    EighthPower();
    ScaledPower(|data|, k);
    SignedAtTheTop(BigEndian(data), Power(|data|), k);
    TopBitIsUpperHalf(data);
    ShiftRightUndoes(TwosComplement(data), k);
  }

  lemma {:induction false} ScaledZero(k: nat)
    ensures Scaled(0, k) == 0
  {
    if k == 0 {
    } else {
      ScaledZero(k - 1);
    }
  }

  // ---------------------------------------------------------------- round trips

  /** The low n bytes of a value, most significant first. */
  function BytesOf(value: nat, n: nat): (r: seq<byte>)
    ensures |r| == n
  {
    if n == 0 then [] else BytesOf(value / 256, n - 1) + [value % 256]
  }

  lemma {:induction false} UnsignedRoundTrip(value: nat, n: nat)
    requires value < Power(n)
    ensures BigEndian(BytesOf(value, n)) == value
  {
    if n == 0 {
    } else {
      UnsignedRoundTrip(value / 256, n - 1);
      assert BytesOf(value, n)[..n - 1] == BytesOf(value / 256, n - 1);
    }
  }

  /** Every integer of n bytes reads back from its two's complement form. */
  lemma {:induction false} SignedRoundTrip(x: int, n: nat)
    requires n > 0 && 0 <= 2 * x + Power(n) < 2 * Power(n)
    ensures TwosComplement(BytesOf(if x < 0 then x + Power(n) else x, n)) == x
  {
    var u := if x < 0 then x + Power(n) else x;
    UnsignedRoundTrip(u, n);
    TopBitIsUpperHalf(BytesOf(u, n));
  }
}
