/** Bytes as small integers. */
module Bytes {
  type byte = b: int | 0 <= b < 256

  const TWO_63: nat := 0x8000_0000_0000_0000
  const TWO_64: nat := 0x1_0000_0000_0000_0000

  /** The conversion to int64. */
  function ToInt64(value: nat): int {
    var v := value % TWO_64;
    if v < TWO_63 then v else v - TWO_64
  }

  /** Two bytes, most significant first. */
  function BigEndian16(n: nat): (r: seq<byte>)
    ensures |r| == 2
  {
    [n / 256 % 256, n % 256]
  }

  function FromBigEndian16(high: byte, low: byte): nat { 256 * high + low }

  lemma {:induction false} BigEndianRoundTrip(n: nat)
    requires n < 65536
    ensures FromBigEndian16(BigEndian16(n)[0], BigEndian16(n)[1]) == n
  {
  }

  /** Digits to the base 128, least significant first; all but the last have the top bit set. */
  function Base128(n: nat): (r: seq<byte>)
    ensures r != []
  {
    if n < 128 then [n] else [n % 128 + 128] + Base128(n / 128)
  }
}
