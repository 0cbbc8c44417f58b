/** Octets, powers and little-endian unsigned integers (`read_le_uint`). */
module Bytes {

  /** One octet of a telegram (`uint8_t`). */
  type Byte = b: int | 0 <= b < 256

  function Pow(base: nat, e: nat): (r: nat)
    ensures base > 0 ==> r > 0
  {
    if e == 0 then 1 else base * Pow(base, e - 1)
  }

  lemma {:induction false} PowAdd(base: nat, a: nat, b: nat)
    ensures Pow(base, a + b) == Pow(base, a) * Pow(base, b)
    decreases b
  {
    if b > 0 {
      PowAdd(base, a, b - 1);
      calc {
        Pow(base, a + b);
        base * Pow(base, a + b - 1);
        base * (Pow(base, a) * Pow(base, b - 1));
        Pow(base, a) * (base * Pow(base, b - 1));
        Pow(base, a) * Pow(base, b);
      }
    }
  }

  /** The unsigned value of `data` read least significant byte first. */
  function LeValue(data: seq<Byte>): nat
  {
    if |data| == 0 then 0 else data[0] + 256 * LeValue(data[1..])
  }

  /** The value of n little-endian bytes fits in n bytes. */
  lemma {:induction false} LeValueBound(data: seq<Byte>)
    ensures LeValue(data) < Pow(256, |data|)
  {
    if |data| > 0 {
      LeValueBound(data[1..]);
      assert LeValue(data[1..]) + 1 <= Pow(256, |data| - 1);
      assert 256 * LeValue(data[1..]) + 256 <= 256 * Pow(256, |data| - 1);
    }
  }

  /** Appending a byte adds it at the next power of 256. */
  lemma {:induction false} LeValueSnoc(data: seq<Byte>, b: Byte)
    ensures LeValue(data + [b]) == LeValue(data) + b * Pow(256, |data|)
  {
    if |data| == 0 {
      assert (data + [b])[1..] == [];
    } else {
      assert (data + [b])[1..] == data[1..] + [b];
      LeValueSnoc(data[1..], b);
      calc {
        LeValue(data + [b]);
        data[0] + 256 * LeValue(data[1..] + [b]);
        data[0] + 256 * (LeValue(data[1..]) + b * Pow(256, |data| - 1));
        data[0] + 256 * LeValue(data[1..]) + b * (256 * Pow(256, |data| - 1));
        LeValue(data) + b * Pow(256, |data|);
      }
    }
  }

  /** The n-byte little-endian encoding of v (the inverse of LeValue). */
  function LeBytes(v: nat, n: nat): (r: seq<Byte>)
    ensures |r| == n
  {
    if n == 0 then [] else [v % 256] + LeBytes(v / 256, n - 1)
  }

  /** Encoding a value that fits and reading it back gives the value. */
  lemma {:induction false} LeValueOfLeBytes(v: nat, n: nat)
    requires v < Pow(256, n)
    ensures LeValue(LeBytes(v, n)) == v
  {
    if n > 0 {
      assert v / 256 < Pow(256, n - 1);
      LeValueOfLeBytes(v / 256, n - 1);
      assert LeBytes(v, n)[1..] == LeBytes(v / 256, n - 1);
    }
  }

  /** Reading bytes and re-encoding them at the same width gives the bytes back. */
  lemma {:induction false} LeBytesOfLeValue(data: seq<Byte>)
    ensures LeBytes(LeValue(data), |data|) == data
  {
    if |data| > 0 {
      LeBytesOfLeValue(data[1..]);
      var v := LeValue(data);
      assert v % 256 == data[0] && v / 256 == LeValue(data[1..]);
    }
  }

  /**
   * `read_le_uint(data, len)`: accumulates `data[i] << (8 * i)` into a 32-bit word.
   * The shifted bytes occupy disjoint bit ranges, so the `|=` of the source is an addition.
   * Shifts of 32 or more are undefined in C++, hence at most four bytes.
   */
  method ReadLeUint(data: seq<Byte>) returns (value: nat)
    requires |data| <= 4
    ensures value == LeValue(data)
    ensures value < 0x1_0000_0000
  {
    value := 0;
    var i := 0;
    while i < |data|
      invariant 0 <= i <= |data|
      invariant value == LeValue(data[..i])
    {
      assert data[..i + 1] == data[..i] + [data[i]];
      LeValueSnoc(data[..i], data[i]);
      value := value + data[i] * Pow(256, i);
      i := i + 1;
    }
    assert data[..i] == data;
    LeValueBound(data);
    assert Pow(256, |data|) <= Pow(256, 4) by {
      PowAdd(256, |data|, 4 - |data|);
    }
  }
}
