/** The bits of an unbounded integer, from its bytes. */
module Bits {
  import opened Modular

  /** The number a list of bits stands for, lowest bit first. */
  function Value(bits: seq<bool>): nat {
    if bits == [] then 0 else (if bits[0] then 1 else 0) + 2 * Value(bits[1..])
  }

  /** The lowest `n` bits of a number, lowest first. */
  function BitsOf(v: nat, n: nat): (bits: seq<bool>)
    ensures |bits| == n
  {
    if n == 0 then [] else [v % 2 == 1] + BitsOf(v / 2, n - 1)
  }

  /** A list of bits is determined by its length and value. */
  lemma {:induction false} BitsOfValue(bits: seq<bool>)
    ensures BitsOf(Value(bits), |bits|) == bits
  {
    if bits != [] {
      BitsOfValue(bits[1..]);
      HalfOf(if bits[0] then 1 else 0, Value(bits[1..]));
    }
  }

  lemma HalfOf(bit: nat, v: nat)
    requires bit < 2
    ensures (bit + 2 * v) % 2 == bit && (bit + 2 * v) / 2 == v
  {
  }

  type Byte = b: nat | b < 256

  /** Little-endian bytes without leading zeros; zero has one byte. */
  function ToBytes(n: nat): (bytes: seq<Byte>)
    ensures bytes != []
  {
    if n < 256 then [n] else [n % 256] + ToBytes(n / 256)
  }

  function FromBytes(bytes: seq<Byte>): nat {
    if bytes == [] then 0 else bytes[0] + 256 * FromBytes(bytes[1..])
  }

  lemma {:induction false} BytesRoundTrip(n: nat)
    ensures FromBytes(ToBytes(n)) == n
  {
    if n < 256 {
      assert [n][1..] == [];
    } else {
      BytesRoundTrip(n / 256);
      assert ToBytes(n)[1..] == ToBytes(n / 256);
    }
  }

  lemma {:induction false} Pow2Add(m: nat, n: nat)
    ensures Pow2(m + n) == Pow2(m) * Pow2(n)
    decreases m
  {
    if m > 0 {
      Pow2Add(m - 1, n);
      Distribute(0, Pow2(m - 1), Pow2(n));
    }
  }

  lemma {:induction false} Pow2Grows(m: nat, k: nat)
    ensures Pow2(m) <= Pow2(m + k)
    decreases k
  {
    if k > 0 {
      Pow2Grows(m, k - 1);
    }
  }

  lemma {:induction false} ValueConcat(a: seq<bool>, b: seq<bool>)
    ensures Value(a + b) == Value(a) + Pow2(|a|) * Value(b)
  {
    if a == [] {
      assert a + b == b;
    } else {
      ValueConcat(a[1..], b);
      assert (a + b)[1..] == a[1..] + b;
      Distribute(Value(a[1..]), Pow2(|a| - 1), Value(b));
    }
  }

  lemma Distribute(x: nat, y: nat, z: nat)
    ensures 2 * (x + y * z) == 2 * x + 2 * y * z
  {
  }

  lemma {:induction false} ValueBound(bits: seq<bool>)
    ensures Value(bits) < Pow2(|bits|)
  {
    if bits != [] {
      ValueBound(bits[1..]);
    }
  }

  function Padding(n: nat): seq<bool> {
    if n == 0 then [] else [false] + Padding(n - 1)
  }

  lemma {:induction false} PaddingValue(n: nat)
    ensures |Padding(n)| == n && Value(Padding(n)) == 0
  {
    if n > 0 {
      PaddingValue(n - 1);
      assert Padding(n)[1..] == Padding(n - 1);
    }
  }

  /** Bit `i` of a byte, which the source tests by masking with a shifted one. */
  predicate BitOf(b: Byte, i: nat) {
    if i == 0 then b % 2 == 1 else BitOf(b / 2, i - 1)
  }

  /** The first `n` bits of a byte, when they are all of it. */
  lemma {:induction false} ByteBits(b: Byte, n: nat, bits: seq<bool>)
    requires b < Pow2(n) && |bits| == n && forall i :: 0 <= i < n ==> bits[i] == BitOf(b, i)
    ensures Value(bits) == b
    decreases n
  {
    if n > 0 {
      assert forall i :: 0 <= i < n - 1 ==> bits[1..][i] == bits[i + 1];
      ByteBits(b / 2, n - 1, bits[1..]);
      assert bits[0] == (b % 2 == 1);
    }
  }

  function Resize(bits: seq<bool>, n: nat): seq<bool> {
    if n <= |bits| then bits[..n] else bits + Padding(n - |bits|)
  }

  /** Cutting to `n` bits is reducing modulo a power of two; padding with zeros changes nothing. */
  lemma ResizeValue(bits: seq<bool>, n: nat)
    ensures |Resize(bits, n)| == n && Value(Resize(bits, n)) == Value(bits) % Pow2(n)
  {
    if n <= |bits| {
      CutValue(bits, n);
    } else {
      PadValue(bits, n - |bits|);
    }
  }

  lemma CutValue(bits: seq<bool>, n: nat)
    requires n <= |bits|
    ensures Value(bits[..n]) == Value(bits) % Pow2(n)
  {
    assert bits == bits[..n] + bits[n..];
    ValueConcat(bits[..n], bits[n..]);
    ValueBound(bits[..n]);
    DivModUnique(Value(bits), Pow2(n), Value(bits[n..]), Value(bits[..n]));
  }

  lemma PadSame(bits: seq<bool>, k: nat)
    ensures Value(bits + Padding(k)) == Value(bits)
  {
    PaddingValue(k);
    ValueConcat(bits, Padding(k));
  }

  lemma PadValue(bits: seq<bool>, k: nat)
    ensures |Padding(k)| == k && Value(bits + Padding(k)) == Value(bits) % Pow2(|bits| + k)
  {
    PaddingValue(k);
    PadSame(bits, k);
    var v, p := Value(bits), Pow2(|bits| + k);
    assert v < p by {
      ValueBound(bits);
      Pow2Grows(|bits|, k);
    }
    ModSmall(v, p);
  }

  /** The eight bits of one byte. */
  method PushByte(bits: seq<bool>, b: Byte) returns (r: seq<bool>)
    ensures |r| == |bits| + 8 && Value(r) == Value(bits) + Pow2(|bits|) * b
  {
    var octet: seq<bool> := [];
    for i := 0 to 8
      invariant |octet| == i && forall k :: 0 <= k < i ==> octet[k] == BitOf(b, k)
    {
      octet := octet + [BitOf(b, i)];
    }
    assert Pow2(8) == 256;
    ByteBits(b, 8, octet);
    ValueConcat(bits, octet);
    r := bits + octet;
  }

  lemma NextByte(value: nat, k: nat, b: Byte, rest: nat)
    ensures value + Pow2(8 * k) * (b + 256 * rest) == value + Pow2(8 * k) * b + Pow2(8 * (k + 1)) * rest
  {
    Pow2Add(8 * k, 8);
    assert Pow2(8) == 256;
    var p := Pow2(8 * k);
    assert p * (b + 256 * rest) == p * b + p * 256 * rest;
  }

  /** The source's conversion: all bits of all bytes, cut or padded to `numBits`. */
  method ToBitsLe(integer: nat, numBits: nat) returns (bits: seq<bool>)
    ensures |bits| == numBits && Value(bits) == integer % Pow2(numBits)
  {
    var bytes := ToBytes(integer);
    BytesRoundTrip(integer);
    var all: seq<bool> := [];
    for k := 0 to |bytes|
      invariant |all| == 8 * k && Value(all) + Pow2(8 * k) * FromBytes(bytes[k..]) == integer
    {
      assert bytes[k..][1..] == bytes[k + 1..];
      NextByte(Value(all), k, bytes[k], FromBytes(bytes[k + 1..]));
      all := PushByte(all, bytes[k]);
    }
    assert bytes[|bytes|..] == [];
    ResizeValue(all, numBits);
    bits := Resize(all, numBits);
  }
}
