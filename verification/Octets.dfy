/**
 Octet strings and the integer conversions of Python's `int.to_bytes`, `int.from_bytes`
 and `int.bit_length`, big-endian throughout.
 */
module Octets {
  type byte = b: int | 0 <= b < 256
  type Bytes = seq<byte>

  function Pow256(k: nat): (p: nat)
    ensures p >= 1
  {
    if k == 0 then 1 else 256 * Pow256(k - 1)
  }

  function Pow2(k: nat): (p: nat)
    ensures p >= 1
  {
    if k == 0 then 1 else 2 * Pow2(k - 1)
  }

  /** `n.bit_length()` of a non-negative integer. */
  function BitLength(n: nat): nat {
    if n == 0 then 0 else 1 + BitLength(n / 2)
  }

  /** `n.to_bytes(k, "big")`: the low `k` octets of `n`. */
  function ToBytes(n: nat, k: nat): (b: Bytes)
    ensures |b| == k
    decreases k
  {
    if k == 0 then [] else ToBytes(n / 256, k - 1) + [n % 256]
  }

  /** `int.from_bytes(b, "big")`. */
  function FromBytes(b: Bytes): nat {
    if b == [] then 0 else 256 * FromBytes(b[..|b| - 1]) + b[|b| - 1]
  }

  /** `int.from_bytes(b, "big", signed=True)`. */
  function FromSigned(b: Bytes): int {
    FromBytes(b) - (if b != [] && b[0] >= 128 then Pow256(|b|) else 0)
  }

  /** `k` octets can hold `n` in two's complement. */
  predicate FitsSigned(n: int, k: nat) {
    -(Pow256(k) as int) <= 2 * n < Pow256(k)
  }

  /** `n.to_bytes(k, "big", signed=True)`. */
  function ToSigned(n: int, k: nat): (b: Bytes)
    requires FitsSigned(n, k)
    ensures |b| == k
  {
    ToBytes(if n < 0 then n + Pow256(k) else n, k)
  }

  function Abs(n: int): nat {
    if n < 0 then -n else n
  }

  lemma {:induction false} Pow2Octets(k: nat)
    ensures Pow2(8 * k) == Pow256(k)
  {
    if k > 0 {
      Pow2Octets(k - 1);
      var m := 8 * (k - 1);
      assert Pow2(m + 1) == 2 * Pow2(m);
      assert Pow2(m + 2) == 2 * Pow2(m + 1);
      assert Pow2(m + 3) == 2 * Pow2(m + 2);
      assert Pow2(m + 4) == 2 * Pow2(m + 3);
      assert Pow2(m + 5) == 2 * Pow2(m + 4);
      assert Pow2(m + 6) == 2 * Pow2(m + 5);
      assert Pow2(m + 7) == 2 * Pow2(m + 6);
      assert Pow2(m + 8) == 2 * Pow2(m + 7);
    }
  }

  lemma {:induction false} Pow2Monotonic(a: nat, b: nat)
    requires a <= b
    ensures Pow2(a) <= Pow2(b)
    decreases b - a
  {
    if a < b {
      Pow2Monotonic(a, b - 1);
    }
  }

  lemma {:induction false} Pow256Monotonic(a: nat, b: nat)
    requires a <= b
    ensures Pow256(a) <= Pow256(b)
    ensures a < b ==> 256 * Pow256(a) <= Pow256(b)
    decreases b - a
  {
    if a < b {
      Pow256Monotonic(a, b - 1);
    }
  }

  lemma {:induction false} BitLengthBounds(n: nat)
    ensures n < Pow2(BitLength(n))
    ensures n > 0 ==> Pow2(BitLength(n) - 1) <= n
  {
    if n > 0 {
      BitLengthBounds(n / 2);
    }
  }

  /** `Pow256(k)` is a number of `8 * k` bits. */
  lemma PowersAgree(m: nat, k: nat)
    ensures m <= 8 * k ==> Pow2(m) <= Pow256(k)
    ensures 8 * k <= m ==> Pow256(k) <= Pow2(m)
  {
    Pow2Octets(k);
    if m <= 8 * k {
      Pow2Monotonic(m, 8 * k);
    }
    if 8 * k <= m {
      Pow2Monotonic(8 * k, m);
    }
  }

  /** The octet count of the source's formula is the least one that holds `n`. */
  lemma OctetCount(n: nat)
    ensures n < Pow256((BitLength(n) + 7) / 8)
    ensures n > 0 ==> Pow256((BitLength(n) + 7) / 8 - 1) <= n
  {
    var bits := BitLength(n);
    BitLengthBounds(n);
    PowersAgree(bits, (bits + 7) / 8);
    if n > 0 {
      PowersAgree(bits - 1, (bits + 7) / 8 - 1);
    }
  }

  lemma {:induction false} FromToBytes(n: nat, k: nat)
    requires n < Pow256(k)
    ensures FromBytes(ToBytes(n, k)) == n
    decreases k
  {
    if k > 0 {
      FromToBytes(n / 256, k - 1);
      var b := ToBytes(n, k);
      assert b[..|b| - 1] == ToBytes(n / 256, k - 1);
    }
  }

  lemma {:induction false} FromBytesBound(b: Bytes)
    ensures FromBytes(b) < Pow256(|b|)
  {
    if b != [] {
      FromBytesBound(b[..|b| - 1]);
    }
  }

  lemma {:induction false} ToFromBytes(b: Bytes)
    ensures ToBytes(FromBytes(b), |b|) == b
  {
    if b != [] {
      ToFromBytes(b[..|b| - 1]);
      assert b == b[..|b| - 1] + [b[|b| - 1]];
    }
  }

  /** Reading from the most significant end. */
  lemma {:induction false} FromBytesHead(b: Bytes)
    requires b != []
    ensures FromBytes(b) == b[0] * Pow256(|b| - 1) + FromBytes(b[1..])
  {
    if |b| > 1 {
      var init := b[..|b| - 1];
      FromBytesHead(init);
      assert init[1..] == b[1..][..|b[1..]| - 1];
      var p := Pow256(|b| - 2);
      assert 256 * (b[0] * p + FromBytes(init[1..])) == b[0] * (256 * p) + 256 * FromBytes(init[1..]);
    } else {
      assert b[..0] == [] && b[1..] == [];
      assert FromBytes(b) == b[0];
    }
  }

  /** The sign bit divides the range in half. */
  lemma TopOctet(h: byte, p: nat, rest: nat)
    requires rest < p
    ensures h >= 128 <==> 2 * (h * p + rest) >= 256 * p
  {
    if h >= 128 {
      assert h * p >= 128 * p;
    } else {
      assert h * p <= 127 * p;
    }
  }

  lemma SignBit(b: Bytes)
    requires b != []
    ensures b[0] >= 128 <==> 2 * FromBytes(b) >= Pow256(|b|)
    ensures FitsSigned(FromSigned(b), |b|)
  {
    FromBytesHead(b);
    FromBytesBound(b[1..]);
    FromBytesBound(b);
    TopOctet(b[0], Pow256(|b| - 1), FromBytes(b[1..]));
  }

  lemma FromToSigned(n: int, k: nat)
    requires k > 0 && FitsSigned(n, k)
    ensures FromSigned(ToSigned(n, k)) == n
  {
    FromToBytes(if n < 0 then n + Pow256(k) else n, k);
    SignBit(ToSigned(n, k));
  }

  lemma SignedInjective(a: Bytes, b: Bytes)
    requires a != [] && |a| == |b| && FromSigned(a) == FromSigned(b)
    ensures a == b
  {
    SignBit(a);
    SignBit(b);
    FromBytesBound(a);
    FromBytesBound(b);
    ToFromBytes(a);
    ToFromBytes(b);
  }

  /** The octet count the source asks for is enough for the two's-complement form. */
  lemma SignedOctetCount(n: int)
    ensures FitsSigned(n, (BitLength(Abs(n)) + 8) / 8)
  {
    var k := (BitLength(Abs(n)) + 8) / 8;
    BitLengthBounds(Abs(n));
    Pow2Octets(k);
    Pow2Monotonic(BitLength(Abs(n)) + 1, 8 * k);
  }
}
