/** Proof of work: leading zero bits as a numeric bound, and the work of a block
    (src/sha256.h:94-107). */
module Pow {
  import opened Basics

  function Pow2(k: nat): (p: nat)
    ensures p > 0
  {
    if k == 0 then 1 else 2 * Pow2(k - 1)
  }

  /** The digest read as a big-endian number. */
  function FromBE(b: Bytes): nat {
    if b == [] then 0 else b[0] * Pow2(8 * (|b| - 1)) + FromBE(b[1..])
  }

  function ByteZeros(b: byte): nat
    requires b > 0
    decreases 256 - b
  {
    if b >= 128 then 0 else 1 + ByteZeros(2 * b)
  }

  function LeadingZeros(h: Bytes): nat {
    if h == [] then 0 else if h[0] == 0 then 8 + LeadingZeros(h[1..]) else ByteZeros(h[0])
  }

  predicate PowOk(h: H256, bits: u32) {
    LeadingZeros(h) >= bits
  }

  function WorkOf(bits: u32): u64 {
    if bits >= 63 then U64 - 1 else Pow2Bound(bits); Pow2(bits)
  }

  lemma {:induction false} Pow2Bound(bits: nat)
    requires bits <= 63
    ensures Pow2(bits) < U64
  {
    Pow2Mono(bits, 63);
    assert Pow2(7) == 128;
    hide Pow2;
    DoubleExponent(7, 128);
    DoubleExponent(14, 0x4000);
    DoubleExponent(28, 0x1000_0000);
    Pow2Add(7, 56);
  }

  lemma {:induction false} DoubleExponent(a: nat, p: nat)
    requires Pow2(a) == p
    ensures Pow2(2 * a) == p * p
  {
    Pow2Add(a, a);
  }

  lemma {:induction false} Pow2Add(a: nat, b: nat)
    ensures Pow2(a + b) == Pow2(a) * Pow2(b)
  {
    if a > 0 {
      Pow2Add(a - 1, b);
    }
  }

  lemma {:induction false} Pow2Mono(a: nat, b: nat)
    requires a <= b
    ensures Pow2(a) <= Pow2(b)
  {
    if a < b {
      Pow2Mono(a, b - 1);
    }
  }

  lemma {:induction false} ByteZerosBound(b: byte)
    requires b > 0
    ensures ByteZeros(b) <= 7
    ensures Pow2(7 - ByteZeros(b)) <= b < Pow2(8 - ByteZeros(b))
    decreases 256 - b
  {
    if b >= 128 {
      assert Pow2(7) == 128 && Pow2(8) == 256;
    } else {
      ByteZerosBound(2 * b);
      var z := ByteZeros(2 * b);
      assert Pow2(0) == 1 && Pow2(1) == 2;
      assert Pow2(7 - z) == 2 * Pow2(7 - (z + 1)) && Pow2(8 - z) == 2 * Pow2(8 - (z + 1));
    }
  }

  lemma {:induction false} FromBEBound(b: Bytes)
    ensures FromBE(b) < Pow2(8 * |b|)
  {
    if b != [] {
      FromBEBound(b[1..]);
      assert Pow2(8) == 256;
      hide Pow2;
      Pow2Add(8, 8 * (|b| - 1));
      Sandwich(0, b[0], 256, Pow2(8 * (|b| - 1)));
    }
  }

  /** A nonzero number lies between the powers of two its leading zeros name. */
  lemma {:induction false} ZerosBracket(h: Bytes)
    ensures LeadingZeros(h) <= 8 * |h|
    ensures FromBE(h) < Pow2(8 * |h| - LeadingZeros(h))
    ensures LeadingZeros(h) < 8 * |h| ==> Pow2(8 * |h| - LeadingZeros(h) - 1) <= FromBE(h)
  {
    if h != [] {
      var t, m := h[1..], 8 * (|h| - 1);
      if h[0] == 0 {
        ZerosBracket(t);
        assert FromBE(h) == FromBE(t);
      } else {
        ByteZerosBound(h[0]);
        FromBEBound(t);
        BracketByte(h[0], FromBE(t), ByteZeros(h[0]), m);
      }
    }
  }

  lemma {:induction false} BracketByte(b: byte, rest: nat, z: nat, m: nat)
    requires z <= 7 && Pow2(7 - z) <= b < Pow2(8 - z) && rest < Pow2(m)
    ensures Pow2(7 - z + m) <= b * Pow2(m) + rest < Pow2(8 - z + m)
  {
    hide Pow2;
    Pow2Add(8 - z, m);
    Pow2Add(7 - z, m);
    Sandwich(Pow2(7 - z), b, Pow2(8 - z), Pow2(m));
  }

  lemma {:induction false} Sandwich(lo: nat, x: nat, hi: nat, m: nat)
    requires lo <= x < hi
    ensures lo * m <= x * m && x * m + m <= hi * m
  {
    MulMono(lo, x, m);
    MulMono(x + 1, hi, m);
    assert (x + 1) * m == x * m + m;
  }

  lemma {:induction false} MulMono(a: nat, b: nat, m: nat)
    requires a <= b
    ensures a * m <= b * m
    decreases b - a
  {
    if a < b {
      MulMono(a, b - 1, m);
      assert b * m == (b - 1) * m + m;
    }
  }

  /** A digest has at least `bits` leading zero bits exactly when it is below 2^(256-bits);
      no digest meets a target of more than 256 bits. */
  lemma {:induction false} PowIsNumericBound(h: H256, bits: u32)
    ensures bits <= 256 ==> (PowOk(h, bits) <==> FromBE(h) < Pow2(256 - bits))
    ensures bits > 256 ==> !PowOk(h, bits)
  {
    ZerosBracket(h);
    var z := LeadingZeros(h);
    if bits <= z {
      Pow2Mono(256 - z, 256 - bits);
    } else if bits <= 256 {
      Pow2Mono(256 - bits, 256 - z - 1);
    }
  }

  /** The work of a block is the number of hashes it takes on average: of the 2^256 digests
      one in `WorkOf(bits)` meets the target. */
  lemma {:induction false} WorkIsExpectedHashes(bits: u32)
    requires bits < 63
    ensures WorkOf(bits) * Pow2(256 - bits) == Pow2(256)
    ensures WorkOf(bits) == Pow2(bits)
  {
    hide Pow2;
    Pow2Add(bits, 256 - bits);
  }

  /** `leading_zero_bits`, in `sha256.h` and again in the GPU miner as `lead_zeros`. */
  method LeadingZeroBits(h: H256) returns (n: nat)
    ensures n == LeadingZeros(h)
  {
    n := 0;
    for i := 0 to 32
      invariant n == 8 * i && LeadingZeros(h) == n + LeadingZeros(h[i..])
    {
      assert h[i..][1..] == h[i + 1..];
      if h[i] == 0 {
        n := n + 8;
        continue;
      }
      var b := h[i];
      while b < 128
        invariant 0 < b < 256 && LeadingZeros(h) == n + ByteZeros(b)
        decreases 256 - b
      {
        n := n + 1;
        b := 2 * b;
      }
      return n;
    }
    return 256;
  }
}
