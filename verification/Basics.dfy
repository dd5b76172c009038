/** Bytes, fixed-width unsigned integers, little-endian numbers and the
    cursor-based `Writer` and `Reader` (src/common.h). */
module Basics {

  datatype Option<+T> = None | Some(value: T)

  const U16: int := 0x1_0000
  const U32: int := 0x1_0000_0000
  const U64: int := 0x1_0000_0000_0000_0000

  type byte = x: int | 0 <= x < 256
  type u16 = x: int | 0 <= x < U16
  type u32 = x: int | 0 <= x < U32
  type u64 = x: int | 0 <= x < U64
  type Bytes = seq<byte>

  function Zeros(k: nat): Bytes {
    seq(k, _ => 0)
  }

  type H256 = s: Bytes | |s| == 32 witness Zeros(32)
  type Addr20 = s: Bytes | |s| == 20 witness Zeros(20)
  type Pub64 = s: Bytes | |s| == 64 witness Zeros(64)
  type Sig64 = s: Bytes | |s| == 64 witness Zeros(64)

  predicate IsZero(a: Bytes) {
    a == Zeros(|a|)
  }

  // ---------- little-endian numbers ----------

  function Pow256(k: nat): (p: nat)
    ensures p > 0
  {
    if k == 0 then 1 else 256 * Pow256(k - 1)
  }

  lemma {:induction false} Pow256Values()
    ensures Pow256(1) == 256 && Pow256(2) == U16 && Pow256(4) == U32 && Pow256(8) == U64
  {
    assert Pow256(3) == 0x100_0000;
    assert Pow256(5) == 0x100_0000_0000;
    assert Pow256(7) == 0x100_0000_0000_0000;
  }

  /** The `k` low-order bytes of `v`, least significant first. */
  function LE(v: nat, k: nat): (b: Bytes)
    ensures |b| == k
  {
    if k == 0 then [] else [v % 256] + LE(v / 256, k - 1)
  }

  function FromLE(b: Bytes): nat {
    if b == [] then 0 else b[0] + 256 * FromLE(b[1..])
  }

  lemma {:induction false} FromLEBound(b: Bytes)
    ensures FromLE(b) < Pow256(|b|)
  {
    if b != [] {
      FromLEBound(b[1..]);
    }
  }

  lemma {:induction false} FromLEOfLE(v: nat, k: nat)
    requires v < Pow256(k)
    ensures FromLE(LE(v, k)) == v
  {
    if k > 0 {
      assert v / 256 < Pow256(k - 1);
      FromLEOfLE(v / 256, k - 1);
      assert LE(v, k)[1..] == LE(v / 256, k - 1);
    }
  }

  lemma {:induction false} LEOfFromLE(b: Bytes)
    ensures LE(FromLE(b), |b|) == b
  {
    if b != [] {
      LEOfFromLE(b[1..]);
      assert FromLE(b) % 256 == b[0] && FromLE(b) / 256 == FromLE(b[1..]);
    }
  }

  /** `v` without its `i` low-order bytes. */
  function ShiftRight8(v: nat, i: nat): nat {
    if i == 0 then v else ShiftRight8(v / 256, i - 1)
  }

  /** The next more significant byte goes to the back. */
  lemma {:induction false} LESnoc(v: nat, k: nat)
    ensures LE(v, k + 1) == LE(v, k) + [ShiftRight8(v, k) % 256]
  {
    if k > 0 {
      LESnoc(v / 256, k - 1);
    }
  }

  /** The chunks, one behind the other. */
  function Concat(chunks: seq<Bytes>): Bytes {
    if chunks == [] then [] else chunks[0] + Concat(chunks[1..])
  }

  lemma {:induction false} ConcatSnoc(chunks: seq<Bytes>, i: nat)
    requires i < |chunks|
    ensures Concat(chunks[..i + 1]) == Concat(chunks[..i]) + chunks[i]
    decreases i
  {
    if i == 0 {
      assert chunks[..1][1..] == [];
    } else {
      ConcatSnoc(chunks[1..], i - 1);
      assert chunks[..i + 1][1..] == chunks[1..][..i] && chunks[..i][1..] == chunks[1..][..i - 1];
    }
  }

  lemma {:induction false} SubMultiple(x: int, k: int)
    ensures (x - k * U64) % U64 == x % U64
  {
    var q := x / U64;
    assert x - k * U64 == (q - k) * U64 + x % U64;
  }

  lemma {:induction false} ModAdd(a: nat, b: nat, c: nat)
    requires a % U64 == b % U64
    ensures (a + c) % U64 == (b + c) % U64
  {
  }

  // ---------- Writer ----------

  class Writer {
    var b: Bytes

    constructor ()
      ensures b == []
    {
      b := [];
    }

    method PutU8(v: byte)
      modifies this
      ensures b == old(b) + [v]
    {
      b := b + [v];
    }

    method PutU16(v: u16)
      modifies this
      ensures b == old(b) + LE(v, 2)
    {
      b := b + [v % 256];
      b := b + [v / 256 % 256];
      assert LE(v, 2) == [v % 256] + ([v / 256 % 256] + LE(v / 256 / 256, 0));
    }

    /** `u32` and `u64`: one loop per width in the source, pushing byte i of `v`. */
    method PutLE(v: nat, k: nat)
      modifies this
      ensures b == old(b) + LE(v, k)
    {
      var i := 0;
      while i < k
        invariant 0 <= i <= k
        invariant b == old(b) + LE(v, i)
      {
        LESnoc(v, i);
        b := b + [ShiftRight8(v, i) % 256];
        i := i + 1;
      }
    }

    /** `raw`, `arr` and `blob`. */
    method PutRaw(p: Bytes)
      modifies this
      ensures b == old(b) + p
    {
      b := b + p;
    }
  }

  // ---------- Reader ----------

  /** A thrown "short read" is the result `None`. */
  class Reader {
    const p: Bytes
    var off: nat

    constructor (s: Bytes)
      ensures p == s && off == 0
    {
      p, off := s, 0;
    }

    ghost predicate Valid()
      reads this
    {
      off <= |p|
    }

    function Rest(): Bytes
      requires Valid()
      reads this
    {
      p[off..]
    }

    /** `u16`, `u32` and `u64`: most significant byte first into an accumulator. */
    method GetLE(k: nat) returns (r: Option<nat>)
      requires Valid()
      modifies this
      ensures Valid()
      ensures r.Some? <==> old(off) + k <= |p|
      ensures r.Some? ==> r.value == FromLE(p[old(off)..old(off) + k]) && r.value < Pow256(k)
                          && off == old(off) + k
      ensures r.None? ==> off == old(off)
    {
      if off + k > |p| {
        return None;
      }
      var v: nat := 0;
      var i := k;
      ghost var s := p[off..off + k];
      while i > 0
        invariant 0 <= i <= k
        invariant v == FromLE(s[i..])
      {
        i := i - 1;
        assert s[i..][1..] == s[i + 1..];
        v := v * 256 + p[off + i];
      }
      assert s[0..] == s;
      FromLEBound(s);
      off := off + k;
      r := Some(v);
    }

    /** `arr` and `blob`. */
    method GetRaw(k: nat) returns (r: Option<Bytes>)
      requires Valid()
      modifies this
      ensures Valid()
      ensures r.Some? <==> old(off) + k <= |p|
      ensures r.Some? ==> r.value == p[old(off)..old(off) + k] && off == old(off) + k
      ensures r.None? ==> off == old(off)
    {
      if off + k > |p| {
        return None;
      }
      r := Some(p[off..off + k]);
      off := off + k;
    }

    method Remaining() returns (k: nat)
      requires Valid()
      ensures k == |Rest()|
    {
      k := |p| - off;
    }
  }
}
