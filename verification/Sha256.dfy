/** SHA-256: the streaming implementation of src/sha256.h against FIPS 180-4. */
module Sha256 {
  import opened Basics

  type Word = bv32

  // ---------- section 4: functions and constants ----------

  /** Addition modulo 2^32. */
  function Add(x: Word, y: Word): Word {
    x + y
  }

  function ShR(x: Word, k: Word): Word
    requires k < 32
  {
    x >> k
  }

  function RotR(x: Word, k: Word): Word
    requires 0 < k < 32
  {
    (x >> k) | (x << (32 - k))
  }

  function Ch(x: Word, y: Word, z: Word): Word {
    (x & y) ^ (!x & z)
  }

  function Maj(x: Word, y: Word, z: Word): Word {
    (x & y) ^ (x & z) ^ (y & z)
  }

  function BigSigma0(x: Word): Word {
    RotR(x, 2) ^ RotR(x, 13) ^ RotR(x, 22)
  }

  function BigSigma1(x: Word): Word {
    RotR(x, 6) ^ RotR(x, 11) ^ RotR(x, 25)
  }

  function SmallSigma0(x: Word): Word {
    RotR(x, 7) ^ RotR(x, 18) ^ ShR(x, 3)
  }

  function SmallSigma1(x: Word): Word {
    RotR(x, 17) ^ RotR(x, 19) ^ ShR(x, 10)
  }

  /** Section 4.2.2. */
  function KTable(): (k: seq<Word>)
    ensures |k| == 64
  {
    [0x428a2f98, 0x71374491, 0xb5c0fbcf, 0xe9b5dba5,
     0x3956c25b, 0x59f111f1, 0x923f82a4, 0xab1c5ed5] +
    [0xd807aa98, 0x12835b01, 0x243185be, 0x550c7dc3,
     0x72be5d74, 0x80deb1fe, 0x9bdc06a7, 0xc19bf174] +
    [0xe49b69c1, 0xefbe4786, 0x0fc19dc6, 0x240ca1cc,
     0x2de92c6f, 0x4a7484aa, 0x5cb0a9dc, 0x76f988da] +
    [0x983e5152, 0xa831c66d, 0xb00327c8, 0xbf597fc7,
     0xc6e00bf3, 0xd5a79147, 0x06ca6351, 0x14292967] +
    [0x27b70a85, 0x2e1b2138, 0x4d2c6dfc, 0x53380d13,
     0x650a7354, 0x766a0abb, 0x81c2c92e, 0x92722c85] +
    [0xa2bfe8a1, 0xa81a664b, 0xc24b8b70, 0xc76c51a3,
     0xd192e819, 0xd6990624, 0xf40e3585, 0x106aa070] +
    [0x19a4c116, 0x1e376c08, 0x2748774c, 0x34b0bcb5,
     0x391c0cb3, 0x4ed8aa4a, 0x5b9cca4f, 0x682e6ff3] +
    [0x748f82ee, 0x78a5636f, 0x84c87814, 0x8cc70208,
     0x90befffa, 0xa4506ceb, 0xbef9a3f7, 0xc67178f2]
  }

  function K(t: nat): Word
    requires t < 64
  {
    KTable()[t]
  }

  /** Section 5.3.3. */
  function IV(): (h: seq<Word>)
    ensures |h| == 8
  {
    [
    0x6a09e667, 0xbb67ae85, 0x3c6ef372, 0xa54ff53a, 0x510e527f, 0x9b05688c, 0x1f83d9ab, 0x5be0cd19
    ]
  }

  // ---------- words and bytes ----------

  /** Four bytes, most significant first. */
  function WordAt(s: Bytes, i: nat): Word
    requires i + 4 <= |s|
  {
    ((s[i] as Word) << 24) | ((s[i + 1] as Word) << 16) | ((s[i + 2] as Word) << 8) | (s[i + 3] as Word)
  }

  function ByteOf(w: Word, shift: Word): byte
    requires shift <= 24
  {
    ((w >> shift) & 0xff) as bv8 as int
  }

  function WordBytes(w: Word): (s: Bytes)
    ensures |s| == 4
  {
    [ByteOf(w, 24), ByteOf(w, 16), ByteOf(w, 8), ByteOf(w, 0)]
  }

  /** Eight bytes, most significant first. */
  function BE64(v: u64): (s: Bytes)
    ensures |s| == 8
  {
    seq(8, i requires 0 <= i < 8 => ShiftRight8(v, 7 - i) % 256)
  }

  // ---------- section 6.2: the hash computation ----------

  /** The sum of section 6.2.2 step 1, its four terms last to first. */
  function NextW(w16: Word, w15: Word, w7: Word, w2: Word): Word {
    Add(Add(Add(w16, SmallSigma0(w15)), w7), SmallSigma1(w2))
  }

  /** Message schedule word t of a 64-byte block. */
  function W(block: Bytes, t: nat): Word
    requires |block| == 64 && t < 64
  {
    if t < 16 then WordAt(block, 4 * t)
    else NextW(W(block, t - 16), W(block, t - 15), W(block, t - 7), W(block, t - 2))
  }

  datatype Vars = Vars(a: Word, b: Word, c: Word, d: Word, e: Word, f: Word, g: Word, h: Word)

  function Round(v: Vars, k: Word, w: Word): Vars {
    var t1 := Add(Add(Add(Add(v.h, BigSigma1(v.e)), Ch(v.e, v.f, v.g)), k), w);
    var t2 := Add(BigSigma0(v.a), Maj(v.a, v.b, v.c));
    Vars(Add(t1, t2), v.a, v.b, v.c, Add(v.d, t1), v.e, v.f, v.g)
  }

  function Rounds(v: Vars, block: Bytes, t: nat): Vars
    requires |block| == 64 && t <= 64
  {
    if t == 0 then v else Round(Rounds(v, block, t - 1), K(t - 1), W(block, t - 1))
  }

  function VarsOf(h: seq<Word>): Vars
    requires |h| == 8
  {
    Vars(h[0], h[1], h[2], h[3], h[4], h[5], h[6], h[7])
  }

  function Compressed(h: seq<Word>, block: Bytes): (r: seq<Word>)
    requires |h| == 8 && |block| == 64
    ensures |r| == 8
  {
    var v := Rounds(VarsOf(h), block, 64);
    [Add(h[0], v.a), Add(h[1], v.b), Add(h[2], v.c), Add(h[3], v.d),
     Add(h[4], v.e), Add(h[5], v.f), Add(h[6], v.g), Add(h[7], v.h)]
  }

  /** All whole blocks of `s`, first to last. */
  function HashBlocks(h: seq<Word>, s: Bytes): (r: seq<Word>)
    requires |h| == 8 && |s| % 64 == 0
    ensures |r| == 8
    decreases |s|
  {
    if s == [] then h else Compressed(HashBlocks(h, s[..|s| - 64]), s[|s| - 64..])
  }

  /** Section 5.1.1: a one bit, the fewest zeros, the length in bits. */
  function ZeroCount(len: nat): (k: nat)
    ensures (len + 1 + k + 8) % 64 == 0 && k < 64
  {
    (55 - len) % 64
  }

  function Padded(m: Bytes): (s: Bytes)
    ensures |s| % 64 == 0
  {
    m + [0x80] + Zeros(ZeroCount(|m|)) + BE64(8 * |m| % U64)
  }

  function WordsBytes(h: seq<Word>): (d: Bytes)
    ensures |d| == 4 * |h|
  {
    if h == [] then [] else WordsBytes(h[..|h| - 1]) + WordBytes(h[|h| - 1])
  }

  function Digest(h: seq<Word>): H256
    requires |h| == 8
  {
    WordsBytes(h)
  }

  /** The digest FIPS 180-4 prescribes. */
  function Hash(m: Bytes): H256 {
    Digest(HashBlocks(IV(), Padded(m)))
  }

  /** The ids and the proof of work hash twice. */
  function Hash2(m: Bytes): H256 {
    Hash(Hash(m))
  }

  lemma {:induction false} HashBlocksConcat(h: seq<Word>, a: Bytes, b: Bytes)
    requires |h| == 8 && |a| % 64 == 0 && |b| == 64
    ensures HashBlocks(h, a + b) == Compressed(HashBlocks(h, a), b)
  {
    hide Compressed;
    assert (a + b)[..|a + b| - 64] == a && (a + b)[|a + b| - 64..] == b;
  }

  // ---------- the source's code ----------

  /** One block, the state updated in place. */
  method Compress(st: array<Word>, blk: array<byte>)
    requires st.Length == 8 && blk.Length == 64
    modifies st
    ensures st[..] == Compressed(old(st[..]), old(blk[..]))
  {
    hide K, W, Rounds, Add;
    ghost var h, block := st[..], blk[..];
    var w := Schedule(blk);
    var v := AllRounds(w, block, VarsOf(st[..]));
    AddVars(st, v);
  }

  method AddVars(st: array<Word>, v: Vars)
    requires st.Length == 8
    modifies st
    ensures st[..] == [Add(old(st[0]), v.a), Add(old(st[1]), v.b), Add(old(st[2]), v.c), Add(old(st[3]), v.d),
                       Add(old(st[4]), v.e), Add(old(st[5]), v.f), Add(old(st[6]), v.g), Add(old(st[7]), v.h)]
  {
    hide Add;
    st[0], st[1], st[2], st[3] := Add(st[0], v.a), Add(st[1], v.b), Add(st[2], v.c), Add(st[3], v.d);
    st[4], st[5], st[6], st[7] := Add(st[4], v.e), Add(st[5], v.f), Add(st[6], v.g), Add(st[7], v.h);
  }

  method AllRounds(w: array<Word>, ghost block: Bytes, v0: Vars) returns (v: Vars)
    requires |block| == 64 && w.Length == 64
    requires forall t :: 0 <= t < 64 ==> w[t] == W(block, t)
    ensures v == Rounds(v0, block, 64)
  {
    hide K, W, Round;
    var a, b, c, d, e, f, g, h := v0.a, v0.b, v0.c, v0.d, v0.e, v0.f, v0.g, v0.h;
    for i := 0 to 64
      invariant Vars(a, b, c, d, e, f, g, h) == Rounds(v0, block, i)
    {
      a, b, c, d, e, f, g, h := RoundStep(a, b, c, d, e, f, g, h, K(i), w[i]);
    }
    v := Vars(a, b, c, d, e, f, g, h);
  }

  /** The body of the round loop. */
  method RoundStep(a0: Word, b0: Word, c0: Word, d0: Word, e0: Word, f0: Word, g0: Word, h0: Word, k: Word, w: Word)
    returns (a: Word, b: Word, c: Word, d: Word, e: Word, f: Word, g: Word, h: Word)
    ensures Vars(a, b, c, d, e, f, g, h) == Round(Vars(a0, b0, c0, d0, e0, f0, g0, h0), k, w)
  {
    hide Add, Ch, Maj, BigSigma0, BigSigma1;
    a, b, c, d, e, f, g, h := a0, b0, c0, d0, e0, f0, g0, h0;
    var s1, ch := Choices(e, f, g);
    var t1 := Add(Add(Add(Add(h, s1), ch), k), w);
    var s0, mj := Majorities(a, b, c);
    var t2 := Add(s0, mj);
    h := g;
    g := f;
    f := e;
    e := Add(d, t1);
    d := c;
    c := b;
    b := a;
    a := Add(t1, t2);
  }

  method Choices(e: Word, f: Word, g: Word) returns (s1: Word, ch: Word)
    ensures s1 == BigSigma1(e) && ch == Ch(e, f, g)
  {
    hide RotR;
    s1 := RotR(e, 6) ^ RotR(e, 11) ^ RotR(e, 25);
    ch := (e & f) ^ (!e & g);
  }

  method Majorities(a: Word, b: Word, c: Word) returns (s0: Word, mj: Word)
    ensures s0 == BigSigma0(a) && mj == Maj(a, b, c)
  {
    hide RotR;
    s0 := RotR(a, 2) ^ RotR(a, 13) ^ RotR(a, 22);
    mj := (a & b) ^ (a & c) ^ (b & c);
  }

  method Schedule(blk: array<byte>) returns (w: array<Word>)
    requires blk.Length == 64
    ensures fresh(w) && w.Length == 64
    ensures forall t :: 0 <= t < 64 ==> w[t] == W(blk[..], t)
  {
    hide WordAt, NextW;
    ghost var block := blk[..];
    w := new Word[64];
    for i := 0 to 16
      invariant forall t :: 0 <= t < i ==> w[t] == W(block, t)
    {
      w[i] := LoadWord(blk, i * 4);
    }
    for i := 16 to 64
      invariant forall t :: 0 <= t < i ==> w[t] == W(block, t)
    {
      w[i] := NextWord(w[i - 16], w[i - 15], w[i - 7], w[i - 2]);
    }
  }

  method LoadWord(blk: array<byte>, i: nat) returns (w: Word)
    requires i + 4 <= blk.Length
    ensures w == WordAt(blk[..], i)
  {
    w := ((blk[i] as Word) << 24) | ((blk[i + 1] as Word) << 16) | ((blk[i + 2] as Word) << 8) | (blk[i + 3] as Word);
  }

  method NextWord(w16: Word, w15: Word, w7: Word, w2: Word) returns (w: Word)
    ensures w == NextW(w16, w15, w7, w2)
  {
    hide RotR, ShR, Add;
    var s0 := RotR(w15, 7) ^ RotR(w15, 18) ^ ShR(w15, 3);
    var s1 := RotR(w2, 17) ^ RotR(w2, 19) ^ ShR(w2, 10);
    w := Add(Add(Add(w16, s0), w7), s1);
  }

  /** The buffer stands at 56 exactly when enough zeros have been added. */
  lemma {:induction false} PadPhase(len: nat, j: nat, buflen: nat, whole: nat)
    requires len + 1 + j == whole + buflen && whole % 64 == 0 && buflen < 64 && j <= ZeroCount(len)
    ensures buflen == 56 <==> j == ZeroCount(len)
  {
    var k := ZeroCount(len);
    assert (len + 1 + k + 8) % 64 == 0;
    if buflen == 56 {
      assert (len + 1 + j + 8) % 64 == 0;
      assert (k - j) % 64 == 0;
    }
  }

  lemma {:induction false} LengthFits(len: nat, total: u64)
    requires total == len % U64 && len < U64 / 8
    ensures total * 8 % U64 == 8 * len % U64
  {
  }

  lemma {:induction false} AllWhole(whole: nat, buflen: nat, all: nat)
    requires whole % 64 == 0 && buflen < 64 && all % 64 == 0 && whole + buflen == all
    ensures buflen == 0
  {
  }

  /** The state words, most significant byte first. */
  method WriteDigest(st: array<Word>) returns (out: H256)
    requires st.Length == 8
    ensures out == Digest(st[..])
  {
    hide ByteOf;
    var o: Bytes := [];
    for i := 0 to 8
      invariant o == WordsBytes(st[..i])
    {
      assert st[..i + 1][..i] == st[..i];
      o := o + [ByteOf(st[i], 24)] + [ByteOf(st[i], 16)] + [ByteOf(st[i], 8)] + [ByteOf(st[i], 0)];
    }
    assert st[..8] == st[..];
    out := o;
  }

  lemma {:induction false} Onward(a: Bytes, b: Bytes, c: Bytes)
    ensures a + (b + c) == a + b + c
  {
  }

  class Ctx {
    const st: array<Word>
    const buf: array<byte>
    var buflen: nat
    var total: u64
    ghost var whole: Bytes   // the blocks already compressed

    ghost predicate Valid()
      reads this, st, buf
    {
      && st.Length == 8 && buf.Length == 64 && buflen < 64
      && |whole| % 64 == 0 && st[..] == HashBlocks(IV(), whole)
      && total == |Absorbed()| % U64
    }

    /** Everything absorbed so far. */
    ghost function Absorbed(): Bytes
      requires buf.Length == 64 && buflen <= 64
      reads this, buf
    {
      whole + buf[..buflen]
    }

    constructor ()
      ensures Valid() && Absorbed() == [] && fresh(st) && fresh(buf)
    {
      hide Compressed;
      st := new Word[8](i requires 0 <= i < 8 => IV()[i]);
      buf := new byte[64];
      buflen, total, whole := 0, 0, [];
      new;
      assert st[..] == IV();
    }

    method Update(p: Bytes)
      requires Valid()
      modifies this, st, buf
      ensures Valid() && Absorbed() == old(Absorbed()) + p
    {
      hide HashBlocks, IV;
      total := (total + |p|) % U64;
      var off := 0;
      while off < |p|
        invariant 0 <= off <= |p|
        invariant buflen < 64 && |whole| % 64 == 0 && st[..] == HashBlocks(IV(), whole)
        invariant Absorbed() == old(Absorbed()) + p[..off]
        invariant total == (old(total) + |p|) % U64
      {
        var k := if |p| - off < 64 - buflen then |p| - off else 64 - buflen;
        assert p[..off + k] == p[..off] + p[off..off + k];
        Onward(old(Absorbed()), p[..off], p[off..off + k]);
        Fill(p[off..off + k]);
        off := off + k;
      }
      assert p[..|p|] == p;
      ModAdd(old(total), |old(Absorbed())|, |p|);
    }

    /** One turn of the loop: a chunk that fits, and a compression when the buffer is full. */
    method Fill(chunk: Bytes)
      requires st.Length == 8 && buf.Length == 64 && buflen + |chunk| <= 64 && buflen < 64
      requires |whole| % 64 == 0 && st[..] == HashBlocks(IV(), whole)
      modifies this`buflen, this`whole, st, buf
      ensures buflen == if old(buflen) + |chunk| == 64 then 0 else old(buflen) + |chunk|
      ensures |whole| % 64 == 0 && st[..] == HashBlocks(IV(), whole)
      ensures Absorbed() == old(Absorbed()) + chunk
    {
      hide HashBlocks, Compressed, IV;
      forall i | 0 <= i < |chunk| {
        buf[buflen + i] := chunk[i];
      }
      assert st[..] == old(st[..]);
      assert buf[..buflen + |chunk|] == old(buf[..buflen]) + chunk;
      buflen := buflen + |chunk|;
      if buflen == 64 {
        HashBlocksConcat(IV(), whole, buf[..]);
        Compress(st, buf);
        whole := whole + buf[..];
        buflen := 0;
      }
    }

    method Final() returns (out: H256)
      requires Valid() && |Absorbed()| < U64 / 8
      modifies this, st, buf
      ensures out == Hash(old(Absorbed()))
    {
      hide HashBlocks, IV, WordsBytes, ShiftRight8, BE64, ZeroCount, Zeros;
      ghost var m := Absorbed();
      var bits := total * 8 % U64;
      LengthFits(|m|, total);
      Update([0x80]);
      PadZeros(m);
      var len := LengthBytes(bits);
      Update(len);
      assert Absorbed() == Padded(m);
      hide Padded;
      AllWhole(|whole|, buflen, |Padded(m)|);
      assert whole + buf[..0] == whole;
      out := WriteDigest(st);
    }

    /** Zero bytes one at a time until the buffer has room for just the length. */
    method PadZeros(ghost m: Bytes)
      requires Valid() && Absorbed() == m + [0x80]
      modifies this, st, buf
      ensures Valid() && Absorbed() == m + [0x80] + Zeros(ZeroCount(|m|))
    {
      hide HashBlocks, IV;
      ghost var j := 0;
      assert m + [0x80] + Zeros(0) == m + [0x80];
      PadPhase(|m|, 0, buflen, |whole|);
      while buflen != 56
        invariant Valid() && j <= ZeroCount(|m|)
        invariant Absorbed() == m + [0x80] + Zeros(j)
        invariant buflen == 56 <==> j == ZeroCount(|m|)
        decreases ZeroCount(|m|) - j
      {
        Update([0]);
        assert Zeros(j) + [0] == Zeros(j + 1);
        j := j + 1;
        PadPhase(|m|, j, buflen, |whole|);
      }
    }
  }

  method LengthBytes(bits: u64) returns (len: Bytes)
    ensures len == BE64(bits)
  {
    hide ShiftRight8;
    len := [];
    for i := 0 to 8
      invariant len == BE64(bits)[..i]
    {
      len := len + [ShiftRight8(bits, 7 - i) % 256];
    }
  }

  method Sha256(m: Bytes) returns (d: H256)
    requires |m| < U64 / 8
    ensures d == Hash(m)
  {
    var c := new Ctx();
    c.Update(m);
    assert [] + m == m;
    d := c.Final();
  }

  method Sha256d(m: Bytes) returns (d: H256)
    requires |m| < U64 / 8
    ensures d == Hash2(m)
  {
    var h1 := Sha256(m);
    d := Sha256(h1);
  }

  /** However a message is cut into `update` calls, `final` gives the digest of the whole. */
  method HashChunks(chunks: seq<Bytes>) returns (d: H256)
    requires |Concat(chunks)| < U64 / 8
    ensures d == Hash(Concat(chunks))
  {
    hide Hash;
    var c := new Ctx();
    for i := 0 to |chunks|
      invariant c.Valid() && fresh(c) && fresh(c.st) && fresh(c.buf)
      invariant c.Absorbed() == Concat(chunks[..i])
    {
      ConcatSnoc(chunks, i);
      c.Update(chunks[i]);
    }
    assert chunks[..|chunks|] == chunks;
    d := c.Final();
  }
}
