/** Grinding nonces: the CPU miner's loop (src/node_impl.h:306-319) and the GPU kernel
    with its hand-padded double hash (src/clminer_gpu.cu:69-128). */
module Mining {
  import opened Basics
  import opened Codec
  import opened Pow
  import Sha256

  // ---------- CPU ----------

  /** The header bytes with the nonce patched in place. */
  method Patch(hdr: array<byte>, nonce: u64)
    requires hdr.Length == HEADER_SIZE
    modifies hdr
    ensures hdr[..] == old(hdr[..NONCE_OFFSET]) + LE(nonce, 8)
  {
    for k := 0 to 8
      invariant hdr[..NONCE_OFFSET + k] == old(hdr[..NONCE_OFFSET]) + LE(nonce, k)
    {
      LESnoc(nonce, k);
      hdr[NONCE_OFFSET + k] := ShiftRight8(nonce, k) % 256;
      assert hdr[..NONCE_OFFSET + k + 1] == hdr[..NONCE_OFFSET + k] + [ShiftRight8(nonce, k) % 256];
    }
    assert hdr[..] == hdr[..NONCE_OFFSET + 8];
  }

  ghost predicate Solves(n: Net, h: BlockHeader, nonce: u64) {
    PowOk(HeaderHash(n, h.(nonce := nonce)), h.bits)
  }

  /** The `i`-th nonce after `start`, in u64. */
  function NthNonce(start: u64, i: nat): u64 {
    (start + i) % U64
  }

  /** Try `tries` consecutive nonces; report the first that solves the header. */
  method Grind(n: Net, h: BlockHeader, start: u64, tries: nat) returns (found: Option<u64>)
    ensures found.Some? ==>
              Solves(n, h, found.value)
              && exists i :: 0 <= i < tries && found.value == NthNonce(start, i)
                             && forall j :: 0 <= j < i ==> !Solves(n, h, NthNonce(start, j))
    ensures found.None? ==> forall j :: 0 <= j < tries ==> !Solves(n, h, NthNonce(start, j))
  {
    hide SerHeader, LE, LeadingZeros;
    HeaderLength(h);
    var w := new Writer();
    WriteHeader(w, h);
    assert [] + SerHeader(h) == SerHeader(h);
    var bytes := w.b;
    var hdr := new byte[HEADER_SIZE](i requires 0 <= i < HEADER_SIZE && |bytes| == HEADER_SIZE => bytes[i]);
    assert hdr[..] == bytes;
    var nonce: u64 := start;
    for i := 0 to tries
      invariant nonce == NthNonce(start, i)
      invariant hdr[..NONCE_OFFSET] == SerHeader(h)[..NONCE_OFFSET]
      invariant forall j :: 0 <= j < i ==> !Solves(n, h, NthNonce(start, j))
    {
      Patch(hdr, nonce);
      PatchNonce(h, nonce);
      var zeros := LeadingZeroBits(n.hash(hdr[..]));
      if zeros >= h.bits {
        return Some(nonce);
      }
      nonce := (nonce + 1) % U64;
      NextNonce(start, i);
    }
    found := None;
  }

  lemma {:induction false} NextNonce(start: u64, i: nat)
    ensures (NthNonce(start, i) + 1) % U64 == NthNonce(start, i + 1)
  {
    var r := NthNonce(start, i);
    if r + 1 < U64 {
      assert start + i + 1 == (start + i) / U64 * U64 + (r + 1);
    } else {
      assert start + i + 1 == ((start + i) / U64 + 1) * U64;
    }
  }

  // ---------- GPU ----------

  method FreshState() returns (st: array<Sha256.Word>)
    ensures fresh(st) && st[..] == Sha256.IV()
  {
    st := new Sha256.Word[8](i requires 0 <= i < 8 => Sha256.IV()[i]);
    assert st[..] == Sha256.IV();
  }

  /** Write `tail` at the front of the block, then a one bit, zeros and the bit length. */
  method LastBlock(blk: array<byte>, tail: Bytes, bits: u64)
    requires blk.Length == 64 && |tail| < 56
    modifies blk
    ensures blk[..] == tail + [0x80] + Zeros(55 - |tail|) + Sha256.BE64(bits)
  {
    hide ShiftRight8;
    var k := |tail|;
    forall i | 0 <= i < k {
      blk[i] := tail[i];
    }
    blk[k] := 0x80;
    forall i | k < i < 56 {
      blk[i] := 0;
    }
    forall i | 0 <= i < 8 {
      blk[56 + i] := ShiftRight8(bits, 7 - i) % 256;
    }
    assert blk[..56] == tail + [0x80] + Zeros(55 - k);
    assert blk[56..] == Sha256.BE64(bits);
    assert blk[..] == blk[..56] + blk[56..];
  }

  /** The kernel's double hash of a 100-byte header equals the general double hash. */
  method Sha256d100(msg: Bytes) returns (out: H256)
    requires |msg| == HEADER_SIZE
    ensures out == Sha256.Hash2(msg)
  {
    hide Sha256.HashBlocks, Sha256.Compressed, Sha256.Digest, Sha256.IV, Sha256.BE64, Sha256.Hash;
    var st := FreshState();
    var blk := new byte[64](i requires 0 <= i < 64 && |msg| == HEADER_SIZE => msg[i]);
    assert blk[..] == msg[..64];
    Sha256.Compress(st, blk);
    LastBlock(blk, msg[64..], 800);
    Sha256.Compress(st, blk);
    HeaderBlocks(msg);
    var dig := Sha256.WriteDigest(st);
    assert dig == Sha256.Hash(msg);
    var st2 := FreshState();
    var blk2 := new byte[64];
    LastBlock(blk2, dig, 256);
    Sha256.Compress(st2, blk2);
    DigestBlocks(dig);
    out := Sha256.WriteDigest(st2);
  }

  lemma {:induction false} HeaderBlocks(msg: Bytes)
    requires |msg| == HEADER_SIZE
    ensures var last := msg[64..] + [0x80] + Zeros(19) + Sha256.BE64(800);
            && |last| == 64
            && Sha256.Hash(msg) == Sha256.Digest(Sha256.Compressed(Sha256.Compressed(Sha256.IV(), msg[..64]), last))
  {
    hide Sha256.Compressed, Sha256.Digest, Sha256.IV, Sha256.BE64;
    var first, last := msg[..64], msg[64..] + [0x80] + Zeros(19) + Sha256.BE64(800);
    assert Sha256.ZeroCount(100) == 19;
    assert Sha256.Padded(msg) == first + last;
    assert [] + first == first;
    Sha256.HashBlocksConcat(Sha256.IV(), [], first);
    Sha256.HashBlocksConcat(Sha256.IV(), first, last);
  }

  lemma {:induction false} DigestBlocks(dig: H256)
    ensures var last := dig + [0x80] + Zeros(23) + Sha256.BE64(256);
            && |last| == 64
            && Sha256.Hash(dig) == Sha256.Digest(Sha256.Compressed(Sha256.IV(), last))
  {
    hide Sha256.Compressed, Sha256.Digest, Sha256.IV, Sha256.BE64;
    var last := dig + [0x80] + Zeros(23) + Sha256.BE64(256);
    assert Sha256.ZeroCount(32) == 23;
    assert Sha256.Padded(dig) == [] + last;
    Sha256.HashBlocksConcat(Sha256.IV(), [], last);
  }

  // ---------- the sweep ----------

  /** The nonce thread `tid` tries in its turn `k`, in u64. */
  function NonceAt(base: u64, stride: nat, tid: nat, k: nat): u64 {
    (base + tid + k * stride) % U64
  }

  lemma {:induction false} OffsetsOrdered(stride: nat, per: nat, tid: nat, k: nat, k': nat)
    requires tid < stride && k < per && k' < k
    ensures k' * stride + stride <= tid + k * stride < stride * per
  {
    MulMono(k' + 1, k, stride);
    MulMono(k + 1, per, stride);
    assert (k + 1) * stride == k * stride + stride && (k' + 1) * stride == k' * stride + stride;
    assert per * stride == stride * per;
  }

  lemma {:induction false} OffsetBound(stride: nat, per: nat, tid: nat, k: nat)
    requires tid < stride && k < per
    ensures tid + k * stride < stride * per
  {
    MulMono(k + 1, per, stride);
    assert (k + 1) * stride == k * stride + stride;
    assert per * stride == stride * per;
  }

  /** One launch tries every nonce of an interval of stride * per nonces exactly once:
      each offset is some thread's, and no two turns try the same nonce. */
  lemma {:induction false} SweepExact(base: u64, stride: nat, per: nat, tid: nat, k: nat, tid': nat, k': nat)
    requires 0 < stride * per <= U64
    requires tid < stride && k < per && tid' < stride && k' < per
    ensures NonceAt(base, stride, tid, k) == NonceAt(base, stride, tid', k') ==> tid == tid' && k == k'
  {
    OffsetBound(stride, per, tid, k);
    OffsetBound(stride, per, tid', k');
    if k' < k {
      OffsetsOrdered(stride, per, tid, k, k');
    } else if k < k' {
      OffsetsOrdered(stride, per, tid', k', k);
    }
    SameResidue(base, tid + k * stride, tid' + k' * stride);
  }

  lemma {:induction false} SameResidue(base: nat, x: nat, y: nat)
    requires x < U64 && y < U64
    ensures (base + x) % U64 == (base + y) % U64 ==> x == y
  {
  }

  lemma {:induction false} SweepCovers(base: u64, stride: nat, per: nat, o: nat)
    requires stride > 0 && o < stride * per
    ensures o % stride < stride && o / stride < per
    ensures NonceAt(base, stride, o % stride, o / stride) == (base + o) % U64
  {
    var k := o / stride;
    assert o == o % stride + k * stride;
    if k >= per {
      MulMono(per, k, stride);
    }
  }

  /** The `int` the kernel compares with. */
  function AsInt(bits: u32): int {
    if bits < U32 / 2 then bits else bits - U32
  }

  /** The kernel's test of a nonce. */
  predicate KernelAccepts(hdr: Bytes, bits: u32, nonce: u64)
    requires |hdr| == HEADER_SIZE
  {
    LeadingZeros(Sha256.Hash2(hdr[..NONCE_OFFSET] + LE(nonce, 8))) >= AsInt(bits)
  }

  /** One thread, no other thread having finished: it stops at its first solving nonce. */
  method KernelThread(hdr: Bytes, bits: u32, base: u64, stride: nat, per: nat, tid: nat) returns (found: Option<u64>)
    requires |hdr| == HEADER_SIZE && tid < stride
    ensures found.Some? ==>
              KernelAccepts(hdr, bits, found.value)
              && exists k :: 0 <= k < per && found.value == NonceAt(base, stride, tid, k)
                             && forall j :: 0 <= j < k ==> !KernelAccepts(hdr, bits, NonceAt(base, stride, tid, j))
    ensures found.None? ==>
              forall k :: 0 <= k < per ==> !KernelAccepts(hdr, bits, NonceAt(base, stride, tid, k))
  {
    hide LE, LeadingZeros, Sha256.Hash2;
    var local := new byte[HEADER_SIZE](i requires 0 <= i < HEADER_SIZE && |hdr| == HEADER_SIZE => hdr[i]);
    assert local[..] == hdr;
    for k := 0 to per
      invariant local[..NONCE_OFFSET] == hdr[..NONCE_OFFSET]
      invariant forall j :: 0 <= j < k ==> !KernelAccepts(hdr, bits, NonceAt(base, stride, tid, j))
    {
      var nonce := NonceAt(base, stride, tid, k);
      Patch(local, nonce);
      var out := Sha256d100(local[..]);
      var zeros := LeadingZeroBits(out);
      if zeros >= AsInt(bits) {
        return Some(nonce);
      }
    }
    found := None;
  }

  /** The network as it runs: ids, proof of work and tree nodes use the double hash. */
  ghost predicate UsesSha256(n: Net) {
    forall m: Bytes :: n.hash(m) == Sha256.Hash2(m)
  }

  /** The kernel and the node agree on a header and nonce exactly for difficulties that fit
      `int`; from 2^31 on the kernel accepts every nonce and the node none. */
  lemma {:induction false} GpuNonceSolves(n: Net, h: BlockHeader, nonce: u64)
    requires UsesSha256(n)
    ensures |SerHeader(h)| == HEADER_SIZE
    ensures (KernelAccepts(SerHeader(h), h.bits, nonce) <==> Solves(n, h, nonce)) <==> h.bits < U32 / 2
    ensures h.bits >= U32 / 2 ==> KernelAccepts(SerHeader(h), h.bits, nonce) && !Solves(n, h, nonce)
  {
    hide LE, LeadingZeros, Sha256.Hash2, SerHeader;
    HeaderLength(h);
    PatchNonce(h, nonce);
    ZerosBracket(HeaderHash(n, h.(nonce := nonce)));
  }
}
