/** Transactions, headers and blocks: byte layout, ids, writers and parsers
    (src/core.h:9-110). */
module Codec {
  import opened Basics

  const CL_VERSION: u32 := 1
  const MAX_PAYLOAD := 1024
  const MAX_BLOCK_TXS := 5000
  const MAX_TIME_SKEW_S := 7200
  const HEADER_SIZE := 100
  const NONCE_OFFSET := 92

  const TX_COINBASE: byte := 0
  const TX_TRANSFER: byte := 1
  const TX_RECORD: byte := 2

  /** Consensus parameters, together with the three primitives every rule is
      stated over.  Nothing is assumed of `hash`, `verify` or `addrOf`: each
      theorem holds for every choice of them, and a theorem that needs the
      absence of hash collisions names the finite set of strings it needs it on. */
  datatype Net = Net(
    netId: u32,
    bits: u32,
    reward: u64,
    genesisTime: u64,
    hash: Bytes -> H256,
    verify: (Pub64, H256, Sig64) -> bool,
    addrOf: Pub64 -> Addr20
  )

  /** No two different strings of `s` have the same hash. */
  ghost predicate NoCollision(hash: Bytes -> H256, s: set<Bytes>) {
    forall x, y :: x in s && y in s && hash(x) == hash(y) ==> x == y
  }

  lemma {:induction false} Same(hash: Bytes -> H256, s: set<Bytes>, x: Bytes, y: Bytes)
    requires NoCollision(hash, s) && x in s && y in s && hash(x) == hash(y)
    ensures x == y
  {
  }

  datatype Tx = Tx(
    kind: byte,
    netId: u32,
    from: Pub64,
    to: Addr20,
    amount: u64,
    nonce: u64,
    payload: Bytes,
    sig: Sig64
  )

  datatype BlockHeader = BlockHeader(
    version: u32,
    netId: u32,
    prev: H256,
    merkle: H256,
    height: u64,
    time: u64,
    bits: u32,
    nonce: u64
  )

  datatype Block = Block(h: BlockHeader, txs: seq<Tx>)

  // ---------- byte layout ----------

  /** The fixed 107 bytes in front of the payload. */
  function TxHead(t: Tx): (s: Bytes) {
    [t.kind] + LE(t.netId, 4) + t.from + t.to + LE(t.amount, 8) + LE(t.nonce, 8) + LE(|t.payload| % U16, 2)
  }

  /** What the sender signs. */
  function UnsignedTx(t: Tx): Bytes {
    TxHead(t) + t.payload
  }

  function SerTx(t: Tx): Bytes {
    UnsignedTx(t) + t.sig
  }

  function SerHeader(h: BlockHeader): Bytes {
    LE(h.version, 4) + LE(h.netId, 4) + h.prev + h.merkle
    + LE(h.height, 8) + LE(h.time, 8) + LE(h.bits, 4) + LE(h.nonce, 8)
  }

  function SerTxs(txs: seq<Tx>): Bytes {
    if txs == [] then [] else SerTx(txs[0]) + SerTxs(txs[1..])
  }

  function SerBlock(b: Block): Bytes {
    SerHeader(b.h) + LE(|b.txs| % U32, 4) + SerTxs(b.txs)
  }

  function TxId(n: Net, t: Tx): H256 {
    n.hash(SerTx(t))
  }

  function SignHash(n: Net, t: Tx): H256 {
    n.hash(UnsignedTx(t))
  }

  function HeaderHash(n: Net, h: BlockHeader): H256 {
    n.hash(SerHeader(h))
  }

  function TxIds(n: Net, txs: seq<Tx>): (ids: seq<H256>)
    ensures |ids| == |txs|
  {
    seq(|txs|, i requires 0 <= i < |txs| => TxId(n, txs[i]))
  }

  // ---------- what a parser must return ----------

  function U16At(s: Bytes, i: nat): u16
    requires i + 2 <= |s|
  {
    FromLEBound(s[i..i + 2]);
    Pow256Values();
    FromLE(s[i..i + 2])
  }

  function U32At(s: Bytes, i: nat): u32
    requires i + 4 <= |s|
  {
    FromLEBound(s[i..i + 4]);
    Pow256Values();
    FromLE(s[i..i + 4])
  }

  function U64At(s: Bytes, i: nat): u64
    requires i + 8 <= |s|
  {
    FromLEBound(s[i..i + 8]);
    Pow256Values();
    FromLE(s[i..i + 8])
  }

  function ParseTx(s: Bytes): Option<(Tx, Bytes)> {
    if |s| < 107 then None
    else
      var pl := U16At(s, 105);
      if pl > MAX_PAYLOAD || |s| < 171 + pl then None
      else
        Some((Tx(s[0], U32At(s, 1), s[5..69], s[69..89], U64At(s, 89), U64At(s, 97),
                 s[107..107 + pl], s[107 + pl..171 + pl]),
              s[171 + pl..]))
  }

  function ParseHeader(s: Bytes): Option<(BlockHeader, Bytes)> {
    if |s| < HEADER_SIZE then None
    else
      Some((BlockHeader(U32At(s, 0), U32At(s, 4), s[8..40], s[40..72],
                        U64At(s, 72), U64At(s, 80), U32At(s, 88), U64At(s, 92)),
            s[HEADER_SIZE..]))
  }

  function ParseTxs(s: Bytes, k: nat): Option<(seq<Tx>, Bytes)> {
    if k == 0 then Some(([], s))
    else
      match ParseTx(s)
      case None => None
      case Some((t, rest)) =>
        match ParseTxs(rest, k - 1)
        case None => None
        case Some((ts, rest')) => Some(([t] + ts, rest'))
  }

  function ParseBlock(raw: Bytes): Option<Block> {
    if |raw| < HEADER_SIZE + 4 || U32At(raw, HEADER_SIZE) > MAX_BLOCK_TXS then None
    else
      match ParseTxs(raw[HEADER_SIZE + 4..], U32At(raw, HEADER_SIZE))
      case Some((ts, rest)) => if rest == [] then Some(Block(ParseHeader(raw).value.0, ts)) else None
      case None => None
  }

  // ---------- round trips ----------

  lemma {:induction false} TxHeadAt(t: Tx, tail: Bytes)
    ensures |TxHead(t)| == 107
    ensures var s := TxHead(t) + tail;
            && s[0] == t.kind && s[1..5] == LE(t.netId, 4) && s[5..69] == t.from && s[69..89] == t.to
            && s[89..97] == LE(t.amount, 8) && s[97..105] == LE(t.nonce, 8)
            && s[105..107] == LE(|t.payload| % U16, 2) && s[107..] == tail
  {
  }

  /** Domain separation: inner nodes of the tree hash 64 bytes, headers 100, transactions 171 or more. */
  lemma {:induction false} HeaderLength(h: BlockHeader)
    ensures |SerHeader(h)| == HEADER_SIZE
  {
  }

  lemma {:induction false} TxLength(t: Tx)
    ensures |SerTx(t)| == 171 + |t.payload|
  {
  }

  lemma {:induction false} Body(a: Bytes, b: Bytes, c: Bytes, d: Bytes)
    ensures var s := a + b + c + d;
            && s == a + (b + c + d)
            && s[|a|..|a| + |b|] == b
            && s[|a| + |b|..|a| + |b| + |c|] == c
            && s[|a| + |b| + |c|..] == d
  {
  }

  lemma {:induction false} TxFields(t: Tx)
    ensures FromLE(LE(t.netId, 4)) == t.netId && FromLE(LE(t.amount, 8)) == t.amount
    ensures FromLE(LE(t.nonce, 8)) == t.nonce && FromLE(LE(|t.payload| % U16, 2)) == |t.payload| % U16
  {
    Pow256Values();
    FromLEOfLE(t.netId, 4);
    FromLEOfLE(t.amount, 8);
    FromLEOfLE(t.nonce, 8);
    FromLEOfLE(|t.payload| % U16, 2);
  }

  lemma {:induction false} TxRoundTrip(t: Tx, tail: Bytes)
    requires |t.payload| <= MAX_PAYLOAD
    ensures ParseTx(SerTx(t) + tail) == Some((t, tail))
  {
    hide LE, FromLE, TxHead;
    Body(TxHead(t), t.payload, t.sig, tail);
    TxHeadAt(t, t.payload + t.sig + tail);
    TxFields(t);
    Pow256Values();
  }

  lemma {:induction false} HeadPieces(s: Bytes)
    requires |s| >= 107
    ensures [s[0]] + s[1..5] + s[5..69] + s[69..89] + s[89..97] + s[97..105] + s[105..107] == s[..107]
  {
  }

  lemma {:induction false} BodyPieces(s: Bytes, pl: nat)
    requires |s| >= 171 + pl
    ensures s[..107] + s[107..107 + pl] + s[107 + pl..171 + pl] + s[171 + pl..] == s
  {
  }

  /** Whatever a transaction parser accepts is the encoding of what it returns. */
  lemma {:induction false} TxCanonical(s: Bytes)
    requires ParseTx(s).Some?
    ensures var (t, rest) := ParseTx(s).value;
            s == SerTx(t) + rest && |t.payload| <= MAX_PAYLOAD
  {
    hide LE, FromLE;
    var (t, rest) := ParseTx(s).value;
    var pl := |t.payload|;
    LEOfFromLE(s[1..5]);
    LEOfFromLE(s[89..97]);
    LEOfFromLE(s[97..105]);
    LEOfFromLE(s[105..107]);
    HeadPieces(s);
    assert TxHead(t) == s[..107];
    BodyPieces(s, pl);
  }

  lemma {:induction false} HeaderAt(h: BlockHeader, tail: Bytes)
    ensures |SerHeader(h)| == HEADER_SIZE
    ensures var s := SerHeader(h) + tail;
            && s[0..4] == LE(h.version, 4) && s[4..8] == LE(h.netId, 4) && s[8..40] == h.prev
            && s[40..72] == h.merkle && s[72..80] == LE(h.height, 8) && s[80..88] == LE(h.time, 8)
            && s[88..92] == LE(h.bits, 4) && s[92..100] == LE(h.nonce, 8) && s[100..] == tail
  {
  }

  lemma {:induction false} HeaderRoundTrip(h: BlockHeader, tail: Bytes)
    ensures ParseHeader(SerHeader(h) + tail) == Some((h, tail))
  {
    hide LE, FromLE, SerHeader;
    HeaderAt(h, tail);
    Pow256Values();
    FromLEOfLE(h.version, 4);
    FromLEOfLE(h.netId, 4);
    FromLEOfLE(h.height, 8);
    FromLEOfLE(h.time, 8);
    FromLEOfLE(h.bits, 4);
    FromLEOfLE(h.nonce, 8);
  }

  lemma {:induction false} HeaderAccepts(s: Bytes)
    ensures ParseHeader(s).Some? <==> |s| >= HEADER_SIZE
    ensures ParseHeader(s).Some? ==> ParseHeader(s).value.1 == s[HEADER_SIZE..]
  {
  }

  lemma {:induction false} HeaderPieces(s: Bytes)
    requires |s| >= 100
    ensures s[0..4] + s[4..8] + s[8..40] + s[40..72] + s[72..80] + s[80..88] + s[88..92] + s[92..100] == s[..100]
    ensures s[..100] + s[100..] == s
  {
  }

  lemma {:induction false} HeaderCanonical(s: Bytes)
    requires ParseHeader(s).Some?
    ensures var (h, rest) := ParseHeader(s).value;
            s == SerHeader(h) + rest
  {
    hide LE, FromLE;
    var (h, rest) := ParseHeader(s).value;
    LEOfFromLE(s[0..4]);
    LEOfFromLE(s[4..8]);
    LEOfFromLE(s[72..80]);
    LEOfFromLE(s[80..88]);
    LEOfFromLE(s[88..92]);
    LEOfFromLE(s[92..100]);
    HeaderPieces(s);
    assert SerHeader(h) == s[..100];
  }

  /** A header and a transaction are each determined by their bytes. */
  lemma {:induction false} EncodingInjective(h1: BlockHeader, h2: BlockHeader, t1: Tx, t2: Tx)
    requires |t1.payload| <= MAX_PAYLOAD && |t2.payload| <= MAX_PAYLOAD
    ensures SerHeader(h1) == SerHeader(h2) ==> h1 == h2
    ensures SerTx(t1) == SerTx(t2) ==> t1 == t2
  {
    HeaderRoundTrip(h1, []);
    HeaderRoundTrip(h2, []);
    TxRoundTrip(t1, []);
    TxRoundTrip(t2, []);
  }

  /** A signature covers everything but itself: two transactions with the same sign hash
      differ in nothing else, unless the strings that are signed collide. */
  lemma {:induction false} SignHashBinds(n: Net, a: Tx, b: Tx)
    requires |a.payload| <= MAX_PAYLOAD && |b.payload| <= MAX_PAYLOAD
    requires SignHash(n, a) == SignHash(n, b) && NoCollision(n.hash, {UnsignedTx(a), UnsignedTx(b)})
    ensures a.(sig := b.sig) == b
  {
    hide UnsignedTx, ParseTx;
    Same(n.hash, {UnsignedTx(a), UnsignedTx(b)}, UnsignedTx(a), UnsignedTx(b));
    var c := a.(sig := b.sig);
    SigAside(a, b.sig);
    assert SerTx(c) == SerTx(b);
    TxRoundTrip(c, []);
    TxRoundTrip(b, []);
  }

  lemma {:induction false} SigAside(t: Tx, sig: Sig64)
    ensures UnsignedTx(t.(sig := sig)) == UnsignedTx(t)
  {
  }

  /** The limits under which a block survives its own encoding. */
  predicate Encodable(b: Block) {
    |b.txs| <= MAX_BLOCK_TXS && forall i :: 0 <= i < |b.txs| ==> |b.txs[i].payload| <= MAX_PAYLOAD
  }

  lemma {:induction false} TxsRoundTrip(txs: seq<Tx>, tail: Bytes)
    requires forall i :: 0 <= i < |txs| ==> |txs[i].payload| <= MAX_PAYLOAD
    ensures ParseTxs(SerTxs(txs) + tail, |txs|) == Some((txs, tail))
  {
    if txs == [] {
      assert SerTxs(txs) + tail == tail;
    } else {
      assert SerTxs(txs) + tail == SerTx(txs[0]) + (SerTxs(txs[1..]) + tail);
      TxRoundTrip(txs[0], SerTxs(txs[1..]) + tail);
      TxsRoundTrip(txs[1..], tail);
      assert [txs[0]] + txs[1..] == txs;
    }
  }

  lemma {:induction false} TxsCanonical(s: Bytes, k: nat)
    requires ParseTxs(s, k).Some?
    ensures var (ts, rest) := ParseTxs(s, k).value;
            && |ts| == k && s == SerTxs(ts) + rest
            && forall i :: 0 <= i < k ==> |ts[i].payload| <= MAX_PAYLOAD
    decreases k
  {
    hide ParseTx, SerTx;
    if k == 0 {
      assert s == SerTxs([]) + s;
    } else {
      TxCanonical(s);
      var (t, rest) := ParseTx(s).value;
      TxsCanonical(rest, k - 1);
      var (ts, rest') := ParseTxs(rest, k - 1).value;
      assert ([t] + ts)[1..] == ts;
      assert SerTx(t) + (SerTxs(ts) + rest') == SerTx(t) + SerTxs(ts) + rest';
    }
  }

  lemma {:induction false} EncodableRoundTrip(b: Block)
    requires Encodable(b)
    ensures ParseBlock(SerBlock(b)) == Some(b)
  {
    hide SerHeader, ParseHeader, SerTxs, ParseTxs, LE, FromLE;
    var hd, count, body := SerHeader(b.h), LE(|b.txs| % U32, 4), SerTxs(b.txs);
    var raw := SerBlock(b);
    assert raw == hd + (count + body);
    HeaderLength(b.h);
    HeaderRoundTrip(b.h, count + body);
    assert raw[100..104] == count;
    assert raw[104..] == body;
    assert body + [] == body;
    Pow256Values();
    FromLEOfLE(|b.txs|, 4);
    TxsRoundTrip(b.txs, []);
    assert U32At(raw, HEADER_SIZE) == |b.txs|;
  }

  /** `Block::parse` inverts `serialize` on exactly the encodable blocks. */
  lemma {:induction false} BlockRoundTrip(b: Block)
    ensures ParseBlock(SerBlock(b)) == Some(b) <==> Encodable(b)
  {
    hide ParseBlock, SerBlock;
    if Encodable(b) {
      EncodableRoundTrip(b);
    } else if ParseBlock(SerBlock(b)) == Some(b) {
      ParsedIsEncodable(SerBlock(b));
    }
  }

  lemma {:induction false} ParsedIsEncodable(raw: Bytes)
    requires ParseBlock(raw).Some?
    ensures Encodable(ParseBlock(raw).value)
  {
    TxsCanonical(raw[HEADER_SIZE + 4..], U32At(raw, HEADER_SIZE));
  }

  /** Any bytes accepted as a block re-serialize to themselves. */
  lemma {:induction false} BlockCanonical(raw: Bytes)
    requires ParseBlock(raw).Some?
    ensures SerBlock(ParseBlock(raw).value) == raw
  {
    hide SerHeader, ParseHeader, SerTxs, ParseTxs, LE, FromLE;
    var b := ParseBlock(raw).value;
    var k := U32At(raw, HEADER_SIZE);
    HeaderAccepts(raw);
    HeaderCanonical(raw);
    TxsCanonical(raw[104..], k);
    LEOfFromLE(raw[100..104]);
    assert raw[..100] + raw[100..104] + raw[104..] == raw;
  }

  /** The miner's in-place patch of bytes 92..99 serializes the header with that nonce. */
  lemma {:induction false} PatchNonce(h: BlockHeader, nonce: u64)
    ensures SerHeader(h)[..NONCE_OFFSET] + LE(nonce, 8) == SerHeader(h.(nonce := nonce))
  {
    var front := LE(h.version, 4) + LE(h.netId, 4) + h.prev + h.merkle
                 + LE(h.height, 8) + LE(h.time, 8) + LE(h.bits, 4);
    assert SerHeader(h) == front + LE(h.nonce, 8);
  }

  // ---------- the source's writers and parsers ----------

  lemma {:induction false} Assoc(a: Bytes, b: Bytes, c: Bytes)
    ensures (a + b) + c == a + (b + c)
  {
  }

  method WriteTx(w: Writer, t: Tx, withSig: bool)
    modifies w
    ensures w.b == old(w.b) + if withSig then SerTx(t) else UnsignedTx(t)
  {
    ghost var w0 := w.b;
    w.PutU8(t.kind);
    ghost var s := [t.kind];
    w.PutLE(t.netId, 4);
    Assoc(w0, s, LE(t.netId, 4));
    s := s + LE(t.netId, 4);
    w.PutRaw(t.from);
    Assoc(w0, s, t.from);
    s := s + t.from;
    w.PutRaw(t.to);
    Assoc(w0, s, t.to);
    s := s + t.to;
    w.PutLE(t.amount, 8);
    Assoc(w0, s, LE(t.amount, 8));
    s := s + LE(t.amount, 8);
    w.PutLE(t.nonce, 8);
    Assoc(w0, s, LE(t.nonce, 8));
    s := s + LE(t.nonce, 8);
    w.PutU16(|t.payload| % U16);
    Assoc(w0, s, LE(|t.payload| % U16, 2));
    w.PutRaw(t.payload);
    Assoc(w0, TxHead(t), t.payload);
    if withSig {
      w.PutRaw(t.sig);
      Assoc(w0, UnsignedTx(t), t.sig);
    }
  }

  method WriteHeader(w: Writer, h: BlockHeader)
    modifies w
    ensures w.b == old(w.b) + SerHeader(h)
  {
    ghost var w0 := w.b;
    w.PutLE(h.version, 4);
    ghost var s := LE(h.version, 4);
    w.PutLE(h.netId, 4);
    Assoc(w0, s, LE(h.netId, 4));
    s := s + LE(h.netId, 4);
    w.PutRaw(h.prev);
    Assoc(w0, s, h.prev);
    s := s + h.prev;
    w.PutRaw(h.merkle);
    Assoc(w0, s, h.merkle);
    s := s + h.merkle;
    w.PutLE(h.height, 8);
    Assoc(w0, s, LE(h.height, 8));
    s := s + LE(h.height, 8);
    w.PutLE(h.time, 8);
    Assoc(w0, s, LE(h.time, 8));
    s := s + LE(h.time, 8);
    w.PutLE(h.bits, 4);
    Assoc(w0, s, LE(h.bits, 4));
    s := s + LE(h.bits, 4);
    w.PutLE(h.nonce, 8);
    Assoc(w0, s, LE(h.nonce, 8));
  }

  lemma {:induction false} SerTxsSnoc(txs: seq<Tx>, i: nat)
    requires i < |txs|
    ensures SerTxs(txs[..i + 1]) == SerTxs(txs[..i]) + SerTx(txs[i])
  {
    hide SerTx;
    if i == 0 {
      assert txs[..1][1..] == [];
    } else {
      SerTxsSnoc(txs[1..], i - 1);
      assert txs[..i + 1][1..] == txs[1..][..i] && txs[..i][1..] == txs[1..][..i - 1];
    }
  }

  method SerializeBlock(b: Block) returns (raw: Bytes)
    ensures raw == SerBlock(b)
  {
    hide LE, SerHeader, SerTx;
    var w := new Writer();
    WriteHeader(w, b.h);
    w.PutLE(|b.txs| % U32, 4);
    ghost var front := w.b;
    for i := 0 to |b.txs|
      invariant w.b == front + SerTxs(b.txs[..i])
    {
      WriteTx(w, b.txs[i], true);
      SerTxsSnoc(b.txs, i);
    }
    assert b.txs[..|b.txs|] == b.txs;
    raw := w.b;
  }

  /** `ParseTx` and `ParseHeader` of the bytes from a cursor on, in terms of the whole buffer. */
  lemma {:induction false} TxAtCursor(p: Bytes, o: nat)
    requires o + 107 <= |p|
    ensures U16At(p[o..], 105) == U16At(p, o + 105)
    ensures var pl := U16At(p, o + 105);
            ParseTx(p[o..]) ==
            if pl > MAX_PAYLOAD || |p| < o + 171 + pl then None
            else
              Some((Tx(p[o], U32At(p, o + 1), p[o + 5..o + 69], p[o + 69..o + 89], U64At(p, o + 89), U64At(p, o + 97),
                       p[o + 107..o + 107 + pl], p[o + 107 + pl..o + 171 + pl]),
                    p[o + 171 + pl..]))
  {
    hide LE, FromLE;
    var s := p[o..];
    assert s[1..5] == p[o + 1..o + 5];
    assert s[89..97] == p[o + 89..o + 97];
    assert s[97..105] == p[o + 97..o + 105];
    assert s[105..107] == p[o + 105..o + 107];
    assert s[5..69] == p[o + 5..o + 69] && s[69..89] == p[o + 69..o + 89];
    var pl := U16At(p, o + 105);
    if o + 171 + pl <= |p| {
      assert s[107..107 + pl] == p[o + 107..o + 107 + pl];
      assert s[107 + pl..171 + pl] == p[o + 107 + pl..o + 171 + pl];
      assert s[171 + pl..] == p[o + 171 + pl..];
    }
  }

  lemma {:induction false} HeaderAtCursor(p: Bytes, o: nat)
    requires o + HEADER_SIZE <= |p|
    ensures ParseHeader(p[o..]) ==
            Some((BlockHeader(U32At(p, o), U32At(p, o + 4), p[o + 8..o + 40], p[o + 40..o + 72],
                              U64At(p, o + 72), U64At(p, o + 80), U32At(p, o + 88), U64At(p, o + 92)),
                  p[o + HEADER_SIZE..]))
  {
    hide LE, FromLE;
    var s := p[o..];
    assert s[0..4] == p[o..o + 4];
    assert s[4..8] == p[o + 4..o + 8];
    assert s[72..80] == p[o + 72..o + 80];
    assert s[80..88] == p[o + 80..o + 88];
    assert s[88..92] == p[o + 88..o + 92];
    assert s[92..100] == p[o + 92..o + 100];
    assert s[8..40] == p[o + 8..o + 40] && s[40..72] == p[o + 40..o + 72] && s[100..] == p[o + 100..];
  }

  lemma {:induction false} ShortTx(s: Bytes)
    ensures |s| < 107 ==> ParseTx(s).None?
  {
  }

  /** The fields in front of the payload. */
  datatype TxFront = TxFront(kind: byte, netId: u32, from: Pub64, to: Addr20, amount: u64, nonce: u64, payloadLen: u16)

  function FrontAt(p: Bytes, o: nat): TxFront
    requires o + 107 <= |p|
  {
    TxFront(p[o], U32At(p, o + 1), p[o + 5..o + 69], p[o + 69..o + 89], U64At(p, o + 89), U64At(p, o + 97),
            U16At(p, o + 105))
  }

  method ReadTxFront(r: Reader) returns (f: Option<TxFront>)
    requires r.Valid()
    modifies r
    ensures r.Valid()
    ensures f.Some? <==> old(r.off) + 107 <= |r.p|
    ensures f.Some? ==> f.value == FrontAt(r.p, old(r.off)) && r.off == old(r.off) + 107
  {
    hide LE, FromLE;
    Pow256Values();
    var kind := r.GetRaw(1);
    if kind.None? { return None; }
    var netId := r.GetLE(4);
    if netId.None? { return None; }
    var from := r.GetRaw(64);
    if from.None? { return None; }
    var to := r.GetRaw(20);
    if to.None? { return None; }
    var amount := r.GetLE(8);
    if amount.None? { return None; }
    var nonce := r.GetLE(8);
    if nonce.None? { return None; }
    var pl := r.GetLE(2);
    if pl.None? { return None; }
    f := Some(TxFront(kind.value[0], netId.value, from.value, to.value, amount.value, nonce.value, pl.value));
  }

  method ReadTx(r: Reader) returns (t: Option<Tx>)
    requires r.Valid()
    modifies r
    ensures r.Valid()
    ensures t.Some? <==> ParseTx(old(r.Rest())).Some?
    ensures t.Some? ==> ParseTx(old(r.Rest())).value == (t.value, r.Rest())
  {
    hide LE, FromLE, ParseTx, U16At, U32At, U64At;
    ShortTx(r.Rest());
    var front := ReadTxFront(r);
    if front.None? { return None; }
    var f := front.value;
    TxAtCursor(r.p, old(r.off));
    if f.payloadLen > MAX_PAYLOAD { return None; }
    var payload := r.GetRaw(f.payloadLen);
    if payload.None? { return None; }
    var sig := r.GetRaw(64);
    if sig.None? { return None; }
    t := Some(Tx(f.kind, f.netId, f.from, f.to, f.amount, f.nonce, payload.value, sig.value));
  }

  method ReadHeader(r: Reader) returns (h: Option<BlockHeader>)
    requires r.Valid()
    modifies r
    ensures r.Valid()
    ensures h.Some? <==> ParseHeader(old(r.Rest())).Some?
    ensures h.Some? ==> ParseHeader(old(r.Rest())).value == (h.value, r.Rest())
  {
    hide LE, FromLE;
    Pow256Values();
    var version := r.GetLE(4);
    if version.None? { return None; }
    var netId := r.GetLE(4);
    if netId.None? { return None; }
    var prev := r.GetRaw(32);
    if prev.None? { return None; }
    var merkle := r.GetRaw(32);
    if merkle.None? { return None; }
    var height := r.GetLE(8);
    if height.None? { return None; }
    var time := r.GetLE(8);
    if time.None? { return None; }
    var bits := r.GetLE(4);
    if bits.None? { return None; }
    var nonce := r.GetLE(8);
    if nonce.None? { return None; }
    HeaderAtCursor(r.p, old(r.off));
    h := Some(BlockHeader(version.value, netId.value, prev.value, merkle.value,
                          height.value, time.value, bits.value, nonce.value));
  }

  /** `k` parses in a row, seen from the first `i` of them. */
  lemma {:induction false} ParseTxsSplit(s: Bytes, i: nat, k: nat)
    requires i <= k
    ensures ParseTxs(s, i).None? ==> ParseTxs(s, k).None?
    ensures ParseTxs(s, i).Some? ==>
              var (ts, rest) := ParseTxs(s, i).value;
              ParseTxs(s, k) == match ParseTxs(rest, k - i)
                                case None => None
                                case Some((us, rest')) => Some((ts + us, rest'))
    decreases k
  {
    hide ParseTx;
    if i > 0 {
      match ParseTx(s)
      case None =>
      case Some((t, rest)) =>
        ParseTxsSplit(rest, i - 1, k - 1);
        if ParseTxs(rest, i - 1).Some? {
          var (ts, rest') := ParseTxs(rest, i - 1).value;
          if ParseTxs(rest', k - i).Some? {
            var (us, _) := ParseTxs(rest', k - i).value;
            assert [t] + (ts + us) == [t] + ts + us;
          }
        }
    } else if ParseTxs(s, k).Some? {
      assert [] + ParseTxs(s, k).value.0 == ParseTxs(s, k).value.0;
    }
  }

  method ParseBlockBytes(raw: Bytes) returns (b: Option<Block>)
    ensures b == ParseBlock(raw)
  {
    hide LE, FromLE, ParseTx, ParseHeader, ParseTxs;
    HeaderAccepts(raw);
    var r := new Reader(raw);
    assert r.Rest() == raw;
    var h := ReadHeader(r);
    if h.None? { return None; }
    Pow256Values();
    var n := r.GetLE(4);
    if n.None? { return None; }
    assert n.value == U32At(raw, HEADER_SIZE) && r.Rest() == raw[104..];
    if n.value > MAX_BLOCK_TXS { return None; }
    var txs := ReadTxs(r, n.value);
    if txs.None? { return None; }
    var left := r.Remaining();
    if left != 0 { return None; }
    b := Some(Block(h.value, txs.value));
  }

  /** The parser's loop over the `n` announced transactions. */
  method ReadTxs(r: Reader, n: nat) returns (txs: Option<seq<Tx>>)
    requires r.Valid()
    modifies r
    ensures r.Valid()
    ensures txs.Some? <==> ParseTxs(old(r.Rest()), n).Some?
    ensures txs.Some? ==> ParseTxs(old(r.Rest()), n).value == (txs.value, r.Rest())
  {
    hide ParseTx;
    ghost var s := r.Rest();
    var ts: seq<Tx> := [];
    for i := 0 to n
      invariant r.Valid() && ParseTxs(s, i) == Some((ts, r.Rest()))
    {
      ParseTxsSplit(s, i, i + 1);
      ParseTxsSplit(s, i, n);
      ghost var rest := r.Rest();
      assert ParseTxs(rest, 1) == match ParseTx(rest)
                                  case None => None
                                  case Some((t, rest')) => Some(([t] + [], rest'));
      var t := ReadTx(r);
      if t.None? { return None; }
      assert ts + ([t.value] + []) == ts + [t.value];
      ts := ts + [t.value];
    }
    txs := Some(ts);
  }
}
