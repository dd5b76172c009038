/** The GET_BLOCKS and BLOCKS messages (src/node_impl.h:73-79, 174-205). */
module Batch {
  import opened Basics
  import opened Codec
  import opened ChainRules
  import opened ChainStore
  import opened Node
  import Framing

  const MAX_BATCH := 500

  function Min(a: nat, b: nat): nat {
    if a <= b then a else b
  }

  /** An honest peer's answer to GET_BLOCKS: up to 200 blocks from `start` on. */
  function Serve(p: seq<Block>, start: nat): seq<Block> {
    Slice(p, start, BATCH)
  }

  /** Every batch of `p` fits one frame. */
  ghost predicate BatchesFit(p: seq<Block>) {
    forall start: nat :: |EncodeBatch(Serve(p, start))| <= Framing.MAX_FRAME
  }

  function Request(start: u64): Bytes {
    LE(start, 8) + LE(BATCH, 4)
  }

  /** Up to `count` blocks from `start` on. */
  function Slice(p: seq<Block>, start: nat, count: nat): seq<Block> {
    if start >= |p| then [] else p[start..Min(start + count, |p|)]
  }

  function EncodeBlocks(v: seq<Block>): Bytes {
    if v == [] then []
    else LE(|SerBlock(v[0])| % U32, 4) + SerBlock(v[0]) + EncodeBlocks(v[1..])
  }

  function EncodeBatch(v: seq<Block>): Bytes {
    LE(|v| % U32, 4) + EncodeBlocks(v)
  }

  function ParseBlocks(s: Bytes, k: nat): Option<seq<Block>>
    decreases k
  {
    if k == 0 then Some([])
    else if |s| < 4 || |s| < 4 + U32At(s, 0) then None
    else
      var len := U32At(s, 0);
      match ParseBlock(s[4..4 + len])
      case None => None
      case Some(b) =>
        match ParseBlocks(s[4 + len..], k - 1)
        case None => None
        case Some(bs) => Some([b] + bs)
  }

  /** A BLOCKS payload; bytes behind the announced blocks are ignored. */
  function ParseBatch(s: Bytes): Option<seq<Block>> {
    if |s| < 4 || U32At(s, 0) > MAX_BATCH then None else ParseBlocks(s[4..], U32At(s, 0))
  }

  /** What is read is as many blocks as announced, never more than 500. */
  lemma {:induction false} BatchCounts(s: Bytes)
    requires ParseBatch(s).Some?
    ensures |s| >= 4 && |ParseBatch(s).value| == U32At(s, 0) <= 500
  {
    hide U32At, ParseBlocks;
    BlocksCounted(s[4..], U32At(s, 0));
  }

  lemma {:induction false} BlocksCounted(s: Bytes, k: nat)
    requires ParseBlocks(s, k).Some?
    ensures |ParseBlocks(s, k).value| == k
    decreases k
  {
    hide U32At, ParseBlock;
    if k > 0 {
      BlocksCounted(s[4 + U32At(s, 0)..], k - 1);
    }
  }

  lemma {:induction false} NumberAt(v: u32, rest: Bytes)
    ensures var s := LE(v, 4) + rest;
            |s| >= 4 && U32At(s, 0) == v && s[4..] == rest
  {
    Pow256Values();
    FromLEOfLE(v, 4);
    hide LE, FromLE;
    assert (LE(v, 4) + rest)[0..4] == LE(v, 4);
  }

  lemma {:induction false} BlocksParse(v: seq<Block>)
    requires forall i :: 0 <= i < |v| ==> Encodable(v[i]) && |SerBlock(v[i])| < U32
    ensures ParseBlocks(EncodeBlocks(v), |v|) == Some(v)
    decreases |v|
  {
    hide LE, FromLE, U32At, SerBlock, ParseBlock, Encodable;
    if v != [] {
      var raw, rest := SerBlock(v[0]), EncodeBlocks(v[1..]);
      var s := EncodeBlocks(v);
      assert s == LE(|raw|, 4) + (raw + rest);
      NumberAt(|raw|, raw + rest);
      assert s[4..4 + |raw|] == raw && s[4 + |raw|..] == rest;
      EncodableRoundTrip(v[0]);
      BlocksParse(v[1..]);
      assert [v[0]] + v[1..] == v;
    }
  }

  /** What a node serves from a valid chain arrives as the same blocks. */
  lemma {:induction false} ServedArrives(n: Net, p: seq<Block>, start: nat)
    requires ValidChain(n, p)
    requires |EncodeBatch(Serve(p, start))| < U32
    ensures ParseBatch(EncodeBatch(Serve(p, start))) == Some(Serve(p, start))
  {
    hide ValidChain, LE, FromLE, U32At, SerBlock, Encodable, EncodeBlocks, ParseBlocks;
    var v := Serve(p, start);
    forall i | 0 <= i < |v|
      ensures Encodable(v[i]) && |SerBlock(v[i])| < U32
    {
      ChainBlockEncodable(n, p, start + i);
      BatchHolds(v, i);
    }
    NumberAt(|v|, EncodeBlocks(v));
    BlocksParse(v);
  }

  lemma {:induction false} ChainBlockEncodable(n: Net, p: seq<Block>, k: nat)
    requires ValidChain(n, p) && k < |p|
    ensures Encodable(p[k])
  {
    hide ValidChain, Before, StateOf;
    ExtendsRun(n, p, k);
    forall j | 0 <= j < |p[k].txs|
      ensures |p[k].txs[j].payload| <= MAX_PAYLOAD
    {
      NonceOnChain(n, p, k, j);
    }
  }

  lemma {:induction false} BatchHolds(v: seq<Block>, i: nat)
    requires i < |v|
    ensures |SerBlock(v[i])| <= |EncodeBlocks(v)|
    decreases |v|
  {
    hide SerBlock, LE;
    if i > 0 {
      BatchHolds(v[1..], i - 1);
    }
  }

  // ---------- the source's loops ----------

  lemma {:induction false} EncodeSnoc(v: seq<Block>, i: nat)
    requires i < |v|
    ensures EncodeBlocks(v[..i + 1]) == EncodeBlocks(v[..i]) + LE(|SerBlock(v[i])| % U32, 4) + SerBlock(v[i])
    decreases i
  {
    hide SerBlock, LE;
    if i == 0 {
      assert v[..1][1..] == [];
    } else {
      EncodeSnoc(v[1..], i - 1);
      assert v[..i + 1][1..] == v[1..][..i] && v[..i][1..] == v[1..][..i - 1];
    }
  }

  /** GET_BLOCKS: a malformed request gets no answer, any other at most 200 blocks. */
  method AnswerGetBlocks(c: Chain, payload: Bytes) returns (reply: Option<Bytes>)
    ensures reply.Some? <==> |payload| >= 12
    ensures reply.Some? ==>
              reply.value == EncodeBatch(Slice(c.blocks, U64At(payload, 0), Min(U32At(payload, 8), BATCH)))
  {
    hide LE, FromLE, SerBlock;
    Pow256Values();
    var r := new Reader(payload);
    var start := r.GetLE(8);
    if start.None? { return None; }
    var cnt := r.GetLE(4);
    if cnt.None? { return None; }
    var count := Min(cnt.value, BATCH);
    var v := Slice(c.blocks, start.value, count);
    var w := new Writer();
    w.PutLE(|v| % U32, 4);
    WriteBlocks(w, v);
    reply := Some(w.b);
  }

  method WriteBlocks(w: Writer, v: seq<Block>)
    modifies w
    ensures w.b == old(w.b) + EncodeBlocks(v)
  {
    hide LE, SerBlock;
    ghost var front := w.b;
    for i := 0 to |v|
      invariant w.b == front + EncodeBlocks(v[..i])
    {
      EncodeSnoc(v, i);
      var raw := SerializeBlock(v[i]);
      w.PutLE(|raw| % U32, 4);
      w.PutRaw(raw);
    }
    assert v[..|v|] == v;
  }

  method ParseBlocksMessage(payload: Bytes) returns (v: Option<seq<Block>>)
    ensures v == ParseBatch(payload)
  {
    hide LE, FromLE, ParseBlock, ParseBlocks;
    Pow256Values();
    var r := new Reader(payload);
    var n := r.GetLE(4);
    if n.None? || n.value > MAX_BATCH { return None; }
    v := ReadBlocks(r, n.value);
  }

  method ReadBlocks(r: Reader, n: nat) returns (v: Option<seq<Block>>)
    requires r.Valid()
    modifies r
    ensures v == ParseBlocks(old(r.Rest()), n)
  {
    hide LE, FromLE, ParseBlock;
    Pow256Values();
    ghost var s := r.Rest();
    var done: seq<Block> := [];
    var i := 0;
    assert PrependAll([], ParseBlocks(s, n)) == ParseBlocks(s, n) by {
      if ParseBlocks(s, n).Some? {
        assert [] + ParseBlocks(s, n).value == ParseBlocks(s, n).value;
      }
    }
    while i < n
      invariant 0 <= i <= n && r.Valid()
      invariant PrependAll(done, ParseBlocks(r.Rest(), n - i)) == ParseBlocks(s, n)
    {
      ghost var rest, o := r.Rest(), r.off;
      var len := r.GetLE(4);
      if len.None? { return None; }
      assert rest[0..4] == r.p[o..o + 4];
      var raw := r.GetRaw(len.value);
      if raw.None? { return None; }
      assert raw.value == rest[4..4 + len.value] && r.Rest() == rest[4 + len.value..];
      var b := ParseBlockBytes(raw.value);
      if b.None? { return None; }
      PrependNext(done, b.value, ParseBlocks(r.Rest(), n - i - 1));
      done := done + [b.value];
      i := i + 1;
    }
    assert done + [] == done;
    v := Some(done);
  }

  lemma {:induction false} PrependNext(front: seq<Block>, b: Block, v: Option<seq<Block>>)
    ensures PrependAll(front, if v.Some? then Some([b] + v.value) else None) == PrependAll(front + [b], v)
  {
    if v.Some? {
      assert front + ([b] + v.value) == front + [b] + v.value;
    }
  }

  function PrependAll(front: seq<Block>, v: Option<seq<Block>>): Option<seq<Block>> {
    if v.Some? then Some(front + v.value) else None
  }

  /** What a node tells its peers of its chain. */
  method TipPayload(c: Chain) returns (payload: Bytes)
    requires c.Valid() && c.blocks != []
    ensures var tip := c.blocks[|c.blocks| - 1].h;
            payload == LE(tip.height, 8) + LE(c.work, 8) + HeaderHash(c.n, tip)
  {
    hide LE, HeaderHash, ValidChain, StateOf, IndexOf, Work;
    var w := new Writer();
    w.PutLE(c.blocks[|c.blocks| - 1].h.height, 8);
    w.PutLE(c.work, 8);
    w.PutRaw(c.hashes[|c.hashes| - 1]);
    payload := w.b;
  }

  /** A TIP from `q`, as our side of any live link understands it. */
  method HearTip(q: Chain, link: Framing.Peer, config: Framing.Config) returns (tip: PeerTip)
    requires q.Valid() && q.blocks != []
    modifies link`link
    ensures tip == PeerTip(q.blocks[|q.blocks| - 1].h.height, q.work)
    ensures link.link.tipHeight == tip.height && link.link.tipWork == tip.work && link.link.dead == old(link.link.dead)
  {
    hide LE, HeaderHash, ValidChain, StateOf, IndexOf, Work, Hashes;
    var payload := TipPayload(q);
    Framing.TipReceived(config, link.link, q.blocks[|q.blocks| - 1].h.height, q.work, payload[16..48]);
    assert payload == LE(q.blocks[|q.blocks| - 1].h.height, 8) + LE(q.work, 8) + payload[16..48];
    var _ := link.Dispatch(config, 2, payload);
    tip := PeerTip(link.link.tipHeight, link.link.tipWork);
  }

  /** A request for `count` blocks is answered with exactly the next `count` of the chain, at
      most 200, as far as there are any. */
  lemma {:induction false} SliceMeans(p: seq<Block>, start: nat, count: nat)
    ensures var v := Slice(p, start, Min(count, BATCH));
            && |v| <= count && |v| <= 200
            && (forall i :: 0 <= i < |v| ==> start + i < |p| && v[i] == p[start + i])
            && (|v| < count && |v| < 200 ==> start + |v| >= |p|)
  {
  }

  method BuildRequest(start: u64) returns (payload: Bytes)
    ensures payload == Request(start)
  {
    hide LE;
    var w := new Writer();
    w.PutLE(start, 8);
    w.PutLE(BATCH, 4);
    payload := w.b;
  }

  /** One exchange of a sync session, in bytes: our request, the peer's answer, our reading of it. */
  method Exchange(q: Chain, start: u64) returns (v: seq<Block>)
    requires q.Valid() && BatchesFit(q.blocks)
    ensures v == Serve(q.blocks, start)
  {
    hide LE, EncodeBatch, ParseBatch, Slice, ValidChain, StateOf, IndexOf, Work, Hashes;
    var request := BuildRequest(start);
    RequestMeans(q.blocks, start);
    var reply := AnswerGetBlocks(q, request);
    ServedArrives(q.n, q.blocks, start);
    var blocks := ParseBlocksMessage(reply.value);
    v := blocks.value;
  }

  /** What a request asks for is what `Serve` names. */
  lemma {:induction false} RequestMeans(p: seq<Block>, start: u64)
    ensures |Request(start)| == 12
    ensures U64At(Request(start), 0) == start && U32At(Request(start), 8) == BATCH
    ensures Slice(p, U64At(Request(start), 0), Min(U32At(Request(start), 8), BATCH)) == Serve(p, start)
  {
    Pow256Values();
    FromLEOfLE(start, 8);
    FromLEOfLE(BATCH, 4);
    hide LE, FromLE;
    assert Request(start)[0..8] == LE(start, 8) && Request(start)[8..12] == LE(BATCH, 4);
  }
}
