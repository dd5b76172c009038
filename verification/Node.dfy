/** The node: one method per critical section of the P2P handlers, the RPC, the miner
    and the timeout thread (src/node_impl.h).  What a handler sends is its result; what
    `peer_tip` says of a peer is a parameter. */
module Node {
  import opened Basics
  import opened Codec
  import opened Merkle
  import opened Pow
  import opened Ledger
  import opened ChainRules
  import opened Agreement
  import opened ChainStore
  import opened Mempools

  const COLLECT_MAX := 1000
  const BATCH := 200
  const CAND_MAX := 500000
  const CACHE_MAX := 64

  datatype PeerTip = PeerTip(height: u64, work: u64)

  datatype SyncMode = Idle | Extending | Downloading

  /** A block the miner works on, and the value of `tip_seq` it was built under. */
  datatype Job = Job(tipSeq: nat, block: Block)

  datatype TxOutcome = Unparsable | Duplicate | Refused(why: PoolVerdict) | Pending

  datatype WorkOutcome = BadHeader | UnknownWork | Refusal(why: ChainVerdict) | Mined

  /** What `h` must be to head a block on top of `blocks`, nonce and time aside. */
  function HeaderOn(n: Net, blocks: seq<Block>, txs: seq<Tx>, time: u64, nonce: u64): BlockHeader
    requires blocks != []
  {
    BlockHeader(CL_VERSION, n.netId, HeaderHash(n, blocks[|blocks| - 1].h), Root(n, TxIds(n, txs)),
                NextHeight(blocks), time, n.bits, nonce)
  }

  function NextHeight(blocks: seq<Block>): u64
    requires blocks != []
  {
    (blocks[|blocks| - 1].h.height + 1) % U64
  }

  /** The supply after one more block fits u64. */
  ghost predicate SupplyFits(n: Net, blocks: seq<Block>) {
    |blocks| * n.reward < U64
  }

  /** A block body as it is built for the tip of `blocks`: a coinbase, then a run that
      applies to the tip's state. */
  ghost predicate BodyOk(n: Net, blocks: seq<Block>, txs: seq<Tx>)
    requires blocks != []
  {
    && 1 <= |txs| <= COLLECT_MAX + 1
    && txs[0] == Coinbase(n, txs[0].to, NextHeight(blocks))
    && RunOk(n, StateOf(n, blocks), txs[1..], NextHeight(blocks), false)
  }

  /** The payee's own transfers in the body stay covered once the coinbase is applied. */
  ghost predicate BodyPays(n: Net, blocks: seq<Block>, txs: seq<Tx>)
    requires txs != []
  {
    AllCovered(n, StateOf(n, blocks), txs[1..], txs[0].to)
  }

  /** A built body applies exactly when it pays, and it pays while the supply fits u64. */
  lemma {:induction false} BodyApplies(n: Net, blocks: seq<Block>, txs: seq<Tx>)
    requires blocks != [] && BodyOk(n, blocks, txs)
    ensures RunOk(n, StateOf(n, blocks), txs, NextHeight(blocks), true) <==> BodyPays(n, blocks, txs)
    ensures ValidChain(n, blocks) && SupplyFits(n, blocks) ==> BodyPays(n, blocks, txs)
  {
    hide StateOf, ValidChain, RunOk, Coinbase, AllCovered;
    assert txs == [txs[0]] + txs[1..];
    CoinbaseThenRunExact(n, StateOf(n, blocks), txs[1..], txs[0].to, NextHeight(blocks));
    if ValidChain(n, blocks) && SupplyFits(n, blocks) {
      Conservation(n, blocks);
      MulSucc(|blocks| - 1, n.reward);
      MulMono(|blocks| - 1, |blocks|, n.reward);
      SupplyCovers(n, StateOf(n, blocks), txs[1..], txs[0].to, NextHeight(blocks));
    }
  }

  /** `txs` is what the scheduler may pick from pool `m` in state `st`: applicable in that
      order, all from the pool, and none left out that would still apply unless the
      limit is reached. */
  ghost predicate Scheduled(n: Net, m: map<Key, Tx>, st: State, txs: seq<Tx>, height: u64) {
    && |txs| <= COLLECT_MAX
    && RunOk(n, st, txs, height, false)
    && FromPool(n, txs, m)
    && (|txs| < COLLECT_MAX ==> Exhausted(n, m, StateAfter(n, st, txs), height))
  }

  /** The scheduler comes back empty-handed exactly when no pooled transaction applies. */
  lemma {:induction false} EmptyMeansExhausted(n: Net, m: map<Key, Tx>, st: State, txs: seq<Tx>, height: u64)
    requires Scheduled(n, m, st, txs, height)
    ensures txs == [] <==> Exhausted(n, m, st, height)
  {
    hide Verdict, Effect;
    EmptyRun(n, st);
    if txs != [] {
      assert Verdict(n, StateAfter(n, st, txs[..0]), txs[0], height, false).Good?;
      assert txs[..0] == [];
      assert KeyOf(n, txs[0]) in m && m[KeyOf(n, txs[0])] == txs[0];
    }
  }

  ghost predicate CacheOk(n: Net, cache: map<H256, seq<Tx>>, blocks: seq<Block>)
    requires blocks != []
  {
    forall root :: root in cache ==> Root(n, TxIds(n, cache[root])) == root && BodyOk(n, blocks, cache[root])
  }

  /** A body built on `blocks` under a matching header is accepted once the work is done,
      if and only if it pays. */
  lemma {:induction false} BuiltBlockAccepted(n: Net, blocks: seq<Block>, b: Block, now: Clock)
    requires blocks != [] && BodyOk(n, blocks, b.txs)
    requires b.h == HeaderOn(n, blocks, b.txs, b.h.time, b.h.nonce)
    requires PowOk(HeaderHash(n, b.h), n.bits) && b.h.time <= now + MAX_TIME_SKEW_S
    ensures Check(n, blocks, b, now).Connected? <==> BodyPays(n, blocks, b.txs)
  {
    hide HeaderHash, PowOk, Root, RunOk, StateOf, Check, Genesis, BodyPays, Coinbase, ValidChain;
    BodyApplies(n, blocks, b.txs);
    CheckMeansExtends(n, blocks, b, now);
  }

  /** The rejections a header can bring on a cached body: never its root or transactions. */
  predicate HeaderFault(v: ChainVerdict) {
    || v.BadVersion? || v.WrongNetwork? || v.BadHeight? || v.PrevMismatch?
    || v.BadDifficulty? || v.InsufficientWork? || v.TimeTooFar?
  }

  lemma {:induction false} CachedBodyAccepted(n: Net, blocks: seq<Block>, b: Block, now: Clock)
    requires blocks != [] && BodyOk(n, blocks, b.txs)
    requires b.h.merkle == Root(n, TxIds(n, b.txs))
    ensures var v := Check(n, blocks, b, now);
            && (v.Connected? || HeaderFault(v) || v.BadTx?)
            && (BodyPays(n, blocks, b.txs) ==> !v.BadTx?)
            && (!BodyPays(n, blocks, b.txs) ==> !v.Connected?)
  {
    hide HeaderHash, PowOk, Root, StateOf, FirstBad, RunOk, Verdict, StateAfter, BodyPays, Coinbase, ValidChain;
    BodyApplies(n, blocks, b.txs);
    if b.h.height == NextHeight(blocks) {
      FirstBadIsRunOk(n, StateOf(n, blocks), b.txs, b.h.height, 0);
    }
  }

  lemma {:induction false} CollectedBody(n: Net, blocks: seq<Block>, txs: seq<Tx>, payTo: Addr20)
    requires blocks != [] && ValidChain(n, blocks) && |txs| <= COLLECT_MAX
    requires RunOk(n, StateOf(n, blocks), txs, NextHeight(blocks), false)
    ensures var all := [Coinbase(n, payTo, NextHeight(blocks))] + txs;
            && BodyOk(n, blocks, all)
            && (RunOk(n, StateOf(n, blocks), all, NextHeight(blocks), true) <==>
                AllCovered(n, StateOf(n, blocks), txs, payTo))
            && (SupplyFits(n, blocks) ==> RunOk(n, StateOf(n, blocks), all, NextHeight(blocks), true))
  {
    hide StateOf, ValidChain, RunOk, AllCovered;
    var all := [Coinbase(n, payTo, NextHeight(blocks))] + txs;
    assert all[1..] == txs;
    BodyApplies(n, blocks, all);
  }

  lemma {:induction false} ChainNoncesFit(n: Net, blocks: seq<Block>, size: nat)
    requires FitsMemory(blocks) && size <= MAX_POOL
    ensures NoncesFit(StateOf(n, blocks), size)
  {
    hide StateOf, CountFrom, AllTxs;
    forall a: Addr20
      ensures Acct(StateOf(n, blocks), a).nonce + size < U64
    {
      NonceIsSentCount(n, blocks, a);
      CountFromBound(n, AllTxs(blocks), a);
    }
  }

  lemma {:induction false} PoolSize(n: Net, m: map<Key, Tx>, ids: set<H256>)
    requires PoolOk(n, m, ids)
    ensures |m| <= MAX_POOL
  {
  }

  /** No pooled transaction is on the chain. */
  lemma {:induction false} PoolDisjointFromIndex(n: Net, blocks: seq<Block>, m: map<Key, Tx>, ids: set<H256>, k: Key)
    requires ValidChain(n, blocks) && FitsMemory(blocks)
    requires PoolOk(n, m, ids) && Ahead(m, StateOf(n, blocks)) && k in m
    requires NoCollision(n.hash, ChainPre(n, blocks) + {SerTx(m[k])})
    ensures TxId(n, m[k]) !in IndexOf(n, blocks)
  {
    hide ValidChain, FitsMemory, NoCollision, ChainPre, SerTx, TxId, IndexOf, StateOf, Holds;
    var s := ChainPre(n, blocks) + {SerTx(m[k])};
    ChainPreHolds(n, blocks, s);
    assert k == KeyOf(n, m[k]) && WellFormed(n, m[k]);
    UnusedNonceNotIndexed(n, blocks, m[k], s);
  }

  /** `job` was built on the chain of that tip counter in `history`. */
  ghost predicate BuiltOn(n: Net, history: seq<seq<Block>>, job: Job) {
    && job.tipSeq < |history| && history[job.tipSeq] != []
    && BodyOk(n, history[job.tipSeq], job.block.txs)
    && job.block.h == HeaderOn(n, history[job.tipSeq], job.block.txs, job.block.h.time, job.block.h.nonce)
  }

  /** Whatever other threads do while the miner grinds, its job stays prepared. */
  lemma {:induction false} JobsPersist(n: Net, before: seq<seq<Block>>, after: seq<seq<Block>>, job: Job)
    requires BuiltOn(n, before, job) && before <= after
    ensures BuiltOn(n, after, job)
  {
    hide BodyOk, HeaderOn;
  }

  /** Each chain of a history carries more work than the one before it, as long as its work
      fits u64. */
  ghost predicate Rising(n: Net, history: seq<seq<Block>>) {
    forall k :: 0 < k < |history| && WorkFits(n, |history[k]|) ==> Work(n, history[k - 1]) < Work(n, history[k])
  }

  lemma {:induction false} RisingSnoc(n: Net, history: seq<seq<Block>>, b: seq<Block>)
    requires Rising(n, history) && history != []
    requires WorkFits(n, |b|) ==> Work(n, history[|history| - 1]) < Work(n, b)
    ensures Rising(n, history + [b])
  {
    hide Work, WorkFits;
    var all := history + [b];
    forall k | 0 < k < |all| && WorkFits(n, |all[k]|)
      ensures Work(n, all[k - 1]) < Work(n, all[k])
    {
      if k < |history| {
        assert all[k - 1] == history[k - 1] && all[k] == history[k];
      } else {
        assert all[k - 1] == history[k - 1] && all[k] == b;
      }
    }
  }

  lemma {:induction false} LongerRises(n: Net, a: seq<Block>, v: seq<Block>)
    requires a != [] && v != []
    ensures WorkFits(n, |a + v|) ==> Work(n, a) < Work(n, a + v)
  {
    hide Work, WorkFits;
    if WorkFits(n, |a + v|) {
      ShorterFits(n, |a|, |a + v|);
      MoreWorkMeansLonger(n, a + v, a);
    }
  }

  lemma {:induction false} OnlyChain(n: Net, blocks: seq<Block>)
    ensures Rising(n, [blocks])
  {
  }

  /** Along a history whose chains all have work that fits u64, work rises from any chain to
      any later one: no chain comes back. */
  lemma {:induction false} HistoryRises(n: Net, history: seq<seq<Block>>, i: nat, j: nat)
    requires Rising(n, history) && i < j < |history|
    requires forall k :: i < k <= j ==> WorkFits(n, |history[k]|)
    ensures Work(n, history[i]) < Work(n, history[j]) && history[i] != history[j]
    decreases j - i
  {
    hide Work, WorkFits;
    if i < j - 1 {
      HistoryRises(n, history, i, j - 1);
    }
    assert WorkFits(n, |history[j]|);
  }

  /** A pool with no consumed nonce survives a purge whole. */
  lemma {:induction false} NothingToPurge(m: map<Key, Tx>, st: State)
    requires Ahead(m, st)
    ensures Remaining(m, st) == m
  {
  }

  /** Connect the blocks one by one up to the first that does not connect. */
  method ConnectPrefix(chain: Chain, v: seq<Block>, now: Clock) returns (okc: nat)
    requires chain.Valid() && chain.persisting
    modifies chain
    ensures chain.Valid() && chain.persisting
    ensures okc == ConnectedCount(chain.n, old(chain.blocks), v, now) <= |v|
    ensures chain.blocks == old(chain.blocks) + v[..okc]
    ensures old(chain.Stored()) && HeightsExact(chain.blocks) ==> chain.Stored()
    ensures Timely(old(chain.blocks), now) ==> Timely(chain.blocks, now)
  {
    hide Check, ValidChain, StateOf, HeaderHash, IndexOf, Work, Hashes, HeightsExact, Timely, Rows;
    okc := 0;
    ghost var n, c0 := chain.n, chain.blocks;
    while okc < |v|
      invariant okc <= |v|
      invariant chain.Valid() && chain.persisting && chain.blocks == c0 + v[..okc]
      invariant ConnectedCount(n, c0, v, now) == okc + ConnectedCount(n, chain.blocks, v[okc..], now)
      invariant old(chain.Stored()) && HeightsExact(chain.blocks) ==> chain.Stored()
      invariant Timely(c0, now) ==> Timely(chain.blocks, now)
    {
      assert v[okc..][0] == v[okc] && v[okc..][1..] == v[okc + 1..];
      ghost var before := chain.blocks;
      var err := chain.ConnectBlock(v[okc], now);
      if !err.Connected? { break; }
      if HeightsExact(chain.blocks) {
        HeightsOfPrefix(before, [v[okc]]);
      }
      okc := okc + 1;
    }
  }

  class App {
    const n: Net
    const chain: Chain
    const pool: Mempool
    const minerAddr: Addr20
    var tipSeq: nat
    var cache: map<H256, seq<Tx>>
    var syncPeer: int
    var syncMode: SyncMode
    var extendGot: nat
    var cand: seq<Block>
    ghost var history: seq<seq<Block>>   // the chain under each value of tipSeq

    /** The joint invariant of chain, pool, cached work and tip counter. */
    ghost predicate Valid()
      reads this, chain, pool
    {
      && chain.n == n && pool.n == n
      && chain.Valid() && chain.blocks != [] && chain.persisting
      && pool.Valid() && Ahead(pool.m, chain.st)
      && CacheOk(n, cache, chain.blocks)
      && |history| == tipSeq + 1 && history[tipSeq] == chain.blocks && Rising(n, history)
      && (syncPeer == -1 <==> syncMode == Idle)
    }

    /** `job` was built on the chain that `tip_seq` named when it was built. */
    ghost predicate Prepared(job: Job)
      reads this
    {
      BuiltOn(n, history, job)
    }

    constructor (net: Net, c: Chain, addr: Addr20)
      requires c.n == net && c.Valid() && c.blocks != [] && c.persisting
      ensures Valid() && n == net && chain == c && minerAddr == addr && fresh(pool)
      ensures pool.m == map[] && cache == map[] && syncPeer == -1 && history == [c.blocks]
    {
      n, chain, minerAddr := net, c, addr;
      pool := new Mempool(net);
      tipSeq, cache := 0, map[];
      syncPeer, syncMode, extendGot, cand := -1, Idle, 0, [];
      history := [c.blocks];
      new;
      OnlyChain(net, c.blocks);
    }

    // ---------- helpers, called with the lock held ----------

    /** After every chain change; only here does `tip_seq` move. */
    method PostChainChange()
      requires chain.n == n && pool.n == n && chain.Valid() && chain.blocks != [] && chain.persisting && pool.Valid()
      requires |history| == tipSeq + 1 && (syncPeer == -1 <==> syncMode == Idle)
      requires Rising(n, history)
      requires WorkFits(n, |chain.blocks|) ==> Work(n, history[tipSeq]) < Work(n, chain.blocks)
      modifies this`tipSeq, this`cache, this`history, pool
      ensures Valid()
      ensures tipSeq == old(tipSeq) + 1 && cache == map[] && history == old(history) + [chain.blocks]
      ensures pool.m == Remaining(old(pool.m), chain.st)
    {
      hide PoolOk, ValidChain, StateOf, Ahead, Rising, Work, WorkFits, Hashes, IndexOf;
      RisingSnoc(n, history, chain.blocks);
      pool.Purge(chain.st);
      cache := map[];
      tipSeq := tipSeq + 1;
      history := history + [chain.blocks];
    }

    /** Connect one block and follow it up: the part the block handler, the miner's commit and
        `/submitwork` share. */
    method Adopt(b: Block, now: Clock) returns (err: ChainVerdict)
      requires Valid()
      modifies this`tipSeq, this`cache, this`history, chain, pool
      ensures Valid() && old(history) <= history
      ensures err == Check(n, old(chain.blocks), b, now)
      ensures chain.blocks == if err.Connected? then old(chain.blocks) + [b] else old(chain.blocks)
      ensures !err.Connected? ==> cache == old(cache) && chain.work == old(chain.work)
      ensures tipSeq == old(tipSeq) + if chain.blocks == old(chain.blocks) then 0 else 1
      ensures old(chain.Stored()) && Undisputed(n, old(chain.blocks), chain.blocks) ==> chain.Stored()
      ensures Timely(old(chain.blocks), now) ==> Timely(chain.blocks, now)
      ensures pool.m == Remaining(old(pool.m), chain.st)
    {
      hide Check, ValidChain, StateOf, PoolOk, HeaderHash, IndexOf, Work, Ahead, HeightsExact, Timely, Undisputed,
           Rows, Hashes, Remaining, CacheOk, Rising, WorkFits;
      NothingToPurge(pool.m, chain.st);
      err := chain.ConnectBlock(b, now);
      if Undisputed(n, old(chain.blocks), chain.blocks) {
        UndisputedHeights(n, old(chain.blocks), chain.blocks);
      }
      if err.Connected? {
        LongerRises(n, old(chain.blocks), [b]);
        PostChainChange();
      }
    }

    method ResetSync()
      modifies this`syncPeer, this`syncMode, this`extendGot, this`cand
      ensures syncPeer == -1 && syncMode == Idle && extendGot == 0 && cand == []
    {
      syncPeer, syncMode, extendGot, cand := -1, Idle, 0, [];
    }

    /** `request` is the start height of the GET_BLOCKS sent, if any. */
    method MaybeSync(peer: nat, tip: Option<PeerTip>) returns (request: Option<nat>)
      requires Valid()
      modifies this`syncPeer, this`syncMode, this`extendGot, this`cand
      ensures Valid()
      ensures request.Some? <==> old(syncPeer) == -1 && tip.Some? && tip.value.work > chain.work
      ensures request.Some? ==> syncPeer == peer && syncMode == Extending && extendGot == 0 && cand == []
                                && request.value == NextHeight(chain.blocks)
      ensures request.None? ==> unchanged(this)
    {
      hide ValidChain, StateOf, PoolOk, Hashes, IndexOf, Work, Ahead, CacheOk, Rising;
      if syncPeer != -1 { return None; }
      if tip.None? || tip.value.work <= chain.work { return None; }
      syncPeer, syncMode, extendGot, cand := peer, Extending, 0, [];
      request := Some((chain.blocks[|chain.blocks| - 1].h.height + 1) % U64);
    }

    // ---------- P2P ----------

    method OnTip(peer: nat, tip: Option<PeerTip>) returns (request: Option<nat>)
      requires Valid()
      modifies this`syncPeer, this`syncMode, this`extendGot, this`cand
      ensures Valid()
      ensures request.Some? <==> old(syncPeer) == -1 && tip.Some? && tip.value.work > chain.work
      ensures request.Some? ==> syncPeer == peer && syncMode == Extending && extendGot == 0 && cand == []
                                && request.value == NextHeight(chain.blocks)
      ensures request.None? ==> unchanged(this)
    {
      hide ValidChain, StateOf, PoolOk, Hashes, IndexOf, Work, Ahead, CacheOk, Rising;
      request := MaybeSync(peer, tip);
    }

    method OnGone(peer: nat)
      requires Valid()
      modifies this`syncPeer, this`syncMode, this`extendGot, this`cand
      ensures Valid()
      ensures if old(syncPeer) == peer then syncPeer == -1 && cand == [] else unchanged(this)
    {
      hide ValidChain, StateOf, PoolOk, Hashes, IndexOf, Work, Ahead, CacheOk, Rising;
      if peer == syncPeer { ResetSync(); }
    }

    /** The timeout thread may give up on a session at any time. */
    method SyncTimeout(expired: bool)
      requires Valid()
      modifies this`syncPeer, this`syncMode, this`extendGot, this`cand
      ensures Valid()
      ensures if expired && old(syncPeer) != -1 then syncPeer == -1 && cand == [] else unchanged(this)
    {
      hide ValidChain, StateOf, PoolOk, Hashes, IndexOf, Work, Ahead, CacheOk, Rising;
      if syncPeer != -1 && expired { ResetSync(); }
    }

    /** A TX message or a `/submit` body: pooled unless malformed, known or refused. */
    method OfferTx(raw: Bytes) returns (res: TxOutcome)
      requires Valid()
      modifies pool
      ensures Valid()
      ensures res.Unparsable? <==> ParseTx(raw).None? || ParseTx(raw).value.1 != []
      ensures !res.Unparsable? ==>
                var t := ParseTx(raw).value.0;
                && (res.Duplicate? <==> InPool(n, old(pool.m), TxId(n, t)) || TxId(n, t) in chain.txidx)
                && (res.Pending? ==> AddVerdict(n, old(pool.m), old(pool.ids), t, chain.st).Added?)
                && (res.Refused? ==>
                      !res.why.Added? && res.why == AddVerdict(n, old(pool.m), old(pool.ids), t, chain.st))
                && (res.Pending? ==> pool.m == old(pool.m)[KeyOf(n, t) := t])
      ensures !res.Pending? ==> pool.m == old(pool.m)
    {
      hide ParseTx, TxId, PoolOk, InPool, ValidChain, CacheOk, StateOf, AddVerdict, Ahead, Rising;
      var r := new Reader(raw);
      assert r.Rest() == raw;
      var t := ReadTx(r);
      if t.None? { return Unparsable; }
      var left := r.Remaining();
      if left != 0 { return Unparsable; }
      var id := HashTx(n, t.value);
      var pooled := pool.Has(id);
      if pooled || id in chain.txidx { return Duplicate; }
      var v := pool.Add(t.value, chain.st);
      res := if v.Added? then Pending else Refused(v);
    }

    /** A block with this header hash is on the chain. */
    ghost predicate Known(blocks: seq<Block>, b: Block) {
      exists k :: 0 <= k < |blocks| && HeaderHash(n, blocks[k].h) == HeaderHash(n, b.h)
    }

    method OnBlock(peer: nat, raw: Bytes, tip: Option<PeerTip>, now: Clock)
      returns (accepted: bool, request: Option<nat>)
      requires Valid()
      modifies this, chain, pool
      ensures Valid() && old(history) <= history
      ensures accepted ==> ParseBlock(raw).Some? && chain.blocks == old(chain.blocks) + [ParseBlock(raw).value]
      ensures !accepted ==> chain.blocks == old(chain.blocks)
      ensures tipSeq == old(tipSeq) + if chain.blocks == old(chain.blocks) then 0 else 1
      ensures old(chain.Stored()) && Undisputed(n, old(chain.blocks), chain.blocks) ==> chain.Stored()
      ensures Timely(old(chain.blocks), now) ==> Timely(chain.blocks, now)
      ensures pool.m == Remaining(old(pool.m), chain.st)
      ensures accepted <==> ParseBlock(raw).Some? && !Known(old(chain.blocks), ParseBlock(raw).value)
                            && Check(n, old(chain.blocks), ParseBlock(raw).value, now).Connected?
      ensures request.Some? <==>
                && ParseBlock(raw).Some? && !Known(old(chain.blocks), ParseBlock(raw).value) && !accepted
                && ParseBlock(raw).value.h.height > old(chain.blocks)[|old(chain.blocks)| - 1].h.height
                && old(syncPeer) == -1 && tip.Some? && tip.value.work > old(chain.work)
      ensures request.Some? ==> syncPeer == peer && syncMode == Extending && request.value == NextHeight(chain.blocks)
      ensures request.None? ==> syncPeer == old(syncPeer) && syncMode == old(syncMode) && cand == old(cand)
    {
      hide ParseBlock, Check, ValidChain, StateOf, PoolOk, HeaderHash, IndexOf, Work, Ahead, HeightsExact, Timely,
           Undisputed, Rows, Hashes, Remaining, CacheOk, Rising;
      accepted, request := false, None;
      NothingToPurge(pool.m, chain.st);
      var b := ParseBlockBytes(raw);
      if b.None? { return; }
      var id := HashHeader(n, b.value.h);
      var known := chain.HasBlock(id);
      if known { return; }
      var err := Adopt(b.value, now);
      if err.Connected? {
        accepted := true;
      } else if b.value.h.height > chain.blocks[|chain.blocks| - 1].h.height {
        request := MaybeSync(peer, tip);
      }
    }

    /** BLOCKS from `peer`: a session step. */
    method HandleBlocks(peer: nat, v: seq<Block>, tip: Option<PeerTip>, now: Clock) returns (request: Option<nat>)
      requires Valid()
      modifies this, chain, pool
      ensures Valid() && old(history) <= history
      ensures tipSeq == old(tipSeq) + if chain.blocks == old(chain.blocks) then 0 else 1
      ensures old(chain.Stored()) && Undisputed(n, old(chain.blocks), chain.blocks) ==> chain.Stored()
      ensures Timely(old(chain.blocks), now) ==> Timely(chain.blocks, now)
      ensures pool.m == Remaining(old(pool.m), chain.st)
      ensures peer != old(syncPeer) ==> unchanged(this) && unchanged(chain) && unchanged(pool) && request.None?
      ensures peer == old(syncPeer) && old(syncMode) == Extending ==>
                ExtendStep(old(chain.blocks), old(extendGot), v, tip, now, chain.blocks, syncPeer, syncMode,
                    extendGot, cand, request)
                && (syncPeer == peer || syncPeer == -1)
      ensures peer == old(syncPeer) && old(syncMode) == Downloading ==>
                DownloadStep(old(chain.blocks), old(cand), v, tip, now, chain.blocks, syncPeer, syncMode, cand, request)
                && (syncPeer == peer || syncPeer == -1)
    {
      hide Check, ValidChain, StateOf, PoolOk, HeaderHash, IndexOf, Work, ConnectedCount, Ahead, CacheOk, Remaining,
           Timely, ExtendStep, DownloadStep, HeightsExact, Undisputed, Rows, Hashes, Rising;
      if peer != syncPeer {
        NothingToPurge(pool.m, chain.st);
        return None;
      }
      if syncMode == Extending {
        request := ExtendBy(v, tip, now);
      } else {
        request := DownloadMore(v, tip, now);
      }
    }

    /** The session is extending our chain. */
    method ExtendBy(v: seq<Block>, tip: Option<PeerTip>, now: Clock) returns (request: Option<nat>)
      requires Valid() && syncMode == Extending
      modifies this, chain, pool
      ensures Valid() && old(history) <= history && (syncPeer == old(syncPeer) || syncPeer == -1)
      ensures tipSeq == old(tipSeq) + if chain.blocks == old(chain.blocks) then 0 else 1
      ensures old(chain.Stored()) && Undisputed(n, old(chain.blocks), chain.blocks) ==> chain.Stored()
      ensures Timely(old(chain.blocks), now) ==> Timely(chain.blocks, now)
      ensures pool.m == Remaining(old(pool.m), chain.st)
      ensures ExtendStep(old(chain.blocks), old(extendGot), v, tip, now, chain.blocks, syncPeer, syncMode, extendGot,
                cand, request)
    {
      hide Check, ValidChain, StateOf, PoolOk, HeaderHash, IndexOf, Work, ConnectedCount, Ahead, CacheOk, Remaining,
           HeightsExact, Timely, Undisputed, Rows, Hashes, Rising;
      var okc, failed := ConnectAll(v, now);
      if failed && okc == 0 && extendGot == 0 {
        syncMode, cand := Downloading, [];
        return Some(0);
      }
      extendGot := extendGot + okc;
      if tip.Some? && chain.work >= tip.value.work {
        ResetSync();
        return None;
      }
      if okc > 0 && v != [] {
        return Some((chain.blocks[|chain.blocks| - 1].h.height + 1) % U64);
      }
      ResetSync();
      request := None;
    }

    /** The session is downloading the peer's whole chain. */
    method DownloadMore(v: seq<Block>, tip: Option<PeerTip>, now: Clock) returns (request: Option<nat>)
      requires Valid() && syncMode == Downloading
      modifies this, chain, pool
      ensures Valid() && old(history) <= history && (syncPeer == old(syncPeer) || syncPeer == -1)
      ensures tipSeq == old(tipSeq) + if chain.blocks == old(chain.blocks) then 0 else 1
      ensures old(chain.Stored()) && Undisputed(n, old(chain.blocks), chain.blocks) ==> chain.Stored()
      ensures Timely(old(chain.blocks), now) ==> Timely(chain.blocks, now)
      ensures pool.m == Remaining(old(pool.m), chain.st)
      ensures DownloadStep(old(chain.blocks), old(cand), v, tip, now, chain.blocks, syncPeer, syncMode, cand, request)
    {
      hide Check, ValidChain, StateOf, PoolOk, HeaderHash, IndexOf, Work, Ahead, CacheOk, Remaining, Timely,
           HeightsExact, FitsMemory, NoCollision, ChainPre, Rows, Hashes, Rising, WorkFits;
      NothingToPurge(pool.m, chain.st);
      cand := cand + v;
      if |cand| > CAND_MAX {
        ResetSync();
        return None;
      }
      var complete := v == [] || (cand != [] && tip.Some? && cand[|cand| - 1].h.height >= tip.value.height);
      if !complete { return Some(|cand|); }
      var outcome := chain.TryReplace(cand, now);
      if outcome.Replaced? {
        PostChainChange();
      }
      ResetSync();
      request := None;
    }

    /** The extension loop with its `post_chain_change`. */
    method ConnectAll(v: seq<Block>, now: Clock) returns (okc: nat, failed: bool)
      requires Valid()
      modifies this`tipSeq, this`cache, this`history, chain, pool
      ensures Valid() && old(history) <= history
      ensures okc == ConnectedCount(n, old(chain.blocks), v, now)
      ensures okc <= |v| && (failed <==> okc < |v|)
      ensures chain.blocks == old(chain.blocks) + v[..okc]
      ensures okc == 0 ==> cache == old(cache)
      ensures tipSeq == old(tipSeq) + if chain.blocks == old(chain.blocks) then 0 else 1
      ensures old(chain.Stored()) && Undisputed(n, old(chain.blocks), chain.blocks) ==> chain.Stored()
      ensures Timely(old(chain.blocks), now) ==> Timely(chain.blocks, now)
      ensures pool.m == Remaining(old(pool.m), chain.st)
    {
      hide Check, ValidChain, StateOf, PoolOk, HeaderHash, IndexOf, Work, Hashes, Ahead, HeightsExact, Timely,
           Undisputed, Rows, Remaining, CacheOk, Rising, WorkFits;
      NothingToPurge(pool.m, chain.st);
      okc := ConnectPrefix(chain, v, now);
      failed := okc < |v|;
      assert v[..0] == [];
      assert chain.blocks == old(chain.blocks) <==> okc == 0;
      if Undisputed(n, old(chain.blocks), chain.blocks) {
        UndisputedHeights(n, old(chain.blocks), chain.blocks);
      }
      if okc > 0 {
        LongerRises(n, old(chain.blocks), v[..okc]);
        PostChainChange();
      }
    }

    ghost predicate ExtendStep(c0: seq<Block>, got0: nat, v: seq<Block>, tip: Option<PeerTip>, now: Clock,
                               c1: seq<Block>, peer1: int, mode1: SyncMode, got1: nat, cand1: seq<Block>,
                                   request: Option<nat>)
    {
      var okc := ConnectedCount(n, c0, v, now);
      && okc <= |v| && c1 == c0 + v[..okc] && c1 != []
      && if okc == 0 && v != [] && got0 == 0 then
           peer1 != -1 && mode1 == Downloading && cand1 == [] && request == Some(0)
         else if (tip.Some? && Work(n, c1) >= tip.value.work) || okc == 0 then
           peer1 == -1 && request == None
         else
           peer1 != -1 && mode1 == Extending && got1 == got0 + okc && request == Some(NextHeight(c1))
    }

    ghost predicate DownloadStep(c0: seq<Block>, cand0: seq<Block>, v: seq<Block>, tip: Option<PeerTip>, now: Clock,
                                 c1: seq<Block>, peer1: int, mode1: SyncMode, cand1: seq<Block>, request: Option<nat>)
    {
      var all := cand0 + v;
      if |all| > CAND_MAX then
        c1 == c0 && peer1 == -1 && request == None
      else if v != [] && !(all != [] && tip.Some? && all[|all| - 1].h.height >= tip.value.height) then
        c1 == c0 && peer1 != -1 && mode1 == Downloading && cand1 == all && request == Some(|all|)
      else
        && peer1 == -1 && request == None
        && c1 == if all != [] && ValidChain(n, all) && Timely(all, now) && Work(n, all) > Work(n, c0) then all else c0
    }

    // ---------- mining ----------

    /** The body both the CPU miner and `/work` offer. */
    method BuildBody(payTo: Addr20) returns (all: seq<Tx>)
      requires Valid() && FitsMemory(chain.blocks)
      ensures BodyOk(n, chain.blocks, all) && all != []
      ensures all[0] == Coinbase(n, payTo, NextHeight(chain.blocks))
      ensures Scheduled(n, pool.m, chain.st, all[1..], NextHeight(chain.blocks))
    {
      hide ValidChain, StateOf, RunOk, PoolOk, Coinbase, NoncesFit, Rising;
      PoolSize(n, pool.m, pool.ids);
      ChainNoncesFit(n, chain.blocks, |pool.m|);
      var txs := pool.Collect(chain.st, NextHeight(chain.blocks), COLLECT_MAX);
      CollectedBody(n, chain.blocks, txs, payTo);
      all := [Coinbase(n, payTo, NextHeight(chain.blocks))] + txs;
      assert all[1..] == txs;
    }

    /** First critical section of the miner thread: a job unless there is nothing to do. */
    method Prepare(now: Clock, heartbeat: u64) returns (job: Option<Job>)
      requires Valid() && FitsMemory(chain.blocks)
      ensures job.None? <==>
                && Exhausted(n, pool.m, chain.st, NextHeight(chain.blocks))
                && (heartbeat == 0 || now < (chain.blocks[|chain.blocks| - 1].h.time + heartbeat) % U64)
      ensures job.Some? ==>
                var txs := job.value.block.txs;
                && Prepared(job.value) && job.value.tipSeq == tipSeq && job.value.block.h.time == now
                && txs[0] == Coinbase(n, minerAddr, NextHeight(chain.blocks))
                && Scheduled(n, pool.m, chain.st, txs[1..], NextHeight(chain.blocks))
    {
      hide TxId, HeaderHash, Root, ValidChain, BodyOk, Exhausted, PoolOk, Ahead, StateOf, IndexOf, Work, CacheOk,
           Scheduled, Coinbase, Rising;
      var all := BuildBody(minerAddr);
      EmptyMeansExhausted(n, pool.m, chain.st, all[1..], NextHeight(chain.blocks));
      if |all| == 1 && !HeartbeatDue(now, heartbeat) { return None; }
      var ids := HashTxs(n, all);
      var root := MerkleRoot(n, ids);
      var tip := chain.hashes[|chain.hashes| - 1];
      var h := BlockHeader(CL_VERSION, n.netId, tip, root, NextHeight(chain.blocks), now, n.bits, 0);
      job := Some(Job(tipSeq, Block(h, all)));
    }

    predicate HeartbeatDue(now: Clock, heartbeat: u64)
      requires chain.blocks != []
      reads this, chain
    {
      heartbeat > 0 && now >= (chain.blocks[|chain.blocks| - 1].h.time + heartbeat) % U64
    }

    /** Second critical section: commit a found nonce unless the tip moved.  An unmoved tip
        counter means the chain is the one a prepared job was built on, so its block goes in. */
    method Commit(job: Job, nonce: u64, now: Clock) returns (ok: bool)
      requires Valid()
      modifies this`tipSeq, this`cache, this`history, chain, pool
      ensures Valid() && old(history) <= history
      ensures ok ==> job.tipSeq == old(tipSeq)
                     && chain.blocks == old(chain.blocks) + [Block(job.block.h.(nonce := nonce), job.block.txs)]
      ensures !ok ==> chain.blocks == old(chain.blocks) && cache == old(cache)
      ensures tipSeq == old(tipSeq) + if chain.blocks == old(chain.blocks) then 0 else 1
      ensures old(chain.Stored()) && Undisputed(n, old(chain.blocks), chain.blocks) ==> chain.Stored()
      ensures Timely(old(chain.blocks), now) ==> Timely(chain.blocks, now)
      ensures pool.m == Remaining(old(pool.m), chain.st)
      ensures (old(Prepared(job)) && job.tipSeq == old(tipSeq) && job.block.h.time <= now
               && PowOk(HeaderHash(n, job.block.h.(nonce := nonce)), n.bits)) ==>
                && (ok <==> BodyPays(n, old(chain.blocks), job.block.txs))
                && (SupplyFits(n, old(chain.blocks)) ==> ok)
    {
      hide Check, ValidChain, StateOf, PoolOk, HeaderHash, IndexOf, Work, PowOk, Root, RunOk, Ahead, CacheOk,
           BodyPays, Coinbase, SupplyFits, Remaining, Timely, Undisputed, Rows, Hashes, Rising;
      NothingToPurge(pool.m, chain.st);
      if tipSeq != job.tipSeq { return false; }
      var b := Block(job.block.h.(nonce := nonce), job.block.txs);
      if Prepared(job) && job.block.h.time <= now && PowOk(HeaderHash(n, b.h), n.bits) {
        BodyApplies(n, chain.blocks, b.txs);
        BuiltBlockAccepted(n, chain.blocks, b, now);
      }
      var err := Adopt(b, now);
      ok := err.Connected?;
    }

    /** `header` asks for work on body `all`, which alone has joined the cache; a cache
        that had outgrown its limit starts afresh. */
    ghost predicate Offered(payTo: Addr20, now: Clock, all: seq<Tx>, header: Bytes,
                            cache0: map<H256, seq<Tx>>, cache1: map<H256, seq<Tx>>)
      requires chain.blocks != []
      reads this, chain, pool
    {
      && header == SerHeader(HeaderOn(n, chain.blocks, all, now, 0))
      && all != [] && all[0] == Coinbase(n, payTo, NextHeight(chain.blocks))
      && Scheduled(n, pool.m, chain.st, all[1..], NextHeight(chain.blocks))
      && cache1 == (if |cache0| > CACHE_MAX then map[] else cache0)[Root(n, TxIds(n, all)) := all]
    }

    /** `/work`: a header to grind, its body kept under the Merkle root. */
    method GetWork(payTo: Addr20, now: Clock) returns (header: Bytes)
      requires Valid() && FitsMemory(chain.blocks)
      modifies this`cache
      ensures Valid()
      ensures exists all :: Offered(payTo, now, all, header, old(cache), cache)
      ensures |old(cache)| <= 64 ==> forall root :: root in old(cache) ==> root in cache
      ensures |old(cache)| > 64 ==> |cache| == 1
    {
      hide TxId, HeaderHash, Root, ValidChain, BodyOk, StateOf, PoolOk, Ahead, SerHeader, Scheduled, Coinbase,
           IndexOf, Work, Rising;
      var all := BuildBody(payTo);
      var ids := HashTxs(n, all);
      var root := MerkleRoot(n, ids);
      var tip := chain.hashes[|chain.hashes| - 1];
      var h := BlockHeader(CL_VERSION, n.netId, tip, root, NextHeight(chain.blocks), now, n.bits, 0);
      if |cache| > CACHE_MAX { cache := map[]; }
      cache := cache[root := all];
      var w := new Writer();
      WriteHeader(w, h);
      header := w.b;
      assert [] + SerHeader(h) == SerHeader(h);
      assert h == HeaderOn(n, chain.blocks, all, now, 0);
      assert Offered(payTo, now, all, header, old(cache), cache);
    }

    /** `/submitwork`: a header for cached work is refused only for what the header says. */
    method SubmitWork(raw: Bytes, now: Clock) returns (res: WorkOutcome)
      requires Valid()
      modifies this`tipSeq, this`cache, this`history, chain, pool
      ensures Valid() && old(history) <= history
      ensures res.BadHeader? <==> |raw| != HEADER_SIZE
      ensures res.UnknownWork? <==> |raw| == HEADER_SIZE && ParseHeader(raw).value.0.merkle !in old(cache)
      ensures (res.Mined? || res.Refusal?) ==>
                var h := ParseHeader(raw).value.0;
                var b := Block(h, old(cache)[h.merkle]);
                var v := Check(n, old(chain.blocks), b, now);
                && (res.Mined? <==> v.Connected?)
                && (res.Mined? ==> chain.blocks == old(chain.blocks) + [b])
                && (res.Refusal? ==> res.why == v && (HeaderFault(v) || v.BadTx?))
                && (res.Refusal? && (BodyPays(n, old(chain.blocks), b.txs) || SupplyFits(n, old(chain.blocks))) ==>
                      HeaderFault(v))
      ensures !res.Mined? ==> chain.blocks == old(chain.blocks) && cache == old(cache)
      ensures tipSeq == old(tipSeq) + if chain.blocks == old(chain.blocks) then 0 else 1
      ensures old(chain.Stored()) && Undisputed(n, old(chain.blocks), chain.blocks) ==> chain.Stored()
      ensures Timely(old(chain.blocks), now) ==> Timely(chain.blocks, now)
      ensures pool.m == Remaining(old(pool.m), chain.st)
    {
      hide Check, ValidChain, StateOf, PoolOk, HeaderHash, IndexOf, Work, PowOk, Root, RunOk, Ahead, ParseHeader,
           BodyPays, BodyOk, SupplyFits, Remaining, HeaderFault, HeightsExact, Timely, Undisputed, Rows, Hashes,
           Rising, WorkFits;
      NothingToPurge(pool.m, chain.st);
      HeaderAccepts(raw);
      if |raw| != HEADER_SIZE { return BadHeader; }
      var r := new Reader(raw);
      assert r.Rest() == raw;
      var parsed := ReadHeader(r);
      if parsed.None? { return BadHeader; }
      var h := parsed.value;
      if h.merkle !in cache { return UnknownWork; }
      var b := Block(h, cache[h.merkle]);
      BodyApplies(n, chain.blocks, b.txs);
      CachedBodyAccepted(n, chain.blocks, b, now);
      var err := Adopt(b, now);
      res := if err.Connected? then Mined else Refusal(err);
    }
  }

  /** No answer keeps a session going for nothing, whoever the peer is and whatever it sends:
      an empty one ends it, and after any other there is a longer chain, a turn to the
      download, or a longer candidate, which has a limit. */
  lemma {:induction false} AnswersUseUp(app: App, c0: seq<Block>, got0: nat, cand0: seq<Block>, v: seq<Block>,
                                        tip: Option<PeerTip>, now: Clock,
                                        c1: seq<Block>, peer1: int, mode1: SyncMode, got1: nat, cand1: seq<Block>,
                                        request: Option<nat>)
    ensures app.ExtendStep(c0, got0, v, tip, now, c1, peer1, mode1, got1, cand1, request) ==>
              && (v == [] ==> peer1 == -1 && request.None? && c1 == c0)
              && (request.Some? ==>
                    (mode1 == Extending && |c1| > |c0|) || (mode1 == Downloading && c1 == c0 && cand1 == []))
              && (request.None? <==> peer1 == -1)
    ensures app.DownloadStep(c0, cand0, v, tip, now, c1, peer1, mode1, cand1, request) ==>
              && (v == [] ==> peer1 == -1 && request.None?)
              && (request.Some? ==> mode1 == Downloading && |cand0| < |cand1| <= 500000 && c1 == c0)
              && (request.None? <==> peer1 == -1)
              && (c1 != c0 ==> Work(app.n, c1) > Work(app.n, c0) && c1 == cand0 + v)
  {
    hide ConnectedCount, Work, ValidChain, Timely;
  }

  /** How many blocks of `v` connect in a row. */
  function ConnectedCount(n: Net, blocks: seq<Block>, v: seq<Block>, now: Clock): nat
    decreases |v|
  {
    if v == [] || !Check(n, blocks, v[0], now).Connected? then 0
    else 1 + ConnectedCount(n, blocks + [v[0]], v[1..], now)
  }
}
