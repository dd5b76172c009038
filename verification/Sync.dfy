/** Catching up with an honest peer: a whole sync session between `maybe_sync` and
    `reset_sync` (src/node_impl.h:80-154, 174-205). */
module Sync {
  import opened Basics
  import opened Codec
  import opened ChainRules
  import opened Agreement
  import opened ChainStore
  import opened Node
  import opened Batch
  import Framing
  import opened Merkle
  import opened Pow
  import opened Mempools

  /** A fixed chain our own validation would accept. */
  ghost predicate HonestChain(n: Net, p: seq<Block>, now: Clock) {
    && ValidChain(n, p) && Timely(p, now) && p != []
    && FitsMemory(p) && WorkFits(n, |p|)
  }

  /** What both sides know when a session starts. */
  ghost predicate CanConverge(n: Net, c: seq<Block>, p: seq<Block>, now: Clock) {
    && HonestChain(n, p, now)
    && ValidChain(n, c) && c != [] && FitsMemory(c) && WorkFits(n, |c|)
    && NoCollision(n.hash, ChainPre(n, c) + ChainPre(n, p))
  }

  /** What a session comes to: the peer's chain, unless ours has forked off and the peer's is
      too long to be downloaded. */
  ghost function Outcome(c: seq<Block>, p: seq<Block>): seq<Block> {
    if c <= p || |p| <= CAND_MAX then p else c
  }

  function TipOf(n: Net, p: seq<Block>): PeerTip
    requires p != []
  {
    PeerTip((|p| - 1) % U64, Work(n, p))
  }

  lemma {:induction false} PrefixHeights(n: Net, c: seq<Block>, p: seq<Block>, now: Clock)
    requires CanConverge(n, c, p, now)
    ensures HeightsExact(c) && HeightsExact(p)
  {
    hide ValidChain, NoCollision, ChainPre, Holds, Timely, AllTxs, HeightsExact, GenesisExact, WorkFits;
    var s := ChainPre(n, c) + ChainPre(n, p);
    ChainPreHolds(n, c, s);
    ChainPreHolds(n, p, s);
    FirstIsGenesis(n, c, s);
    FirstIsGenesis(n, p, s);
    GenesisGivesHeights(n, c);
    GenesisGivesHeights(n, p);
  }

  lemma {:induction false} NextOfPrefix(c: seq<Block>)
    requires c != [] && HeightsExact(c) && |c| < U64
    ensures NextHeight(c) == |c|
  {
    assert c[|c| - 1].h.height == |c| - 1;
  }

  /** On a prefix of the peer's chain everything the peer serves connects. */
  lemma {:induction false} ServedConnects(n: Net, p: seq<Block>, now: Clock, k: nat, e: nat)
    requires ValidChain(n, p) && Timely(p, now) && 0 < k <= e <= |p|
    ensures ConnectedCount(n, p[..k], p[k..e], now) == e - k
    decreases e - k
  {
    hide Check, Extends;
    if k < e {
      assert Extends(n, p[..k], p[k]);
      CheckMeansExtends(n, p[..k], p[k], now);
      assert p[..k] + [p[k..e][0]] == p[..k + 1] && p[k..e][1..] == p[k + 1..e];
      ServedConnects(n, p, now, k + 1, e);
    } else {
      assert p[k..e] == [];
    }
  }

  /** On a chain that is no prefix of the peer's, the next block of the peer's does not connect. */
  lemma {:induction false} ForkedRejects(n: Net, c: seq<Block>, p: seq<Block>, now: Clock)
    requires CanConverge(n, c, p, now) && |c| < |p| && c != p[..|c|]
    ensures !Check(n, c, p[|c|], now).Connected?
  {
    hide ValidChain, NoCollision, ChainPre, Holds, Timely, FitsMemory, HeaderHash, Root, WorkFits, Check;
    var k := |c|;
    var s := ChainPre(n, c) + ChainPre(n, p);
    ChainPreHolds(n, c, s);
    ChainPreHolds(n, p, s);
    ExtendsHeader(n, p, k);
    if HeaderHash(n, p[k - 1].h) == HeaderHash(n, c[k - 1].h) {
      ValidChainPrefix(n, p, k);
      FitsPrefix(p, k);
      HoldsPrefix(n, p, s, k);
      SameTipSameChain(n, c, p[..k], s);
    }
    PrevMustMatch(n, c, p[k], now);
  }

  lemma {:induction false} PrevMustMatch(n: Net, c: seq<Block>, b: Block, now: Clock)
    requires c != [] && b.h.prev != HeaderHash(n, c[|c| - 1].h)
    ensures !Check(n, c, b, now).Connected?
  {
    hide HeaderHash, PowOk, Root, StateOf, FirstBad;
  }

  /** The work comparison of a session says when we are done. */
  lemma {:induction false} CaughtUpMeansWhole(n: Net, p: seq<Block>, k: nat)
    requires p != [] && WorkFits(n, |p|) && 0 < k <= |p|
    ensures Work(n, p[..k]) >= Work(n, p) <==> k == |p|
  {
    hide Work, WorkOf;
    WorkPositive(n);
    MulMono(k - 1, |p| - 1, WorkOf(n.bits));
    MoreWorkMeansLonger(n, p, p[..k]);
    assert p[..|p|] == p;
  }

  /** Where a session stands between two messages: our chain is the one it started with or
      a prefix of the peer's; a download holds a prefix of the peer's chain. */
  ghost predicate InSession(c0: seq<Block>, p: seq<Block>, c: seq<Block>, mode: SyncMode, got: nat, cand: seq<Block>,
      start: nat) {
    && (mode == Extending ==>
          && c != [] && |c| < |p| && start == |c|
          && if c0 <= p then c == p[..|c|] else c == c0 && got == 0)
    && (mode == Downloading ==>
          c == c0 && !(c0 <= p) && start == |cand| && start < |p| && start <= CAND_MAX && cand == p[..start])
    && mode != Idle
  }

  /** One reply of the peer moves the session on, or ends it with the peer's chain. */
  lemma {:induction false} ExtendProgress(n: Net, c0: seq<Block>, p: seq<Block>, now: Clock, c: seq<Block>, got: nat,
                                          c1: seq<Block>, peer1: int, mode1: SyncMode, got1: nat, cand1: seq<Block>,
                                              request: Option<nat>,
                                          app: App)
    requires CanConverge(n, c0, p, now) && app.n == n
    requires InSession(c0, p, c, Extending, got, [], |c|)
    requires app.ExtendStep(c, got, Serve(p, |c|), Some(TipOf(n, p)), now, c1, peer1, mode1, got1, cand1, request)
    ensures request.None? ==> c1 == Outcome(c0, p) && peer1 == -1
    ensures request.Some? ==> peer1 != -1 && InSession(c0, p, c1, mode1, got1, cand1, request.value)
    ensures request.Some? && mode1 == Extending ==> |c1| > |c|
  {
    hide CanConverge, Check, Work, HeightsExact, HonestChain, ConnectedCount, ValidChain, Timely, WorkFits,
         NextHeight;
    var k, e := |c|, Min(|c| + BATCH, |p|);
    if c == p[..k] {
      PrefixExtends(n, c0, p, now, k, e);
      assert c1 == p[..e];
      assert p[..|p|] == p;
    } else {
      ForkConnectsNothing(n, c0, p, now, e);
    }
  }

  lemma {:induction false} PrefixExtends(n: Net, c0: seq<Block>, p: seq<Block>, now: Clock, k: nat, e: nat)
    requires CanConverge(n, c0, p, now) && 0 < k < e <= |p|
    ensures ConnectedCount(n, p[..k], p[k..e], now) == e - k
    ensures p[..k] + p[k..e] == p[..e] && NextHeight(p[..e]) == e
    ensures Work(n, p[..e]) >= Work(n, p) <==> e == |p|
  {
    hide CanConverge, Check, Work, HeightsExact, ConnectedCount, ValidChain;
    SessionFacts(n, c0, p, now);
    ServedConnects(n, p, now, k, e);
    CaughtUpMeansWhole(n, p, e);
    PrefixNext(p, e);
  }

  lemma {:induction false} ForkConnectsNothing(n: Net, c0: seq<Block>, p: seq<Block>, now: Clock, e: nat)
    requires CanConverge(n, c0, p, now) && |c0| < e <= |p| && c0 != p[..|c0|]
    ensures ConnectedCount(n, c0, p[|c0|..e], now) == 0
  {
    hide CanConverge, Check;
    ForkedRejects(n, c0, p, now);
    assert p[|c0|..e][0] == p[|c0|];
  }

  lemma {:induction false} SessionFacts(n: Net, c0: seq<Block>, p: seq<Block>, now: Clock)
    requires CanConverge(n, c0, p, now)
    ensures ValidChain(n, p) && Timely(p, now) && p != [] && |p| < U64 && WorkFits(n, |p|)
    ensures HeightsExact(p) && HeightsExact(c0)
  {
    PrefixHeights(n, c0, p, now);
  }

  lemma {:induction false} PrefixNext(p: seq<Block>, k: nat)
    requires HeightsExact(p) && 0 < k <= |p| < U64
    ensures NextHeight(p[..k]) == k
  {
    assert p[..k][k - 1].h.height == k - 1;
  }

  lemma {:induction false} DownloadProgress(n: Net, c0: seq<Block>, p: seq<Block>, now: Clock, cand: seq<Block>,
                                            c1: seq<Block>, peer1: int, mode1: SyncMode, cand1: seq<Block>,
                                                request: Option<nat>,
                                            app: App)
    requires CanConverge(n, c0, p, now) && Work(n, p) > Work(n, c0) && app.n == n
    requires InSession(c0, p, c0, Downloading, 0, cand, |cand|)
    requires app.DownloadStep(c0, cand, Serve(p, |cand|), Some(TipOf(n, p)), now, c1, peer1, mode1, cand1, request)
    ensures request.None? ==> c1 == Outcome(c0, p) && peer1 == -1
    ensures request.Some? ==>
              peer1 != -1 && mode1 == Downloading && InSession(c0, p, c1, mode1, 0, cand1, request.value)
    ensures request.Some? ==> |cand1| > |cand|
  {
    hide CanConverge, Work, ValidChain, HeightsExact, Timely, WorkFits, Serve, TipOf;
    SessionFacts(n, c0, p, now);
    DownloadedSoFar(n, p, |cand|);
  }

  /** What a download holds after the answer to its next request, and whether that is all. */
  lemma {:induction false} DownloadedSoFar(n: Net, p: seq<Block>, j: nat)
    requires HeightsExact(p) && j < |p| < U64
    ensures var e := Min(j + BATCH, |p|);
            && Serve(p, j) != [] && p[..j] + Serve(p, j) == p[..e] && j < e <= |p|
            && (p[..e][e - 1].h.height >= TipOf(n, p).height <==> e == |p|)
            && (e == |p| ==> p[..e] == p)
  {
    hide HeightsExact, Work;
    LastHeight(p, Min(j + BATCH, |p|));
  }

  lemma {:induction false} LastHeight(p: seq<Block>, e: nat)
    requires HeightsExact(p) && 0 < e <= |p|
    ensures p[..e][e - 1].h.height == e - 1
  {
  }

  /** Readings of a clock that does not run backwards. */
  ghost predicate NonDecreasing(clock: nat -> Clock) {
    forall i: nat, j: nat :: i <= j ==> clock(i) <= clock(j)
  }

  /** What an earlier clock accepts of the peer's chain a later one accepts too. */
  lemma {:induction false} ConvergesLater(n: Net, c: seq<Block>, p: seq<Block>, t: Clock, now: Clock)
    requires CanConverge(n, c, p, t) && t <= now
    ensures CanConverge(n, c, p, now)
  {
    hide ValidChain, NoCollision, ChainPre, FitsMemory, WorkFits;
    TimelyLater(p, t, now);
  }

  /** Convergence: against an honest peer with a fixed chain of strictly more work, and
      with no other change of our chain, a session ends with our chain equal to the peer's -
      by extension however long that is, by download if it has at most 500000 blocks; on a
      fork against a longer one the session is given up and our chain stays.  The peer's TIP,
      requests and answers travel as bytes; the clock moves on between any two answers. */
  method Session(app: App, peer: nat, q: Chain, link: Framing.Peer, config: Framing.Config, clock: nat -> Clock)
    requires app.Valid() && app.syncPeer == -1
    requires q != app.chain && q.Valid() && q.n == app.n && BatchesFit(q.blocks)
    requires NonDecreasing(clock) && CanConverge(app.n, app.chain.blocks, q.blocks, clock(0))
    requires q.work > app.chain.work
    modifies app, app.chain, app.pool, link
    ensures app.Valid() && app.syncPeer == -1
    ensures q.blocks == old(q.blocks) && app.chain.blocks == Outcome(old(app.chain.blocks), q.blocks)
  {
    hide CanConverge, Work, ValidChain, HeightsExact, PoolOk, Ahead, CacheOk, StateOf, IndexOf, Hashes,
         ConnectedCount, WorkFits, BatchesFit;
    ghost var c0 := app.chain.blocks;
    var n, p := app.n, q.blocks;
    SessionStarts(n, c0, p, clock(0));
    var heard := HearTip(q, link, config);
    TipIsHonest(n, c0, p, clock(0), heard);
    var tip := Some(heard);
    var request := app.OnTip(peer, tip);
    assert c0[..|c0|] == c0;
    var turn := 0;
    while request.Some?
      invariant app.Valid() && q.Valid() && q.blocks == p && turn >= 0
      invariant request.None? ==> app.chain.blocks == Outcome(c0, p) && app.syncPeer == -1
      invariant request.Some? ==>
                  && app.syncPeer == peer
                  && InSession(c0, p, app.chain.blocks, app.syncMode, app.extendGot, app.cand, request.value)
      decreases request.Some?, app.syncMode == Extending, |p| - |app.chain.blocks|, |p| - |app.cand|
    {
      var now := clock(turn);
      ConvergesLater(n, c0, p, clock(0), now);
      SessionSize(n, c0, p, now);
      var reply := Exchange(q, request.value);
      ghost var c, mode, got, cand := app.chain.blocks, app.syncMode, app.extendGot, app.cand;
      request := app.HandleBlocks(peer, reply, tip, now);
      if mode == Extending {
        ExtendProgress(n, c0, p, now, c, got, app.chain.blocks, app.syncPeer, app.syncMode, app.extendGot, app.cand,
            request, app);
      } else {
        DownloadProgress(n, c0, p, now, cand, app.chain.blocks, app.syncPeer, app.syncMode, app.cand, request, app);
      }
      turn := turn + 1;
    }
  }

  lemma {:induction false} TipIsHonest(n: Net, c0: seq<Block>, p: seq<Block>, now: Clock, tip: PeerTip)
    requires CanConverge(n, c0, p, now) && p != []
    requires tip == PeerTip(p[|p| - 1].h.height, Work(n, p))
    ensures tip == TipOf(n, p)
  {
    hide CanConverge, Work, ValidChain, Timely, WorkFits, HeightsExact;
    SessionFacts(n, c0, p, now);
    LastHeight(p, |p|);
    assert p[..|p|] == p;
  }

  lemma {:induction false} SessionSize(n: Net, c0: seq<Block>, p: seq<Block>, now: Clock)
    requires CanConverge(n, c0, p, now)
    ensures |p| < U64
  {
  }

  lemma {:induction false} SessionStarts(n: Net, c: seq<Block>, p: seq<Block>, now: Clock)
    requires CanConverge(n, c, p, now) && Work(n, p) > Work(n, c)
    ensures |c| < |p| && NextHeight(c) == |c|
  {
    hide ValidChain, NoCollision, ChainPre, Timely, AllTxs, WorkOf, Work;
    MoreWorkMeansLonger(n, p, c);
    PrefixHeights(n, c, p, now);
    NextOfPrefix(c);
  }
}
