/** The tip hash determines the whole ledger, and the transaction index is exact
    (src/core.h:222-282, 328-336).  Both hold as long as no two of the finitely many
    strings hashed for the chains at hand collide. */
module Agreement {
  import opened Basics
  import opened Codec
  import opened Merkle
  import opened Pow
  import opened Ledger
  import opened ChainRules

  // ---------- what a chain hashes ----------

  ghost function TxPre(txs: seq<Tx>): set<Bytes> {
    set i: nat | i < |txs| :: SerTx(txs[i])
  }

  ghost function BlockPre(n: Net, b: Block): set<Bytes> {
    {SerHeader(b.h)} + TxPre(b.txs) + InnerPre(n, TxIds(n, b.txs))
  }

  /** Every string hashed in validating a chain: the genesis header it is compared with,
      and the headers, transactions and tree nodes of its blocks. */
  ghost function ChainPre(n: Net, blocks: seq<Block>): set<Bytes>
    decreases |blocks|
  {
    if blocks == [] then {SerHeader(Genesis(n).h)}
    else ChainPre(n, blocks[..|blocks| - 1]) + BlockPre(n, blocks[|blocks| - 1])
  }

  /** `s` holds every string hashed for block `b`. */
  ghost predicate HoldsBlock(n: Net, b: Block, s: set<Bytes>) {
    && SerHeader(b.h) in s
    && (forall i :: 0 <= i < |b.txs| ==> SerTx(b.txs[i]) in s)
    && Covers(n, TxIds(n, b.txs), s)
  }

  ghost predicate Holds(n: Net, blocks: seq<Block>, s: set<Bytes>) {
    && SerHeader(Genesis(n).h) in s
    && forall k :: 0 <= k < |blocks| ==> HoldsBlock(n, blocks[k], s)
  }

  lemma {:induction false} BlockPreHolds(n: Net, b: Block, s: set<Bytes>)
    requires BlockPre(n, b) <= s
    ensures HoldsBlock(n, b, s)
  {
    hide SerHeader, SerTx, InnerPre, Covers;
    assert SerHeader(b.h) in BlockPre(n, b);
    forall i | 0 <= i < |b.txs|
      ensures SerTx(b.txs[i]) in s
    {
      assert SerTx(b.txs[i]) in TxPre(b.txs);
    }
    InnerPreCovers(n, TxIds(n, b.txs), s);
  }

  lemma {:induction false} ChainPreHolds(n: Net, blocks: seq<Block>, s: set<Bytes>)
    requires ChainPre(n, blocks) <= s
    ensures Holds(n, blocks, s)
    decreases |blocks|
  {
    hide SerHeader, HoldsBlock, BlockPre, Genesis;
    if blocks != [] {
      ChainPreHolds(n, blocks[..|blocks| - 1], s);
      BlockPreHolds(n, blocks[|blocks| - 1], s);
    }
  }

  lemma {:induction false} HoldsPrefix(n: Net, blocks: seq<Block>, s: set<Bytes>, k: nat)
    requires Holds(n, blocks, s) && k <= |blocks|
    ensures Holds(n, blocks[..k], s)
  {
    hide HoldsBlock, SerHeader, Genesis;
  }

  // ---------- equal hashes, equal things ----------

  lemma {:induction false} SameHeader(n: Net, a: BlockHeader, b: BlockHeader, s: set<Bytes>)
    requires NoCollision(n.hash, s) && SerHeader(a) in s && SerHeader(b) in s
    requires HeaderHash(n, a) == HeaderHash(n, b)
    ensures a == b
  {
    hide SerHeader, ParseHeader;
    Same(n.hash, s, SerHeader(a), SerHeader(b));
    HeaderRoundTrip(a, []);
    HeaderRoundTrip(b, []);
  }

  lemma {:induction false} SameTx(n: Net, a: Tx, b: Tx, s: set<Bytes>)
    requires NoCollision(n.hash, s) && SerTx(a) in s && SerTx(b) in s
    requires |a.payload| <= MAX_PAYLOAD && |b.payload| <= MAX_PAYLOAD
    requires TxId(n, a) == TxId(n, b)
    ensures a == b
  {
    hide SerTx, ParseTx;
    Same(n.hash, s, SerTx(a), SerTx(b));
    TxRoundTrip(a, []);
    TxRoundTrip(b, []);
  }

  lemma {:induction false} FirstIsGenesis(n: Net, blocks: seq<Block>, s: set<Bytes>)
    requires ValidChain(n, blocks) && blocks != []
    requires Holds(n, blocks, s) && NoCollision(n.hash, s)
    ensures GenesisExact(n, blocks)
  {
    hide NoCollision, SerHeader, HeaderHash, RunOk, StateOf;
    assert Extends(n, blocks[..0], blocks[0]);
    assert HoldsBlock(n, blocks[0], s);
    SameHeader(n, blocks[0].h, Genesis(n).h, s);
  }

  /** The genesis header, byte by byte: version 1, the network, no predecessor, no
      transactions, height 0, the network's time, no difficulty, no nonce. */
  lemma {:induction false} GenesisBytes(n: Net)
    ensures SerHeader(Genesis(n).h) ==
            [1, 0, 0, 0] + LE(n.netId, 4) + Zeros(72) + LE(n.genesisTime, 8) + Zeros(12)
    ensures Genesis(n).txs == []
  {
    ZeroLE(8);
    ZeroLE(4);
    assert LE(1, 4) == [1] + LE(0, 3);
    ZeroLE(3);
    hide LE;
    var h := Genesis(n).h;
    assert Zeros(32) + Zeros(32) + Zeros(8) == Zeros(72) && Zeros(4) + Zeros(8) == Zeros(12);
    assert [1] + Zeros(3) == [1, 0, 0, 0];
  }

  lemma {:induction false} ZeroLE(k: nat)
    ensures LE(0, k) == Zeros(k)
  {
    if k > 0 {
      ZeroLE(k - 1);
      assert [0] + Zeros(k - 1) == Zeros(k);
    }
  }

  /** The genesis hash tells networks apart: with the same one, two networks over the same
      hash function have the same id and genesis time, or their genesis headers collide. */
  lemma {:induction false} GenesisBinds(n: Net, m: Net)
    requires n.hash == m.hash
    requires HeaderHash(n, Genesis(n).h) == HeaderHash(m, Genesis(m).h)
    requires NoCollision(n.hash, {SerHeader(Genesis(n).h), SerHeader(Genesis(m).h)})
    ensures n.netId == m.netId && n.genesisTime == m.genesisTime
  {
    hide SerHeader, NoCollision;
    var g, k := Genesis(n).h, Genesis(m).h;
    assert n.hash(SerHeader(g)) == n.hash(SerHeader(k));
    SameHeader(n, g, k, {SerHeader(g), SerHeader(k)});
    assert g.netId == n.netId && k.netId == m.netId && g.time == n.genesisTime && k.time == m.genesisTime;
  }

  /** The assumptions of this module can be met: the genesis alone is a valid chain, and
      hashes a single string. */
  lemma {:induction false} GenesisStands(n: Net)
    ensures var g := [Genesis(n)];
            && ValidChain(n, g) && FitsMemory(g) && GenesisExact(n, g)
            && NoCollision(n.hash, ChainPre(n, g))
  {
    hide SerHeader, Root, PowOk, RunOk, StateOf, StateAfter;
    var g := [Genesis(n)];
    assert g[..0] == [] && AllTxs([]) == [] && AllTxs(g) == [];
    assert Extends(n, g[..0], g[0]);
    assert BlockPre(n, g[0]) == {SerHeader(g[0].h)};
    assert ChainPre(n, []) == {SerHeader(g[0].h)};
    assert ChainPre(n, g) == {SerHeader(g[0].h)};
  }

  lemma {:induction false} CleanHeights(n: Net, blocks: seq<Block>, s: set<Bytes>)
    requires ValidChain(n, blocks) && FitsMemory(blocks) && blocks != []
    requires ChainPre(n, blocks) <= s && NoCollision(n.hash, s)
    ensures HeightsExact(blocks)
  {
    hide ValidChain, NoCollision, ChainPre, HeightsExact;
    ChainPreHolds(n, blocks, s);
    FirstIsGenesis(n, blocks, s);
    GenesisGivesHeights(n, blocks);
  }

  /** Two chains that fit the address space, and for which no two of the strings hashed
      collide. */
  ghost predicate Undisputed(n: Net, a: seq<Block>, b: seq<Block>) {
    FitsMemory(a) && FitsMemory(b) && NoCollision(n.hash, ChainPre(n, a) + ChainPre(n, b))
  }

  lemma {:induction false} UndisputedHeights(n: Net, a: seq<Block>, b: seq<Block>)
    requires ValidChain(n, b) && b != [] && Undisputed(n, a, b)
    ensures HeightsExact(b)
  {
    hide ValidChain, FitsMemory, ChainPre, NoCollision, HeightsExact;
    CleanHeights(n, b, ChainPre(n, a) + ChainPre(n, b));
  }

  lemma {:induction false} HeightsOfPrefix(a: seq<Block>, b: seq<Block>)
    requires HeightsExact(a + b)
    ensures HeightsExact(a)
  {
    assert forall k :: 0 <= k < |a| ==> (a + b)[k] == a[k];
  }

  // ---------- distinct ids ----------

  /** Different positions of a chain hold different transaction ids. */
  lemma {:induction false} IdsDiffer(n: Net, blocks: seq<Block>, s: set<Bytes>, h: nat, i: nat, g: nat, j: nat)
    requires ValidChain(n, blocks) && FitsMemory(blocks)
    requires Holds(n, blocks, s) && NoCollision(n.hash, s)
    requires h < |blocks| && i < |blocks[h].txs| && g < |blocks| && j < |blocks[g].txs|
    requires h < g || (h == g && i < j)
    ensures TxId(n, blocks[h].txs[i]) != TxId(n, blocks[g].txs[j])
  {
    hide ValidChain, FitsMemory, NoCollision, SerTx, SerHeader, Covers, Before, TxId, Genesis;
    NoReplay(n, blocks, h, i, g, j);
    NonceOnChain(n, blocks, h, i);
    NonceOnChain(n, blocks, g, j);
    assert HoldsBlock(n, blocks[h], s) && HoldsBlock(n, blocks[g], s);
    if TxId(n, blocks[h].txs[i]) == TxId(n, blocks[g].txs[j]) {
      SameTx(n, blocks[h].txs[i], blocks[g].txs[j], s);
    }
  }

  lemma {:induction false} BlockIds(n: Net, blocks: seq<Block>, s: set<Bytes>, k: nat)
    requires ValidChain(n, blocks) && FitsMemory(blocks)
    requires Holds(n, blocks, s) && NoCollision(n.hash, s) && k < |blocks|
    ensures Distinct(TxIds(n, blocks[k].txs)) && Genuine(n, TxIds(n, blocks[k].txs), s)
  {
    hide ValidChain, FitsMemory, NoCollision, SerHeader, Covers, Holds;
    var txs := blocks[k].txs;
    var ids := TxIds(n, txs);
    forall i, j | 0 <= i < j < |ids|
      ensures ids[i] != ids[j]
    {
      IdsDiffer(n, blocks, s, k, i, k, j);
    }
    HoldsAt(n, blocks, s, k);
    forall x | x in ids
      ensures exists p :: p in s && |p| != 64 && n.hash(p) == x
    {
      var i :| 0 <= i < |ids| && ids[i] == x;
      TxLength(txs[i]);
      var p := SerTx(txs[i]);
      assert p in s && |p| != 64 && n.hash(p) == x;
    }
  }

  lemma {:induction false} HoldsAt(n: Net, blocks: seq<Block>, s: set<Bytes>, k: nat)
    requires Holds(n, blocks, s) && k < |blocks|
    ensures HoldsBlock(n, blocks[k], s)
  {
  }

  // ---------- agreement ----------

  /** A header determines the transactions of an accepted block. */
  lemma {:induction false} HeaderBindsTxs(n: Net, a: seq<Block>, b: seq<Block>, s: set<Bytes>, k: nat, j: nat)
    requires ValidChain(n, a) && FitsMemory(a) && Holds(n, a, s)
    requires ValidChain(n, b) && FitsMemory(b) && Holds(n, b, s)
    requires NoCollision(n.hash, s)
    requires 0 < k < |a| && 0 < j < |b| && a[k].h == b[j].h
    ensures a[k].txs == b[j].txs
  {
    hide ValidChain, FitsMemory, NoCollision, SerHeader, SerTx, Covers, Holds, HeaderHash, Root, Distinct, Genuine,
         Before, TxId;
    ExtendsHeader(n, a, k);
    ExtendsHeader(n, b, j);
    BlockIds(n, a, s, k);
    BlockIds(n, b, s, j);
    HoldsAt(n, a, s, k);
    HoldsAt(n, b, s, j);
    var x, y := a[k].txs, b[j].txs;
    RootBinds(n, TxIds(n, x), TxIds(n, y), s);
    assert |x| == |y|;
    forall i | 0 <= i < |x|
      ensures x[i] == y[i]
    {
      assert TxIds(n, x)[i] == TxIds(n, y)[i];
      NonceOnChain(n, a, k, i);
      NonceOnChain(n, b, j, i);
      SameTx(n, x[i], y[i], s);
    }
  }

  lemma {:induction false} FitsPrefix(blocks: seq<Block>, k: nat)
    requires FitsMemory(blocks) && k <= |blocks|
    ensures FitsMemory(blocks[..k])
  {
    AllTxsPrefix(blocks, k, |blocks|);
    assert blocks[..|blocks|] == blocks;
  }

  /** Two chains with the same tip hash are the same chain. */
  lemma {:induction false} SameTipSameChain(n: Net, a: seq<Block>, b: seq<Block>, s: set<Bytes>)
    requires ValidChain(n, a) && FitsMemory(a) && Holds(n, a, s)
    requires ValidChain(n, b) && FitsMemory(b) && Holds(n, b, s)
    requires NoCollision(n.hash, s)
    requires a != [] && b != []
    requires HeaderHash(n, a[|a| - 1].h) == HeaderHash(n, b[|b| - 1].h)
    ensures a == b
    decreases |a|
  {
    hide ValidChain, FitsMemory, NoCollision, SerHeader, Holds, HeaderHash, Root;
    var k, j := |a| - 1, |b| - 1;
    HoldsAt(n, a, s, k);
    HoldsAt(n, b, s, j);
    SameHeader(n, a[k].h, b[j].h, s);
    LengthFromTip(n, a, s);
    LengthFromTip(n, b, s);
    assert k == j;
    if k == 0 {
      FirstIsGenesis(n, a, s);
      FirstIsGenesis(n, b, s);
      assert a == [Genesis(n)] == b;
    } else {
      ExtendsHeader(n, a, k);
      ExtendsHeader(n, b, k);
      ValidChainPrefix(n, a, k);
      ValidChainPrefix(n, b, k);
      FitsPrefix(a, k);
      FitsPrefix(b, k);
      HoldsPrefix(n, a, s, k);
      HoldsPrefix(n, b, s, k);
      SameTipSameChain(n, a[..k], b[..k], s);
      HeaderBindsTxs(n, a, b, s, k, k);
      assert a == a[..k] + [a[k]] && b == b[..k] + [b[k]];
    }
  }

  lemma {:induction false} LengthFromTip(n: Net, a: seq<Block>, s: set<Bytes>)
    requires ValidChain(n, a) && FitsMemory(a) && Holds(n, a, s) && NoCollision(n.hash, s) && a != []
    ensures a[|a| - 1].h.height == |a| - 1
  {
    hide ValidChain, NoCollision, Holds;
    FirstIsGenesis(n, a, s);
    HeightsRun(n, a, |a| - 1);
  }

  /** Agreement: nodes with the same tip hash hold identical blocks, account state,
      transaction index and work, or the strings they hashed contain a collision. */
  lemma {:induction false} TipDeterminesLedger(n: Net, a: seq<Block>, b: seq<Block>)
    requires ValidChain(n, a) && FitsMemory(a) && ValidChain(n, b) && FitsMemory(b)
    requires a != [] && b != []
    requires Hashes(n, a)[|a| - 1] == Hashes(n, b)[|b| - 1]
    ensures (a == b && StateOf(n, a) == StateOf(n, b) && IndexOf(n, a) == IndexOf(n, b) && Work(n, a) == Work(n, b))
            || !NoCollision(n.hash, ChainPre(n, a) + ChainPre(n, b))
  {
    hide ValidChain, FitsMemory, NoCollision, ChainPre, StateOf, IndexOf, Work, HeaderHash;
    var s := ChainPre(n, a) + ChainPre(n, b);
    if NoCollision(n.hash, s) {
      ChainPreHolds(n, a, s);
      ChainPreHolds(n, b, s);
      SameTipSameChain(n, a, b, s);
    }
  }

  /** Chains whose hashes agree up to some height share their blocks up to there. */
  lemma {:induction false} SharedHashesShareBlocks(n: Net, a: seq<Block>, b: seq<Block>, k: nat, s: set<Bytes>)
    requires ValidChain(n, a) && FitsMemory(a) && Holds(n, a, s)
    requires ValidChain(n, b) && FitsMemory(b) && Holds(n, b, s)
    requires NoCollision(n.hash, s) && k <= |a| && k <= |b|
    requires Hashes(n, a)[..k] == Hashes(n, b)[..k]
    ensures a[..k] == b[..k]
  {
    hide ValidChain, FitsMemory, NoCollision, Holds, HeaderHash;
    if k > 0 {
      ValidChainPrefix(n, a, k);
      ValidChainPrefix(n, b, k);
      FitsPrefix(a, k);
      FitsPrefix(b, k);
      HoldsPrefix(n, a, s, k);
      HoldsPrefix(n, b, s, k);
      assert Hashes(n, a)[..k][k - 1] == Hashes(n, b)[..k][k - 1];
      SameTipSameChain(n, a[..k], b[..k], s);
    }
  }

  // ---------- the transaction index ----------

  /** `id` is the id of transaction i of block h. */
  ghost predicate IdAt(n: Net, blocks: seq<Block>, id: H256, h: nat, i: nat) {
    h < |blocks| && i < |blocks[h].txs| && TxId(n, blocks[h].txs[i]) == id
  }

  lemma {:induction false} IndexBlockKeys(n: Net, m: TxIndex, b: Block, k: nat, id: H256)
    requires k <= |b.txs|
    ensures id in IndexBlock(n, m, b, k) <==> id in m || exists i :: 0 <= i < k && TxId(n, b.txs[i]) == id
    ensures (forall i :: 0 <= i < k ==> TxId(n, b.txs[i]) != id) && id in m ==> IndexBlock(n, m, b, k)[id] == m[id]
  {
    hide TxId;
    if k > 0 {
      IndexBlockKeys(n, m, b, k - 1, id);
    }
  }

  lemma {:induction false} IndexBlockHit(n: Net, m: TxIndex, b: Block, k: nat, i: nat)
    requires i < k <= |b.txs| && Distinct(TxIds(n, b.txs))
    ensures var id := TxId(n, b.txs[i]);
            id in IndexBlock(n, m, b, k) && IndexBlock(n, m, b, k)[id] == (b.h.height % U32, i % U32)
  {
    hide TxId;
    if i < k - 1 {
      IndexBlockHit(n, m, b, k - 1, i);
      assert TxIds(n, b.txs)[i] != TxIds(n, b.txs)[k - 1];
    }
  }

  lemma {:induction false} IndexBlockEntry(n: Net, m: TxIndex, b: Block, k: nat, id: H256) returns (j: nat)
    requires k <= |b.txs| && id in IndexBlock(n, m, b, k)
    ensures (j < k && TxId(n, b.txs[j]) == id && IndexBlock(n, m, b, k)[id] == (b.h.height % U32, j % U32))
            || (id in m && IndexBlock(n, m, b, k)[id] == m[id])
  {
    hide TxId;
    if k == 0 {
      j := 0;
    } else if TxId(n, b.txs[k - 1]) == id {
      j := k - 1;
    } else {
      j := IndexBlockEntry(n, m, b, k - 1, id);
    }
  }

  /** Whatever collides, an index entry names a transaction with that id. */
  lemma {:induction false} IndexSound(n: Net, blocks: seq<Block>, id: H256) returns (h: nat, i: nat)
    requires id in IndexOf(n, blocks)
    ensures IdAt(n, blocks, id, h, i)
    ensures IndexOf(n, blocks)[id] == (blocks[h].h.height % U32, i % U32)
    decreases |blocks|
  {
    hide TxId, IndexBlock;
    var k := |blocks| - 1;
    var front, b := blocks[..k], blocks[k];
    var j := IndexBlockEntry(n, IndexOf(n, front), b, |b.txs|, id);
    if id in IndexOf(n, front) && IndexOf(n, blocks)[id] == IndexOf(n, front)[id] {
      h, i := IndexSound(n, front, id);
    } else {
      h, i := k, j;
    }
  }

  /** Every transaction of the chain is in the index. */
  lemma {:induction false} IndexHasAll(n: Net, blocks: seq<Block>, h: nat, i: nat)
    requires h < |blocks| && i < |blocks[h].txs|
    ensures TxId(n, blocks[h].txs[i]) in IndexOf(n, blocks)
    decreases |blocks|
  {
    hide TxId, IndexBlock;
    var k := |blocks| - 1;
    var front, b := blocks[..k], blocks[k];
    if h < k {
      IndexHasAll(n, front, h, i);
    }
    IndexBlockKeys(n, IndexOf(n, front), b, |b.txs|, TxId(n, blocks[h].txs[i]));
  }

  lemma {:induction false} IndexComplete(n: Net, blocks: seq<Block>, s: set<Bytes>, h: nat, i: nat)
    requires ValidChain(n, blocks) && FitsMemory(blocks)
    requires Holds(n, blocks, s) && NoCollision(n.hash, s)
    requires h < |blocks| && i < |blocks[h].txs|
    ensures var id := TxId(n, blocks[h].txs[i]);
            id in IndexOf(n, blocks) && IndexOf(n, blocks)[id] == (h % U32, i)
    decreases |blocks|
  {
    hide ValidChain, FitsMemory, NoCollision, Holds, TxId, IndexBlock, Distinct, Genuine;
    var k := |blocks| - 1;
    var front, b := blocks[..k], blocks[k];
    var id := TxId(n, blocks[h].txs[i]);
    if h == k {
      BlockIds(n, blocks, s, k);
      IndexBlockHit(n, IndexOf(n, front), b, |b.txs|, i);
      LengthFromTip(n, blocks, s);
      SmallBlock(n, blocks, k);
    } else {
      ValidChainPrefix(n, blocks, k);
      FitsPrefix(blocks, k);
      HoldsPrefix(n, blocks, s, k);
      IndexComplete(n, front, s, h, i);
      forall j | 0 <= j < |b.txs|
        ensures TxId(n, b.txs[j]) != id
      {
        IdsDiffer(n, blocks, s, h, i, k, j);
      }
      IndexBlockKeys(n, IndexOf(n, front), b, |b.txs|, id);
    }
  }

  lemma {:induction false} SmallBlock(n: Net, blocks: seq<Block>, k: nat)
    requires ValidChain(n, blocks) && k < |blocks|
    ensures |blocks[k].txs| <= MAX_BLOCK_TXS
  {
    hide ValidChain, RunOk, StateOf;
    ExtendsRun(n, blocks, k);
  }

  /** `txidx` maps an id to (g, i) exactly when transaction i of some block has that id and
      the height of that block is g as a u32 - which is the block's height itself on chains
      of at most 2^32 blocks. */
  lemma {:induction false} IndexExact(n: Net, blocks: seq<Block>, id: H256, g: u32, i: nat)
    requires ValidChain(n, blocks) && FitsMemory(blocks)
    requires NoCollision(n.hash, ChainPre(n, blocks))
    ensures (id in IndexOf(n, blocks) && IndexOf(n, blocks)[id] == (g, i)) <==>
            exists h: nat :: IdAt(n, blocks, id, h, i) && h % U32 == g
    ensures |blocks| <= U32 ==>
              ((id in IndexOf(n, blocks) && IndexOf(n, blocks)[id] == (g, i)) <==> IdAt(n, blocks, id, g, i))
  {
    hide ValidChain, FitsMemory, NoCollision, ChainPre, Holds, TxId, IndexOf;
    var s := ChainPre(n, blocks);
    ChainPreHolds(n, blocks, s);
    forall h: nat | IdAt(n, blocks, id, h, i)
      ensures id in IndexOf(n, blocks) && IndexOf(n, blocks)[id] == (h % U32, i)
    {
      IndexComplete(n, blocks, s, h, i);
    }
    if id in IndexOf(n, blocks) {
      var h, j := IndexSound(n, blocks, id);
      IndexComplete(n, blocks, s, h, j);
      assert IdAt(n, blocks, id, h, j);
    }
  }

  /** The position stored for `id` holds a transaction with that id. */
  ghost predicate Resolves(n: Net, blocks: seq<Block>, id: H256)
    requires id in IndexOf(n, blocks)
  {
    IdAt(n, blocks, id, IndexOf(n, blocks)[id].0, IndexOf(n, blocks)[id].1)
  }

  /** Every stored position can be looked up exactly as long as the chain has at most 2^32
      blocks: the next block's transactions are entered under the genesis. */
  lemma {:induction false} LookupsResolve(n: Net, blocks: seq<Block>)
    requires ValidChain(n, blocks) && FitsMemory(blocks)
    requires NoCollision(n.hash, ChainPre(n, blocks))
    ensures (forall id :: id in IndexOf(n, blocks) ==> Resolves(n, blocks, id)) <==> |blocks| <= U32
  {
    hide ValidChain, FitsMemory, NoCollision, ChainPre, Holds, TxId, IndexOf, HeaderHash, PowOk, Root, RunOk, StateOf;
    if |blocks| <= U32 {
      forall id | id in IndexOf(n, blocks)
        ensures Resolves(n, blocks, id)
      {
        IndexExact(n, blocks, id, IndexOf(n, blocks)[id].0, IndexOf(n, blocks)[id].1);
      }
    } else {
      ChainPreHolds(n, blocks, ChainPre(n, blocks));
      ExtendsHeader(n, blocks, U32);
      ExtendsRun(n, blocks, 0);
      IndexComplete(n, blocks, ChainPre(n, blocks), U32, 0);
      var id := TxId(n, blocks[U32].txs[0]);
      assert !Resolves(n, blocks, id);
    }
  }

  /** An account that could still send `t` has not got `t` on the chain already. */
  lemma {:induction false} UnusedNonceNotIndexed(n: Net, blocks: seq<Block>, t: Tx, s: set<Bytes>)
    requires ValidChain(n, blocks) && FitsMemory(blocks)
    requires Holds(n, blocks, s) && NoCollision(n.hash, s) && SerTx(t) in s
    requires t.kind != TX_COINBASE && |t.payload| <= MAX_PAYLOAD
    requires t.nonce >= Acct(StateOf(n, blocks), n.addrOf(t.from)).nonce
    ensures TxId(n, t) !in IndexOf(n, blocks)
  {
    hide ValidChain, FitsMemory, NoCollision, SerTx, SerHeader, Covers, TxId, IndexOf, StateOf, Before, Genesis;
    if TxId(n, t) in IndexOf(n, blocks) {
      var h, i := IndexSound(n, blocks, TxId(n, t));
      NonceOnChain(n, blocks, h, i);
      assert HoldsBlock(n, blocks[h], s);
      SameTx(n, t, blocks[h].txs[i], s);
      NonceConsumed(n, blocks, h, i);
    }
  }

  /** Every transaction on the chain has a nonce below its sender's. */
  lemma {:induction false} NonceConsumed(n: Net, blocks: seq<Block>, h: nat, i: nat)
    requires ValidChain(n, blocks) && FitsMemory(blocks)
    requires h < |blocks| && 0 < i < |blocks[h].txs|
    ensures var t := blocks[h].txs[i];
            t.nonce < Acct(StateOf(n, blocks), n.addrOf(t.from)).nonce
  {
    hide ValidChain, CountFrom, AllTxs, StateAfter, StateOf;
    var t := blocks[h].txs[i];
    var a := n.addrOf(t.from);
    NonceOnChain(n, blocks, h, i);
    NonceIsSentCount(n, blocks, a);
    var x := Before(blocks, h, i);
    AllTxsAt(blocks, h);
    AllTxsPrefix(blocks, h + 1, |blocks|);
    assert blocks[..|blocks|] == blocks;
    assert x + [t] == AllTxs(blocks[..h]) + blocks[h].txs[..i + 1];
    assert x + [t] <= AllTxs(blocks[..h + 1]);
    CountFromPrefix(n, x + [t], AllTxs(blocks), a);
    CountFromConcat(n, x, [t], a);
    CountOne(n, t);
    CountFromBound(n, AllTxs(blocks), a);
  }
}
