/** What a chain is: the rules a block must meet to extend a list of blocks, and the
    structures every node derives from that list (src/core.h:189-252, 328-336). */
module ChainRules {
  import opened Basics
  import opened Codec
  import opened Merkle
  import opened Pow
  import opened Ledger

  /** The time in seconds, as a non-negative signed 64-bit number. */
  type Clock = t: nat | t < 0x8000_0000_0000_0000

  type TxIndex = map<H256, (u32, u32)>

  datatype ChainVerdict =
    | Connected
    | InvalidGenesis
    | BadVersion
    | WrongNetwork
    | BadHeight
    | PrevMismatch
    | BadDifficulty
    | InsufficientWork
    | TimeTooFar
    | BadTxCount
    | MerkleMismatch
    | BadTx(index: nat, why: TxVerdict)

  function Genesis(n: Net): Block {
    Block(BlockHeader(CL_VERSION, n.netId, Zeros(32), Zeros(32), 0, n.genesisTime, 0, 0), [])
  }

  // ---------- what is derived from the block list ----------

  function AllTxs(blocks: seq<Block>): seq<Tx>
    decreases |blocks|
  {
    if blocks == [] then [] else AllTxs(blocks[..|blocks| - 1]) + blocks[|blocks| - 1].txs
  }

  function StateOf(n: Net, blocks: seq<Block>): State {
    StateAfter(n, map[], AllTxs(blocks))
  }

  function Hashes(n: Net, blocks: seq<Block>): (hs: seq<H256>)
    ensures |hs| == |blocks|
  {
    seq(|blocks|, i requires 0 <= i < |blocks| => HeaderHash(n, blocks[i].h))
  }

  /** The index with the first `k` transactions of `b` entered. */
  function IndexBlock(n: Net, m: TxIndex, b: Block, k: nat): TxIndex
    requires k <= |b.txs|
  {
    if k == 0 then m
    else IndexBlock(n, m, b, k - 1)[TxId(n, b.txs[k - 1]) := (b.h.height % U32, (k - 1) % U32)]
  }

  function IndexOf(n: Net, blocks: seq<Block>): TxIndex
    decreases |blocks|
  {
    if blocks == [] then map[]
    else
      var b := blocks[|blocks| - 1];
      IndexBlock(n, IndexOf(n, blocks[..|blocks| - 1]), b, |b.txs|)
  }

  function Work(n: Net, blocks: seq<Block>): u64
    decreases |blocks|
  {
    if blocks == [] then 0
    else if |blocks| == 1 then 1
    else (Work(n, blocks[..|blocks| - 1]) + WorkOf(n.bits)) % U64
  }

  // ---------- acceptance ----------

  /** The first transaction from position `i` on that is not applicable. */
  function FirstBad(n: Net, st: State, txs: seq<Tx>, height: u64, i: nat): Option<(nat, TxVerdict)>
    requires i <= |txs|
    decreases |txs| - i
  {
    if i == |txs| then None
    else
      var v := Verdict(n, StateAfter(n, st, txs[..i]), txs[i], height, i == 0);
      if v.Good? then FirstBad(n, st, txs, height, i + 1) else Some((i, v))
  }

  /** The first rule a block breaks as the successor of `blocks`. */
  function Check(n: Net, blocks: seq<Block>, b: Block, now: Clock): ChainVerdict {
    if blocks == [] then
      if HeaderHash(n, b.h) != HeaderHash(n, Genesis(n).h) || b.txs != [] then InvalidGenesis else Connected
    else
      var prev := blocks[|blocks| - 1].h;
      if b.h.version != CL_VERSION then BadVersion
      else if b.h.netId != n.netId then WrongNetwork
      else if b.h.height != (prev.height + 1) % U64 then BadHeight
      else if b.h.prev != HeaderHash(n, prev) then PrevMismatch
      else if b.h.bits != n.bits then BadDifficulty
      else if !PowOk(HeaderHash(n, b.h), b.h.bits) then InsufficientWork
      else if b.h.time > now + MAX_TIME_SKEW_S then TimeTooFar
      else if b.txs == [] || |b.txs| > MAX_BLOCK_TXS then BadTxCount
      else if Root(n, TxIds(n, b.txs)) != b.h.merkle then MerkleMismatch
      else
        match FirstBad(n, StateOf(n, blocks), b.txs, b.h.height, 0)
        case Some((i, why)) => BadTx(i, why)
        case None => Connected
  }

  /** The rules that do not depend on the clock. */
  ghost predicate Extends(n: Net, blocks: seq<Block>, b: Block) {
    if blocks == [] then HeaderHash(n, b.h) == HeaderHash(n, Genesis(n).h) && b.txs == []
    else
      var prev := blocks[|blocks| - 1].h;
      && b.h.version == CL_VERSION
      && b.h.netId == n.netId
      && b.h.height == (prev.height + 1) % U64
      && b.h.prev == HeaderHash(n, prev)
      && b.h.bits == n.bits
      && PowOk(HeaderHash(n, b.h), n.bits)
      && 1 <= |b.txs| <= MAX_BLOCK_TXS
      && Root(n, TxIds(n, b.txs)) == b.h.merkle
      && RunOk(n, StateOf(n, blocks), b.txs, b.h.height, true)
  }

  ghost predicate ValidChain(n: Net, blocks: seq<Block>) {
    forall k :: 0 <= k < |blocks| ==> Extends(n, blocks[..k], blocks[k])
  }

  /** The clock accepts every block after the genesis. */
  predicate Timely(blocks: seq<Block>, now: Clock) {
    forall k :: 1 <= k < |blocks| ==> blocks[k].h.time <= now + MAX_TIME_SKEW_S
  }

  /** What one clock accepts, any later clock accepts. */
  lemma {:induction false} TimelyLater(blocks: seq<Block>, t: Clock, now: Clock)
    requires Timely(blocks, t) && t <= now
    ensures Timely(blocks, now)
  {
  }

  lemma {:induction false} FirstBadIsRunOk(n: Net, st: State, txs: seq<Tx>, height: u64, i: nat)
    requires i <= |txs|
    requires forall j :: 0 <= j < i ==> Verdict(n, StateAfter(n, st, txs[..j]), txs[j], height, j == 0).Good?
    ensures FirstBad(n, st, txs, height, i).None? <==> RunOk(n, st, txs, height, true)
    decreases |txs| - i
  {
    hide Verdict, StateAfter;
    if i < |txs| && Verdict(n, StateAfter(n, st, txs[..i]), txs[i], height, i == 0).Good? {
      FirstBadIsRunOk(n, st, txs, height, i + 1);
    }
  }

  /** `connect_block` says yes exactly to timely blocks that obey every other rule. */
  lemma {:induction false} CheckMeansExtends(n: Net, blocks: seq<Block>, b: Block, now: Clock)
    ensures Check(n, blocks, b, now).Connected? <==>
            Extends(n, blocks, b) && (blocks == [] || b.h.time <= now + MAX_TIME_SKEW_S)
  {
    hide Verdict, StateAfter, HeaderHash, Genesis, PowOk, Root, RunOk, StateOf;
    if blocks != [] {
      FirstBadIsRunOk(n, StateOf(n, blocks), b.txs, b.h.height, 0);
    }
  }

  /** `connect_block` spelled out: what it takes for a block to connect behind another. */
  lemma {:induction false} ConnectsExactly(n: Net, blocks: seq<Block>, b: Block, now: Clock)
    requires blocks != []
    ensures var prev := blocks[|blocks| - 1].h;
            Check(n, blocks, b, now).Connected? <==>
            && b.h.version == 1 && b.h.netId == n.netId && b.h.bits == n.bits
            && b.h.height == (prev.height + 1) % U64 && b.h.prev == n.hash(SerHeader(prev))
            && b.h.bits <= 256 && FromBE(n.hash(SerHeader(b.h))) < Pow2(256 - b.h.bits)
            && b.h.time <= now + 7200
            && 1 <= |b.txs| <= 5000 && b.h.merkle == Root(n, TxIds(n, b.txs))
            && forall i :: 0 <= i < |b.txs| ==>
                 Verdict(n, StateAfter(n, StateOf(n, blocks), b.txs[..i]), b.txs[i], b.h.height, i == 0).Good?
  {
    hide Verdict, StateAfter, SerHeader, Genesis, Root, TxIds, StateOf, FromBE, Check, PowOk;
    CheckMeansExtends(n, blocks, b, now);
    PowIsNumericBound(n.hash(SerHeader(b.h)), b.h.bits);
  }

  /** Whatever reason is given for a refusal is true of the block. */
  lemma {:induction false} RefusalIsTrue(n: Net, blocks: seq<Block>, b: Block, now: Clock)
    requires blocks != []
    ensures var prev := blocks[|blocks| - 1].h;
            match Check(n, blocks, b, now)
            case Connected => true
            case InvalidGenesis => false
            case BadVersion => b.h.version != 1
            case WrongNetwork => b.h.netId != n.netId
            case BadHeight => b.h.height != (prev.height + 1) % U64
            case PrevMismatch => b.h.prev != n.hash(SerHeader(prev))
            case BadDifficulty => b.h.bits != n.bits
            case InsufficientWork => b.h.bits > 256 || FromBE(n.hash(SerHeader(b.h))) >= Pow2(256 - b.h.bits)
            case TimeTooFar => b.h.time > now + 7200
            case BadTxCount => !(1 <= |b.txs| <= 5000)
            case MerkleMismatch => b.h.merkle != Root(n, TxIds(n, b.txs))
            case BadTx(i, why) =>
              && i < |b.txs| && !why.Good?
              && why == Verdict(n, StateAfter(n, StateOf(n, blocks), b.txs[..i]), b.txs[i], b.h.height, i == 0)
              && RunOk(n, StateOf(n, blocks), b.txs[..i], b.h.height, true)
  {
    hide Verdict, StateAfter, SerHeader, Genesis, Root, TxIds, StateOf, FromBE, PowOk, FirstBad, RunOk;
    PowIsNumericBound(n.hash(SerHeader(b.h)), b.h.bits);
    FirstBadNames(n, StateOf(n, blocks), b.txs, b.h.height, 0);
  }

  lemma {:induction false} FirstBadNames(n: Net, st: State, txs: seq<Tx>, height: u64, i: nat)
    requires i <= |txs|
    requires forall j :: 0 <= j < i ==> Verdict(n, StateAfter(n, st, txs[..j]), txs[j], height, j == 0).Good?
    ensures match FirstBad(n, st, txs, height, i)
            case None => true
            case Some((k, why)) =>
              && k < |txs| && !why.Good?
              && why == Verdict(n, StateAfter(n, st, txs[..k]), txs[k], height, k == 0)
              && RunOk(n, st, txs[..k], height, true)
    decreases |txs| - i
  {
    hide Verdict, StateAfter;
    if i < |txs| {
      if Verdict(n, StateAfter(n, st, txs[..i]), txs[i], height, i == 0).Good? {
        FirstBadNames(n, st, txs, height, i + 1);
      } else {
        assert forall j :: 0 <= j < i ==> txs[..i][..j] == txs[..j] && txs[..i][j] == txs[j];
      }
    }
  }

  // ---------- lists of blocks ----------

  lemma {:induction false} ValidChainPrefix(n: Net, blocks: seq<Block>, k: nat)
    requires ValidChain(n, blocks) && k <= |blocks|
    ensures ValidChain(n, blocks[..k])
  {
    hide Extends;
    forall j | 0 <= j < k
      ensures Extends(n, blocks[..k][..j], blocks[..k][j])
    {
      assert blocks[..k][..j] == blocks[..j];
    }
  }

  lemma {:induction false} ValidChainSnoc(n: Net, blocks: seq<Block>, b: Block)
    requires ValidChain(n, blocks) && Extends(n, blocks, b)
    ensures ValidChain(n, blocks + [b])
  {
    hide Extends;
    var all := blocks + [b];
    forall j | 0 <= j < |all|
      ensures Extends(n, all[..j], all[j])
    {
      if j < |blocks| {
        assert all[..j] == blocks[..j];
      } else {
        assert all[..j] == blocks;
      }
    }
  }

  lemma {:induction false} AllTxsSnoc(blocks: seq<Block>, b: Block)
    ensures AllTxs(blocks + [b]) == AllTxs(blocks) + b.txs
  {
    assert (blocks + [b])[..|blocks|] == blocks;
  }

  lemma {:induction false} AllTxsAt(blocks: seq<Block>, h: nat)
    requires h < |blocks|
    ensures AllTxs(blocks[..h + 1]) == AllTxs(blocks[..h]) + blocks[h].txs
  {
    assert blocks[..h + 1] == blocks[..h] + [blocks[h]];
    AllTxsSnoc(blocks[..h], blocks[h]);
  }

  lemma {:induction false} AllTxsPrefix(blocks: seq<Block>, h: nat, g: nat)
    requires h <= g <= |blocks|
    ensures AllTxs(blocks[..h]) <= AllTxs(blocks[..g])
    decreases g - h
  {
    if h < g {
      AllTxsPrefix(blocks, h, g - 1);
      AllTxsAt(blocks, g - 1);
    }
  }

  /** Appending a block updates each derived structure the way `append` does. */
  lemma {:induction false} DerivedSnoc(n: Net, blocks: seq<Block>, b: Block)
    ensures StateOf(n, blocks + [b]) == StateAfter(n, StateOf(n, blocks), b.txs)
    ensures Hashes(n, blocks + [b]) == Hashes(n, blocks) + [HeaderHash(n, b.h)]
    ensures IndexOf(n, blocks + [b]) == IndexBlock(n, IndexOf(n, blocks), b, |b.txs|)
    ensures Work(n, blocks + [b]) == if blocks == [] then 1 else (Work(n, blocks) + WorkOf(n.bits)) % U64
  {
    hide HeaderHash, StateAfter, IndexBlock, WorkOf;
    AllTxsSnoc(blocks, b);
    StateAfterConcat(n, map[], AllTxs(blocks), b.txs);
    assert (blocks + [b])[..|blocks|] == blocks;
  }

  // ---------- heights ----------

  lemma {:induction false} HeightsRun(n: Net, blocks: seq<Block>, k: nat)
    requires ValidChain(n, blocks) && k < |blocks|
    ensures blocks[k].h.height == (blocks[0].h.height + k) % U64
  {
    hide ValidChain, HeaderHash, PowOk, Root;
    if k > 0 {
      HeightsRun(n, blocks, k - 1);
      ExtendsHeader(n, blocks, k);
      ModAdd(blocks[k - 1].h.height, blocks[0].h.height + (k - 1), 1);
    }
  }

  lemma {:induction false} ExtendsHeader(n: Net, blocks: seq<Block>, k: nat)
    requires ValidChain(n, blocks) && 0 < k < |blocks|
    ensures blocks[k].h.height == (blocks[k - 1].h.height + 1) % U64
    ensures blocks[k].h.prev == HeaderHash(n, blocks[k - 1].h)
    ensures blocks[k].h.bits == n.bits && PowOk(HeaderHash(n, blocks[k].h), n.bits)
    ensures 1 <= |blocks[k].txs| <= MAX_BLOCK_TXS && Root(n, TxIds(n, blocks[k].txs)) == blocks[k].h.merkle
  {
    hide HeaderHash, PowOk, RunOk, StateOf, Genesis, Root;
    assert Extends(n, blocks[..k], blocks[k]);
    assert blocks[..k][|blocks[..k]| - 1] == blocks[k - 1];
  }

  lemma {:induction false} ExtendsRun(n: Net, blocks: seq<Block>, k: nat)
    requires ValidChain(n, blocks) && k < |blocks|
    ensures RunOk(n, StateOf(n, blocks[..k]), blocks[k].txs, blocks[k].h.height, true)
    ensures |blocks[k].txs| <= MAX_BLOCK_TXS && (k == 0 ==> blocks[k].txs == [])
  {
    hide HeaderHash, PowOk, StateOf, Genesis, Root, Verdict, StateAfter;
    assert Extends(n, blocks[..k], blocks[k]);
  }

  /** The genesis block is recognised by its hash alone: the first block is the genesis
      itself unless it is a second preimage. */
  predicate GenesisExact(n: Net, blocks: seq<Block>) {
    blocks != [] ==> blocks[0] == Genesis(n)
  }

  ghost predicate HeightsExact(blocks: seq<Block>) {
    forall k :: 0 <= k < |blocks| ==> blocks[k].h.height == k
  }

  lemma {:induction false} GenesisGivesHeights(n: Net, blocks: seq<Block>)
    requires ValidChain(n, blocks) && GenesisExact(n, blocks) && |blocks| <= U64
    ensures HeightsExact(blocks)
  {
    hide ValidChain;
    forall k | 0 <= k < |blocks|
      ensures blocks[k].h.height == k
    {
      HeightsRun(n, blocks, k);
    }
  }

  // ---------- fork choice ----------

  lemma {:induction false} MulSucc(k: nat, w: nat)
    ensures (k + 1) * w == k * w + w
  {
  }

  lemma {:induction false} MulCompare(x: nat, y: nat, w: nat)
    requires w >= 1
    ensures x * w > y * w <==> x > y
  {
    if x > y {
      MulMono(y + 1, x, w);
      MulSucc(y, w);
    } else {
      MulMono(x, y, w);
    }
  }

  lemma {:induction false} WorkStep(work: nat, k: nat, w: nat)
    requires work == (1 + k * w) % U64
    ensures (work + w) % U64 == (1 + (k + 1) * w) % U64
  {
    MulSucc(k, w);
    ModAdd(work, 1 + k * w, w);
  }

  lemma {:induction false} WorkIsWorkAt(n: Net, blocks: seq<Block>)
    requires blocks != []
    ensures Work(n, blocks) == WorkAt(n, |blocks|)
    decreases |blocks|
  {
    hide WorkOf;
    if |blocks| > 1 {
      var front, k, w := blocks[..|blocks| - 1], |blocks| - 2, WorkOf(n.bits);
      WorkIsWorkAt(n, front);
      WorkStep(Work(n, front), k, w);
    }
  }

  /** Total work is 1 for the genesis plus 2^bits per further block, modulo 2^64; from 63 bits
      on a block counts 2^64 - 1. */
  lemma {:induction false} WorkClosedForm(n: Net, blocks: seq<Block>)
    requires blocks != []
    ensures n.bits <= 62 ==> Work(n, blocks) == (1 + (|blocks| - 1) * Pow2(n.bits)) % U64
    ensures n.bits > 62 ==> Work(n, blocks) == (1 + (|blocks| - 1) * (U64 - 1)) % U64
  {
    hide Work, WorkOf, Pow2;
    WorkIsWorkAt(n, blocks);
    WorkByBits(n);
  }

  lemma {:induction false} WorkByBits(n: Net)
    ensures n.bits <= 62 ==> WorkOf(n.bits) == Pow2(n.bits)
    ensures n.bits > 62 ==> WorkOf(n.bits) == U64 - 1
  {
  }

  lemma {:induction false} NoWrap(x: nat)
    requires 1 + x < U64
    ensures (1 + x) % U64 == 1 + x
  {
  }

  lemma {:induction false} WrapCompare(x: u64, w: u64)
    requires w >= 1
    ensures (x + w) % U64 > x <==> x + w < U64
  {
  }

  /** The work of a chain fits u64. */
  ghost predicate WorkFits(n: Net, len: nat) {
    1 + (len - 1) * WorkOf(n.bits) < U64
  }

  /** Fork choice compares what the lengths come to modulo 2^64; as long as the work of both
      chains fits u64, strictly more work means strictly longer. */
  lemma {:induction false} MoreWorkMeansLonger(n: Net, a: seq<Block>, b: seq<Block>)
    requires a != [] && b != []
    ensures Work(n, a) > Work(n, b) <==> WorkAt(n, |a|) > WorkAt(n, |b|)
    ensures WorkFits(n, |a|) && WorkFits(n, |b|) ==> (Work(n, a) > Work(n, b) <==> |a| > |b|)
  {
    hide WorkOf, Work, WorkAt, WorkFits;
    WorkIsWorkAt(n, a);
    WorkIsWorkAt(n, b);
    if WorkFits(n, |a|) && WorkFits(n, |b|) {
      if |a| > |b| {
        WorkRises(n, |b|, |a|);
      } else if |b| > |a| {
        WorkRises(n, |a|, |b|);
      }
    }
  }

  lemma {:induction false} WorkPositive(n: Net)
    ensures 1 <= WorkOf(n.bits)
  {
  }

  /** The total work of any chain of `len` blocks. */
  function WorkAt(n: Net, len: nat): u64
    requires len > 0
  {
    (1 + (len - 1) * WorkOf(n.bits)) % U64
  }

  lemma {:induction false} FirstWrap(n: Net, len: nat) returns (k: nat)
    requires len > 0 && !WorkFits(n, len)
    ensures 1 < k <= len && WorkFits(n, k - 1) && !WorkFits(n, k)
  {
    hide WorkOf;
    WorkPositive(n);
    if len == 1 || WorkFits(n, len - 1) {
      k := len;
    } else {
      k := FirstWrap(n, len - 1);
    }
  }

  lemma {:induction false} WorkRises(n: Net, j: nat, k: nat)
    requires 0 < j < k && WorkFits(n, k)
    ensures WorkAt(n, j) < WorkAt(n, k)
  {
    hide WorkOf;
    WorkPositive(n);
    MulMono(j - 1, k - 1, WorkOf(n.bits));
    MulCompare(k - 1, j - 1, WorkOf(n.bits));
    NoWrap((j - 1) * WorkOf(n.bits));
    NoWrap((k - 1) * WorkOf(n.bits));
  }

  /** Among chains of up to `len` blocks the longer always carries more work exactly as
      long as the work of `len` blocks fits u64. */
  lemma {:induction false} WorkOrdersByLength(n: Net, len: nat)
    requires len > 0
    ensures WorkFits(n, len) <==> forall j: nat, k: nat :: 0 < j < k <= len ==> WorkAt(n, j) < WorkAt(n, k)
  {
    hide WorkOf, WorkAt, WorkFits;
    if WorkFits(n, len) {
      forall j: nat, k: nat | 0 < j < k <= len
        ensures WorkAt(n, j) < WorkAt(n, k)
      {
        ShorterFits(n, k, len);
        WorkRises(n, j, k);
      }
    } else {
      var k := FirstWrap(n, len);
      WrapDrops(n, k);
      assert 0 < k - 1 < k <= len;
    }
  }

  lemma {:induction false} ShorterFits(n: Net, k: nat, len: nat)
    requires 0 < k <= len && WorkFits(n, len)
    ensures WorkFits(n, k)
  {
    hide WorkOf;
    MulMono(k - 1, len - 1, WorkOf(n.bits));
  }

  lemma {:induction false} WrapDrops(n: Net, k: nat)
    requires k > 1 && WorkFits(n, k - 1) && !WorkFits(n, k)
    ensures WorkAt(n, k) <= WorkAt(n, k - 1)
  {
    hide WorkOf;
    WorkPositive(n);
    NoWrap((k - 2) * WorkOf(n.bits));
    MulSucc(k - 2, WorkOf(n.bits));
    WrapCompare(WorkAt(n, k - 1), WorkOf(n.bits));
  }

  /** Appending a block adds work exactly as long as the sum does not wrap. */
  lemma {:induction false} AppendGrowsWork(n: Net, blocks: seq<Block>, b: Block)
    requires blocks != []
    ensures Work(n, blocks + [b]) > Work(n, blocks) <==> Work(n, blocks) + WorkOf(n.bits) < U64
  {
    hide WorkOf, Work, IndexOf, IndexBlock, StateOf, StateAfter, HeaderHash;
    WorkPositive(n);
    DerivedSnoc(n, blocks, b);
    WrapCompare(Work(n, blocks), WorkOf(n.bits));
  }

  /** With 63 or more difficulty bits the first block after the genesis wraps the work to zero. */
  lemma {:induction false} SaturatedWorkWraps(n: Net, b: Block)
    requires n.bits >= 63
    ensures Work(n, [Genesis(n), b]) == 0 < Work(n, [Genesis(n)])
  {
    hide Genesis, StateOf, IndexOf, IndexBlock, StateAfter, HeaderHash;
    DerivedSnoc(n, [Genesis(n)], b);
    assert [Genesis(n)] + [b] == [Genesis(n), b];
  }

  // ---------- money ----------

  lemma {:induction false} ChainMints(n: Net, blocks: seq<Block>)
    requires ValidChain(n, blocks)
    ensures MintedBy(AllTxs(blocks)) == if blocks == [] then 0 else (|blocks| - 1) * n.reward
    decreases |blocks|
  {
    hide ValidChain, Minted, RunOk, StateOf;
    if blocks != [] {
      var k := |blocks| - 1;
      ValidChainPrefix(n, blocks, k);
      ChainMints(n, blocks[..k]);
      MintedByConcat(AllTxs(blocks[..k]), blocks[k].txs);
      ExtendsRun(n, blocks, k);
      BlockMints(n, StateOf(n, blocks[..k]), blocks[k].txs, blocks[k].h.height);
      if k > 0 {
        ExtendsHeader(n, blocks, k);
        MulSucc(k - 1, n.reward);
      }
    }
  }

  lemma {:induction false} EmptyChain(n: Net)
    ensures StateOf(n, []) == map[] && MintedBy(AllTxs([])) == 0 && Total(StateOf(n, [])) == 0
    ensures Wraps(n, map[], AllTxs([])) == 0
  {
  }

  /** The balances of a chain add up to what it minted, less 2^64 for each overflow. */
  lemma {:induction false} ChainTotal(n: Net, blocks: seq<Block>)
    requires ValidChain(n, blocks)
    ensures Total(StateOf(n, blocks)) + Wraps(n, map[], AllTxs(blocks)) * U64 == MintedBy(AllTxs(blocks))
    decreases |blocks|
  {
    hide ValidChain, RunOk, Minted, AllTxs, Total, Wraps, StateAfter, MintedBy;
    if blocks == [] {
      EmptyChain(n);
    } else {
      var k := |blocks| - 1;
      var front, txs := blocks[..k], blocks[k].txs;
      ValidChainPrefix(n, blocks, k);
      ChainTotal(n, front);
      ExtendsRun(n, blocks, k);
      assert blocks == front + [blocks[k]];
      RunTotal(n, StateOf(n, front), txs, blocks[k].h.height, true);
      AllTxsSnoc(front, blocks[k]);
      MintedByConcat(AllTxs(front), txs);
      WrapsConcat(n, map[], AllTxs(front), txs);
      StateAfterConcat(n, map[], AllTxs(front), txs);
    }
  }

  /** Conservation: the balances add up to the reward times the height exactly when no
      credit on the chain has overflowed its account - so whenever that product fits u64 -
      and modulo 2^64 in any case; each overflow has lost 2^64. */
  lemma {:induction false} Conservation(n: Net, blocks: seq<Block>)
    requires ValidChain(n, blocks) && blocks != []
    ensures var supply, wraps := (|blocks| - 1) * n.reward, Wraps(n, map[], AllTxs(blocks));
            && Total(StateOf(n, blocks)) + wraps * U64 == supply
            && Total(StateOf(n, blocks)) % U64 == supply % U64
            && (Total(StateOf(n, blocks)) == supply <==> wraps == 0)
            && (supply < U64 ==> wraps == 0)
  {
    hide ValidChain, StateOf, AllTxs, Wraps;
    ChainMints(n, blocks);
    ChainTotal(n, blocks);
    LostWraps(Total(StateOf(n, blocks)), Wraps(n, map[], AllTxs(blocks)), (|blocks| - 1) * n.reward);
  }

  // ---------- replay protection ----------

  /** A 64-bit address space bounds the blocks and transactions a node can hold: each
      takes up more than two bytes. */
  predicate FitsMemory(blocks: seq<Block>) {
    |blocks| <= U64 / 2 && |AllTxs(blocks)| <= U64 / 2
  }

  /** Everything on the chain in front of transaction i of block h. */
  ghost function Before(blocks: seq<Block>, h: nat, i: nat): seq<Tx>
    requires h < |blocks| && i <= |blocks[h].txs|
  {
    AllTxs(blocks[..h]) + blocks[h].txs[..i]
  }

  lemma {:induction false} VerdictOnChain(n: Net, blocks: seq<Block>, h: nat, i: nat)
    requires ValidChain(n, blocks) && h < |blocks| && i < |blocks[h].txs|
    ensures Verdict(n, StateAfter(n, map[], Before(blocks, h, i)), blocks[h].txs[i], blocks[h].h.height, i == 0).Good?
  {
    hide Verdict, StateAfter, ValidChain;
    ExtendsRun(n, blocks, h);
    StateAfterConcat(n, map[], AllTxs(blocks[..h]), blocks[h].txs[..i]);
  }

  lemma {:induction false} GoodTx(n: Net, st: State, t: Tx, height: u64, isFirst: bool)
    requires Verdict(n, st, t, height, isFirst).Good?
    ensures |t.payload| <= MAX_PAYLOAD
    ensures t.kind == TX_COINBASE <==> isFirst
    ensures isFirst ==> t.nonce == height
    ensures !isFirst ==> t.nonce == Acct(st, n.addrOf(t.from)).nonce
  {
    hide SignHash, IsZero;
  }

  /** A transaction's nonce is the number of its sender's transactions in front of it. */
  lemma {:induction false} NonceOnChain(n: Net, blocks: seq<Block>, h: nat, i: nat)
    requires ValidChain(n, blocks) && h < |blocks| && i < |blocks[h].txs|
    ensures |blocks[h].txs[i].payload| <= MAX_PAYLOAD
    ensures blocks[h].txs[i].kind == TX_COINBASE <==> i == 0
    ensures i == 0 ==> blocks[h].txs[i].nonce == blocks[h].h.height
    ensures var t := blocks[h].txs[i];
            i > 0 ==> t.nonce == CountFrom(n, Before(blocks, h, i), n.addrOf(t.from)) % U64
  {
    hide Verdict, StateAfter, ValidChain, Before, CountFrom;
    VerdictOnChain(n, blocks, h, i);
    var t := blocks[h].txs[i];
    var st := StateAfter(n, map[], Before(blocks, h, i));
    GoodTx(n, st, t, blocks[h].h.height, i == 0);
    NonceCounts(n, map[], Before(blocks, h, i), n.addrOf(t.from));
  }

  /** Nothing gets onto a chain that its sender has not signed for this network. */
  lemma {:induction false} SignedOnChain(n: Net, blocks: seq<Block>, h: nat, i: nat)
    requires ValidChain(n, blocks) && h < |blocks| && 0 < i < |blocks[h].txs|
    ensures var t := blocks[h].txs[i];
            && t.netId == n.netId && t.from != Zeros(64)
            && n.verify(t.from, n.hash(UnsignedTx(t)), t.sig)
            && ((t.kind == 1 && t.payload == []) || (t.kind == 2 && t.amount == 0 && 1 <= |t.payload| <= 1024))
  {
    hide Verdict, StateAfter, ValidChain, Before, UnsignedTx;
    VerdictOnChain(n, blocks, h, i);
    AppliesExactly(n, StateAfter(n, map[], Before(blocks, h, i)), blocks[h].txs[i], blocks[h].h.height, i == 0);
  }

  /** A block's first transaction pays the reward to one address, and is fixed otherwise. */
  lemma {:induction false} CoinbaseOnChain(n: Net, blocks: seq<Block>, h: nat)
    requires ValidChain(n, blocks) && 0 < h < |blocks|
    ensures blocks[h].txs != []
    ensures var t := blocks[h].txs[0];
            t == Tx(0, n.netId, Zeros(64), t.to, n.reward, blocks[h].h.height, [], Zeros(64))
  {
    hide Verdict, StateAfter, ValidChain, Before, HeaderHash, Root, PowOk;
    ExtendsHeader(n, blocks, h);
    VerdictOnChain(n, blocks, h, 0);
    AppliesExactly(n, StateAfter(n, map[], Before(blocks, h, 0)), blocks[h].txs[0], blocks[h].h.height, true);
  }

  /** Every block after the genesis is of this version, network and difficulty, and its header
      hash is below the target. */
  lemma {:induction false} WorkOnChain(n: Net, blocks: seq<Block>, h: nat)
    requires ValidChain(n, blocks) && 0 < h < |blocks|
    ensures var b := blocks[h];
            && b.h.version == 1 && b.h.netId == n.netId && b.h.bits == n.bits
            && n.bits <= 256 && FromBE(n.hash(SerHeader(b.h))) < Pow2(256 - n.bits)
            && b.h.prev == n.hash(SerHeader(blocks[h - 1].h))
  {
    hide SerHeader, PowOk, Root, RunOk, StateOf, Genesis, FromBE;
    assert Extends(n, blocks[..h], blocks[h]);
    assert blocks[..h][|blocks[..h]| - 1] == blocks[h - 1];
    PowIsNumericBound(n.hash(SerHeader(blocks[h].h)), n.bits);
  }

  /** Nobody loses money without a signature: an account whose balance a block lowers, while
      no credit in it overflows, has signed a transfer in that block. */
  lemma {:induction false} LossIsSigned(n: Net, blocks: seq<Block>, h: nat, a: Addr20) returns (i: nat)
    requires ValidChain(n, blocks) && h < |blocks|
    requires Wraps(n, StateOf(n, blocks[..h]), blocks[h].txs) == 0
    requires Acct(StateOf(n, blocks[..h + 1]), a).balance < Acct(StateOf(n, blocks[..h]), a).balance
    ensures 0 < i < |blocks[h].txs|
    ensures var t := blocks[h].txs[i];
            && t.kind == 1 && n.addrOf(t.from) == a
            && n.verify(t.from, n.hash(UnsignedTx(t)), t.sig)
  {
    hide ValidChain, RunOk, StateOf, StateAfter, Wraps, UnsignedTx, Before, Acct, HeaderHash, TxId, IndexOf, Work,
         CountFrom;
    var txs := blocks[h].txs;
    ExtendsRun(n, blocks, h);
    assert blocks[..h + 1] == blocks[..h] + [blocks[h]];
    DerivedSnoc(n, blocks[..h], blocks[h]);
    if forall j :: 0 <= j < |txs| ==> !(txs[j].kind == TX_TRANSFER && n.addrOf(txs[j].from) == a) {
      NothingLost(n, StateOf(n, blocks[..h]), txs, blocks[h].h.height, true, a);
      assert false;
    }
    i :| 0 <= i < |txs| && txs[i].kind == TX_TRANSFER && n.addrOf(txs[i].from) == a;
    NonceOnChain(n, blocks, h, i);
    SignedOnChain(n, blocks, h, i);
  }

  lemma {:induction false} CountFromPrefix(n: Net, x: seq<Tx>, y: seq<Tx>, a: Addr20)
    requires x <= y
    ensures CountFrom(n, x, a) <= CountFrom(n, y, a)
  {
    hide CountFrom;
    assert y == x + y[|x|..];
    CountFromConcat(n, x, y[|x|..], a);
  }

  lemma {:induction false} BeforeGrows(blocks: seq<Block>, h: nat, i: nat, g: nat, j: nat)
    requires h < |blocks| && i < |blocks[h].txs| && g < |blocks| && j < |blocks[g].txs|
    requires h < g || (h == g && i < j)
    ensures Before(blocks, h, i) + [blocks[h].txs[i]] <= Before(blocks, g, j)
    ensures |Before(blocks, g, j)| <= |AllTxs(blocks)|
  {
    hide AllTxs;
    var txs := blocks[h].txs;
    assert Before(blocks, h, i) + [txs[i]] == AllTxs(blocks[..h]) + txs[..i + 1];
    if h == g {
      assert txs[..i + 1] <= txs[..j];
    } else {
      AllTxsAt(blocks, h);
      AllTxsPrefix(blocks, h + 1, g);
      assert txs[..i + 1] <= txs;
    }
    AllTxsAt(blocks, g);
    AllTxsPrefix(blocks, g + 1, |blocks|);
    assert blocks[..|blocks|] == blocks;
  }

  /** No transaction occurs twice on a chain. */
  lemma {:induction false} NoReplay(n: Net, blocks: seq<Block>, h: nat, i: nat, g: nat, j: nat)
    requires ValidChain(n, blocks) && FitsMemory(blocks)
    requires h < |blocks| && i < |blocks[h].txs| && g < |blocks| && j < |blocks[g].txs|
    requires h < g || (h == g && i < j)
    ensures blocks[h].txs[i] != blocks[g].txs[j]
  {
    hide ValidChain, Before, AllTxs, CountFrom;
    NonceOnChain(n, blocks, h, i);
    NonceOnChain(n, blocks, g, j);
    if i == 0 && j == 0 {
      HeightsRun(n, blocks, h);
      HeightsRun(n, blocks, g);
    } else if i > 0 && j > 0 {
      var t := blocks[h].txs[i];
      var a := n.addrOf(t.from);
      BeforeGrows(blocks, h, i, g, j);
      var x, y := Before(blocks, h, i), Before(blocks, g, j);
      CountFromPrefix(n, x + [t], y, a);
      CountFromConcat(n, x, [t], a);
      CountOne(n, t);
      CountFromBound(n, y, a);
    }
  }

  lemma {:induction false} CountOne(n: Net, t: Tx)
    requires t.kind != TX_COINBASE
    ensures CountFrom(n, [t], n.addrOf(t.from)) == 1
  {
    assert [t][..0] == [];
  }

  /** Each account's nonce is the number of its transactions on the chain. */
  lemma {:induction false} NonceIsSentCount(n: Net, blocks: seq<Block>, a: Addr20)
    requires FitsMemory(blocks)
    ensures Acct(StateOf(n, blocks), a).nonce == CountFrom(n, AllTxs(blocks), a)
  {
    NonceCounts(n, map[], AllTxs(blocks), a);
    CountFromBound(n, AllTxs(blocks), a);
  }
}
