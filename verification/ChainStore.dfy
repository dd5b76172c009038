/** The `Chain` object: validation and append, fork choice with reorganisation, reload
    from the database (src/core.h:189-375).  `rows` is the `blocks` table, one row of
    serialized bytes per height; a transaction is one assignment to it. */
module ChainStore {
  import opened Basics
  import opened Codec
  import opened Merkle
  import opened Pow
  import opened Ledger
  import opened ChainRules
  import opened Agreement

  type Table = map<nat, Bytes>

  datatype ReplaceVerdict =
    | Replaced(fork: nat)
    | EmptyCandidate
    | Rejected(index: nat, why: ChainVerdict)
    | NoMoreWork

  // ---------- the table ----------

  ghost function Rows(blocks: seq<Block>): Table {
    map k: nat | k < |blocks| :: SerBlock(blocks[k])
  }

  /** The table without its rows from height `h` on. */
  function Truncate(rows: Table, h: nat): Table {
    map k | k in rows && k < h :: rows[k]
  }

  /** The rows in order of height, for a table whose heights are below `limit`. */
  function Scan(rows: Table, limit: nat): seq<Bytes> {
    if limit == 0 then []
    else Scan(rows, limit - 1) + if limit - 1 in rows then [rows[limit - 1]] else []
  }

  /** The blocks reload keeps: the longest run of rows that parse and connect. */
  function GoodPrefix(n: Net, raws: seq<Bytes>, now: Clock, done: seq<Block>): seq<Block>
    decreases |raws|
  {
    if raws == [] then done
    else
      match ParseBlock(raws[0])
      case None => done
      case Some(b) =>
        if Check(n, done, b, now).Connected? then GoodPrefix(n, raws[1..], now, done + [b]) else done
  }

  /** The chain and the table after a start on `rows`. */
  function LoadedBlocks(n: Net, raws: seq<Bytes>, now: Clock): seq<Block> {
    var g := GoodPrefix(n, raws, now, []);
    if g == [] then [Genesis(n)] else g
  }

  function LoadedRows(n: Net, rows: Table, raws: seq<Bytes>, now: Clock): Table {
    var g := GoodPrefix(n, raws, now, []);
    var kept := if |g| < |raws| then Truncate(rows, |g|) else rows;
    if g == [] then kept[0 := SerBlock(Genesis(n))] else kept
  }

  /** The table after inserting the blocks at positions `lo` to `hi`. */
  function Inserted(rows: Table, blocks: seq<Block>, lo: nat, hi: nat): Table
    requires lo <= hi <= |blocks|
    decreases hi
  {
    if lo == hi then rows
    else Inserted(rows, blocks, lo, hi - 1)[blocks[hi - 1].h.height := SerBlock(blocks[hi - 1])]
  }

  // ---------- hashing and applying ----------

  method HashHeader(n: Net, h: BlockHeader) returns (x: H256)
    ensures x == HeaderHash(n, h)
  {
    var w := new Writer();
    WriteHeader(w, h);
    assert [] + SerHeader(h) == SerHeader(h);
    x := n.hash(w.b);
  }

  method HashTx(n: Net, t: Tx) returns (x: H256)
    ensures x == TxId(n, t)
  {
    var w := new Writer();
    WriteTx(w, t, true);
    assert [] + SerTx(t) == SerTx(t);
    x := n.hash(w.b);
  }

  method HashTxs(n: Net, txs: seq<Tx>) returns (ids: seq<H256>)
    ensures ids == TxIds(n, txs)
  {
    hide TxId;
    ids := [];
    for i := 0 to |txs|
      invariant ids == TxIds(n, txs)[..i]
    {
      var id := HashTx(n, txs[i]);
      ids := ids + [id];
    }
  }

  method ApplyAll(n: Net, st: State, txs: seq<Tx>, height: u64) returns (after: State, bad: Option<(nat, TxVerdict)>)
    ensures bad == FirstBad(n, st, txs, height, 0)
    ensures bad.None? ==> after == StateAfter(n, st, txs)
  {
    hide Verdict, Effect;
    var tmp := new Accounts(st);
    for i := 0 to |txs|
      invariant tmp.m == StateAfter(n, st, txs[..i])
      invariant FirstBad(n, st, txs, height, 0) == FirstBad(n, st, txs, height, i)
    {
      assert txs[..i + 1][..i] == txs[..i];
      var v := tmp.Apply(n, txs[i], height, i == 0);
      if !v.Good? {
        return tmp.m, Some((i, v));
      }
    }
    assert txs[..|txs|] == txs;
    after, bad := tmp.m, None;
  }

  class Chain {
    const n: Net
    const hasDb: bool
    var blocks: seq<Block>
    var hashes: seq<H256>
    var st: State
    var txidx: TxIndex
    var work: u64
    var rows: Table
    var persisting: bool

    /** The cached structures agree with the block list, and the block list is a valid chain. */
    ghost predicate Valid()
      reads this
    {
      && ValidChain(n, blocks)
      && hashes == Hashes(n, blocks)
      && st == StateOf(n, blocks)
      && txidx == IndexOf(n, blocks)
      && work == Work(n, blocks)
    }

    /** The table mirrors the block list. */
    ghost predicate Stored()
      reads this
    {
      hasDb ==> rows == Rows(blocks)
    }

    constructor (net: Net, db: bool, table: Table)
      ensures n == net && hasDb == db && rows == table && persisting
      ensures blocks == [] && Valid()
    {
      n, hasDb, rows, persisting := net, db, table, true;
      blocks, hashes, st, txidx, work := [], [], map[], map[], 0;
    }

    method HasBlock(h: H256) returns (found: bool)
      requires Valid()
      ensures found <==> exists k :: 0 <= k < |blocks| && HeaderHash(n, blocks[k].h) == h
    {
      hide HeaderHash, ValidChain;
      for i := 0 to |hashes|
        invariant forall k :: 0 <= k < i ==> HeaderHash(n, blocks[k].h) != h
      {
        if hashes[i] == h {
          assert HeaderHash(n, blocks[i].h) == h;
          return true;
        }
      }
      found := false;
    }

    /** Validate `b` as the next block and append it; a rejected block changes nothing. */
    method ConnectBlock(b: Block, now: Clock) returns (err: ChainVerdict)
      requires Valid()
      modifies this`blocks, this`hashes, this`st, this`txidx, this`work, this`rows
      ensures Valid()
      ensures err == Check(n, old(blocks), b, now)
      ensures blocks == if err.Connected? then old(blocks) + [b] else old(blocks)
      ensures rows == if err.Connected? && hasDb && persisting then old(rows)[b.h.height := SerBlock(b)] else old(rows)
      ensures old(Stored()) && persisting && HeightsExact(blocks) ==> Stored()
      ensures Timely(old(blocks), now) ==> Timely(blocks, now)
    {
      RowsSnoc(blocks, b);
      hide Rows, HeightsExact;
      hide HeaderHash, TxId, RunOk, StateAfter, Root, ValidChain, IndexOf, IndexBlock, Work, WorkOf, Genesis,
           SerBlock, Extends;
      CheckMeansExtends(n, blocks, b, now);
      if blocks == [] {
        var bh := HashHeader(n, b.h);
        var gh := HashHeader(n, Genesis(n).h);
        if bh != gh || b.txs != [] { return InvalidGenesis; }
        assert b.txs == [];
        EmptyRun(n, st);
        Append(b, 1, st);
        return Connected;
      }
      var prev := blocks[|blocks| - 1].h;
      if b.h.version != CL_VERSION { return BadVersion; }
      if b.h.netId != n.netId { return WrongNetwork; }
      if b.h.height != (prev.height + 1) % U64 { return BadHeight; }
      if b.h.prev != hashes[|hashes| - 1] { return PrevMismatch; }
      if b.h.bits != n.bits { return BadDifficulty; }
      var bh := HashHeader(n, b.h);
      var zeros := LeadingZeroBits(bh);
      if zeros < b.h.bits { return InsufficientWork; }
      if b.h.time > now + MAX_TIME_SKEW_S { return TimeTooFar; }
      if b.txs == [] || |b.txs| > MAX_BLOCK_TXS { return BadTxCount; }
      var ids := HashTxs(n, b.txs);
      var root := MerkleRoot(n, ids);
      if root != b.h.merkle { return MerkleMismatch; }
      var after, bad := ApplyAll(n, st, b.txs, b.h.height);
      if bad.Some? { return BadTx(bad.value.0, bad.value.1); }
      Append(b, WorkOf(b.h.bits), after);
      err := Connected;
    }

    method Append(b: Block, w: u64, after: State)
      requires Valid() && Extends(n, blocks, b)
      requires after == StateAfter(n, st, b.txs)
      requires w == if blocks == [] then 1 else WorkOf(n.bits)
      modifies this`blocks, this`hashes, this`st, this`txidx, this`work, this`rows
      ensures Valid()
      ensures blocks == old(blocks) + [b]
      ensures rows == if hasDb && persisting then old(rows)[b.h.height := SerBlock(b)] else old(rows)
    {
      hide HeaderHash, TxId, StateAfter, ValidChain, IndexOf, Extends, WorkOf, SerBlock, Hashes, StateOf;
      DerivedSnoc(n, blocks, b);
      ValidChainSnoc(n, blocks, b);
      ghost var index0 := txidx;
      for i := 0 to |b.txs|
        invariant unchanged(`blocks, `hashes, `st, `work, `rows)
        invariant txidx == IndexBlock(n, index0, b, i)
      {
        var id := HashTx(n, b.txs[i]);
        txidx := txidx[id := (b.h.height % U32, i % U32)];
      }
      var bh := HashHeader(n, b.h);
      st := after;
      blocks := blocks + [b];
      hashes := hashes + [bh];
      work := (work + w) % U64;
      if hasDb && persisting {
        DbInsert(b);
      }
    }

    method DbInsert(b: Block)
      modifies this`rows
      ensures rows == old(rows)[b.h.height := SerBlock(b)]
    {
      var raw := SerializeBlock(b);
      rows := rows[b.h.height := raw];
    }

    /** Adopt a full candidate chain if it is valid and has strictly more work. */
    method TryReplace(cand: seq<Block>, now: Clock) returns (v: ReplaceVerdict)
      requires Valid()
      modifies this`blocks, this`hashes, this`st, this`txidx, this`work, this`rows
      ensures Valid()
      ensures v.Replaced? <==> cand != [] && ValidChain(n, cand) && Timely(cand, now) && Work(n, cand) > old(work)
      ensures v.Rejected? ==> v.index < |cand| && v.why == Check(n, cand[..v.index], cand[v.index], now)
                              && !v.why.Connected? && ValidChain(n, cand[..v.index])
      ensures v.EmptyCandidate? <==> cand == []
      ensures v.NoMoreWork? <==> cand != [] && ValidChain(n, cand) && Timely(cand, now) && Work(n, cand) <= old(work)
      ensures !v.Replaced? ==> unchanged(this)
      ensures v.Replaced? ==>
                && blocks == cand
                && v.fork <= |old(hashes)| && v.fork <= |hashes| && old(hashes)[..v.fork] == hashes[..v.fork]
                && (v.fork < |old(hashes)| && v.fork < |hashes| ==> old(hashes)[v.fork] != hashes[v.fork])
      ensures v.Replaced? ==>
                rows == if hasDb && persisting
                        then Inserted(Truncate(old(rows), v.fork), cand, v.fork, |cand|)
                        else old(rows)
      ensures (v.Replaced? && old(Stored()) && persisting
               && FitsMemory(old(blocks)) && FitsMemory(cand)
               && NoCollision(n.hash, ChainPre(n, old(blocks)) + ChainPre(n, cand))) ==> Stored()
    {
      hide HeaderHash, Check, ValidChain, IndexOf, Work, StateOf, Hashes, Rows, Truncate, HeightsExact, FitsMemory,
           NoCollision, ChainPre, Inserted, Timely;
      if cand == [] { return EmptyCandidate; }
      var tmp, bad := ConnectAllOf(n, cand, now);
      if bad.Some? { return Rejected(bad.value.0, bad.value.1); }
      if tmp.work <= work { return NoMoreWork; }
      HashesLength(n, blocks);
      HashesLength(n, cand);
      var fork := CommonPrefix(hashes, tmp.hashes);
      blocks, hashes, st, txidx, work := tmp.blocks, tmp.hashes, tmp.st, tmp.txidx, tmp.work;
      v := Replaced(fork);
      if hasDb && persisting {
        ForkShares(n, old(blocks), cand, fork);
        TruncatedRows(old(blocks), fork);
        rows := Truncate(rows, fork);
        RewriteFrom(fork);
      }
    }

    /** The transaction body: one `db_insert` per block from the fork on. */
    method RewriteFrom(fork: nat)
      requires fork <= |blocks|
      modifies this`rows
      ensures rows == Inserted(old(rows), blocks, fork, |blocks|)
      ensures HeightsExact(blocks) && old(rows) == Rows(blocks[..fork]) ==> rows == Rows(blocks)
    {
      hide SerBlock;
      ghost var good := HeightsExact(blocks) && rows == Rows(blocks[..fork]);
      for h := fork to |blocks|
        invariant rows == Inserted(old(rows), blocks, fork, h)
        invariant good ==> rows == Rows(blocks[..h])
      {
        DbInsert(blocks[h]);
        assert good ==> rows == Rows(blocks[..h + 1]);
      }
      assert blocks[..|blocks|] == blocks;
    }

    /** Load from the table; an unreadable or invalid tail is cut off, an empty chain
        starts from the genesis. */
    method Init(now: Clock, limit: nat)
      requires blocks == [] && Valid() && persisting
      requires forall k :: k in rows ==> k < limit
      modifies this
      ensures Valid() && persisting
      ensures hasDb ==> blocks == LoadedBlocks(n, Scan(old(rows), limit), now)
                        && rows == LoadedRows(n, old(rows), Scan(old(rows), limit), now)
      ensures !hasDb ==> blocks == [Genesis(n)] && rows == old(rows)
    {
      hide Check, ValidChain, IndexOf, Work, StateOf, SerBlock, Hashes, ParseBlock, Genesis;
      if hasDb {
        var raws := Scan(rows, limit);
        persisting := false;
        var good := 0;
        while good < |raws|
          invariant 0 <= good <= |raws| && Valid() && !persisting && rows == old(rows)
          invariant |blocks| == good
          invariant GoodPrefix(n, raws, now, []) == GoodPrefix(n, raws[good..], now, blocks)
        {
          assert raws[good..][1..] == raws[good + 1..];
          var b := ParseBlockBytes(raws[good]);
          if b.None? { break; }
          var err := ConnectBlock(b.value, now);
          if !err.Connected? { break; }
          good := good + 1;
        }
        assert GoodPrefix(n, raws, now, []) == blocks;
        persisting := true;
        if good < |raws| {
          rows := Truncate(rows, good);
        }
      }
      if blocks == [] {
        GenesisConnects(n, now);
        var err := ConnectBlock(Genesis(n), now);
        assert blocks == [Genesis(n)];
      }
    }
  }

  /** Connect a candidate from the genesis on, block by block, to an empty chain that is kept
      in memory only; stop at the first block that does not connect. */
  method ConnectAllOf(n: Net, cand: seq<Block>, now: Clock) returns (tmp: Chain, bad: Option<(nat, ChainVerdict)>)
    ensures fresh(tmp) && tmp.n == n && tmp.Valid()
    ensures bad.None? <==> ValidChain(n, cand) && Timely(cand, now)
    ensures bad.None? ==> tmp.blocks == cand
    ensures bad.Some? ==>
              var (i, why) := bad.value;
              && i < |cand| && why == Check(n, cand[..i], cand[i], now) && !why.Connected? && ValidChain(n, cand[..i])
  {
    hide HeaderHash, Check, ValidChain, IndexOf, Work, StateOf, Hashes, Rows, HeightsExact;
    tmp := new Chain(n, false, map[]);
    bad := None;
    for i := 0 to |cand|
      invariant tmp.Valid() && tmp.n == n && fresh(tmp)
      invariant tmp.blocks == cand[..i] && Timely(cand[..i], now)
    {
      CheckMeansExtends(n, cand[..i], cand[i], now);
      assert cand[..i + 1] == cand[..i] + [cand[i]];
      var err := tmp.ConnectBlock(cand[i], now);
      if !err.Connected? {
        NotExtending(n, cand, i, now);
        return tmp, Some((i, err));
      }
    }
    assert cand[..|cand|] == cand;
  }

  /** Agreement between nodes: whatever runs led there, equal tip hashes mean equal caches
      throughout, or a collision among the strings the two nodes hashed. */
  lemma {:induction false} NodesAgree(x: Chain, y: Chain)
    requires x.Valid() && y.Valid() && x.n == y.n
    requires FitsMemory(x.blocks) && FitsMemory(y.blocks) && x.hashes != [] && y.hashes != []
    requires x.hashes[|x.hashes| - 1] == y.hashes[|y.hashes| - 1]
    ensures (x.blocks == y.blocks && x.hashes == y.hashes && x.st == y.st && x.txidx == y.txidx && x.work == y.work)
            || !NoCollision(x.n.hash, ChainPre(x.n, x.blocks) + ChainPre(x.n, y.blocks))
  {
    hide ValidChain, FitsMemory, NoCollision, ChainPre, StateOf, IndexOf, Work, HeaderHash;
    TipDeterminesLedger(x.n, x.blocks, y.blocks);
  }

  /** Rows below the fork may stay: they hold the same blocks on both chains. */
  lemma {:induction false} ForkShares(n: Net, a: seq<Block>, b: seq<Block>, fork: nat)
    requires ValidChain(n, a) && ValidChain(n, b)
    requires fork <= |a| && fork <= |b| && Hashes(n, a)[..fork] == Hashes(n, b)[..fork]
    ensures (FitsMemory(a) && FitsMemory(b) && NoCollision(n.hash, ChainPre(n, a) + ChainPre(n, b))) ==>
              a[..fork] == b[..fork] && HeightsExact(b)
  {
    hide ValidChain, NoCollision, ChainPre, Holds, Hashes, AllTxs, HeightsExact, GenesisExact;
    var s := ChainPre(n, a) + ChainPre(n, b);
    if FitsMemory(a) && FitsMemory(b) && NoCollision(n.hash, s) {
      ChainPreHolds(n, a, s);
      ChainPreHolds(n, b, s);
      SharedHashesShareBlocks(n, a, b, fork, s);
      if b != [] {
        FirstIsGenesis(n, b, s);
        GenesisGivesHeights(n, b);
      } else {
        NoHeights(b);
      }
    }
  }

  lemma {:induction false} NoHeights(b: seq<Block>)
    requires b == []
    ensures HeightsExact(b)
  {
  }

  method CommonPrefix(a: seq<H256>, b: seq<H256>) returns (fork: nat)
    ensures fork <= |a| && fork <= |b| && a[..fork] == b[..fork]
    ensures fork < |a| && fork < |b| ==> a[fork] != b[fork]
  {
    fork := 0;
    while fork < |a| && fork < |b| && a[fork] == b[fork]
      invariant fork <= |a| && fork <= |b|
      invariant a[..fork] == b[..fork]
    {
      fork := fork + 1;
    }
  }

  lemma {:induction false} RowsSnoc(blocks: seq<Block>, b: Block)
    ensures HeightsExact(blocks + [b]) ==> Rows(blocks + [b]) == Rows(blocks)[b.h.height := SerBlock(b)]
  {
    hide SerBlock;
    assert (blocks + [b])[|blocks|] == b;
  }

  lemma {:induction false} TruncatedRows(blocks: seq<Block>, k: nat)
    requires k <= |blocks|
    ensures Truncate(Rows(blocks), k) == Rows(blocks[..k])
  {
    hide SerBlock;
  }

  lemma {:induction false} HashesLength(n: Net, blocks: seq<Block>)
    ensures |Hashes(n, blocks)| == |blocks|
  {
  }

  lemma {:induction false} EmptyRun(n: Net, st: State)
    ensures StateAfter(n, st, []) == st
  {
  }

  lemma {:induction false} GenesisConnects(n: Net, now: Clock)
    ensures Check(n, [], Genesis(n), now).Connected? && Genesis(n).h.height == 0
  {
  }

  lemma {:induction false} NotExtending(n: Net, cand: seq<Block>, i: nat, now: Clock)
    requires i < |cand| && !Check(n, cand[..i], cand[i], now).Connected?
    ensures !(ValidChain(n, cand) && Timely(cand, now))
  {
    hide Check, Extends;
    CheckMeansExtends(n, cand[..i], cand[i], now);
    if ValidChain(n, cand) {
      assert Extends(n, cand[..i], cand[i]);
    }
  }

  /** Some height above every row of a table. */
  method HeightLimit(rows: Table) returns (limit: nat)
    ensures forall k :: k in rows ==> k < limit
  {
    limit := 0;
    var left := rows.Keys;
    while left != {}
      invariant left <= rows.Keys && forall k :: k in rows ==> k in left || k < limit
      decreases left
    {
      var k :| k in left;
      left := left - {k};
      if limit <= k {
        limit := k + 1;
      }
    }
  }

  // ---------- reload restores, and repairs ----------

  lemma {:induction false} GoodPrefixOf(n: Net, blocks: seq<Block>, raws: seq<Bytes>, now: Clock, i: nat, k: nat)
    requires ValidChain(n, blocks) && i <= k <= |blocks| && k <= |raws|
    requires Timely(blocks[..k], now)
    requires forall j :: 0 <= j < k ==> raws[j] == SerBlock(blocks[j])
    ensures GoodPrefix(n, raws[i..], now, blocks[..i]) == GoodPrefix(n, raws[k..], now, blocks[..k])
    decreases k - i
  {
    hide Check, SerBlock, ParseBlock, ValidChain;
    if i < k {
      RowParses(n, blocks, i, now);
      assert blocks[..k][i] == blocks[i];
      assert raws[i..][1..] == raws[i + 1..];
      assert blocks[..i] + [blocks[i]] == blocks[..i + 1];
      GoodPrefixOf(n, blocks, raws, now, i + 1, k);
    }
  }

  /** A stored row reads back as its block, which connects unless it is ahead of the clock. */
  lemma {:induction false} RowParses(n: Net, blocks: seq<Block>, i: nat, now: Clock)
    requires ValidChain(n, blocks) && i < |blocks|
    ensures ParseBlock(SerBlock(blocks[i])) == Some(blocks[i])
    ensures Check(n, blocks[..i], blocks[i], now).Connected? <==> i == 0 || blocks[i].h.time <= now + MAX_TIME_SKEW_S
  {
    hide Check, SerBlock, ParseBlock, Extends, Before;
    assert Extends(n, blocks[..i], blocks[i]);
    CheckMeansExtends(n, blocks[..i], blocks[i], now);
    forall j | 0 <= j < |blocks[i].txs|
      ensures |blocks[i].txs[j].payload| <= MAX_PAYLOAD
    {
      NonceOnChain(n, blocks, i, j);
    }
    ExtendsRun(n, blocks, i);
    EncodableRoundTrip(blocks[i]);
  }

  lemma {:induction false} ScanPrefix(rows: Table, limit: nat, k: nat)
    requires k <= limit && forall j :: 0 <= j < k ==> j in rows
    ensures |Scan(rows, limit)| >= k
    ensures forall j :: 0 <= j < k ==> Scan(rows, limit)[j] == rows[j]
    ensures (forall j :: j in rows ==> j < k) ==> |Scan(rows, limit)| == k
    decreases limit
  {
    if k < limit {
      ScanPrefix(rows, limit - 1, k);
    } else if k > 0 {
      ScanPrefix(rows, limit - 1, k - 1);
      ScanLength(rows, k - 1);
    }
  }

  lemma {:induction false} ScanLength(rows: Table, k: nat)
    requires forall j :: 0 <= j < k ==> j in rows
    ensures |Scan(rows, k)| == k
  {
    if k > 0 {
      ScanLength(rows, k - 1);
    }
  }

  /** A start on a table whose first `k` rows are those of a valid chain and whose next row
      is missing, unreadable or does not connect keeps exactly those `k` blocks - or the
      genesis if there are none - and leaves the table holding just their rows. */
  lemma {:induction false} ReloadRepairs(n: Net, blocks: seq<Block>, rows: Table, k: nat, now: Clock, limit: nat)
    requires ValidChain(n, blocks) && k <= |blocks| && k <= limit && Timely(blocks[..k], now)
    requires forall j :: j in rows ==> j < limit
    requires forall j :: 0 <= j < k ==> j in rows && rows[j] == SerBlock(blocks[j])
    requires var raws := Scan(rows, limit);
             |raws| > k ==>
               match ParseBlock(raws[k])
               case None => true
               case Some(b) => !Check(n, blocks[..k], b, now).Connected?
    ensures var kept := if k == 0 then [Genesis(n)] else blocks[..k];
            && LoadedBlocks(n, Scan(rows, limit), now) == kept
            && LoadedRows(n, rows, Scan(rows, limit), now) == Rows(kept)
  {
    hide Check, SerBlock, ParseBlock, ValidChain, Genesis, Rows, Truncate, Timely;
    var raws := Scan(rows, limit);
    ScanPrefix(rows, limit, k);
    GoodPrefixOf(n, blocks, raws, now, 0, k);
    assert raws[0..] == raws && blocks[..0] == [];
    assert GoodPrefix(n, raws, now, []) == blocks[..k];
    if |raws| == k {
      ScanCounts(rows, limit, k);
    }
    RowsBelow(blocks, rows, k);
  }

  /** Behind a gap the scan goes on with some later row. */
  lemma {:induction false} ScanBehind(rows: Table, limit: nat, k: nat) returns (j: nat)
    requires k <= limit && k !in rows && (forall i :: 0 <= i < k ==> i in rows)
    requires |Scan(rows, limit)| > k
    ensures k < j < limit && j in rows && Scan(rows, limit)[k] == rows[j]
    decreases limit
  {
    if k == limit {
      ScanLength(rows, k);
      assert false;
    } else if |Scan(rows, limit - 1)| > k {
      j := ScanBehind(rows, limit - 1, k);
    } else {
      ScanPrefix(rows, limit - 1, k);
      j := limit - 1;
    }
  }

  /** A later block of a chain does not connect in an earlier one's place. */
  lemma {:induction false} SkippedDoesNotConnect(n: Net, blocks: seq<Block>, k: nat, j: nat, now: Clock)
    requires ValidChain(n, blocks) && k < j < |blocks| <= U64
    ensures !Check(n, blocks[..k], blocks[j], now).Connected?
  {
    hide ValidChain, HeaderHash, PowOk, Root, RunOk, StateOf, Check;
    ExtendsHeader(n, blocks, j);
    CheckMeansExtends(n, blocks[..k], blocks[j], now);
    if k > 0 {
      HeightsRun(n, blocks, k - 1);
      HeightsRun(n, blocks, j);
      assert blocks[..k][k - 1] == blocks[k - 1];
      ModAdd(blocks[k - 1].h.height, blocks[0].h.height + (k - 1), 1);
      ApartMod(blocks[0].h.height, k, j);
    }
  }

  lemma {:induction false} ApartMod(x: nat, k: nat, j: nat)
    requires k < j < k + U64
    ensures (x + k) % U64 != (x + j) % U64
  {
    var p, q := (x + k) / U64, (x + j) / U64;
    assert x + k == p * U64 + (x + k) % U64 && x + j == q * U64 + (x + j) % U64;
    assert j - k == (q - p) * U64 + (x + j) % U64 - (x + k) % U64;
  }

  /** A table that has lost rows of a valid chain: a start keeps exactly the blocks in front of
      the first gap, as far as the clock accepts them, and just their rows. */
  lemma {:induction false} ReloadGap(n: Net, blocks: seq<Block>, rows: Table, k: nat, now: Clock, limit: nat)
    requires ValidChain(n, blocks) && |blocks| <= U64
    requires k <= |blocks| && k <= limit && k !in rows && Timely(blocks[..k], now)
    requires forall j :: j in rows ==> j < limit && j < |blocks| && rows[j] == SerBlock(blocks[j])
    requires forall j :: 0 <= j < k ==> j in rows
    ensures var kept := if k == 0 then [Genesis(n)] else blocks[..k];
            && LoadedBlocks(n, Scan(rows, limit), now) == kept
            && LoadedRows(n, rows, Scan(rows, limit), now) == Rows(kept)
  {
    hide Check, SerBlock, ParseBlock, ValidChain, Genesis, Rows, Timely, LoadedBlocks, LoadedRows;
    if |Scan(rows, limit)| > k {
      var j := ScanBehind(rows, limit, k);
      RowParses(n, blocks, j, now);
      SkippedDoesNotConnect(n, blocks, k, j, now);
    }
    ReloadRepairs(n, blocks, rows, k, now, limit);
  }

  /** How many blocks from the genesis on the clock accepts. */
  function OnTime(blocks: seq<Block>, now: Clock): (k: nat)
    ensures k <= |blocks| && Timely(blocks[..k], now)
    ensures k < |blocks| ==> 0 < k && blocks[k].h.time > now + MAX_TIME_SKEW_S
    ensures k == |blocks| <==> Timely(blocks, now)
    decreases |blocks|
  {
    if blocks == [] then 0
    else
      var last := |blocks| - 1;
      var k := OnTime(blocks[..last], now);
      assert k < last ==> blocks[..last][k] == blocks[k] && blocks[..last][..k] == blocks[..k];
      assert blocks[..last + 1] == blocks && (k == last ==> blocks[..last][..k] == blocks[..k]);
      if k < last then k
      else if last == 0 || blocks[last].h.time <= now + MAX_TIME_SKEW_S then last + 1
      else last
  }

  lemma {:induction false} RowsOf(blocks: seq<Block>)
    ensures forall j :: j in Rows(blocks) <==> 0 <= j < |blocks|
    ensures forall j :: 0 <= j < |blocks| ==> Rows(blocks)[j] == SerBlock(blocks[j])
  {
    hide SerBlock;
  }

  /** A start on the table of a valid chain keeps exactly the blocks in front of the first
      that is ahead of the clock; so it rebuilds the chain, and leaves the table alone, if
      and only if the clock accepts every block. */
  lemma {:induction false} ReloadRestores(n: Net, blocks: seq<Block>, now: Clock, limit: nat)
    requires ValidChain(n, blocks) && blocks != [] && |blocks| <= limit
    ensures var kept := blocks[..OnTime(blocks, now)];
            && LoadedBlocks(n, Scan(Rows(blocks), limit), now) == kept
            && LoadedRows(n, Rows(blocks), Scan(Rows(blocks), limit), now) == Rows(kept)
    ensures LoadedBlocks(n, Scan(Rows(blocks), limit), now) == blocks <==> Timely(blocks, now)
  {
    hide Check, SerBlock, ParseBlock, ValidChain, Genesis, Rows, Timely, OnTime;
    var k := OnTime(blocks, now);
    var raws := Scan(Rows(blocks), limit);
    RowsOf(blocks);
    ScanPrefix(Rows(blocks), limit, |blocks|);
    if k < |blocks| {
      RowParses(n, blocks, k, now);
    }
    ReloadRepairs(n, blocks, Rows(blocks), k, now, limit);
    assert k == |blocks| ==> blocks[..k] == blocks;
  }

  lemma {:induction false} RowsBelow(blocks: seq<Block>, rows: Table, k: nat)
    requires k <= |blocks|
    requires forall j :: 0 <= j < k ==> j in rows && rows[j] == SerBlock(blocks[j])
    ensures Truncate(rows, k) == Rows(blocks[..k])
    ensures (forall j :: j in rows ==> j < k) ==> rows == Rows(blocks[..k])
    ensures k == 0 ==> forall g :: Truncate(rows, k)[0 := SerBlock(g)] == Rows([g])
  {
    hide SerBlock;
  }

  /** A table whose scan has only the `k` rows below `k` has no other rows. */
  lemma {:induction false} ScanCounts(rows: Table, limit: nat, k: nat)
    requires k <= limit && (forall j :: 0 <= j < k ==> j in rows)
    requires |Scan(rows, limit)| == k
    ensures forall j :: j in rows && j < limit ==> j < k
    decreases limit
  {
    if k < limit {
      ScanPrefix(rows, limit - 1, k);
      ScanCounts(rows, limit - 1, k);
    }
  }
}
