/** The node as a whole: any sequence of critical sections, a restart after it, and a round of
    either miner with other threads' sections in between (src/node_impl.h:95-367, 570-653). */
module Runs {
  import opened Basics
  import opened Codec
  import opened Ledger
  import opened Merkle
  import opened Pow
  import opened ChainRules
  import opened Agreement
  import opened ChainStore
  import opened Mempools
  import opened Node
  import opened Batch
  import opened Mining
  import Restart

  /** A critical section that may change the node, with what it reads from outside. */
  datatype Act =
    | TipArrives(peer: nat, tip: Option<PeerTip>)
    | PeerGone(peer: nat)
    | Timeout(expired: bool)
    | TxArrives(raw: Bytes)
    | BlockArrives(peer: nat, raw: Bytes, tip: Option<PeerTip>)
    | BlocksArrive(peer: nat, payload: Bytes, tip: Option<PeerTip>)
    | WorkAsked(payTo: Addr20)
    | WorkSubmitted(raw: Bytes)
    | MinerCommits(job: Job, nonce: u64)

  datatype Timed = At(now: Clock, act: Act)

  // ---------- the chains a node has had ----------

  /** The strings hashed in validating every chain of a history. */
  ghost function HistoryPre(n: Net, history: seq<seq<Block>>): set<Bytes> {
    if history == [] then {} else HistoryPre(n, history[..|history| - 1]) + ChainPre(n, history[|history| - 1])
  }

  /** Every chain of a history fits the address space, and no two of the strings hashed for
      them collide. */
  ghost predicate Undoubted(n: Net, history: seq<seq<Block>>) {
    && (forall i :: 0 <= i < |history| ==> FitsMemory(history[i]))
    && NoCollision(n.hash, HistoryPre(n, history))
  }

  lemma {:induction false} HistoryHolds(n: Net, history: seq<seq<Block>>, i: nat)
    requires i < |history|
    ensures ChainPre(n, history[i]) <= HistoryPre(n, history)
    decreases |history|
  {
    hide ChainPre;
    var k := |history| - 1;
    if i < k {
      HistoryHolds(n, history[..k], i);
    }
  }

  lemma {:induction false} HistoryGrows(n: Net, a: seq<seq<Block>>, b: seq<seq<Block>>)
    requires a <= b
    ensures HistoryPre(n, a) <= HistoryPre(n, b)
    decreases |b|
  {
    hide ChainPre;
    if a != b {
      HistoryGrows(n, a, b[..|b| - 1]);
    }
  }

  lemma {:induction false} EarlierUndoubted(n: Net, a: seq<seq<Block>>, b: seq<seq<Block>>)
    requires a <= b && Undoubted(n, b)
    ensures Undoubted(n, a)
  {
    hide FitsMemory, HistoryPre, NoCollision;
    HistoryGrows(n, a, b);
    Restart.NoCollisionBelow(n, HistoryPre(n, a), HistoryPre(n, b));
    assert forall i :: 0 <= i < |a| ==> a[i] == b[i];
  }

  lemma {:induction false} HistoryUndisputed(n: Net, history: seq<seq<Block>>, i: nat, j: nat)
    requires i < |history| && j < |history| && Undoubted(n, history)
    ensures Undisputed(n, history[i], history[j])
  {
    hide FitsMemory, HistoryPre, NoCollision, ChainPre;
    HistoryHolds(n, history, i);
    HistoryHolds(n, history, j);
    Restart.NoCollisionBelow(n, ChainPre(n, history[i]) + ChainPre(n, history[j]), HistoryPre(n, history));
  }

  // ---------- runs ----------

  /** One critical section. */
  method Dispatch(app: App, act: Act, now: Clock)
    requires app.Valid()
    modifies app, app.chain, app.pool
    ensures app.Valid() && old(app.history) <= app.history
    ensures app.tipSeq == old(app.tipSeq) + if app.chain.blocks == old(app.chain.blocks) then 0 else 1
    ensures old(app.chain.Stored()) && Undisputed(app.n, old(app.chain.blocks), app.chain.blocks) ==> app.chain.Stored()
    ensures Timely(old(app.chain.blocks), now) ==> Timely(app.chain.blocks, now)
  {
    hide ValidChain, StateOf, IndexOf, Work, Hashes, PoolOk, Ahead, CacheOk, Remaining, ParseTx, ParseBlock,
         FitsMemory, Undisputed, Timely, Rows, Check, HeaderHash, ConnectedCount, BodyPays, SupplyFits, ParseHeader,
         Rising, PowOk;
    match act {
      case TipArrives(peer, tip) => var _ := app.OnTip(peer, tip);
      case PeerGone(peer) => app.OnGone(peer);
      case Timeout(expired) => app.SyncTimeout(expired);
      case TxArrives(raw) => var _ := app.OfferTx(raw);
      case BlockArrives(peer, raw, tip) => var _, _ := app.OnBlock(peer, raw, tip, now);
      case BlocksArrive(peer, payload, tip) =>
        var v := ParseBlocksMessage(payload);
        if v.Some? {
          var _ := app.HandleBlocks(peer, v.value, tip, now);
        }
      case WorkAsked(payTo) =>
        if FitsMemory(app.chain.blocks) {
          var _ := app.GetWork(payTo, now);
        }
      case WorkSubmitted(raw) => var _ := app.SubmitWork(raw, now);
      case MinerCommits(job, nonce) => var _ := app.Commit(job, nonce, now);
    }
  }

  /** Every critical section keeps the joint invariant, appends at most one chain to the
      history, and keeps the table in step with the chain. */
  method Perform(app: App, act: Act, now: Clock)
    requires app.Valid()
    modifies app, app.chain, app.pool
    ensures app.Valid()
    ensures app.history ==
            old(app.history) + if app.chain.blocks == old(app.chain.blocks) then [] else [app.chain.blocks]
    ensures old(app.chain.Stored()) && Undoubted(app.n, app.history) ==> app.chain.Stored()
    ensures Timely(old(app.chain.blocks), now) ==> Timely(app.chain.blocks, now)
  {
    hide ValidChain, StateOf, IndexOf, Work, Hashes, PoolOk, Ahead, CacheOk, FitsMemory, Undisputed, Undoubted,
         Timely, Rows, Rising;
    ghost var h0 := app.history;
    Dispatch(app, act, now);
    OneMore(h0, app.history);
    if Undoubted(app.n, app.history) {
      HistoryUndisputed(app.n, app.history, |h0| - 1, |app.history| - 1);
    }
  }

  /** A history that has grown by at most one chain is the old one with its last. */
  lemma {:induction false} OneMore(a: seq<seq<Block>>, b: seq<seq<Block>>)
    ensures a <= b && |b| == |a| + 1 ==> b == a + [b[|a|]]
    ensures a <= b && |b| == |a| ==> b == a + []
  {
  }

  /** Whatever a node goes through, the joint invariant holds, what the tip counter has named
      it names for ever, work rises from chain to chain, and the table mirrors the chain. */
  method PerformAll(app: App, acts: seq<Timed>)
    requires app.Valid()
    modifies app, app.chain, app.pool
    ensures app.Valid() && old(app.history) <= app.history
    ensures AllFit(app.n, app.history) ==>
              forall i: nat, j: nat :: i < j < |app.history| ==>
                Work(app.n, app.history[i]) < Work(app.n, app.history[j])
    ensures old(app.chain.Stored()) && Undoubted(app.n, app.history) ==> app.chain.Stored()
    ensures forall first: Clock, last: Clock ::
              Timely(old(app.chain.blocks), first) && ClockRuns(acts, first, last) ==> Timely(app.chain.blocks, last)
  {
    hide ValidChain, StateOf, IndexOf, Work, Hashes, PoolOk, Ahead, CacheOk, Undoubted, Timely, ClockRuns, Rows,
         Rising, WorkFits, AllFit;
    ghost var b0 := app.chain.blocks;
    assert acts[..0] == [];
    forall first: Clock, last: Clock | Timely(b0, first) && ClockRuns(acts[..0], first, last)
      ensures Timely(app.chain.blocks, last)
    {
      ClockOrder([], first, last);
      TimelyLater(b0, first, last);
    }
    for i := 0 to |acts|
      invariant app.Valid() && old(app.history) <= app.history
      invariant old(app.chain.Stored()) && Undoubted(app.n, app.history) ==> app.chain.Stored()
      invariant forall first: Clock, last: Clock ::
                  Timely(b0, first) && ClockRuns(acts[..i], first, last) ==> Timely(app.chain.blocks, last)
    {
      ghost var h, b := app.history, app.chain.blocks;
      Perform(app, acts[i].act, acts[i].now);
      if Undoubted(app.n, app.history) {
        EarlierUndoubted(app.n, h, app.history);
      }
      assert acts[..i + 1] == acts[..i] + [acts[i]];
      forall first: Clock, last: Clock | Timely(b0, first) && ClockRuns(acts[..i + 1], first, last)
        ensures Timely(app.chain.blocks, last)
      {
        ClockSnoc(acts[..i], acts[i], first, last);
        TimelyLater(app.chain.blocks, acts[i].now, last);
      }
    }
    assert acts[..|acts|] == acts;
    if AllFit(app.n, app.history) {
      AllRise(app.n, app.history);
    }
  }

  /** The work of every chain of a history fits u64. */
  ghost predicate AllFit(n: Net, history: seq<seq<Block>>) {
    forall k :: 0 <= k < |history| ==> WorkFits(n, |history[k]|)
  }

  lemma {:induction false} AllRise(n: Net, history: seq<seq<Block>>)
    requires Rising(n, history) && AllFit(n, history)
    ensures forall i: nat, j: nat :: i < j < |history| ==> Work(n, history[i]) < Work(n, history[j])
  {
    hide Work, WorkFits, Rising;
    forall i: nat, j: nat | i < j < |history|
      ensures Work(n, history[i]) < Work(n, history[j])
    {
      HistoryRises(n, history, i, j);
    }
  }

  /** The clock readings of a run, from `first` to `last`, do not run backwards. */
  ghost predicate ClockRuns(acts: seq<Timed>, first: Clock, last: Clock) {
    && first <= last
    && (forall i :: 0 <= i < |acts| ==> first <= acts[i].now <= last)
    && forall i, j :: 0 <= i <= j < |acts| ==> acts[i].now <= acts[j].now
  }

  lemma {:induction false} ClockOrder(acts: seq<Timed>, first: Clock, last: Clock)
    requires ClockRuns(acts, first, last)
    ensures first <= last
  {
  }

  lemma {:induction false} ClockSnoc(acts: seq<Timed>, a: Timed, first: Clock, last: Clock)
    requires ClockRuns(acts + [a], first, last)
    ensures ClockRuns(acts, first, a.now) && a.now <= last
  {
    var all := acts + [a];
    assert all[|acts|] == a;
    forall i | 0 <= i < |acts|
      ensures first <= acts[i].now <= a.now
    {
      assert all[i] == acts[i] && all[i].now <= all[|acts|].now;
    }
    forall i, j | 0 <= i <= j < |acts|
      ensures acts[i].now <= acts[j].now
    {
      assert all[i].now <= all[j].now;
    }
  }

  /** Stop a node after any run and start it again: the chain it had comes back, with its
      table, state, index and work, unless strings hashed along its history collide. */
  method RunThenRestart(app: App, acts: seq<Timed>, first: Clock, restart: Clock) returns (d: Chain)
    requires app.Valid() && app.chain.hasDb && ClockRuns(acts, first, restart)
    modifies app, app.chain, app.pool
    ensures app.Valid() && old(app.history) <= app.history
    ensures fresh(d) && d.Valid() && d.n == app.n && d.hasDb && d.persisting && d.blocks != []
    ensures (old(app.chain.Stored()) && Timely(old(app.chain.blocks), first) && Undoubted(app.n, app.history)) ==>
              && app.chain.Stored() && d.Stored() && Timely(d.blocks, restart)
              && d.blocks == app.chain.blocks && d.rows == app.chain.rows
              && d.hashes == app.chain.hashes && d.st == app.chain.st
              && d.txidx == app.chain.txidx && d.work == app.chain.work
  {
    hide ValidChain, StateOf, IndexOf, Work, Hashes, PoolOk, Ahead, CacheOk, Undoubted, Timely, ClockRuns, Rows,
         LoadedBlocks, LoadedRows, Rising, AllFit;
    PerformAll(app, acts);
    var limit := HeightLimit(app.chain.rows);
    if old(app.chain.Stored()) && Timely(old(app.chain.blocks), first) && Undoubted(app.n, app.history) {
      RowsOf(app.chain.blocks);
      assert |app.chain.blocks| - 1 in app.chain.rows;
      ReloadRestores(app.n, app.chain.blocks, restart, limit);
      Restart.OnTimeAll(app.chain.blocks, restart);
    }
    d := new Chain(app.n, true, app.chain.rows);
    LoadedNonempty(app.n, Scan(app.chain.rows, limit), restart);
    d.Init(restart, limit);
  }

  lemma {:induction false} LoadedNonempty(n: Net, raws: seq<Bytes>, now: Clock)
    ensures LoadedBlocks(n, raws, now) != []
  {
  }

  // ---------- a lifetime ----------

  /** What happens between two starts, and the clock at the second. */
  datatype Life = Life(acts: seq<Timed>, restart: Clock)

  ghost predicate LivesRun(lives: seq<Life>, first: Clock)
    decreases |lives|
  {
    lives != [] ==> ClockRuns(lives[0].acts, first, lives[0].restart) && LivesRun(lives[1..], lives[0].restart)
  }

  /** No chain of a history carries less work than the one before it, as long as its work
      fits u64. */
  ghost predicate NeverFalling(n: Net, history: seq<seq<Block>>) {
    forall k :: 0 < k < |history| && WorkFits(n, |history[k]|) ==> Work(n, history[k - 1]) <= Work(n, history[k])
  }

  lemma {:induction false} HistoryEnds(n: Net, a: seq<seq<Block>>, b: seq<seq<Block>>)
    ensures HistoryPre(n, b) <= HistoryPre(n, a + b)
    decreases |b|
  {
    hide ChainPre;
    if b != [] {
      assert (a + b)[..|a + b| - 1] == a + b[..|b| - 1];
      HistoryEnds(n, a, b[..|b| - 1]);
    }
  }

  lemma {:induction false} LaterUndoubted(n: Net, a: seq<seq<Block>>, b: seq<seq<Block>>)
    requires Undoubted(n, a + b)
    ensures Undoubted(n, a) && Undoubted(n, b)
  {
    hide FitsMemory, HistoryPre, NoCollision;
    EarlierUndoubted(n, a, a + b);
    HistoryEnds(n, a, b);
    Restart.NoCollisionBelow(n, HistoryPre(n, b), HistoryPre(n, a + b));
    assert forall i :: 0 <= i < |b| ==> (a + b)[|a| + i] == b[i];
  }

  lemma {:induction false} JoinedHistories(n: Net, a: seq<seq<Block>>, b: seq<seq<Block>>)
    requires a != [] && b != [] && a[|a| - 1] == b[0]
    requires NeverFalling(n, a) && NeverFalling(n, b)
    ensures NeverFalling(n, a + b)
  {
    hide Work, WorkFits;
    var all := a + b;
    forall k | 0 < k < |all| && WorkFits(n, |all[k]|)
      ensures Work(n, all[k - 1]) <= Work(n, all[k])
    {
      if k < |a| {
        assert all[k - 1] == a[k - 1] && all[k] == a[k];
      } else if k > |a| {
        assert all[k - 1] == b[k - 1 - |a|] && all[k] == b[k - |a|];
      } else {
        assert all[k - 1] == all[k];
      }
    }
  }

  /** A node over its whole life, stopped and started any number of times: no work is ever
      lost, and its table still mirrors its chain, unless strings hashed along the way
      collide.  `past` is every chain it has had. */
  method LiveOn(app: App, lives: seq<Life>, first: Clock) returns (last: App, ghost past: seq<seq<Block>>)
    requires app.Valid() && app.chain.hasDb && LivesRun(lives, first)
    modifies app, app.chain, app.pool
    ensures last.Valid() && last.n == app.n && old(app.history) <= past
    ensures (old(app.chain.Stored()) && Timely(old(app.chain.blocks), first) && Undoubted(app.n, past)) ==>
              last.chain.Stored() && last.chain.blocks == past[|past| - 1] && NeverFalling(app.n, past)
    decreases |lives|
  {
    hide ValidChain, StateOf, IndexOf, Work, Hashes, PoolOk, Ahead, CacheOk, Undoubted, Timely, ClockRuns, Rows,
         WorkFits, Rising, NeverFalling;
    RisesNeverFalls(app.n, app.history);
    if lives == [] {
      return app, app.history;
    }
    ghost var safe := app.chain.Stored() && Timely(app.chain.blocks, first);
    var d := RunThenRestart(app, lives[0].acts, first, lives[0].restart);
    ghost var h := app.history;
    RisesNeverFalls(app.n, h);
    var next := new App(app.n, d, app.minerAddr);
    ghost var rest;
    last, rest := LiveOn(next, lives[1..], lives[0].restart);
    past := h + rest;
    if safe && Undoubted(app.n, past) {
      LaterUndoubted(app.n, h, rest);
      JoinedHistories(app.n, h, rest);
    }
  }

  lemma {:induction false} RisesNeverFalls(n: Net, history: seq<seq<Block>>)
    requires Rising(n, history)
    ensures NeverFalling(n, history)
  {
  }

  // ---------- miners ----------

  /** A round of the CPU miner: prepare, let the other threads run, grind, commit.  A found
      nonce is lost only if the tip moved in the meantime, or if the coinbase wraps its
      payee's balance and the payee's own transfers are no longer covered. */
  method MineRound(app: App, heartbeat: u64, now: Clock, acts: seq<Timed>, start: u64, tries: nat, later: Clock)
    returns (job: Option<Job>, found: Option<u64>, ok: bool)
    requires app.Valid() && FitsMemory(app.chain.blocks) && now <= later
    modifies app, app.chain, app.pool
    ensures app.Valid() && old(app.history) <= app.history
    ensures old(app.chain.Stored()) && Undoubted(app.n, app.history) ==> app.chain.Stored()
    ensures forall first: Clock ::
              Timely(old(app.chain.blocks), first) && ClockRuns(acts, first, later) ==> Timely(app.chain.blocks, later)
    ensures job.None? ==> found.None? && !ok
    ensures job.None? <==>
              && Exhausted(app.n, old(app.pool.m), old(app.chain.st), NextHeight(old(app.chain.blocks)))
              && (heartbeat == 0
                  || now < (old(app.chain.blocks)[|old(app.chain.blocks)| - 1].h.time + heartbeat) % U64)
    ensures found.Some? ==> Solves(app.n, job.value.block.h, found.value)
    ensures job.Some? && found.None? ==>
              forall j :: 0 <= j < tries ==> !Solves(app.n, job.value.block.h, NthNonce(start, j))
    ensures ok ==>
              && found.Some?
              && app.chain.blocks ==
                 old(app.chain.blocks) + [Block(job.value.block.h.(nonce := found.value), job.value.block.txs)]
              && app.history == old(app.history) + [app.chain.blocks]
    ensures found.Some? && app.history == old(app.history) ==>
              job.value.block.txs != []
              && !BodyPays(app.n, old(app.chain.blocks), job.value.block.txs)
              && !SupplyFits(app.n, old(app.chain.blocks))
  {
    hide ValidChain, StateOf, IndexOf, Work, Hashes, PoolOk, Ahead, CacheOk, Remaining, PowOk, HeaderHash, Exhausted,
         Scheduled, BodyPays, SupplyFits, BodyOk, FitsMemory, Coinbase, Undoubted, Timely, ClockRuns, Undisputed,
         Rows, Rising, AllFit;
    found, ok := None, false;
    job := app.Prepare(now, heartbeat);
    ghost var h0 := app.history;
    PerformAll(app, acts);
    if job.None? { return; }
    found := Grind(app.n, job.value.block.h, start, tries);
    if found.None? { return; }
    JobsPersist(app.n, h0, app.history, job.value);
    JobBits(app.n, app.history, job.value);
    ghost var h1 := app.history;
    ok := app.Commit(job.value, found.value, later);
    StillUndoubted(app.n, h1, app.history);
  }

  /** What the last chain change needs of an undoubted history. */
  lemma {:induction false} StillUndoubted(n: Net, a: seq<seq<Block>>, b: seq<seq<Block>>)
    requires a <= b && a != []
    ensures Undoubted(n, b) ==> Undoubted(n, a) && Undisputed(n, b[|a| - 1], b[|b| - 1])
  {
    hide Undoubted, Undisputed;
    if Undoubted(n, b) {
      EarlierUndoubted(n, a, b);
      HistoryUndisputed(n, b, |a| - 1, |b| - 1);
    }
  }

  lemma {:induction false} JobBits(n: Net, history: seq<seq<Block>>, job: Job)
    requires BuiltOn(n, history, job)
    ensures job.block.h.bits == n.bits && job.block.txs != []
  {
    hide HeaderHash;
  }

  /** The header a miner hands in: the one it was given, its nonce replaced. */
  method PatchHeader(header: Bytes, nonce: u64) returns (raw: Bytes)
    requires |header| == HEADER_SIZE
    ensures raw == header[..NONCE_OFFSET] + LE(nonce, 8)
  {
    var hdr := new byte[HEADER_SIZE](i requires 0 <= i < HEADER_SIZE && |header| == HEADER_SIZE => header[i]);
    assert hdr[..] == header;
    Patch(hdr, nonce);
    raw := hdr[..];
  }

  /** The tip is still the one the header was made for, as far as a header can say. */
  ghost predicate SameTip(n: Net, before: seq<Block>, now: seq<Block>) {
    && before != [] && now != []
    && HeaderHash(n, before[|before| - 1].h) == HeaderHash(n, now[|now| - 1].h)
    && NextHeight(before) == NextHeight(now)
  }

  /** A header made for one tip, over a body cached for another. */
  lemma {:induction false} OutsideCheck(n: Net, before: seq<Block>, tip: seq<Block>, all: seq<Tx>, time: u64,
      b: Block, later: Clock)
    requires before != [] && tip != [] && BodyOk(n, tip, b.txs)
    requires b.h == HeaderOn(n, before, all, time, b.h.nonce) && Root(n, TxIds(n, b.txs)) == b.h.merkle
    requires time <= later
    ensures Check(n, tip, b, later).Connected? <==>
            && SameTip(n, before, tip)
            && PowOk(HeaderHash(n, b.h), n.bits) && BodyPays(n, tip, b.txs)
  {
    hide HeaderHash, PowOk, Root, RunOk, StateOf, Check, Genesis, BodyPays, Coinbase, ValidChain;
    BodyApplies(n, tip, b.txs);
    CheckMeansExtends(n, tip, b, later);
  }

  /** Hand in a header over cached work, by whatever tip and work it was made for. */
  method HandIn(app: App, raw: Bytes, later: Clock, ghost h: BlockHeader, ghost before: seq<Block>, ghost all: seq<Tx>,
                ghost time: u64)
    returns (res: WorkOutcome)
    requires app.Valid() && raw == SerHeader(h) && before != [] && time <= later
    requires h == HeaderOn(app.n, before, all, time, h.nonce)
    modifies app, app.chain, app.pool
    ensures app.Valid() && old(app.history) <= app.history
    ensures var tip, cached := old(app.chain.blocks), old(app.cache);
            && (res.UnknownWork? <==> h.merkle !in cached)
            && (res.Mined? <==>
                  && h.merkle in cached && SameTip(app.n, before, tip)
                  && PowOk(HeaderHash(app.n, h), app.n.bits) && cached[h.merkle] != []
                            && BodyPays(app.n, tip, cached[h.merkle]))
            && app.chain.blocks == if res.Mined? then tip + [Block(h, cached[h.merkle])] else tip
    ensures app.tipSeq == old(app.tipSeq) + if app.chain.blocks == old(app.chain.blocks) then 0 else 1
    ensures old(app.chain.Stored()) && Undisputed(app.n, old(app.chain.blocks), app.chain.blocks) ==> app.chain.Stored()
    ensures Timely(old(app.chain.blocks), later) ==> Timely(app.chain.blocks, later)
  {
    hide ValidChain, StateOf, IndexOf, Work, Hashes, PoolOk, Ahead, Remaining, PowOk, HeaderHash, Check, BodyPays,
         SupplyFits, BodyOk, Timely, Undisputed, Rows, SerHeader, ParseHeader, SameTip, Root, Rising, HeaderOn,
         HeaderFault;
    HeaderLength(h);
    ReadsBack(h);
    if h.merkle in app.cache {
      OutsideCheck(app.n, before, app.chain.blocks, all, time, Block(h, app.cache[h.merkle]), later);
      SomeBody(app.n, app.chain.blocks, app.cache[h.merkle]);
    }
    res := app.SubmitWork(raw, later);
  }

  /** Fetch work for the tip. */
  method Fetch(app: App, payTo: Addr20, now: Clock) returns (header: Bytes, ghost all: seq<Tx>)
    requires app.Valid() && FitsMemory(app.chain.blocks)
    modifies app`cache
    ensures app.Valid() && |header| == HEADER_SIZE
    ensures header == SerHeader(HeaderOn(app.n, app.chain.blocks, all, now, 0))
  {
    hide ValidChain, StateOf, IndexOf, Work, Hashes, PoolOk, Ahead, Scheduled, BodyOk, FitsMemory, Coinbase,
         SerHeader, Root, Rising, HeaderOn, CacheOk;
    header := app.GetWork(payTo, now);
    all :| app.Offered(payTo, now, all, header, old(app.cache), app.cache);
    HeaderLength(HeaderOn(app.n, app.chain.blocks, all, now, 0));
  }

  /** A round of an outside miner: fetch work, let other threads run, hand in a nonce.
      `tip` and `cached` are the chain and the cached work at that moment.  The work is mined
      exactly when a body is still cached for it, the tip is the one it was made for, the
      nonce solves the header, and the body pays. */
  method OutsideRound(app: App, payTo: Addr20, now: Clock, acts: seq<Timed>, nonce: u64, later: Clock)
    returns (header: Bytes, res: WorkOutcome, ghost tip: seq<Block>, ghost cached: map<H256, seq<Tx>>)
    requires app.Valid() && FitsMemory(app.chain.blocks) && now <= later
    modifies app, app.chain, app.pool
    ensures app.Valid() && old(app.history) <= app.history
    ensures old(app.chain.Stored()) && Undoubted(app.n, app.history) ==> app.chain.Stored()
    ensures forall first: Clock ::
              Timely(old(app.chain.blocks), first) && ClockRuns(acts, first, later) ==> Timely(app.chain.blocks, later)
    ensures |header| == HEADER_SIZE && tip in app.history && tip != []
    ensures app.history == old(app.history) ==> tip == old(app.chain.blocks)
    ensures var h := ParseHeader(header).value.0;
            && (res.UnknownWork? <==> h.merkle !in cached)
            && (res.Mined? <==>
                  && h.merkle in cached && SameTip(app.n, old(app.chain.blocks), tip)
                  && Solves(app.n, h, nonce) && cached[h.merkle] != [] && BodyPays(app.n, tip, cached[h.merkle]))
            && app.chain.blocks == if res.Mined? then tip + [Block(h.(nonce := nonce), cached[h.merkle])] else tip
  {
    hide ValidChain, StateOf, IndexOf, Work, Hashes, PoolOk, Ahead, Remaining, PowOk, HeaderHash, Scheduled, Check,
         BodyPays, SupplyFits, BodyOk, FitsMemory, Coinbase, Undoubted, Timely, ClockRuns, Undisputed, Rows,
         SerHeader, ParseHeader, SameTip, Root, Rising, AllFit, HeaderOn, Solves;
    ghost var n, before, h0 := app.n, app.chain.blocks, app.history;
    ghost var all;
    header, all := Fetch(app, payTo, now);
    ghost var h := HeaderOn(n, before, all, now, 0);
    PerformAll(app, acts);
    tip, cached := app.chain.blocks, app.cache;
    var raw := PatchHeader(header, nonce);
    PatchNonce(h, nonce);
    ReadsBack(h);
    MinedHeader(n, before, all, now, nonce);
    ghost var h1 := app.history;
    res := HandIn(app, raw, later, h.(nonce := nonce), before, all, now);
    StillUndoubted(n, h1, app.history);
    NamedOnce(h0, h1, app.history);
    assert app.history[|h1| - 1] == tip;
  }

  /** A history that ends where it began has not moved in between. */
  lemma {:induction false} NamedOnce(a: seq<seq<Block>>, b: seq<seq<Block>>, c: seq<seq<Block>>)
    requires a <= b <= c
    ensures a <= c && (c == a ==> b == a) && (b != [] ==> c[|b| - 1] == b[|b| - 1])
  {
  }

  lemma {:induction false} MinedHeader(n: Net, before: seq<Block>, all: seq<Tx>, time: u64, nonce: u64)
    requires before != []
    ensures var h := HeaderOn(n, before, all, time, 0);
            && h.(nonce := nonce) == HeaderOn(n, before, all, time, nonce)
            && (Solves(n, h, nonce) <==> PowOk(HeaderHash(n, h.(nonce := nonce)), n.bits))
  {
    hide HeaderHash, PowOk, Root;
  }

  lemma {:induction false} ReadsBack(h: BlockHeader)
    ensures ParseHeader(SerHeader(h)) == Some((h, []))
  {
    hide SerHeader, ParseHeader;
    HeaderRoundTrip(h, []);
    assert SerHeader(h) + [] == SerHeader(h);
  }

  lemma {:induction false} SomeBody(n: Net, blocks: seq<Block>, txs: seq<Tx>)
    requires blocks != [] && BodyOk(n, blocks, txs)
    ensures txs != []
  {
  }
}
