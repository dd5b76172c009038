/** A chain over its lifetime: any run of `connect_block` and `try_replace` under a clock
    that does not run backwards, then a restart on the table it left behind
    (src/core.h:222-325). */
module Restart {
  import opened Basics
  import opened Codec
  import opened ChainRules
  import opened Agreement
  import opened ChainStore

  datatype ChainStep =
    | Connect(b: Block, now: Clock)
    | Replace(cand: seq<Block>, now: Clock)

  /** The chain after one step; a refused block or candidate leaves it alone. */
  ghost function Next(n: Net, blocks: seq<Block>, s: ChainStep): seq<Block> {
    match s
    case Connect(b, now) => if Check(n, blocks, b, now).Connected? then blocks + [b] else blocks
    case Replace(cand, now) =>
      if cand != [] && ValidChain(n, cand) && Timely(cand, now) && Work(n, cand) > Work(n, blocks) then cand else blocks
  }

  ghost function RunOf(n: Net, blocks: seq<Block>, steps: seq<ChainStep>): seq<Block>
    decreases |steps|
  {
    if steps == [] then blocks else Next(n, RunOf(n, blocks, steps[..|steps| - 1]), steps[|steps| - 1])
  }

  /** The strings hashed in validating what a step brings. */
  ghost function StepPre(n: Net, s: ChainStep): set<Bytes> {
    match s
    case Connect(b, _) => BlockPre(n, b)
    case Replace(cand, _) => ChainPre(n, cand)
  }

  /** `s` holds every string hashed in a run, and no two of them collide. */
  ghost predicate NoneCollide(n: Net, blocks: seq<Block>, steps: seq<ChainStep>, s: set<Bytes>) {
    && NoCollision(n.hash, s) && ChainPre(n, blocks) <= s
    && forall i :: 0 <= i < |steps| ==> StepPre(n, steps[i]) <= s
  }

  /** Every chain of a run fits the address space. */
  ghost predicate RunFits(n: Net, blocks: seq<Block>, steps: seq<ChainStep>) {
    forall i :: 0 <= i <= |steps| ==> FitsMemory(RunOf(n, blocks, steps[..i]))
  }

  /** The clock readings of a run, from `first` to `last`, do not run backwards. */
  ghost predicate ClockRuns(steps: seq<ChainStep>, first: Clock, last: Clock) {
    && first <= last
    && (forall i :: 0 <= i < |steps| ==> first <= steps[i].now <= last)
    && forall i, j :: 0 <= i <= j < |steps| ==> steps[i].now <= steps[j].now
  }

  lemma {:induction false} NoCollisionBelow(n: Net, s: set<Bytes>, t: set<Bytes>)
    requires NoCollision(n.hash, t) && s <= t
    ensures NoCollision(n.hash, s)
  {
  }

  lemma {:induction false} ChainPreSnoc(n: Net, blocks: seq<Block>, b: Block)
    ensures ChainPre(n, blocks + [b]) == ChainPre(n, blocks) + BlockPre(n, b)
  {
    hide BlockPre;
    assert (blocks + [b])[..|blocks|] == blocks;
  }

  lemma {:induction false} RunStep(n: Net, blocks: seq<Block>, steps: seq<ChainStep>, i: nat)
    requires i < |steps|
    ensures RunOf(n, blocks, steps[..i + 1]) == Next(n, RunOf(n, blocks, steps[..i]), steps[i])
  {
    hide Next;
    assert steps[..i + 1][..i] == steps[..i];
  }

  /** The first start of a node: an empty table becomes the genesis. */
  method FirstStart(n: Net, now: Clock) returns (c: Chain)
    ensures fresh(c) && c.n == n && c.hasDb && c.persisting
    ensures c.Valid() && c.Stored() && c.blocks == [Genesis(n)] && Timely(c.blocks, now)
  {
    hide ValidChain, Genesis, Rows, LoadedBlocks, LoadedRows, StateOf, IndexOf, Work, Hashes;
    c := new Chain(n, true, map[]);
    NothingStored(n, now);
    c.Init(now, 0);
  }

  lemma {:induction false} NothingStored(n: Net, now: Clock)
    ensures LoadedBlocks(n, Scan(map[], 0), now) == [Genesis(n)]
    ensures LoadedRows(n, map[], Scan(map[], 0), now) == Rows([Genesis(n)])
  {
    hide Genesis, Check, LoadedBlocks, LoadedRows, Rows;
    ReloadRepairs(n, [], map[], 0, now, 0);
  }

  /** One step, with what it keeps. */
  method Take(c: Chain, step: ChainStep, ghost s: set<Bytes>)
    requires c.Valid() && c.Stored() && c.persisting && c.blocks != []
    requires NoCollision(c.n.hash, s) && ChainPre(c.n, c.blocks) <= s && StepPre(c.n, step) <= s
    requires FitsMemory(c.blocks) && FitsMemory(Next(c.n, c.blocks, step))
    requires Timely(c.blocks, step.now)
    modifies c`blocks, c`hashes, c`st, c`txidx, c`work, c`rows
    ensures c.Valid() && c.Stored() && c.blocks != []
    ensures c.blocks == Next(c.n, old(c.blocks), step)
    ensures ChainPre(c.n, c.blocks) <= s && Timely(c.blocks, step.now)
  {
    hide ValidChain, NoCollision, ChainPre, BlockPre, FitsMemory, Check, StateOf, IndexOf, Work, Hashes, Rows,
         HeightsExact, Timely;
    var n := c.n;
    match step
    case Connect(b, now) =>
      ChainPreSnoc(n, c.blocks, b);
      var err := c.ConnectBlock(b, now);
      CleanHeights(n, c.blocks, s);
    case Replace(cand, now) =>
      NoCollisionBelow(n, ChainPre(n, c.blocks) + ChainPre(n, cand), s);
      var v := c.TryReplace(cand, now);
  }

  /** Whatever a node has been through, a restart brings back its chain: the same blocks and
      table, and so the same hashes, state, index and work. */
  method RunThenRestart(c: Chain, steps: seq<ChainStep>, first: Clock, restart: Clock,
      ghost s: set<Bytes>) returns (d: Chain)
    requires c.Valid() && c.Stored() && c.hasDb && c.persisting && c.blocks != []
    requires Timely(c.blocks, first) && ClockRuns(steps, first, restart)
    requires NoneCollide(c.n, c.blocks, steps, s) && RunFits(c.n, c.blocks, steps)
    modifies c
    ensures c.Valid() && c.Stored() && c.blocks == RunOf(c.n, old(c.blocks), steps)
    ensures fresh(d) && d.Valid() && d.Stored() && d.n == c.n && d.hasDb && d.persisting
    ensures d.blocks != [] && Timely(d.blocks, restart)
    ensures d.blocks == c.blocks && d.rows == c.rows
    ensures d.hashes == c.hashes && d.st == c.st && d.txidx == c.txidx && d.work == c.work
  {
    hide ValidChain, NoCollision, ChainPre, StepPre, FitsMemory, StateOf, IndexOf, Work, Hashes, Rows, Timely, RunOf,
         Next, LoadedBlocks, LoadedRows;
    ghost var b0 := c.blocks;
    ghost var t: Clock := first;
    RunNothing(c.n, b0, steps);
    for i := 0 to |steps|
      invariant c.Valid() && c.Stored() && c.persisting && c.blocks != []
      invariant c.blocks == RunOf(c.n, b0, steps[..i]) && ChainPre(c.n, c.blocks) <= s
      invariant Timely(c.blocks, t) && t <= restart && forall j :: i <= j < |steps| ==> t <= steps[j].now
    {
      RunStep(c.n, b0, steps, i);
      TimelyLater(c.blocks, t, steps[i].now);
      Take(c, steps[i], s);
      t := steps[i].now;
    }
    assert steps[..|steps|] == steps;
    TimelyLater(c.blocks, t, restart);
    var limit := |c.blocks|;
    ReloadRestores(c.n, c.blocks, restart, limit);
    OnTimeAll(c.blocks, restart);
    RowsOf(c.blocks);
    d := new Chain(c.n, true, c.rows);
    d.Init(restart, limit);
  }

  lemma {:induction false} OnTimeAll(blocks: seq<Block>, now: Clock)
    requires Timely(blocks, now)
    ensures blocks[..OnTime(blocks, now)] == blocks
  {
  }

  lemma {:induction false} RunNothing(n: Net, blocks: seq<Block>, steps: seq<ChainStep>)
    ensures RunOf(n, blocks, steps[..0]) == blocks
  {
  }
}
