# chainlite: a verified model of the ledger

chainlite is a small proof-of-work ledger: independent nodes validate blocks of signed
transactions, keep account balances, adopt whichever chain carries the most work, and
hand out Merkle inclusion proofs that anyone can check offline. This project models the
consensus core and the code around it - the chain and its storage, the mempool, the node's
critical sections, the sync session, SHA-256, the GPU miner's hash, message framing and the
proof text - and proves what the design promises of them. Everything is checked by
`dafny verify dfyconfig.toml`.

## The main results

* **Agreement.** Two nodes under the same parameters with the same tip hash hold the same
  blocks, account state, transaction index and work (`ChainStore.NodesAgree`), unless two of
  the finitely many byte strings they hashed collide. It rests on injective encodings, the
  Merkle root binding the transactions in spite of the duplicated last node, and replay
  protection making the ids of a chain pairwise distinct.
* **The caches mirror the chain.** After any sequence of `connect_block`, `try_replace` and
  `init`, the state, index, hashes and work equal functions of the block list, and the block list
  obeys every rule. On a node whose table was empty at its first start, or mirrored its chain
  since, the table holds exactly the serialized blocks after every step, although a
  reorganisation rewrites only the rows from the fork on; and a restart after any such run, under
  a clock that does not run backwards, brings back the same chain (`Restart.RunThenRestart`).
  A start keeps the whole chain if and only if the clock accepts every block of it, and cuts a
  damaged table back to its longest good prefix. The same holds for a whole node: after any
  sequence of its critical sections, its own miner's included, a restart brings its chain back
  (`Runs.RunThenRestart`), and over a life of any number of restarts no work is lost
  (`Runs.LiveOn`).
* **Money and replay.** On every valid chain the balances add up to reward times height, less 2^64
  for each credit that overflowed its account - so there is equality if and only if none did, as
  while the product fits u64. Each account's nonce is the number of its transactions, no transaction
  occurs twice, and the index is exact in both directions. Nothing is on a chain that its sender has
  not signed for that network, and nobody loses money in a block without having signed a transfer in
  it (`ChainRules.LossIsSigned`).
* **The node.** One joint invariant over chain, pool, cached work, tip counter and sync state
  is kept by every critical section, and while the work fits u64 it rises from each chain the node
  has had to the next. No pooled transaction is on the chain, work handed to an outside miner can
  only be refused for what its header says, and a nonce found while the tip counter stood still is
  always accepted (`Runs.MineRound`, and `Runs.OutsideRound` for an outside miner) - exactly as long
  as the body pays: its payee's own transfers stay covered behind the coinbase, which they do while
  the supply fits u64.
* **Convergence.** A sync session with an honest peer of strictly more work ends with our
  chain equal to the peer's, by extension however long that is, or by full download and
  reorganisation; only on a fork against a chain of more than 500000 blocks it is given up and our
  chain stays. Requests and answers are exchanged as bytes, and the clock moves on between them.
* **Scheduling.** What `collect` picks still applies behind a coinbase it never saw exactly when
  each of the payee's own transfers is covered by the balance the scheduler saw plus the reward, as
  u64 adds them; that is so whenever the supply fits u64. Nothing that would still apply is left out.
* **Hashing and formats.** The streaming hash is the FIPS 180-4 digest for every way of cutting
  the message into pieces - whose constants and rotations are fixed by the standard's own example
  (`KnownAnswer.AbcDigest`) -, the GPU's hand-padded version equals it, framing is indifferent to how
  TCP cuts the stream, and printed proofs verify. A text that verifies and names a block of the
  chain commits that block to the id exactly when the block is not the genesis and the text has as
  many steps as the block's tree is deep; the verifier cannot know that depth, and accepts texts
  that name the Merkle root or another inner node as the transaction (`ProofText.RootTextVerifies`,
  `ProofText.GenesisTextVerifies`). An id that is known to be a transaction's gets through, for any
  block after the genesis, only if that block holds it.

## How the model is set up

Bytes, words and balances have the widths of the source: wrap-around of u64 balances, nonces,
heights and work is written out, the index stores heights as u32, difficulty comparisons keep
the kernel's `int` cast, and SHA-256 works on 32-bit vectors. Objects that the source updates in
place are classes (`Writer`, `Reader`, `Accounts`, `Chain`, `Mempool`, `App`, `Ctx`, `Peer`);
its loops are loops, each proved against a function, and the theorems are about those functions.

`Codec.Net` holds the consensus parameters together with the hash, the signature check and the
address derivation. Nothing is assumed of these three, so every theorem holds for every choice of
them; `Mining.UsesSha256` is the choice the system makes. No function from byte strings to 32
bytes is injective, so a theorem that needs the absence of collisions says on which finite set of
strings: `Agreement.ChainPre` is the set of all strings hashed in validating a chain (the genesis
header, headers, transactions, tree nodes).

The `blocks` table is a map from heights to bytes, and a database transaction is one step. Each
critical section of the node is one method; what `peer_tip` reports, the clock, and whether a
timeout has expired are parameters, and what is sent to the peer is the result. The clock is a
non-negative signed 64-bit number of seconds. A ghost `history` records the chain under each
value of `tip_seq`, which is what makes "the tip has not moved" a statement about chains.

Bounds that appear in theorems, and why: `FitsMemory` (at most 2^63 blocks and transactions, which
a 64-bit address space implies), `WorkFits` and `SupplyFits` (total work and total supply below
2^64). The last two can be exceeded. The difficulty is set on the command line, and
`ChainRules.SaturatedWorkWraps` shows what one of 63 bits or more does to the total work. No command
sets the reward, which stays 50 unless other code fills in `Params`; for such a value
`Mempools.WrappedCoinbaseStarves` shows, on a valid chain, a coinbase that starves its payee.
`ChainRules.WorkOrdersByLength` and `Mempools.CoinbaseThenRunExact` say exactly when things go wrong.

Where the comments of the source promise more than the code does, the model follows the code: the
start of a chain is said to be only the exact genesis, but it is recognised by its hash alone, so
`Agreement.FirstIsGenesis` needs the absence of collisions; and a transaction that is refused
after its sender was looked up leaves an empty account entry behind, which the contract of
`Ledger.Accounts.Apply` pins down and the scheduler tolerates.

Files follow the program's parts: `Basics` and `Codec` (bytes and encodings), `Merkle`, `Pow`,
`Ledger` (accounts), `ChainRules` (what a chain is), `Agreement`, `ChainStore` (the `Chain` object
and its table), `Restart`, `Mempool`, `Node`, `Batch` and `Sync`, `Sha256` and `KnownAnswer`, `Mining`, `Runs` (the
node over whole runs), `Framing`, `ProofText`.

## Model

| member | source | states |
|---|---|---|
| Basics.FromLEOfLE | src/common.h:80-95 | a number written little-endian in enough bytes reads back as itself |
| Basics.LEOfFromLE | src/common.h:80-95 | bytes read as a little-endian number write back as the same bytes |
| Basics.Writer.PutU16 | src/common.h:79 | appends the two-byte encoding and nothing else |
| Basics.Writer.PutLE | src/common.h:80-81 | the byte-pushing loops of `u32` and `u64` append the little-endian encoding |
| Basics.Reader.GetLE | src/common.h:90-94 | succeeds exactly when enough bytes are left, reads their little-endian value and advances past them; a short read moves nothing |
| Basics.Reader.GetRaw | src/common.h:95-96 | succeeds exactly when enough bytes are left and returns just those |
| Codec.TxRoundTrip | src/core.h:34-54 | parsing a serialized transaction of at most 1024 payload bytes gives it back and leaves what follows |
| Codec.TxCanonical | src/core.h:44-54 | whatever the transaction parser accepts is the encoding of what it returns |
| Codec.HeaderRoundTrip | src/core.h:71-83 | parsing a serialized header gives it back and leaves what follows |
| Codec.HeaderCanonical | src/core.h:77-83 | a parsed header re-serializes to the bytes it was read from |
| Codec.HeaderLength | src/core.h:58-74 | a header takes exactly 100 bytes |
| Codec.HeaderAt | src/core.h:71-74 | where each field of a header stands in its 100 bytes |
| Codec.TxHeadAt | src/core.h:34-37 | where each field of a transaction stands in front of its payload |
| Codec.EncodingInjective | src/core.h:34-83 | different headers, and different transactions within the payload limit, have different encodings |
| Codec.SignHashBinds | src/core.h:34-41 | a signature covers everything but itself: equal sign hashes mean transactions that differ in the signature only, or strings collide |
| Codec.BlockRoundTrip | src/core.h:90-109 | parse inverts serialize on exactly the blocks with at most 5000 transactions of at most 1024 payload bytes |
| Codec.BlockCanonical | src/core.h:97-109 | any bytes accepted as a block re-serialize to themselves |
| Codec.PatchNonce | src/core.h:58-74 | replacing bytes 92..99 by a nonce is serializing the header with that nonce |
| Codec.WriteTx | src/core.h:34-42 | the field-by-field writer appends the layout, with or without the signature |
| Codec.WriteHeader | src/core.h:71-75 | the field-by-field writer appends the 100-byte layout |
| Codec.SerializeBlock | src/core.h:90-96 | header, count and transactions in order |
| Codec.ReadTx | src/core.h:44-54 | the cursor parser accepts exactly what the layout allows and stops right behind the transaction |
| Codec.ReadHeader | src/core.h:77-83 | the cursor parser accepts exactly what the layout allows and stops right behind the header |
| Codec.ReadTxs | src/core.h:105 | the loop over the announced transactions succeeds exactly when all of them parse |
| Codec.ParseBlockBytes | src/core.h:97-109 | accepts exactly well-formed blocks: counts over 5000, short and trailing bytes are refused |
| Merkle.ProofReachesRoot | src/core.h:119-151 | every leaf's proof has Depth(n) steps and leads to the root |
| Merkle.DepthIsCeilLog2 | src/core.h:132-146 | the number of steps is the ceiling of the binary logarithm of the number of leaves |
| Merkle.SmallTrees | src/core.h:113-151 | the trees, proofs and paths over up to four leaves, written out: left before right, and a node without a partner paired with itself |
| Merkle.PathEnters | src/core.h:147-151 | a path that reaches the root passes through a leaf position as many steps before its end as the tree is deep, and if it has fewer steps it starts at an inner node, or strings collide |
| Merkle.PathLength | src/core.h:119-151 | a path to the root of genuine leaves has at most as many steps as the tree is deep, and starts at a leaf exactly when it has that many |
| Merkle.ProofSound | src/core.h:119-151 | if a genuine id reaches the root by any steps it is one of the leaves, or strings collide |
| Merkle.PaddingAmbiguity | src/core.h:122 | appending a copy of the last leaf of an odd list leaves the root alone, so roots bind lists only with distinct ids |
| Merkle.HeightsDiffer | src/core.h:113-130 | the first nodes of two levels of different height, in two trees over genuine ids, differ, because leaves and inner nodes hash strings of different length |
| Merkle.EqualDepth | src/core.h:119-130 | equal roots over genuine ids have equal depth |
| Merkle.SameDepthBinding | src/core.h:119-130 | at equal depth, equal roots over distinct ids have equal leaves in spite of the padding |
| Merkle.RootBinds | src/core.h:113-130 | two lists of distinct genuine ids of any lengths with the same root are the same list, or strings collide |
| Merkle.NextLevel | src/core.h:122-127 | padding and pairing up computes the next level |
| Merkle.MerkleRoot | src/core.h:119-130 | the level loop computes the root of the tree, zero for no leaves |
| Merkle.MerkleProof | src/core.h:132-146 | the level loop collects the sibling and side of every node on the way up |
| Merkle.MerkleApply | src/core.h:147-151 | the loop folds the steps over the leaf |
| Pow.ZerosBracket | src/sha256.h:96-105 | a digest with z leading zero bits lies in [2^(255-z), 2^(256-z)) as a big-endian number |
| Pow.PowIsNumericBound | src/sha256.h:94-106 | `pow_ok` holds exactly when the big-endian digest is below 2^(256-bits), and never for more than 256 bits |
| Pow.WorkIsExpectedHashes | src/sha256.h:94-107 | below 63 bits the work of a block is 2^bits, the number of digests for each one that meets the target |
| Pow.LeadingZeroBits | src/sha256.h:96-105 | the byte and bit loops count the leading zero bits |
| Ledger.Accounts.Apply | src/core.h:158-187 | returns the first rule broken, produces the new state if none is, and otherwise changes nothing but an empty account entry for a sender already looked up; `AppliesExactly` and `ReasonIsTrue` say what the rules are |
| Ledger.AppliesExactly | src/core.h:158-187 | a transaction is accepted exactly when it is, in first place, an unsigned coinbase of the reward numbered by the height, or behind it a transfer the balance covers or a record of 1 to 1024 bytes, signed by its sender for this network, with the next nonce |
| Ledger.ReasonIsTrue | src/core.h:159-184 | every reason given for refusing a transaction is true of it |
| Ledger.NothingLost | src/core.h:158-187 | in a run without a transfer of its own and without an overflow an account loses nothing |
| Ledger.EffectMoves | src/core.h:166-185 | an applied transaction changes each balance by what flows in minus what flows out and each nonce by whether the account sent it, sender and recipient possibly being the same |
| Ledger.NonceCounts | src/core.h:174-185 | after any run an account's nonce has grown by the number of transactions it sent, modulo 2^64 |
| Ledger.EffectTotal | src/core.h:166-180 | an applied transaction changes the supply by what it mints, less 2^64 exactly when the credited balance overflows, which takes a supply of 2^64 |
| Ledger.RunTotal | src/core.h:244-248 | the supply after a run is what there was and what was minted, less 2^64 for each overflow; exact while it fits u64, and modulo 2^64 always |
| Ledger.BlockMints | src/core.h:160-169 | an applicable block body mints exactly one reward |
| Ledger.DominatesStep | src/core.h:158-187 | a transaction applicable in a state is applicable in any richer one and keeps it richer |
| Ledger.DominatesRun | src/core.h:158-187 | the same for whole runs, in order |
| ChainRules.FirstBadIsRunOk | src/core.h:244-248 | the validation loop finds no error exactly when every transaction applies when its turn comes |
| ChainRules.CheckMeansExtends | src/core.h:222-252 | `connect_block` accepts exactly the blocks that obey every rule and are not dated more than two hours ahead |
| ChainRules.ConnectsExactly | src/core.h:230-248 | a block connects behind another exactly when version, network, height, previous hash, difficulty, proof of work as a number, time within 7200 seconds, 1 to 5000 transactions, Merkle root and every transaction are right |
| ChainRules.RefusalIsTrue | src/core.h:230-248 | every reason given for refusing a block is true of it, and a bad transaction named is the first one |
| ChainRules.TimelyLater | src/core.h:238 | a chain the clock accepts is accepted by any later clock |
| ChainRules.DerivedSnoc | src/core.h:328-336 | updating state, hashes, index and work for one more block gives what the longer list derives |
| ChainRules.HeightsRun | src/core.h:233 | the k-th block of a valid chain has height k above its first, modulo 2^64 |
| ChainRules.GenesisGivesHeights | src/core.h:201-233 | on a chain that starts from the genesis the height of a block is its position |
| ChainRules.WorkClosedForm | src/core.h:227-250 | total work is 1 + (n-1) * 2^bits modulo 2^64 up to 62 bits, and 1 + (n-1) * (2^64 - 1) beyond |
| ChainRules.MoreWorkMeansLonger | src/core.h:266 | fork choice compares what the lengths come to modulo 2^64; while the work of both chains fits u64, strictly more work means strictly longer, and conversely |
| ChainRules.WorkOrdersByLength | src/core.h:266 | among chains of up to a given length the longer always carries more work, exactly as long as the work at that length fits u64 |
| ChainRules.AppendGrowsWork | src/core.h:334 | appending a block raises the total work exactly as long as the sum does not wrap |
| ChainRules.SaturatedWorkWraps | src/sha256.h:107 | with 63 or more difficulty bits the first block after the genesis wraps the total work to zero |
| ChainRules.ChainMints | src/core.h:160-169 | a valid chain mints one reward per block after the genesis |
| ChainRules.ChainTotal | src/core.h:158-187 | the balances of a valid chain add up to what it minted, less 2^64 for each overflow |
| ChainRules.Conservation | src/core.h:158-250 | the balances of a valid chain add up to reward times height exactly when no credit on it overflowed, in particular while that fits u64; each overflow loses 2^64 |
| ChainRules.NonceOnChain | src/core.h:165-174 | a coinbase carries its height, and any other transaction's nonce is the number of its sender's transactions in front of it on the chain |
| ChainRules.SignedOnChain | src/core.h:159-184 | every transaction of a chain but the coinbases is signed by its nonzero sender for this network, and is a transfer without payload or a record of 1 to 1024 bytes |
| ChainRules.CoinbaseOnChain | src/core.h:160-167 | a coinbase pays the reward to one address and is fixed otherwise |
| ChainRules.WorkOnChain | src/core.h:231-237 | every block after the genesis is of this version, network and difficulty, follows the hash of its predecessor, and hashes below the target |
| ChainRules.LossIsSigned | src/core.h:171-180 | an account whose balance a block lowers, while no credit in it overflows, has signed a transfer in that block |
| ChainRules.NoReplay | src/core.h:158-187 | no transaction occurs at two positions of a valid chain |
| ChainRules.NonceIsSentCount | src/core.h:185 | an account's nonce is the number of its transactions on the chain |
| Agreement.FirstIsGenesis | src/core.h:223-228 | the first block of a chain is the genesis, or its header collides with it |
| Agreement.GenesisStands | src/core.h:201-229 | the genesis alone is a valid chain that hashes a single string, so the assumptions of the agreement results can be met |
| Agreement.GenesisBytes | src/core.h:201-211 | the genesis header byte by byte |
| Agreement.GenesisBinds | src/core.h:201-211 | networks over the same hash function with equal genesis hashes have equal id and genesis time, or their genesis headers collide |
| Agreement.IdsDiffer | src/core.h:239-248 | different positions of a chain hold different transaction ids, or strings collide |
| Agreement.HeaderBindsTxs | src/core.h:239-243 | blocks of valid chains with equal headers have equal transactions, or strings collide |
| Agreement.SameTipSameChain | src/core.h:222-252 | valid chains with equal tip hashes are equal, whatever their lengths, or strings collide |
| Agreement.TipDeterminesLedger | src/core.h:222-282 | equal tip hashes mean equal blocks, state, index and work, or the strings the two chains hashed contain a collision |
| Agreement.SharedHashesShareBlocks | src/core.h:267-268 | chains whose hashes agree below the fork share their blocks there |
| Agreement.IndexSound | src/core.h:328-331 | an index entry always names a transaction with that id, collisions or not |
| Agreement.IndexHasAll | src/core.h:328-331 | every transaction of the chain has an index entry, collisions or not |
| Agreement.IndexComplete | src/core.h:328-331 | the entry of every transaction is its own height and position |
| Agreement.IndexExact | src/core.h:328-336 | the index maps an id to (g, i) exactly when transaction i of some block has that id and g is that block's height as a u32; up to 2^32 blocks, exactly when transaction i of block g has it |
| Agreement.LookupsResolve | src/core.h:331 | every stored position leads to its transaction exactly as long as the chain has at most 2^32 blocks |
| Agreement.NonceConsumed | src/core.h:174-185 | every transaction on the chain has a nonce below its sender's current one |
| Agreement.UnusedNonceNotIndexed | src/core.h:395 | a transaction whose nonce is not yet used up is not in the index |
| ChainStore.ApplyAll | src/core.h:244-248 | applies a block body to a copy of the state and reports the first transaction that fails with its reason |
| ChainStore.Chain.HasBlock | src/core.h:216-219 | finds a hash exactly when a block of the chain has it |
| ChainStore.Chain.ConnectBlock | src/core.h:222-252 | reports the first rule broken, appends exactly the valid block, changes nothing otherwise, and keeps caches and table in step with the list |
| ChainStore.Chain.Append | src/core.h:328-336 | index, lists, work and table are updated so that every cache still equals what the list derives |
| ChainStore.Chain.TryReplace | src/core.h:256-282 | adopts a candidate exactly when it is valid, timely and has strictly more work; names the cause of any refusal, which changes nothing; reports the longest common hash prefix; removes the rows from there on, inserts the candidate's, and so mirrors the new chain, or strings collide |
| ChainStore.ConnectAllOf | src/core.h:258-265 | the candidate connects block by block exactly when it is valid and timely, and otherwise the first failing block is named with its reason |
| ChainStore.Chain.RewriteFrom | src/core.h:277 | the loop inserts exactly the blocks from the fork on, which completes a table that holds those below it |
| ChainStore.Chain.Init | src/core.h:284-325 | keeps the longest run of rows that parse and connect, removes the rest of the table, starts from the genesis if nothing is left |
| ChainStore.NodesAgree | src/core.h:190-282 | two nodes with equal tip hashes hold equal blocks, hashes, state, index and work, or the strings they hashed contain a collision |
| ChainStore.CommonPrefix | src/core.h:267-268 | the loop stops at the first position where the hashes differ |
| ChainStore.ForkShares | src/core.h:267-277 | rows below the fork may stay: they hold the same blocks on both chains |
| ChainStore.ReloadRestores | src/core.h:297-318 | a start on the table of a valid chain keeps exactly the blocks in front of the first one ahead of the clock, so it rebuilds the chain if and only if the clock accepts every block |
| ChainStore.ReloadRepairs | src/core.h:303-323 | with the first k rows good and the next one missing, unreadable or not connecting, a start keeps exactly those k blocks (or the genesis) and just their rows |
| ChainStore.ReloadGap | src/core.h:297-318 | a start on a table that has lost rows of a valid chain keeps exactly the blocks in front of the first gap: no later block connects in an earlier one's place |
| Restart.FirstStart | src/core.h:284-325 | a start on an empty table yields the genesis, stored |
| Restart.Take | src/core.h:222-282 | a step of a run keeps the caches and the table in step with the chain, and the chain acceptable to the clock |
| Restart.RunThenRestart | src/core.h:222-325 | after any run of connects and replacements under a clock that does not run backwards, a restart brings back the same blocks, table, hashes, state, index and work, or strings collide |
| Mempools.WellFormedVerdict | src/core.h:384-404 | for a transaction the pool admits, only nonce and balance are left to check |
| Mempools.Mempool.Has | src/core.h:445 | finds an id exactly when a pooled transaction has it |
| Mempools.Mempool.Add | src/core.h:384-410 | returns the first rule broken or adds the transaction under a fresh key, and keeps pool and id set consistent and ahead of the chain; `AddsExactly` and `TurnedAwayFor` say what the rules are |
| Mempools.AddsExactly | src/core.h:384-406 | the pool lets in, with room, a new id and a free key, exactly what its sender has signed for this network with a nonce up to 16 ahead, a transfer that is next in turn being covered |
| Mempools.AddsApplicable | src/core.h:384-406 | with room, what the next block could hold is let in, and what is let in with the current nonce the next block could hold |
| Mempools.TurnedAwayFor | src/core.h:384-406 | every reason given for turning a transaction away is true of it |
| Mempools.Mempool.Purge | src/core.h:434-443 | keeps exactly the transactions whose nonce the chain has not used up |
| Mempools.Mempool.Collect | src/core.h:413-431 | picks pooled transactions in an applicable order, at most the limit and the pool size, and below the limit none that would still apply is left out; in any iteration order, and it terminates |
| Mempools.Mempool.Pass | src/core.h:419-428 | one walk over the pool either picks something or shows that nothing applies |
| Mempools.PickNext | src/core.h:422-425 | a pick consumes a key that was not used before, so picks never repeat |
| Mempools.NoncesContiguous | src/core.h:420-425 | the picks of one sender carry consecutive nonces from the chain's nonce on |
| Mempools.CoinbaseDominates | src/node_impl.h:270-275 | a coinbase only makes accounts richer while the supply fits u64 |
| Mempools.CoinbaseThenRunExact | src/core.h:413-431 | a collected run still applies behind a coinbase the scheduler never saw exactly when each transfer of the payee's is covered by the balance the scheduler saw plus the reward, modulo 2^64 |
| Mempools.ShiftedRun | src/core.h:158-187 | a run applies to a state with one balance raised modulo 2^64 exactly when that account's transfers stay covered, and the states stay so related |
| Mempools.SupplyCovers | src/core.h:166-180 | while the supply and one more reward fit u64, every transfer stays covered |
| Mempools.CoinbaseThenRun | src/core.h:413-431 | hence, while the supply and one more reward fit u64, a collected run behind its coinbase is a block body |
| Mempools.WrappedCoinbaseStarves | src/core.h:166 | on a valid chain with a reward of 2^63 the next coinbase wraps its payee's balance, and the payee's collected transfer no longer applies |
| Mempools.FirstBlockExtends | src/core.h:201-252 | at difficulty zero the genesis and one coinbase form a valid chain that leaves the payee with one reward |
| Node.BodyApplies | src/node_impl.h:269-281 | a body built for the tip applies to it exactly when the payee's transfers stay covered, and always while the supply fits u64 |
| Node.BuiltBlockAccepted | src/node_impl.h:269-289 | a built body under a matching header whose hash meets the target and whose time is not ahead is accepted exactly when it pays |
| Node.CachedBodyAccepted | src/node_impl.h:632-644 | a cached body that pays can be refused only for version, network, height, previous hash, difficulty, work or time, never for its root or transactions; one that does not pay is never accepted |
| Node.CollectedBody | src/node_impl.h:604-615 | coinbase plus collected transactions is a body for the tip, and applies exactly when the payee's transfers stay covered |
| Node.EmptyMeansExhausted | src/node_impl.h:266-269 | the scheduler returns nothing exactly when no pooled transaction applies |
| Node.PoolDisjointFromIndex | src/node_impl.h:62-66 | under the joint invariant no pooled transaction is in the index |
| Node.JobsPersist | src/node_impl.h:293-327 | whatever other threads do while the miner grinds, the job stays one built on the chain of its tip counter |
| Node.HistoryRises | src/core.h:222-282 | along a node's history work rises from any chain to any later one while it fits u64, so no chain comes back |
| Node.App.PostChainChange | src/node_impl.h:62-66 | after a chain change the joint invariant holds again: pool purged, cached work dropped, tip counter moved |
| Node.App.Adopt | src/node_impl.h:233-241 | a block that connects is followed up by purge, dropped work and a moved tip counter; one that does not changes nothing |
| Node.App.MaybeSync | src/node_impl.h:80-93 | a session starts exactly when none is running and the peer claims more work, asking for the block after our tip |
| Node.App.OnTip | src/node_impl.h:169-173 | a TIP starts a session under exactly that condition and changes nothing else |
| Node.App.OnGone | src/node_impl.h:162-166 | losing the sync peer ends the session, losing another peer changes nothing |
| Node.App.SyncTimeout | src/node_impl.h:361-367 | an expired session is dropped, and nothing else changes |
| Node.App.OfferTx | src/node_impl.h:206-225 | a TX message or submitted body is pooled exactly when it parses whole, is neither pooled nor on the chain, and the pool admits it |
| Node.App.OnBlock | src/node_impl.h:226-248 | a block is accepted exactly when it is new and valid on the tip; a refused higher one asks for a sync exactly when none runs and the peer claims more work; the tip counter moves with the chain and the pool loses exactly what the chain used up |
| Node.App.ConnectAll | src/node_impl.h:102-109 | connects the longest prefix of the blocks that connects, with one purge and one tick of the tip counter |
| Node.ConnectPrefix | src/node_impl.h:104-108 | the loop connects exactly the blocks in front of the first that does not connect |
| Node.App.HandleBlocks | src/node_impl.h:95-154 | a BLOCKS message from another peer changes nothing; from the sync peer it makes exactly the extension or download step |
| Node.App.ExtendBy | src/node_impl.h:102-131 | extension: a rejected first batch switches to a full download, catching up or stalling ends the session, progress asks for more |
| Node.App.DownloadMore | src/node_impl.h:132-153 | download: too long a candidate is dropped, an incomplete one grows, a complete one replaces the chain exactly when valid and heavier |
| Node.AnswersUseUp | src/node_impl.h:95-154 | whatever a peer sends, an empty answer ends the session and any other leaves a longer chain, a turn to the download or a longer candidate of at most 500000 blocks; a download changes the chain only for one of more work |
| Node.App.BuildBody | src/node_impl.h:604-615 | the offered body is the coinbase and what the scheduler may pick from the pool; it applies to the tip exactly when it pays |
| Node.App.Prepare | src/node_impl.h:262-291 | there is no job exactly when no pooled transaction applies and the heartbeat is off or its time has not come; a job is built on the chain of the current tip counter |
| Node.App.Commit | src/node_impl.h:322-341 | for a job built on the chain of its tip counter, a found block goes in exactly when its body pays, whenever the tip counter has not moved, the nonce solves it and the clock has not run back; a moved tip or a refused block changes nothing |
| Node.App.GetWork | src/node_impl.h:604-631 | the returned header is for the tip and for a body of coinbase and scheduled transactions, which applies exactly when it pays, and that body alone joins the cache under its root |
| Node.App.SubmitWork | src/node_impl.h:632-653 | known work is mined exactly when the block of that header and the cached body is valid, and refused for the rule that breaks, which is one about the header when the body pays; wrong size and unknown roots are told apart |
| Runs.Perform | src/node_impl.h:95-653 | every critical section that can change the node - of the P2P handlers, the timeout, the RPC and the node's own miner - keeps the joint invariant, adds at most one chain to the history, and keeps the table in step with the chain and the chain acceptable to the clock |
| Runs.PerformAll | src/node_impl.h:95-653 | so does every sequence of them, under a clock that does not run backwards, and work rises from chain to chain |
| Runs.RunThenRestart | src/node_impl.h:95-653 | after any sequence of critical sections a restart on the table brings back the node's blocks, table, hashes, state, index and work, or strings hashed along its history collide |
| Runs.LiveOn | src/node_impl.h:95-653 | over any number of runs and restarts the table mirrors the chain and no chain carries less work than the one before, or strings hashed along the way collide |
| Runs.MineRound | src/node_impl.h:258-348 | prepare, any sections of other threads, grind, commit: a found nonce is lost only if the tip moved or the body does not pay, the committed block is the prepared one with that nonce, and the table mirrors the chain |
| Runs.OutsideRound | src/node_impl.h:604-653 | fetch work, any sections of other threads, hand in a nonce: it is mined exactly when a body is still cached for it, the tip is the one it was made for, the nonce solves the header and the body pays |
| Batch.ServedArrives | src/node_impl.h:174-205 | what is served from a valid chain is read back as the same blocks |
| Batch.BlocksParse | src/node_impl.h:186-200 | length-prefixed blocks parse back to the list they were written from |
| Batch.RequestMeans | src/node_impl.h:73-79 | a request for a height asks for the up to 200 blocks from there on |
| Batch.SliceMeans | src/node_impl.h:178-185 | a request is answered with exactly the next blocks of the chain, as many as asked for and there are, at most 200 |
| Batch.BatchCounts | src/node_impl.h:191-203 | a BLOCKS payload yields as many blocks as it announces, never more than 500 |
| Batch.TipPayload | src/node_impl.h:52-58 | a node announces the height, work and hash of its tip |
| Batch.HearTip | src/net.h:278-285 | a TIP is remembered by the link as the sender's height and work |
| Batch.AnswerGetBlocks | src/node_impl.h:174-189 | a request is answered exactly when it holds both numbers, with the encoded blocks from the start height, at most 200 |
| Batch.ParseBlocksMessage | src/node_impl.h:190-203 | a BLOCKS payload is read whole or not at all, and never for more than 500 blocks |
| Batch.Exchange | src/node_impl.h:73-205 | request, answer and reading, in bytes, yield the peer's blocks from the requested height on |
| Sync.ServedConnects | src/node_impl.h:102-109 | on a prefix of the peer's chain every served block connects |
| Sync.ForkedRejects | src/node_impl.h:111-119 | on a chain that is no prefix of the peer's the peer's next block does not connect, or strings collide |
| Sync.CaughtUpMeansWhole | src/node_impl.h:121-127 | on a prefix of the peer's chain, having its work means having all of it |
| Sync.ExtendProgress | src/node_impl.h:102-131 | one answer lengthens our prefix, turns to a download, or ends with the peer's chain |
| Sync.DownloadProgress | src/node_impl.h:132-153 | one answer lengthens the candidate prefix, or ends with the peer's chain adopted, or gives up because the peer's chain is too long |
| Sync.ConvergesLater | src/core.h:238 | what both sides know at the start of a session still holds at any later clock |
| Sync.Session | src/node_impl.h:80-205 | a session against an honest peer with a fixed, valid, strictly heavier chain, begun on its TIP, ends with our chain equal to the peer's, except that on a fork against more than 500000 blocks our chain stays; the clock moves on between answers |
| Sha256.Compress | src/sha256.h:25-46 | the in-place compression is section 6.2.2 of FIPS 180-4 |
| Sha256.Schedule | src/sha256.h:26-34 | the word array is the message schedule |
| Sha256.RoundStep | src/sha256.h:37-43 | the shuffling of eight working variables is one round |
| Sha256.Ctx.Update | src/sha256.h:54-62 | however the buffer stands, absorbing bytes appends them to what has been absorbed |
| Sha256.Ctx.PadZeros | src/sha256.h:67-68 | the padding loop ends, having added the fewest zeros that leave room for the length |
| Sha256.Ctx.Final | src/sha256.h:63-78 | the result is the FIPS 180-4 digest of everything absorbed |
| Sha256.Sha256 | src/sha256.h:83-87 | the one-shot hash is the FIPS 180-4 digest of every message below 2^61 bytes |
| Sha256.Sha256d | src/sha256.h:91 | the double hash |
| Sha256.HashChunks | src/sha256.h:54-78 | any way of cutting a message into updates gives the digest of the whole |
| KnownAnswer.AbcDigest | src/sha256.h:25-83 | the digest of "abc" is the one the standard gives, computed round by round from the definitions |
| KnownAnswer.CubeRoots0 | src/sha256.h:8-17 | the first eight round constants are the leading fractional bits of the cube roots of the first eight primes; seven more such rows cover all 64 |
| KnownAnswer.SquareRoots | src/sha256.h:18-20 | the initial values are the leading fractional bits of the square roots of the first eight primes |
| KnownAnswer.LengthIsBigEndian | src/sha256.h:69-71 | the length is appended most significant byte first |
| Mining.Patch | src/node_impl.h:312 | the byte loop replaces the nonce field and nothing else |
| Mining.Grind | src/node_impl.h:306-318 | a found nonce solves the header and is the first of the run that does; no find means none of the nonces tried solves it |
| Mining.Sha256d100 | src/clminer_gpu.cu:69-94 | the hand-padded double hash equals the double FIPS 180-4 digest on every 100-byte header |
| Mining.SweepExact | src/clminer_gpu.cu:109-119 | no two turns of any threads of a launch try the same nonce |
| Mining.SweepCovers | src/clminer_gpu.cu:109-119 | every nonce of the launch's interval is some thread's |
| Mining.KernelThread | src/clminer_gpu.cu:109-128 | a thread reports a nonce only if the patched header meets the target, and gives up only if none of its nonces does |
| Mining.GpuNonceSolves | src/clminer_gpu.cu:107-128 | kernel and node agree on a nonce exactly for difficulties that fit `int`; beyond, the kernel accepts every nonce and the node none |
| Framing.DrainSplit | src/net.h:248-290 | parsing in two portions is parsing at once, whatever the bytes are |
| Framing.FragmentationIrrelevant | src/net.h:212-224 | any cut of the stream into chunks gives the same events, link state and leftover |
| Framing.StreamParses | src/net.h:248-290 | well-formed frames yield exactly their messages in order, the unfinished suffix stays, and the link remembers the last TIP |
| Framing.HelloReceived | src/net.h:117-121 | the HELLO a peer queues is accepted or dropped by exactly the network id and the dialling rule |
| Framing.TipReceived | src/net.h:278-285 | a TIP leaves its height, work and hash on the link, as they were sent, and is passed on |
| Framing.ShortReceived | src/net.h:259-285 | a HELLO or TIP too short for its fields ends the link unheard |
| Framing.LinkDelivers | src/net.h:210-290 | after an accepted HELLO, any fragmentation delivers `Ready` and then exactly the messages, in order, and the link remembers the last TIP |
| Framing.FrameInto | src/net.h:111-116 | appends length, type and payload |
| Framing.Peer.OnBytes | src/net.h:210-224 | received bytes are appended and parsed; a buffer over 16 MiB kills the link unparsed |
| Framing.Peer.ParseFrames | src/net.h:248-290 | the loop drains every complete frame and stops at an oversized one or a dead link |
| Framing.Peer.Dispatch | src/net.h:259-288 | the effect of one frame on the link, byte by byte of its payload; `HelloReceived`, `TipReceived` and `ShortReceived` say what it is |
| Framing.ReceiveAll | src/net.h:210-224 | the receiving loop over any chunks that stay within the 16 MiB buffer drains the stream |
| Framing.SmallChunksFit | src/net.h:214-252 | chunks of up to 8 MiB less 4 bytes never overflow the buffer of a live link |
| Framing.ReceiveLink | src/net.h:210-290 | a fresh link to an accepted peer delivers `Ready` and exactly the messages, in order, for any cut of the stream into chunks of up to 8 MiB less 4 bytes, and remembers the height, work and hash of the last TIP |
| ProofText.UnhexOfHex | src/common.h:38-62 | hex printing is read back as the same bytes |
| ProofText.HexSample | src/common.h:38-43 | digits are printed in lower case, high nibble first |
| ProofText.HexCases | src/common.h:47-62 | digits are read in either case |
| ProofText.StrToULLOfDec | src/clctl.cpp:96 | a printed number is read back as itself, or as 2^64 - 1 if it does not fit, with or without blanks or a plus in front; a minus negates it |
| ProofText.PrintedReadsBack | src/node_impl.h:592-602 | the verifier's scanner recovers every field and step that was printed |
| ProofText.LineEndsAlike | src/clctl.cpp:90-94 | line ends of either kind, and blanks before them, make no difference |
| ProofText.DocVerifies | src/clctl.cpp:105-118 | the proof of any transaction in any block but the genesis passes every check |
| ProofText.ProvedVerifies | src/node_impl.h:584-603 | for every id in the index, the transaction found has that id and its printed proof verifies |
| ProofText.ValidMeans | src/clctl.cpp:105-118 | a text verifies exactly when its header has the named hash and height, carries proof of work unless the height is 0, and the path leads from the id to the root in it; it is malformed exactly when a field is missing |
| ProofText.VerifiedIsCommitted | src/clctl.cpp:105-118 | a text that verifies and names a block of the chain names one of its transactions exactly when the block is not the genesis and the text has as many steps as the block's tree is deep; it never has more, and its height is the block's; or strings collide |
| ProofText.VerifiedTxIsCommitted | src/clctl.cpp:105-118 | if moreover the id is the hash of anything not 64 bytes long, such as a transaction, the block holds it, or strings collide |
| ProofText.GenesisTextVerifies | src/clctl.cpp:105-118 | on every network the text that names the genesis and the zero id verifies, although the genesis holds no transaction |
| ProofText.RootTextVerifies | src/clctl.cpp:105-118 | for every later block the text without steps that names the block's Merkle root as the transaction verifies, and with two or more transactions in the block it names none of them |
| ProofText.HexString | src/common.h:38-43 | prints two digits per byte, high nibble first |
| ProofText.UnhexString | src/common.h:53-62 | reads exactly even-length strings of hex digits |
| ProofText.PrintDoc | src/node_impl.h:592-602 | prints the proof document line by line |
| ProofText.Prove | src/node_impl.h:584-603 | answers exactly for the ids on the chain, with the text for the stored position; the text carries the id, and verifies whenever that position is right, so always on a chain from the genesis itself of at most 2^32 blocks |
| ProofText.ScanText | src/clctl.cpp:88-105 | the cursor loop reads the text line by line, whatever it holds |
| ProofText.TakeLine | src/clctl.cpp:95-104 | one line changes at most the field it names |
| ProofText.VerifyText | src/clctl.cpp:83-118 | the verdict for any text: malformed, failed or valid |

## Left out

- ChainStore.Chain.TryReplace: that the table mirrors the new chain assumes that no strings hashed for the two chains collide, because rows below the fork are kept on the strength of equal hashes; `IndexExact`, `HeaderBindsTxs`, both `RunThenRestart` and the other results that name `ChainPre` or `Undoubted` assume the same of their strings.
- ChainStore.Chain.Init: `limit` is any height above the last row of the table; it stands for the end of the query's result.
- ChainStore.ReloadRepairs: says nothing about a row that was replaced by another block which happens to parse and connect.
- ProofText.Prove: what the program does after reading past the end of the chain or of a block is left open (`OutOfRange`); `LookupsResolve` says that this needs more than 2^32 blocks, or colliding strings.
- Sync.Session: the peer's batches fit one frame of 8 MiB; the framing of the messages is a separate result (`ReceiveLink`), not part of the session.
- The clock is read once per critical section; the source may read it several times.
- Announcements and broadcasts are not recorded; only the block request a handler sends is.
- The tip counter is unbounded instead of a 64-bit atomic.
- Sync timing, miner jitter, heartbeat intervals and reconnects: only the decisions taken on them are modelled, with the timeout as a free choice.
- Sockets, the select loop, HTTP, processes, job objects and the console.
- Key handling and ECDSA: the signature check and the address derivation are arbitrary functions.
- SQL text, pragma and schema errors, failing statements and a crash between statements; the `txs` table, which is written outside transactions and not read back.
- The web viewer, JSON output, `/records`, `/tail`, logging and argument parsing.
- CUDA launches, memory and the race for the result flag: a kernel thread is modelled on its own, before any other thread has finished.
- The `txidx` and pool maps' iteration order: the scheduler is proved for every order.
