/** Pending transactions: admission, the fixpoint scheduler, purging (src/core.h:377-450). */
module Mempools {
  import opened Basics
  import opened Codec
  import opened Ledger
  import opened ChainRules
  import opened ChainStore

  const MAX_POOL := 10000
  const MAX_AHEAD := 16

  datatype Key = Key(sender: Addr20, nonce: u64)

  datatype PoolVerdict =
    | Added
    | CoinbaseNotAllowed
    | WrongNetwork
    | Full
    | AlreadyPooled
    | NoSender
    | Unsigned
    | NonceUsed
    | NonceTooFar
    | CannotPay
    | PayloadNotAllowed
    | AmountNotZero
    | PayloadSize
    | Unknown
    | Conflict

  function KeyOf(n: Net, t: Tx): Key {
    Key(n.addrOf(t.from), t.nonce)
  }

  /** The rules that do not depend on the state. */
  predicate WellFormed(n: Net, t: Tx) {
    && t.netId == n.netId
    && !IsZero(t.from)
    && n.verify(t.from, SignHash(n, t), t.sig)
    && ((t.kind == TX_TRANSFER && t.payload == [])
        || (t.kind == TX_RECORD && t.amount == 0 && t.payload != [] && |t.payload| <= MAX_PAYLOAD))
  }

  /** For a well-formed transaction only nonce and balance are left to check. */
  lemma {:induction false} WellFormedVerdict(n: Net, st: State, t: Tx, height: u64)
    requires WellFormed(n, t)
    ensures var acct := Acct(st, n.addrOf(t.from));
            Verdict(n, st, t, height, false).Good? <==>
            t.nonce == acct.nonce && (t.kind == TX_TRANSFER ==> t.amount <= acct.balance)
  {
    hide SignHash, IsZero;
  }

  /** No pooled nonce has been consumed by the chain. */
  ghost predicate Ahead(m: map<Key, Tx>, st: State) {
    forall k :: k in m ==> k.nonce >= Acct(st, k.sender).nonce
  }

  ghost predicate PoolOk(n: Net, m: map<Key, Tx>, ids: set<H256>) {
    && |m| <= MAX_POOL
    && (forall k :: k in m ==> k == KeyOf(n, m[k]) && WellFormed(n, m[k]))
    && IdsOf(n, m, ids)
    && UniqueIds(n, m)
  }

  /** `ids` is the set of the pooled ids. */
  ghost predicate IdsOf(n: Net, m: map<Key, Tx>, ids: set<H256>) {
    && (forall k :: k in m ==> TxId(n, m[k]) in ids)
    && (forall id :: id in ids ==> exists k :: k in m && TxId(n, m[k]) == id)
  }

  ghost predicate InPool(n: Net, m: map<Key, Tx>, id: H256) {
    exists k :: k in m && TxId(n, m[k]) == id
  }

  ghost predicate UniqueIds(n: Net, m: map<Key, Tx>) {
    forall k, l :: k in m && l in m && TxId(n, m[k]) == TxId(n, m[l]) ==> k == l
  }

  function AddVerdict(n: Net, m: map<Key, Tx>, ids: set<H256>, t: Tx, st: State): PoolVerdict {
    var acct := Acct(st, n.addrOf(t.from));
    if t.kind == TX_COINBASE then CoinbaseNotAllowed
    else if t.netId != n.netId then PoolVerdict.WrongNetwork
    else if |m| >= MAX_POOL then Full
    else if TxId(n, t) in ids then AlreadyPooled
    else if IsZero(t.from) then NoSender
    else if !n.verify(t.from, SignHash(n, t), t.sig) then Unsigned
    else if t.nonce < acct.nonce then NonceUsed
    else if t.nonce > (acct.nonce + MAX_AHEAD) % U64 then NonceTooFar
    else if t.kind == TX_TRANSFER && t.nonce == acct.nonce && acct.balance < t.amount then CannotPay
    else if t.kind == TX_TRANSFER && t.payload != [] then PayloadNotAllowed
    else if t.kind == TX_RECORD && t.amount != 0 then AmountNotZero
    else if t.kind == TX_RECORD && (t.payload == [] || |t.payload| > MAX_PAYLOAD) then PayloadSize
    else if t.kind != TX_TRANSFER && t.kind != TX_RECORD then Unknown
    else if KeyOf(n, t) in m then Conflict
    else Added
  }

  /** Exactly what the pool lets in: with room, a new id and a free key, whatever its sender
      has signed for this network, with a nonce from the sender's current one up to 16 ahead,
      be it a record or a transfer - which must be covered if it is next in turn. */
  lemma {:induction false} AddsExactly(n: Net, m: map<Key, Tx>, ids: set<H256>, t: Tx, st: State)
    ensures var acct := Acct(st, n.addrOf(t.from));
            AddVerdict(n, m, ids, t, st).Added? <==>
            && |m| < 10000 && TxId(n, t) !in ids && Key(n.addrOf(t.from), t.nonce) !in m
            && t.netId == n.netId && t.from != Zeros(64) && n.verify(t.from, n.hash(UnsignedTx(t)), t.sig)
            && acct.nonce <= t.nonce <= (acct.nonce + 16) % U64
            && ((t.kind == 1 && t.payload == [] && (t.nonce == acct.nonce ==> t.amount <= acct.balance))
                || (t.kind == 2 && t.amount == 0 && 1 <= |t.payload| <= 1024))
  {
    hide UnsignedTx, Acct, TxId;
  }

  /** Admission agrees with the ledger: what the next block could hold is let in, as long as
      there is room and no nonce wraps, and what is let in with the sender's current nonce
      the next block could hold. */
  lemma {:induction false} AddsApplicable(n: Net, m: map<Key, Tx>, ids: set<H256>, t: Tx, st: State, height: u64)
    requires |m| < 10000 && TxId(n, t) !in ids && KeyOf(n, t) !in m
    requires Acct(st, n.addrOf(t.from)).nonce + 16 < U64
    ensures Verdict(n, st, t, height, false).Good? <==>
            AddVerdict(n, m, ids, t, st).Added? && t.nonce == Acct(st, n.addrOf(t.from)).nonce
  {
    hide UnsignedTx, Acct, TxId, AddVerdict, Verdict;
    AddsExactly(n, m, ids, t, st);
    AppliesExactly(n, st, t, height, false);
  }

  /** Whatever reason is given for turning a transaction away is true of it. */
  lemma {:induction false} TurnedAwayFor(n: Net, m: map<Key, Tx>, ids: set<H256>, t: Tx, st: State)
    ensures var acct := Acct(st, n.addrOf(t.from));
            match AddVerdict(n, m, ids, t, st)
            case Added => true
            case CoinbaseNotAllowed => t.kind == 0
            case WrongNetwork => t.netId != n.netId
            case Full => |m| >= 10000
            case AlreadyPooled => TxId(n, t) in ids
            case NoSender => t.from == Zeros(64)
            case Unsigned => !n.verify(t.from, n.hash(UnsignedTx(t)), t.sig)
            case NonceUsed => t.nonce < acct.nonce
            case NonceTooFar => t.nonce > (acct.nonce + 16) % U64
            case CannotPay => t.kind == 1 && t.nonce == acct.nonce && acct.balance < t.amount
            case PayloadNotAllowed => t.kind == 1 && t.payload != []
            case AmountNotZero => t.kind == 2 && t.amount != 0
            case PayloadSize => t.kind == 2 && !(1 <= |t.payload| <= 1024)
            case Unknown => t.kind > 2
            case Conflict => Key(n.addrOf(t.from), t.nonce) in m
  {
    hide UnsignedTx, Acct, TxId;
  }

  /** The sender's nonce, zero for an account not yet there. */
  method NonceOf(st: State, a: Addr20) returns (nonce: u64)
    ensures nonce == Acct(st, a).nonce
  {
    nonce := if a in st then st[a].nonce else 0;
  }

  class Mempool {
    const n: Net
    var m: map<Key, Tx>
    var ids: set<H256>

    ghost predicate Valid()
      reads this
    {
      PoolOk(n, m, ids)
    }

    constructor (net: Net)
      ensures n == net && m == map[] && ids == {} && Valid()
    {
      n, m, ids := net, map[], {};
    }

    method Has(id: H256) returns (b: bool)
      requires Valid()
      ensures b <==> InPool(n, m, id)
    {
      hide TxId, WellFormed;
      b := id in ids;
    }

    method Add(t: Tx, st: State) returns (v: PoolVerdict)
      requires Valid()
      modifies this
      ensures Valid()
      ensures v == AddVerdict(n, old(m), old(ids), t, st)
      ensures m == if v.Added? then old(m)[KeyOf(n, t) := t] else old(m)
      ensures v.Added? ==> KeyOf(n, t) !in old(m)
      ensures old(Ahead(m, st)) ==> Ahead(m, st)
    {
      hide SignHash, IsZero, TxId, PoolOk, Ahead;
      if t.kind == TX_COINBASE { return CoinbaseNotAllowed; }
      if t.netId != n.netId { return PoolVerdict.WrongNetwork; }
      if |m| >= MAX_POOL { return Full; }
      var id := HashTx(n, t);
      if id in ids { return AlreadyPooled; }
      if IsZero(t.from) { return NoSender; }
      if !n.verify(t.from, SignHash(n, t), t.sig) { return Unsigned; }
      var a := n.addrOf(t.from);
      var cur := NonceOf(st, a);
      if t.nonce < cur { return NonceUsed; }
      if t.nonce > (cur + MAX_AHEAD) % U64 { return NonceTooFar; }
      if t.kind == TX_TRANSFER {
        var bal := if a in st then st[a].balance else 0;
        if t.nonce == cur && bal < t.amount { return CannotPay; }
        if t.payload != [] { return PayloadNotAllowed; }
      } else if t.kind == TX_RECORD {
        if t.amount != 0 { return AmountNotZero; }
        if t.payload == [] || |t.payload| > MAX_PAYLOAD { return PayloadSize; }
      } else {
        return Unknown;
      }
      var key := Key(a, t.nonce);
      if key in m { return Conflict; }
      PoolGrows(n, m, ids, t);
      AheadGrows(n, m, t, st);
      m := m[key := t];
      ids := ids + {id};
      v := Added;
    }

    /** The keys in iteration order; nothing below depends on which order that is. */
    method Keys() returns (ks: seq<Key>)
      ensures forall k :: k in ks <==> k in m
      ensures |ks| == |m|
    {
      ks := [];
      var left := m.Keys;
      while left != {}
        invariant left <= m.Keys && |ks| + |left| == |m|
        invariant forall k :: k in ks <==> k in m && k !in left
        decreases left
      {
        var k :| k in left;
        left := left - {k};
        ks := ks + [k];
      }
    }

    /** Drop what the chain has already consumed. */
    method Purge(st: State)
      requires Valid()
      modifies this
      ensures Valid() && Ahead(m, st)
      ensures m == Remaining(old(m), st)
    {
      hide TxId, WellFormed, PoolOk, Acct;
      var ks := Keys();
      ghost var m0 := m;
      for i := 0 to |ks|
        invariant Valid()
        invariant forall k :: k in m ==> k in m0 && m[k] == m0[k]
        invariant forall k :: k in m0 && k.nonce >= Acct(st, k.sender).nonce ==> k in m
        invariant forall j :: 0 <= j < i && ks[j] in m ==> ks[j].nonce >= Acct(st, ks[j].sender).nonce
      {
        var k := ks[i];
        var cur := NonceOf(st, k.sender);
        if k in m && k.nonce < cur {
          PoolShrinks(n, m, ids, k);
          var id := HashTx(n, m[k]);
          ids := ids - {id};
          m := m - {k};
        }
      }
      forall k | k in m
        ensures k.nonce >= Acct(st, k.sender).nonce
      {
        var i :| 0 <= i < |ks| && ks[i] == k;
      }
    }

    /** Pick transactions in an order in which each is applicable, until `maxn` are picked
        or none is left that is.  The height only matters to coinbases. */
    method Collect(base: State, height: u64, maxn: nat) returns (out: seq<Tx>)
      requires Valid() && NoncesFit(base, |m|)
      ensures RunOk(n, base, out, height, false)
      ensures |out| <= maxn && |out| <= |m|
      ensures FromPool(n, out, m)
      ensures |out| < maxn ==>
                Exhausted(n, m, StateAfter(n, base, out), height)
    {
      hide Verdict, Effect, TxId, WellFormed, NoncesFit, Picked, Exhausted, PoolOk;
      out := [];
      var tmp := new Accounts(base);
      var ks := Keys();
      var progress := true;
      ghost var used: set<Key> := {};
      NothingPicked(n, base, m, height);
      while progress && |out| < maxn
        invariant Picked(n, base, out, used, m, tmp.m, height) && |out| <= maxn && |out| <= |m|
        invariant !progress ==> Exhausted(n, m, tmp.m, height)
        decreases |m| - |out|, progress
      {
        out, used, progress := Pass(base, height, maxn, ks, tmp, out, used);
        PickedSize(n, base, out, used, m, tmp.m, height);
      }
      PickedSize(n, base, out, used, m, tmp.m, height);
      if |out| < maxn {
        StillExhausted(n, base, out, used, m, tmp.m, height);
      }
    }

    /** One walk over the pool. */
    method Pass(base: State, height: u64, maxn: nat, ks: seq<Key>, tmp: Accounts, out0: seq<Tx>, ghost used0: set<Key>)
      returns (out: seq<Tx>, ghost used: set<Key>, progress: bool)
      requires Valid() && NoncesFit(base, |m|) && |out0| < maxn
      requires Picked(n, base, out0, used0, m, tmp.m, height)
      requires forall k :: k in ks <==> k in m
      modifies tmp
      ensures Picked(n, base, out, used, m, tmp.m, height) && |out0| <= |out| <= maxn
      ensures progress ==> |out0| < |out|
      ensures !progress ==> out == out0 && Exhausted(n, m, tmp.m, height)
    {
      hide Verdict, Effect, TxId, WellFormed, NoncesFit, Picked, Exhausted, Unfit, SameAccounts;
      out, used, progress := out0, used0, false;
      NothingUnfit(n, tmp.m, m, height);
      assert ks[..0] == [];
      var i := 0;
      while i < |ks|
        invariant 0 <= i <= |ks|
        invariant Picked(n, base, out, used, m, tmp.m, height) && |out| < maxn
        invariant if progress then |out0| < |out| else out == out0
        invariant !progress ==> Unfit(n, tmp.m, m, ks[..i], height)
        decreases |ks| - i
      {
        var key, tx := ks[i], m[ks[i]];
        UnfitSnoc(n, tmp.m, m, ks, i, height);
        i := i + 1;
        WellFormedVerdict(n, tmp.m, tx, height);
        var cur := NonceOf(tmp.m, key.sender);
        if key.nonce != cur { continue; }
        ghost var was := tmp.m;
        var v := tmp.Apply(n, tx, height, false);
        if v.Good? {
          PickNext(n, base, out, used, m, was, height, key);
          out := out + [tx];
          used := used + {key};
          progress := true;
          if |out| >= maxn { return; }
        } else {
          PickFailed(n, base, out, used, m, was, tmp.m, height);
          if !progress {
            StillUnfit(n, was, tmp.m, m, ks[..i], height);
          }
        }
      }
      assert ks[..|ks|] == ks;
      if !progress {
        AllTried(n, m, tmp.m, height, ks);
      }
    }
  }

  function Remaining(m: map<Key, Tx>, st: State): map<Key, Tx> {
    map k | k in m && k.nonce >= Acct(st, k.sender).nonce :: m[k]
  }

  lemma {:induction false} AheadGrows(n: Net, m: map<Key, Tx>, t: Tx, st: State)
    requires t.nonce >= Acct(st, n.addrOf(t.from)).nonce
    ensures Ahead(m, st) ==> Ahead(m[KeyOf(n, t) := t], st)
  {
  }

  lemma {:induction false} PoolGrows(n: Net, m: map<Key, Tx>, ids: set<H256>, t: Tx)
    requires PoolOk(n, m, ids) && |m| < MAX_POOL && WellFormed(n, t)
    requires TxId(n, t) !in ids && KeyOf(n, t) !in m
    ensures PoolOk(n, m[KeyOf(n, t) := t], ids + {TxId(n, t)})
  {
    hide TxId, WellFormed, IdsOf, UniqueIds;
    IdsGrow(n, m, ids, t);
    UniqueGrows(n, m, ids, t);
  }

  lemma {:induction false} IdsGrow(n: Net, m: map<Key, Tx>, ids: set<H256>, t: Tx)
    requires IdsOf(n, m, ids) && KeyOf(n, t) !in m
    ensures IdsOf(n, m[KeyOf(n, t) := t], ids + {TxId(n, t)})
  {
    hide TxId;
    var m', ids' := m[KeyOf(n, t) := t], ids + {TxId(n, t)};
    forall id | id in ids'
      ensures exists k :: k in m' && TxId(n, m'[k]) == id
    {
      if id == TxId(n, t) {
        assert m'[KeyOf(n, t)] == t;
      } else {
        var k :| k in m && TxId(n, m[k]) == id;
        assert k in m' && TxId(n, m'[k]) == id;
      }
    }
  }

  lemma {:induction false} UniqueGrows(n: Net, m: map<Key, Tx>, ids: set<H256>, t: Tx)
    requires IdsOf(n, m, ids) && UniqueIds(n, m) && TxId(n, t) !in ids
    ensures UniqueIds(n, m[KeyOf(n, t) := t])
  {
    hide TxId;
  }

  lemma {:induction false} PoolShrinks(n: Net, m: map<Key, Tx>, ids: set<H256>, k: Key)
    requires PoolOk(n, m, ids) && k in m
    ensures PoolOk(n, m - {k}, ids - {TxId(n, m[k])})
  {
    hide TxId, WellFormed, IdsOf, UniqueIds;
    assert (m - {k}).Keys == m.Keys - {k};
    IdsShrink(n, m, ids, k);
    UniqueShrinks(n, m, k);
  }

  lemma {:induction false} IdsShrink(n: Net, m: map<Key, Tx>, ids: set<H256>, k: Key)
    requires IdsOf(n, m, ids) && UniqueIds(n, m) && k in m
    ensures IdsOf(n, m - {k}, ids - {TxId(n, m[k])})
  {
    hide TxId;
    var m', ids' := m - {k}, ids - {TxId(n, m[k])};
    forall id | id in ids'
      ensures exists l :: l in m' && TxId(n, m'[l]) == id
    {
      var l :| l in m && TxId(n, m[l]) == id;
      assert l in m' && TxId(n, m'[l]) == id;
    }
  }

  lemma {:induction false} UniqueShrinks(n: Net, m: map<Key, Tx>, k: Key)
    requires UniqueIds(n, m) && k in m
    ensures UniqueIds(n, m - {k})
  {
    hide TxId;
  }

  // ---------- scheduling ----------

  /** States that read the same: they may differ by zero accounts. */
  ghost predicate SameAccounts(x: State, y: State) {
    forall a: Addr20 :: Acct(x, a) == Acct(y, a)
  }

  /** No nonce can wrap within `k` more transactions. */
  ghost predicate NoncesFit(st: State, k: nat) {
    forall a: Addr20 :: Acct(st, a).nonce + k < U64
  }

  ghost predicate Exhausted(n: Net, m: map<Key, Tx>, st: State, height: u64) {
    forall k :: k in m ==> !Verdict(n, st, m[k], height, false).Good?
  }

  ghost predicate FromPool(n: Net, out: seq<Tx>, m: map<Key, Tx>) {
    forall t :: t in out ==> KeyOf(n, t) in m && m[KeyOf(n, t)] == t
  }

  /** The scheduler's state: `out` picked so far, under the keys `used`, leading to `st`. */
  ghost predicate Picked(n: Net, base: State, out: seq<Tx>, used: set<Key>, m: map<Key, Tx>, st: State, height: u64) {
    && RunOk(n, base, out, height, false)
    && SameAccounts(st, StateAfter(n, base, out))
    && FromPool(n, out, m)
    && used <= m.Keys && |used| == |out|
    && (forall k :: k in used ==> k.nonce < Acct(st, k.sender).nonce)
  }

  lemma {:induction false} SameVerdict(n: Net, x: State, y: State, t: Tx, height: u64)
    requires SameAccounts(x, y)
    ensures Verdict(n, x, t, height, false) == Verdict(n, y, t, height, false)
  {
    hide SignHash, IsZero;
    assert Acct(x, n.addrOf(t.from)) == Acct(y, n.addrOf(t.from));
  }

  lemma {:induction false} SameEffect(n: Net, x: State, y: State, t: Tx)
    requires SameAccounts(x, y)
    ensures SameAccounts(Effect(n, x, t), Effect(n, y, t))
  {
    hide SameAccounts, Credit, Debit, BumpNonce;
    var a := n.addrOf(t.from);
    SameUpdates(x, y, t.to, t.amount);
    SameUpdates(x, y, a, t.amount);
    SameUpdates(Debit(x, a, t.amount), Debit(y, a, t.amount), t.to, t.amount);
    SameUpdates(Credit(Debit(x, a, t.amount), t.to, t.amount), Credit(Debit(y, a, t.amount), t.to, t.amount), a, 0);
  }

  lemma {:induction false} SameUpdates(x: State, y: State, a: Addr20, amount: u64)
    requires SameAccounts(x, y)
    ensures SameAccounts(Credit(x, a, amount), Credit(y, a, amount))
    ensures SameAccounts(Debit(x, a, amount), Debit(y, a, amount))
    ensures SameAccounts(BumpNonce(x, a), BumpNonce(y, a))
  {
    assert Acct(x, a) == Acct(y, a);
    forall b: Addr20
      ensures Acct(Credit(x, a, amount), b) == Acct(Credit(y, a, amount), b)
      ensures Acct(Debit(x, a, amount), b) == Acct(Debit(y, a, amount), b)
      ensures Acct(BumpNonce(x, a), b) == Acct(BumpNonce(y, a), b)
    {
      assert Acct(x, b) == Acct(y, b);
    }
  }

  lemma {:induction false} NothingPicked(n: Net, base: State, m: map<Key, Tx>, height: u64)
    ensures Picked(n, base, [], {}, m, base, height)
  {
  }

  lemma {:induction false} PickedSize(n: Net, base: State, out: seq<Tx>, used: set<Key>, m: map<Key, Tx>, st: State,
      height: u64)
    requires Picked(n, base, out, used, m, st, height)
    ensures |out| <= |m|
    ensures RunOk(n, base, out, height, false) && FromPool(n, out, m)
  {
    hide RunOk, SameAccounts;
    SubsetSize(used, m.Keys);
  }

  lemma {:induction false} SubsetSize<T>(a: set<T>, b: set<T>)
    requires a <= b
    ensures |a| <= |b|
  {
    assert b == a + (b - a);
  }

  /** An applicable transaction of the pool is under a key not yet used, and consumes it. */
  lemma {:induction false} PickNext(n: Net, base: State, out: seq<Tx>, used: set<Key>, m: map<Key, Tx>, st: State,
      height: u64, key: Key)
    requires Picked(n, base, out, used, m, st, height) && NoncesFit(base, |m|)
    requires key in m && key == KeyOf(n, m[key]) && WellFormed(n, m[key])
    requires Verdict(n, st, m[key], height, false).Good?
    ensures Picked(n, base, out + [m[key]], used + {key}, m, Effect(n, st, m[key]), height)
  {
    hide RunOk, SameAccounts, Verdict, Effect, StateAfter, WellFormed, FromPool, NoncesFit;
    PickedRun(n, base, out, st, height, m[key]);
    FromPoolSnoc(n, out, m, key);
    GoodTx(n, st, m[key], height, false);
    PickedKeys(n, base, out, used, m, st, key);
  }

  lemma {:induction false} PickedRun(n: Net, base: State, out: seq<Tx>, st: State, height: u64, tx: Tx)
    requires RunOk(n, base, out, height, false) && SameAccounts(st, StateAfter(n, base, out))
    requires Verdict(n, st, tx, height, false).Good?
    ensures RunOk(n, base, out + [tx], height, false)
    ensures SameAccounts(Effect(n, st, tx), StateAfter(n, base, out + [tx]))
  {
    hide RunOk, SameAccounts, Verdict, Effect, StateAfter;
    SameVerdict(n, st, StateAfter(n, base, out), tx, height);
    assert (out + [tx])[..|out|] == out;
    RunOkSnoc(n, base, out + [tx], height, false);
    StateAfterSnoc(n, base, out, tx);
    SameEffect(n, st, StateAfter(n, base, out), tx);
  }

  lemma {:induction false} FromPoolSnoc(n: Net, out: seq<Tx>, m: map<Key, Tx>, key: Key)
    requires FromPool(n, out, m) && key in m && key == KeyOf(n, m[key])
    ensures FromPool(n, out + [m[key]], m)
  {
  }

  lemma {:induction false} PickedKeys(n: Net, base: State, out: seq<Tx>, used: set<Key>, m: map<Key, Tx>, st: State,
      key: Key)
    requires SameAccounts(st, StateAfter(n, base, out)) && NoncesFit(base, |m|)
    requires used <= m.Keys && |used| == |out|
    requires forall k :: k in used ==> k.nonce < Acct(st, k.sender).nonce
    requires key in m && key == KeyOf(n, m[key])
    requires m[key].kind != TX_COINBASE && key.nonce == Acct(st, key.sender).nonce
    ensures var used' := used + {key};
            && used' <= m.Keys && |used'| == |out| + 1
            && forall k :: k in used' ==> k.nonce < Acct(Effect(n, st, m[key]), k.sender).nonce
  {
    hide SameAccounts, Effect, StateAfter, NoncesFit;
    var used' := used + {key};
    assert key !in used;
    SubsetSize(used', m.Keys);
    forall k | k in used'
      ensures k.nonce < Acct(Effect(n, st, m[key]), k.sender).nonce
    {
      NonceStaysSmall(n, base, out, st, k.sender, |m|);
      EffectNonce(n, st, m[key], k.sender);
    }
  }

  lemma {:induction false} StateAfterSnoc(n: Net, base: State, out: seq<Tx>, t: Tx)
    ensures StateAfter(n, base, out + [t]) == Effect(n, StateAfter(n, base, out), t)
  {
    assert (out + [t])[..|out|] == out;
  }

  lemma {:induction false} NonceStaysSmall(n: Net, base: State, out: seq<Tx>, st: State, a: Addr20, size: nat)
    requires SameAccounts(st, StateAfter(n, base, out)) && NoncesFit(base, size) && |out| < size
    ensures Acct(st, a).nonce + 1 < U64
  {
    NonceCounts(n, base, out, a);
    CountFromBound(n, out, a);
    assert Acct(st, a) == Acct(StateAfter(n, base, out), a);
    assert Acct(base, a).nonce + size < U64;
  }

  /** A transaction that fails leaves every account reading as before. */
  lemma {:induction false} PickFailed(n: Net, base: State, out: seq<Tx>, used: set<Key>, m: map<Key, Tx>, st: State,
      st': State, height: u64)
    requires Picked(n, base, out, used, m, st, height)
    requires st' == st || exists a :: st' == st[a := Acct(st, a)]
    ensures Picked(n, base, out, used, m, st', height) && SameAccounts(st, st')
  {
    hide RunOk, StateAfter;
    forall b: Addr20
      ensures Acct(st', b) == Acct(st, b)
    {
    }
    assert forall b: Addr20 :: Acct(st, b) == Acct(StateAfter(n, base, out), b);
  }

  /** None of the pooled transactions under `ks` applies. */
  ghost predicate Unfit(n: Net, st: State, m: map<Key, Tx>, ks: seq<Key>, height: u64)
    requires forall k :: k in ks ==> k in m
  {
    forall k :: k in ks ==> !Verdict(n, st, m[k], height, false).Good?
  }

  lemma {:induction false} NothingUnfit(n: Net, st: State, m: map<Key, Tx>, height: u64)
    ensures Unfit(n, st, m, [], height)
  {
  }

  lemma {:induction false} UnfitSnoc(n: Net, st: State, m: map<Key, Tx>, ks: seq<Key>, i: nat, height: u64)
    requires i < |ks| && forall k :: k in ks ==> k in m
    ensures Unfit(n, st, m, ks[..i + 1], height) <==>
            Unfit(n, st, m, ks[..i], height) && !Verdict(n, st, m[ks[i]], height, false).Good?
  {
    hide Verdict;
    assert ks[..i + 1] == ks[..i] + [ks[i]];
  }

  lemma {:induction false} StillUnfit(n: Net, x: State, y: State, m: map<Key, Tx>, ks: seq<Key>, height: u64)
    requires SameAccounts(x, y) && forall k :: k in ks ==> k in m
    requires Unfit(n, x, m, ks, height)
    ensures Unfit(n, y, m, ks, height)
  {
    hide Verdict, SameAccounts;
    forall k | k in ks
      ensures !Verdict(n, y, m[k], height, false).Good?
    {
      SameVerdict(n, x, y, m[k], height);
    }
  }

  lemma {:induction false} AllTried(n: Net, m: map<Key, Tx>, st: State, height: u64, ks: seq<Key>)
    requires forall k :: k in ks <==> k in m
    requires Unfit(n, st, m, ks, height)
    ensures Exhausted(n, m, st, height)
  {
    hide Verdict;
  }

  lemma {:induction false} StillExhausted(n: Net, base: State, out: seq<Tx>, used: set<Key>, m: map<Key, Tx>,
      st: State, height: u64)
    requires Picked(n, base, out, used, m, st, height) && Exhausted(n, m, st, height)
    ensures Exhausted(n, m, StateAfter(n, base, out), height)
  {
    hide Verdict, RunOk, SameAccounts, StateAfter;
    forall k | k in m
      ensures !Verdict(n, StateAfter(n, base, out), m[k], height, false).Good?
    {
      SameVerdict(n, st, StateAfter(n, base, out), m[k], height);
    }
  }

  /** In any applicable run the transactions of one sender carry consecutive nonces,
      starting from the sender's nonce in the state. */
  lemma {:induction false} NoncesContiguous(n: Net, base: State, out: seq<Tx>, height: u64, i: nat)
    requires RunOk(n, base, out, height, false) && NoncesFit(base, |out|) && i < |out|
    ensures var a := n.addrOf(out[i].from);
            out[i].nonce == Acct(base, a).nonce + CountFrom(n, out[..i], a)
  {
    hide Verdict, StateAfter;
    var a := n.addrOf(out[i].from);
    assert Verdict(n, StateAfter(n, base, out[..i]), out[i], height, false).Good?;
    GoodTx(n, StateAfter(n, base, out[..i]), out[i], height, false);
    NonceCounts(n, base, out[..i], a);
    CountFromBound(n, out[..i], a);
    assert Acct(base, a).nonce + |out| < U64;
  }

  // ---------- the coinbase the scheduler never saw ----------

  function Coinbase(n: Net, payTo: Addr20, height: u64): Tx {
    Tx(TX_COINBASE, n.netId, Zeros(64), payTo, n.reward, height, [], Zeros(64))
  }

  lemma {:induction false} CoinbaseGood(n: Net, st: State, payTo: Addr20, height: u64)
    ensures Verdict(n, st, Coinbase(n, payTo, height), height, true).Good?
  {
  }

  lemma {:induction false} CoinbaseDominates(n: Net, st: State, payTo: Addr20, height: u64)
    requires Total(st) + n.reward < U64
    ensures var rich := Effect(n, st, Coinbase(n, payTo, height));
            Dominates(rich, st) && Total(rich) < U64
  {
    var cb := Coinbase(n, payTo, height);
    CoinbaseGood(n, st, payTo, height);
    EffectTotal(n, st, cb, height, true);
    TotalUpdate(st, payTo, Account(0, 0));
    var rich := Effect(n, st, cb);
    forall b: Addr20
      ensures Acct(rich, b).nonce == Acct(st, b).nonce && Acct(rich, b).balance >= Acct(st, b).balance
    {
      CreditAt(st, payTo, n.reward, b);
    }
  }

  /** `x` is `y` with `amount` more on account `a`, modulo 2^64. */
  ghost predicate Shifted(x: State, y: State, a: Addr20, amount: u64) {
    forall b: Addr20 ::
      Acct(x, b) == Account((Acct(y, b).balance + if a == b then amount else 0) % U64, Acct(y, b).nonce)
  }

  /** `t` is no transfer of `payTo`'s, or one that its balance covers once the reward has
      been added to it, modulo 2^64. */
  predicate StillCovered(n: Net, st: State, t: Tx, payTo: Addr20) {
    t.kind == TX_TRANSFER && n.addrOf(t.from) == payTo ==> t.amount <= (Acct(st, payTo).balance + n.reward) % U64
  }

  /** So it is with every transaction of a run. */
  ghost predicate AllCovered(n: Net, st: State, txs: seq<Tx>, payTo: Addr20) {
    forall i :: 0 <= i < |txs| ==> StillCovered(n, StateAfter(n, st, txs[..i]), txs[i], payTo)
  }

  lemma {:induction false} ShiftedVerdict(n: Net, x: State, y: State, t: Tx, payTo: Addr20, height: u64)
    requires Shifted(x, y, payTo, n.reward) && Verdict(n, y, t, height, false).Good?
    ensures Verdict(n, x, t, height, false).Good? <==> StillCovered(n, y, t, payTo)
  {
    hide SignHash, IsZero;
    var a := n.addrOf(t.from);
    assert Acct(x, a) == Account((Acct(y, a).balance + if payTo == a then n.reward else 0) % U64, Acct(y, a).nonce);
  }

  lemma {:induction false} ShiftMod(y: int, d: int, r: int)
    ensures ((y + r) % U64 + d) % U64 == ((y + d) % U64 + r) % U64
  {
    var p, q := (y + r) / U64, (y + d) / U64;
    assert (y + r) % U64 + d == y + r + d - p * U64;
    assert (y + d) % U64 + r == y + r + d - q * U64;
    SubMultiple(y + r + d, p);
    SubMultiple(y + r + d, q);
  }

  lemma {:induction false} ShiftedStep(n: Net, x: State, y: State, t: Tx, payTo: Addr20, height: u64)
    requires Shifted(x, y, payTo, n.reward)
    requires Verdict(n, y, t, height, false).Good? && Verdict(n, x, t, height, false).Good?
    ensures Shifted(Effect(n, x, t), Effect(n, y, t), payTo, n.reward)
  {
    hide Verdict, Effect, Out, In, SentBy;
    GoodMoves(n, x, t, height);
    GoodMoves(n, y, t, height);
    forall b: Addr20
      ensures Acct(Effect(n, x, t), b) ==
              Account((Acct(Effect(n, y, t), b).balance + if payTo == b then n.reward else 0) % U64,
                      Acct(Effect(n, y, t), b).nonce)
    {
      var r: nat := if payTo == b then n.reward else 0;
      assert Acct(x, b) == Account((Acct(y, b).balance + r) % U64, Acct(y, b).nonce);
      EffectMoves(n, x, t, b);
      EffectMoves(n, y, t, b);
      ShiftMod(Acct(y, b).balance, In(t, b) - Out(n, t, b), r);
    }
  }

  lemma {:induction false} GoodMoves(n: Net, st: State, t: Tx, height: u64)
    requires Verdict(n, st, t, height, false).Good?
    ensures t.kind == TX_TRANSFER ==> t.amount <= Acct(st, n.addrOf(t.from)).balance
  {
    hide SignHash, IsZero;
  }

  lemma {:induction false} CoveredLast(n: Net, st: State, txs: seq<Tx>, payTo: Addr20)
    requires txs != []
    ensures var k := |txs| - 1;
            AllCovered(n, st, txs, payTo) <==>
            AllCovered(n, st, txs[..k], payTo) && StillCovered(n, StateAfter(n, st, txs[..k]), txs[k], payTo)
  {
    hide StillCovered, StateAfter;
    var k := |txs| - 1;
    assert forall i :: 0 <= i < k ==> txs[..k][..i] == txs[..i] && txs[..k][i] == txs[i];
  }

  /** A run applies to the shifted state exactly when every transfer stays covered. */
  lemma {:induction false} ShiftedRun(n: Net, x: State, y: State, txs: seq<Tx>, payTo: Addr20, height: u64)
    requires Shifted(x, y, payTo, n.reward) && RunOk(n, y, txs, height, false)
    ensures RunOk(n, x, txs, height, false) <==> AllCovered(n, y, txs, payTo)
    ensures RunOk(n, x, txs, height, false) ==> Shifted(StateAfter(n, x, txs), StateAfter(n, y, txs), payTo, n.reward)
    decreases |txs|
  {
    hide Verdict, Effect, RunOk, Shifted, StillCovered, AllCovered;
    if txs == [] {
      RunOkNothing(n, x, height, false);
      NothingToCover(n, y, payTo);
    } else {
      var k := |txs| - 1;
      RunOkPrefix(n, y, txs, height, false, k);
      ShiftedRun(n, x, y, txs[..k], payTo, height);
      CoveredLast(n, y, txs, payTo);
      RunOkLast(n, y, txs, height, false);
      if RunOk(n, x, txs, height, false) {
        RunOkPrefix(n, x, txs, height, false, k);
        RunOkLast(n, x, txs, height, false);
        ShiftedVerdict(n, StateAfter(n, x, txs[..k]), StateAfter(n, y, txs[..k]), txs[k], payTo, height);
        ShiftedStep(n, StateAfter(n, x, txs[..k]), StateAfter(n, y, txs[..k]), txs[k], payTo, height);
      }
      if AllCovered(n, y, txs, payTo) {
        ShiftedVerdict(n, StateAfter(n, x, txs[..k]), StateAfter(n, y, txs[..k]), txs[k], payTo, height);
        RunOkSnoc(n, x, txs, height, false);
      }
    }
  }

  lemma {:induction false} NothingToCover(n: Net, st: State, payTo: Addr20)
    ensures AllCovered(n, st, [], payTo)
  {
  }

  lemma {:induction false} CoinbaseShifts(n: Net, st: State, payTo: Addr20, height: u64)
    ensures Shifted(Effect(n, st, Coinbase(n, payTo, height)), st, payTo, n.reward)
  {
    forall b: Addr20
      ensures Acct(Effect(n, st, Coinbase(n, payTo, height)), b) ==
              Account((Acct(st, b).balance + if payTo == b then n.reward else 0) % U64, Acct(st, b).nonce)
    {
      CreditAt(st, payTo, n.reward, b);
    }
  }

  /** A block body is its coinbase, then a run from the state the coinbase leaves. */
  lemma {:induction false} BehindCoinbase(n: Net, st: State, txs: seq<Tx>, payTo: Addr20, height: u64)
    ensures var cb := Coinbase(n, payTo, height);
            RunOk(n, st, [cb] + txs, height, true) <==> RunOk(n, Effect(n, st, cb), txs, height, false)
  {
    hide Verdict, Effect, StateAfter, Coinbase;
    var cb := Coinbase(n, payTo, height);
    var all := [cb] + txs;
    CoinbaseGood(n, st, payTo, height);
    EmptyRun(n, st);
    forall i | 0 <= i <= |txs|
      ensures StateAfter(n, st, all[..i + 1]) == StateAfter(n, Effect(n, st, cb), txs[..i])
    {
      assert all[..i + 1] == [cb] + txs[..i];
      StateAfterConcat(n, st, [cb], txs[..i]);
      StateAfterSnoc(n, st, [], cb);
      assert [] + [cb] == [cb];
    }
    assert all[..0] == [];
    if RunOk(n, st, all, height, true) {
      forall i | 0 <= i < |txs|
        ensures Verdict(n, StateAfter(n, Effect(n, st, cb), txs[..i]), txs[i], height, false).Good?
      {
        assert Verdict(n, StateAfter(n, st, all[..i + 1]), all[i + 1], height, false).Good?;
      }
    }
    if RunOk(n, Effect(n, st, cb), txs, height, false) {
      forall i | 0 <= i < |all|
        ensures Verdict(n, StateAfter(n, st, all[..i]), all[i], height, i == 0).Good?
      {
        if i > 0 {
          assert Verdict(n, StateAfter(n, Effect(n, st, cb), txs[..i - 1]), txs[i - 1], height, false).Good?;
          assert all[..(i - 1) + 1] == all[..i];
        }
      }
    }
  }

  /** Behind a coinbase the scheduler never saw, what it collected still applies exactly
      when each of the payee's own transfers is covered by the balance the scheduler saw
      plus the reward, as u64 adds them. */
  lemma {:induction false} CoinbaseThenRunExact(n: Net, st: State, txs: seq<Tx>, payTo: Addr20, height: u64)
    requires RunOk(n, st, txs, height, false)
    ensures RunOk(n, st, [Coinbase(n, payTo, height)] + txs, height, true) <==> AllCovered(n, st, txs, payTo)
  {
    hide RunOk, Shifted, AllCovered, Effect, Coinbase;
    var cb := Coinbase(n, payTo, height);
    BehindCoinbase(n, st, txs, payTo, height);
    CoinbaseShifts(n, st, payTo, height);
    ShiftedRun(n, Effect(n, st, cb), st, txs, payTo, height);
  }

  /** While the supply fits u64 every transfer stays covered: more money never hurts. */
  lemma {:induction false} SupplyCovers(n: Net, st: State, txs: seq<Tx>, payTo: Addr20, height: u64)
    requires RunOk(n, st, txs, height, false) && Total(st) + n.reward < U64
    ensures AllCovered(n, st, txs, payTo)
  {
    hide RunOk, Shifted, AllCovered, Effect, Coinbase, Dominates;
    var rich := Effect(n, st, Coinbase(n, payTo, height));
    CoinbaseDominates(n, st, payTo, height);
    DominatesRun(n, rich, st, txs, height);
    CoinbaseShifts(n, st, payTo, height);
    ShiftedRun(n, rich, st, txs, payTo, height);
  }

  /** A run collected while the supply fits u64, behind a coinbase, makes a valid block body. */
  lemma {:induction false} CoinbaseThenRun(n: Net, st: State, txs: seq<Tx>, payTo: Addr20, height: u64)
    requires RunOk(n, st, txs, height, false) && Total(st) + n.reward < U64
    ensures RunOk(n, st, [Coinbase(n, payTo, height)] + txs, height, true)
  {
    CoinbaseThenRunExact(n, st, txs, payTo, height);
    SupplyCovers(n, st, txs, payTo, height);
  }

  // ---------- a chain on which it fails ----------

  /** The first block after the genesis, holding just a coinbase. */
  function FirstBlock(n: Net, payTo: Addr20): Block {
    var cb := Coinbase(n, payTo, 1);
    Block(BlockHeader(CL_VERSION, n.netId, HeaderHash(n, Genesis(n).h), TxId(n, cb), 1, 0, n.bits, 0), [cb])
  }

  lemma {:induction false} FirstBlockExtends(n: Net, payTo: Addr20)
    requires n.bits == 0
    ensures ValidChain(n, [Genesis(n), FirstBlock(n, payTo)])
    ensures StateOf(n, [Genesis(n), FirstBlock(n, payTo)]) == map[payTo := Account(n.reward, 0)]
  {
    hide SerHeader, SerTx, Verdict;
    var g, b := Genesis(n), FirstBlock(n, payTo);
    var cb := Coinbase(n, payTo, 1);
    assert [g] + [b] == [g, b] && [] + [g] == [g];
    GenesisConnects(n, 0);
    CheckMeansExtends(n, [], g, 0);
    ValidChainSnoc(n, [], g);
    DerivedSnoc(n, [], g);
    EmptyRun(n, map[]);
    assert StateOf(n, [g]) == map[];
    assert TxIds(n, [cb]) == [TxId(n, cb)];
    CoinbaseGood(n, map[], payTo, 1);
    assert [cb][..0] == [];
    assert RunOk(n, map[], [cb], 1, true);
    ValidChainSnoc(n, [g], b);
    DerivedSnoc(n, [g], b);
    StateAfterSnoc(n, map[], [], cb);
    assert [] + [cb] == [cb];
  }

  /** A network whose parameters no command can set, and on which the bound is exceeded at
      once: with a reward of 2^63 the block after the first wraps its payee's balance to
      zero, and a transfer of the payee's that the scheduler picked no longer applies. */
  lemma {:induction false} WrappedCoinbaseStarves(n: Net, t: Tx)
    requires n.bits == 0 && n.reward == U64 / 2
    requires WellFormed(n, t) && t.kind == TX_TRANSFER && t.nonce == 0 && 0 < t.amount <= n.reward
    ensures var a := n.addrOf(t.from);
            var blocks := [Genesis(n), FirstBlock(n, a)];
            && ValidChain(n, blocks)
            && RunOk(n, StateOf(n, blocks), [t], 2, false)
            && !RunOk(n, StateOf(n, blocks), [Coinbase(n, a, 2)] + [t], 2, true)
  {
    hide SignHash, IsZero, Verdict, ValidChain, StateOf, FirstBlock, Genesis, WellFormed;
    var a := n.addrOf(t.from);
    var st := StateOf(n, [Genesis(n), FirstBlock(n, a)]);
    FirstBlockExtends(n, a);
    WellFormedVerdict(n, st, t, 2);
    EmptyRun(n, st);
    assert [t][..0] == [];
    assert RunOk(n, st, [t], 2, false);
    assert !StillCovered(n, StateAfter(n, st, [t][..0]), [t][0], a);
    CoinbaseThenRunExact(n, st, [t], a, 2);
  }
}
