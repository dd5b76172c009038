/** Account state and transaction application (src/core.h:153-187). */
module Ledger {
  import opened Basics
  import opened Codec

  datatype Account = Account(balance: u64, nonce: u64)
  type State = map<Addr20, Account>

  /** An absent account reads as zero. */
  function Acct(st: State, a: Addr20): Account {
    if a in st then st[a] else Account(0, 0)
  }

  datatype TxVerdict =
    | Good
    | WrongNetworkId
    | CoinbaseNotFirst
    | CoinbaseSigned
    | CoinbasePayload
    | BadCoinbaseAmount
    | BadCoinbaseNonce
    | FirstNotCoinbase
    | MissingSender
    | BadSignature
    | BadNonce
    | TransferPayload
    | InsufficientBalance
    | RecordAmount
    | BadPayloadSize
    | UnknownType

  /** The first rule `t` breaks in state `st`. */
  function Verdict(n: Net, st: State, t: Tx, height: u64, isFirst: bool): TxVerdict {
    if t.netId != n.netId then WrongNetworkId
    else if t.kind == TX_COINBASE then
      if !isFirst then CoinbaseNotFirst
      else if !IsZero(t.from) || !IsZero(t.sig) then CoinbaseSigned
      else if t.payload != [] then CoinbasePayload
      else if t.amount != n.reward then BadCoinbaseAmount
      else if t.nonce != height then BadCoinbaseNonce
      else Good
    else if isFirst then FirstNotCoinbase
    else if IsZero(t.from) then MissingSender
    else if !n.verify(t.from, SignHash(n, t), t.sig) then BadSignature
    else if t.nonce != Acct(st, n.addrOf(t.from)).nonce then BadNonce
    else if t.kind == TX_TRANSFER then
      if t.payload != [] then TransferPayload
      else if Acct(st, n.addrOf(t.from)).balance < t.amount then InsufficientBalance
      else Good
    else if t.kind == TX_RECORD then
      if t.amount != 0 then RecordAmount
      else if t.payload == [] || |t.payload| > MAX_PAYLOAD then BadPayloadSize
      else Good
    else UnknownType
  }

  /** Exactly what is accepted: a coinbase of the reward in first place, signed by nobody and
      numbered by the height; behind it, what its sender has signed, with the sender's next
      nonce, be it a transfer the balance covers or a record of 1 to 1024 bytes. */
  lemma {:induction false} AppliesExactly(n: Net, st: State, t: Tx, height: u64, isFirst: bool)
    ensures Verdict(n, st, t, height, isFirst).Good? <==>
            && t.netId == n.netId
            && if isFirst then
                 && t.kind == 0 && t.from == Zeros(64) && t.sig == Zeros(64) && t.payload == []
                 && t.amount == n.reward && t.nonce == height
               else
                 && t.from != Zeros(64) && n.verify(t.from, n.hash(UnsignedTx(t)), t.sig)
                 && t.nonce == Acct(st, n.addrOf(t.from)).nonce
                 && ((t.kind == 1 && t.payload == [] && t.amount <= Acct(st, n.addrOf(t.from)).balance)
                     || (t.kind == 2 && t.amount == 0 && 1 <= |t.payload| <= 1024))
  {
    hide UnsignedTx, Acct;
  }

  /** Whatever reason is given for a refusal is true of the transaction. */
  lemma {:induction false} ReasonIsTrue(n: Net, st: State, t: Tx, height: u64, isFirst: bool)
    ensures var acct := Acct(st, n.addrOf(t.from));
            match Verdict(n, st, t, height, isFirst)
            case Good => true
            case WrongNetworkId => t.netId != n.netId
            case CoinbaseNotFirst => t.kind == 0 && !isFirst
            case CoinbaseSigned => t.kind == 0 && (t.from != Zeros(64) || t.sig != Zeros(64))
            case CoinbasePayload => t.kind == 0 && t.payload != []
            case BadCoinbaseAmount => t.kind == 0 && t.amount != n.reward
            case BadCoinbaseNonce => t.kind == 0 && t.nonce != height
            case FirstNotCoinbase => t.kind != 0 && isFirst
            case MissingSender => t.kind != 0 && t.from == Zeros(64)
            case BadSignature => t.kind != 0 && !n.verify(t.from, n.hash(UnsignedTx(t)), t.sig)
            case BadNonce => t.kind != 0 && t.nonce != acct.nonce
            case TransferPayload => t.kind == 1 && t.payload != []
            case InsufficientBalance => t.kind == 1 && acct.balance < t.amount
            case RecordAmount => t.kind == 2 && t.amount != 0
            case BadPayloadSize => t.kind == 2 && !(1 <= |t.payload| <= 1024)
            case UnknownType => t.kind > 2
  {
    hide UnsignedTx, Acct;
  }

  function Credit(st: State, a: Addr20, amount: u64): State {
    st[a := Acct(st, a).(balance := (Acct(st, a).balance + amount) % U64)]
  }

  function Debit(st: State, a: Addr20, amount: u64): State {
    st[a := Acct(st, a).(balance := (Acct(st, a).balance - amount) % U64)]
  }

  function BumpNonce(st: State, a: Addr20): State {
    st[a := Acct(st, a).(nonce := (Acct(st, a).nonce + 1) % U64)]
  }

  /** The state after an applicable transaction. */
  function Effect(n: Net, st: State, t: Tx): State {
    if t.kind == TX_COINBASE then Credit(st, t.to, t.amount)
    else
      var a := n.addrOf(t.from);
      BumpNonce(if t.kind == TX_TRANSFER then Credit(Debit(st, a, t.amount), t.to, t.amount) else st, a)
  }

  /** The state as it is handed from rule to rule: one map, updated in place. */
  class Accounts {
    var m: State

    constructor (st: State)
      ensures m == st
    {
      m := st;
    }

    method Touch(a: Addr20)
      modifies this
      ensures m == old(m)[a := Acct(old(m), a)] && m[a] == Acct(old(m), a)
    {
      if a !in m {
        m := m[a := Account(0, 0)];
      }
    }

    /** Raise a balance, creating the account if need be; u64 addition wraps. */
    method Pay(a: Addr20, amount: u64)
      modifies this
      ensures m == Credit(old(m), a, amount) && old(m).Keys <= m.Keys
    {
      Touch(a);
      m := m[a := m[a].(balance := (m[a].balance + amount) % U64)];
    }

    /** A transaction rejected after its sender was looked up leaves a zero account of an
        unknown sender behind; any other rejection changes nothing. */
    method Apply(n: Net, t: Tx, height: u64, isFirst: bool) returns (v: TxVerdict)
      modifies this
      ensures v == Verdict(n, old(m), t, height, isFirst)
      ensures v.Good? ==> m == Effect(n, old(m), t)
      ensures !v.Good? ==>
                var a := n.addrOf(t.from);
                m == if v.BadNonce? || v.TransferPayload? || v.InsufficientBalance? || v.RecordAmount?
                        || v.BadPayloadSize? || v.UnknownType?
                     then old(m)[a := Acct(old(m), a)] else old(m)
    {
      hide SignHash, IsZero, Credit;
      if t.netId != n.netId { return WrongNetworkId; }
      if t.kind == TX_COINBASE {
        if !isFirst { return CoinbaseNotFirst; }
        if !IsZero(t.from) || !IsZero(t.sig) { return CoinbaseSigned; }
        if t.payload != [] { return CoinbasePayload; }
        if t.amount != n.reward { return BadCoinbaseAmount; }
        if t.nonce != height { return BadCoinbaseNonce; }
        Pay(t.to, t.amount);
        return Good;
      }
      if isFirst { return FirstNotCoinbase; }
      if IsZero(t.from) { return MissingSender; }
      if !n.verify(t.from, SignHash(n, t), t.sig) { return BadSignature; }
      var a := n.addrOf(t.from);
      Touch(a);
      if t.nonce != m[a].nonce { return BadNonce; }
      if t.kind == TX_TRANSFER {
        if t.payload != [] { return TransferPayload; }
        if m[a].balance < t.amount { return InsufficientBalance; }
        m := m[a := m[a].(balance := m[a].balance - t.amount)];
        assert m == Debit(old(m), a, t.amount);
        Pay(t.to, t.amount);
      } else if t.kind == TX_RECORD {
        if t.amount != 0 { return RecordAmount; }
        if t.payload == [] || |t.payload| > MAX_PAYLOAD { return BadPayloadSize; }
      } else {
        return UnknownType;
      }
      m := m[a := m[a].(nonce := (m[a].nonce + 1) % U64)];
      v := Good;
    }
  }

  // ---------- runs of transactions ----------

  function StateAfter(n: Net, st: State, txs: seq<Tx>): State
    decreases |txs|
  {
    if txs == [] then st else Effect(n, StateAfter(n, st, txs[..|txs| - 1]), txs[|txs| - 1])
  }

  /** Every transaction is applicable when its turn comes.  `block` says whether the run is
      a block, whose first transaction must be the coinbase. */
  ghost predicate RunOk(n: Net, st: State, txs: seq<Tx>, height: u64, block: bool) {
    forall i :: 0 <= i < |txs| ==> Verdict(n, StateAfter(n, st, txs[..i]), txs[i], height, block && i == 0).Good?
  }

  lemma {:induction false} StateAfterConcat(n: Net, st: State, a: seq<Tx>, b: seq<Tx>)
    ensures StateAfter(n, st, a + b) == StateAfter(n, StateAfter(n, st, a), b)
    decreases |b|
  {
    if b == [] {
      assert a + b == a;
    } else {
      assert (a + b)[..|a + b| - 1] == a + b[..|b| - 1];
      StateAfterConcat(n, st, a, b[..|b| - 1]);
    }
  }

  /** What leaves and what enters account `b`. */
  function Out(n: Net, t: Tx, b: Addr20): nat {
    if t.kind == TX_TRANSFER && n.addrOf(t.from) == b then t.amount else 0
  }

  function In(t: Tx, b: Addr20): nat {
    if (t.kind == TX_TRANSFER || t.kind == TX_COINBASE) && t.to == b then t.amount else 0
  }

  /** What a transaction moves, sender and recipient possibly being the same account. */
  lemma {:induction false} EffectMoves(n: Net, st: State, t: Tx, b: Addr20)
    requires t.kind == TX_TRANSFER ==> t.amount <= Acct(st, n.addrOf(t.from)).balance
    ensures Acct(Effect(n, st, t), b).balance == (Acct(st, b).balance - Out(n, t, b) + In(t, b)) % U64
    ensures Acct(Effect(n, st, t), b).nonce == (Acct(st, b).nonce + if SentBy(n, t, b) then 1 else 0) % U64
  {
    hide Credit, Debit, BumpNonce;
    var a := n.addrOf(t.from);
    if t.kind == TX_COINBASE {
      CreditAt(st, t.to, t.amount, b);
    } else if t.kind == TX_TRANSFER {
      DebitAt(st, a, t.amount, b);
      CreditAt(Debit(st, a, t.amount), t.to, t.amount, b);
      BumpAt(Credit(Debit(st, a, t.amount), t.to, t.amount), a, b);
    } else {
      BumpAt(st, a, b);
    }
  }

  lemma {:induction false} CreditAt(st: State, a: Addr20, amount: u64, b: Addr20)
    ensures Acct(Credit(st, a, amount), b) ==
            Account((Acct(st, b).balance + if a == b then amount else 0) % U64, Acct(st, b).nonce)
  {
  }

  lemma {:induction false} DebitAt(st: State, a: Addr20, amount: u64, b: Addr20)
    requires amount <= Acct(st, a).balance
    ensures Acct(Debit(st, a, amount), b) ==
            Account(Acct(st, b).balance - if a == b then amount else 0, Acct(st, b).nonce)
  {
  }

  lemma {:induction false} BumpAt(st: State, a: Addr20, b: Addr20)
    ensures Acct(BumpNonce(st, a), b) ==
            Account(Acct(st, b).balance, (Acct(st, b).nonce + if a == b then 1 else 0) % U64)
  {
  }

  // ---------- replay protection ----------

  predicate SentBy(n: Net, t: Tx, a: Addr20) {
    t.kind != TX_COINBASE && n.addrOf(t.from) == a
  }

  function CountFrom(n: Net, txs: seq<Tx>, a: Addr20): nat
    decreases |txs|
  {
    if txs == [] then 0
    else CountFrom(n, txs[..|txs| - 1], a) + if SentBy(n, txs[|txs| - 1], a) then 1 else 0
  }

  lemma {:induction false} CountFromConcat(n: Net, x: seq<Tx>, y: seq<Tx>, a: Addr20)
    ensures CountFrom(n, x + y, a) == CountFrom(n, x, a) + CountFrom(n, y, a)
    decreases |y|
  {
    if y == [] {
      assert x + y == x;
    } else {
      assert (x + y)[..|x + y| - 1] == x + y[..|y| - 1];
      CountFromConcat(n, x, y[..|y| - 1], a);
    }
  }

  lemma {:induction false} CountFromBound(n: Net, txs: seq<Tx>, a: Addr20)
    ensures CountFrom(n, txs, a) <= |txs|
    decreases |txs|
  {
    if txs != [] {
      CountFromBound(n, txs[..|txs| - 1], a);
    }
  }

  /** An account's nonce counts the transactions it has sent (modulo 2^64, as u64 does). */
  lemma {:induction false} NonceCounts(n: Net, st: State, txs: seq<Tx>, a: Addr20)
    ensures Acct(StateAfter(n, st, txs), a).nonce == (Acct(st, a).nonce + CountFrom(n, txs, a)) % U64
    decreases |txs|
  {
    hide Effect;
    if txs != [] {
      var front := txs[..|txs| - 1];
      NonceCounts(n, st, front, a);
      EffectNonce(n, StateAfter(n, st, front), txs[|txs| - 1], a);
    }
  }

  lemma {:induction false} EffectNonce(n: Net, st: State, t: Tx, a: Addr20)
    ensures Acct(Effect(n, st, t), a).nonce == (Acct(st, a).nonce + if SentBy(n, t, a) then 1 else 0) % U64
  {
  }

  // ---------- conservation ----------

  ghost function Total(st: State): nat {
    if st == map[] then 0
    else
      var a :| a in st;
      st[a].balance + Total(st - {a})
  }

  lemma {:induction false} TotalSplit(st: State, a: Addr20)
    requires a in st
    ensures Total(st) == st[a].balance + Total(st - {a})
    decreases |st|
  {
    var b :| b in st && Total(st) == st[b].balance + Total(st - {b});
    if a != b {
      var s := st - {b};
      assert |s| < |st| by {
        assert s.Keys == st.Keys - {b};
      }
      TotalSplit(s, a);
      var r := st - {a};
      assert r - {b} == s - {a};
      assert |r| < |st| by {
        assert r.Keys == st.Keys - {a};
      }
      TotalSplit(r, b);
    }
  }

  lemma {:induction false} TotalUpdate(st: State, a: Addr20, acct: Account)
    ensures Total(st[a := acct]) == Total(st) - Acct(st, a).balance + acct.balance
    ensures Acct(st, a).balance <= Total(st)
  {
    var s := st[a := acct];
    TotalSplit(s, a);
    if a in st {
      TotalSplit(st, a);
      assert s - {a} == st - {a};
    } else {
      assert s - {a} == st;
    }
  }

  /** What a transaction adds to the money supply. */
  function Minted(t: Tx): nat {
    if t.kind == TX_COINBASE then t.amount else 0
  }

  /** Crediting `t`'s recipient exceeds what its balance can hold. */
  predicate Overflows(n: Net, st: State, t: Tx) {
    if t.kind == TX_COINBASE then Acct(st, t.to).balance + t.amount >= U64
    else t.kind == TX_TRANSFER && Acct(Debit(st, n.addrOf(t.from), t.amount), t.to).balance + t.amount >= U64
  }

  /** Applying a transaction changes the supply by what it mints, less 2^64 exactly when the
      credited balance overflows - which takes a supply that has outgrown u64. */
  lemma {:induction false} EffectTotal(n: Net, st: State, t: Tx, height: u64, isFirst: bool)
    requires Verdict(n, st, t, height, isFirst).Good?
    ensures var x := Total(st) + Minted(t);
            Total(Effect(n, st, t)) == if Overflows(n, st, t) then x - U64 else x
    ensures Overflows(n, st, t) ==> Total(st) + Minted(t) >= U64
  {
    hide SignHash, IsZero, Total, BumpNonce, Credit;
    if t.kind == TX_COINBASE {
      CreditTotal(st, t.to, t.amount);
    } else {
      var a := n.addrOf(t.from);
      if t.kind == TX_TRANSFER {
        TotalUpdate(st, a, Debit(st, a, t.amount)[a]);
        CreditTotal(Debit(st, a, t.amount), t.to, t.amount);
        BumpTotal(Credit(Debit(st, a, t.amount), t.to, t.amount), a);
      } else {
        BumpTotal(st, a);
      }
    }
  }

  lemma {:induction false} BumpTotal(st: State, a: Addr20)
    ensures Total(BumpNonce(st, a)) == Total(st)
  {
    TotalUpdate(st, a, BumpNonce(st, a)[a]);
  }

  lemma {:induction false} CreditTotal(st: State, a: Addr20, amount: u64)
    ensures Total(Credit(st, a, amount)) ==
            Total(st) + amount - if Acct(st, a).balance + amount >= U64 then U64 else 0
    ensures Acct(st, a).balance <= Total(st)
  {
    TotalUpdate(st, a, Credit(st, a, amount)[a]);
  }

  function MintedBy(txs: seq<Tx>): nat
    decreases |txs|
  {
    if txs == [] then 0 else MintedBy(txs[..|txs| - 1]) + Minted(txs[|txs| - 1])
  }

  lemma {:induction false} MintedByConcat(a: seq<Tx>, b: seq<Tx>)
    ensures MintedBy(a + b) == MintedBy(a) + MintedBy(b)
    decreases |b|
  {
    if b == [] {
      assert a + b == a;
    } else {
      assert (a + b)[..|a + b| - 1] == a + b[..|b| - 1];
      MintedByConcat(a, b[..|b| - 1]);
    }
  }

  lemma {:induction false} RunOkPrefix(n: Net, st: State, txs: seq<Tx>, height: u64, block: bool, k: nat)
    requires RunOk(n, st, txs, height, block) && k <= |txs|
    ensures RunOk(n, st, txs[..k], height, block)
  {
    hide Verdict, StateAfter;
    forall i | 0 <= i < k
      ensures Verdict(n, StateAfter(n, st, txs[..k][..i]), txs[..k][i], height, block && i == 0).Good?
    {
      assert txs[..k][..i] == txs[..i];
    }
  }

  lemma {:induction false} RunOkLast(n: Net, st: State, txs: seq<Tx>, height: u64, block: bool)
    requires RunOk(n, st, txs, height, block) && txs != []
    ensures var k := |txs| - 1;
            Verdict(n, StateAfter(n, st, txs[..k]), txs[k], height, block && k == 0).Good?
  {
  }

  /** How many transactions of a run overflow the balance they credit. */
  function Wraps(n: Net, st: State, txs: seq<Tx>): nat
    decreases |txs|
  {
    if txs == [] then 0
    else
      var k := |txs| - 1;
      Wraps(n, st, txs[..k]) + if Overflows(n, StateAfter(n, st, txs[..k]), txs[k]) then 1 else 0
  }

  lemma {:induction false} WrapsConcat(n: Net, st: State, a: seq<Tx>, b: seq<Tx>)
    ensures Wraps(n, st, a + b) == Wraps(n, st, a) + Wraps(n, StateAfter(n, st, a), b)
    decreases |b|
  {
    hide Overflows, StateAfter;
    if b == [] {
      assert a + b == a;
    } else {
      var k := |b| - 1;
      assert (a + b)[..|a + b| - 1] == a + b[..k] && (a + b)[|a + b| - 1] == b[k];
      WrapsConcat(n, st, a, b[..k]);
      StateAfterConcat(n, st, a, b[..k]);
    }
  }

  /** What a sum that has lost `w` times 2^64 says. */
  lemma {:induction false} LostWraps(total: nat, w: nat, minted: nat)
    requires total + w * U64 == minted
    ensures total % U64 == minted % U64
    ensures total == minted <==> w == 0
    ensures minted < U64 ==> w == 0
  {
    SubMultiple(minted, w);
    if w > 0 {
      assert w * U64 == (w - 1) * U64 + U64;
    }
  }

  /** Supply after a run: what there was and what was minted, less 2^64 for each overflow;
      so it is exact as long as it fits u64, and exact modulo 2^64 always. */
  lemma {:induction false} RunTotal(n: Net, st: State, txs: seq<Tx>, height: u64, block: bool)
    requires RunOk(n, st, txs, height, block)
    ensures Total(StateAfter(n, st, txs)) + Wraps(n, st, txs) * U64 == Total(st) + MintedBy(txs)
    ensures Total(StateAfter(n, st, txs)) % U64 == (Total(st) + MintedBy(txs)) % U64
    ensures Total(st) + MintedBy(txs) < U64 ==> Total(StateAfter(n, st, txs)) == Total(st) + MintedBy(txs)
    decreases |txs|
  {
    hide Verdict, Effect, RunOk, Minted, Total, Overflows;
    if txs != [] {
      var k := |txs| - 1;
      RunOkPrefix(n, st, txs, height, block, k);
      RunTotal(n, st, txs[..k], height, block);
      RunOkLast(n, st, txs, height, block);
      EffectTotal(n, StateAfter(n, st, txs[..k]), txs[k], height, block && k == 0);
    }
    LostWraps(Total(StateAfter(n, st, txs)), Wraps(n, st, txs), Total(st) + MintedBy(txs));
  }

  /** A block mints exactly its reward. */
  lemma {:induction false} BlockMints(n: Net, st: State, txs: seq<Tx>, height: u64)
    requires RunOk(n, st, txs, height, true)
    ensures MintedBy(txs) == if txs == [] then 0 else n.reward
    decreases |txs|
  {
    hide SignHash, IsZero, Effect;
    if txs != [] {
      var k := |txs| - 1;
      assert Verdict(n, StateAfter(n, st, txs[..k]), txs[k], height, k == 0).Good?;
      RunOkPrefix(n, st, txs, height, true, k);
      BlockMints(n, st, txs[..k], height);
    }
  }

  /** Without a transfer of its own, and without an overflow, an account loses nothing. */
  lemma {:induction false} NothingLost(n: Net, st: State, txs: seq<Tx>, height: u64, block: bool, a: Addr20)
    requires RunOk(n, st, txs, height, block) && Wraps(n, st, txs) == 0
    requires forall i :: 0 <= i < |txs| ==> !(txs[i].kind == TX_TRANSFER && n.addrOf(txs[i].from) == a)
    ensures Acct(StateAfter(n, st, txs), a).balance >= Acct(st, a).balance
    decreases |txs|
  {
    hide Verdict, Effect, RunOk, Overflows;
    if txs != [] {
      var k := |txs| - 1;
      RunOkPrefix(n, st, txs, height, block, k);
      NothingLost(n, st, txs[..k], height, block, a);
      RunOkLast(n, st, txs, height, block);
      StepGains(n, StateAfter(n, st, txs[..k]), txs[k], height, block && k == 0, a);
    }
  }

  lemma {:induction false} StepGains(n: Net, st: State, t: Tx, height: u64, isFirst: bool, a: Addr20)
    requires Verdict(n, st, t, height, isFirst).Good? && !Overflows(n, st, t)
    requires !(t.kind == TX_TRANSFER && n.addrOf(t.from) == a)
    ensures Acct(Effect(n, st, t), a).balance >= Acct(st, a).balance
  {
    hide Effect, Acct, Debit, UnsignedTx, Verdict;
    AppliesExactly(n, st, t, height, isFirst);
    EffectMoves(n, st, t, a);
    if t.kind == TX_TRANSFER {
      DebitAt(st, n.addrOf(t.from), t.amount, a);
    }
  }

  // ---------- more money never hurts ----------

  ghost predicate Dominates(rich: State, poor: State) {
    forall a: Addr20 :: Acct(rich, a).nonce == Acct(poor, a).nonce && Acct(rich, a).balance >= Acct(poor, a).balance
  }

  lemma {:induction false} TwoBalances(st: State, a: Addr20, b: Addr20)
    requires a != b
    ensures Acct(st, a).balance + Acct(st, b).balance <= Total(st)
  {
    TotalUpdate(st, a, Account(0, 0));
    TotalUpdate(st[a := Account(0, 0)], b, Account(0, 0));
  }

  lemma {:induction false} DominatesVerdict(n: Net, rich: State, poor: State, t: Tx, height: u64)
    requires Dominates(rich, poor) && Verdict(n, poor, t, height, false).Good?
    ensures Verdict(n, rich, t, height, false).Good?
    ensures t.kind != TX_COINBASE
    ensures t.kind == TX_TRANSFER ==> t.amount <= Acct(poor, n.addrOf(t.from)).balance
  {
    hide SignHash, IsZero;
    var a := n.addrOf(t.from);
    assert Acct(rich, a).nonce == Acct(poor, a).nonce && Acct(rich, a).balance >= Acct(poor, a).balance;
  }

  lemma {:induction false} DominatesStep(n: Net, rich: State, poor: State, t: Tx, height: u64)
    requires Dominates(rich, poor) && Verdict(n, poor, t, height, false).Good?
    requires Total(rich) < U64
    ensures Verdict(n, rich, t, height, false).Good?
    ensures Dominates(Effect(n, rich, t), Effect(n, poor, t))
    ensures Total(Effect(n, rich, t)) == Total(rich)
  {
    hide Verdict, Effect;
    DominatesVerdict(n, rich, poor, t, height);
    EffectTotal(n, rich, t, height, false);
    var a := n.addrOf(t.from);
    forall b: Addr20
      ensures Acct(Effect(n, rich, t), b).nonce == Acct(Effect(n, poor, t), b).nonce
              && Acct(Effect(n, rich, t), b).balance >= Acct(Effect(n, poor, t), b).balance
    {
      DominatesAt(n, rich, poor, t, b);
    }
  }

  /** A transfer or record moves no more than there is: nothing wraps in a state whose
      supply fits u64. */
  lemma {:induction false} MoveFits(n: Net, rich: State, t: Tx, b: Addr20)
    requires Total(rich) < U64 && t.kind != TX_COINBASE
    requires t.kind == TX_TRANSFER ==> t.amount <= Acct(rich, n.addrOf(t.from)).balance
    ensures Acct(rich, b).balance - Out(n, t, b) + In(t, b) < U64
  {
    hide Total;
    var a := n.addrOf(t.from);
    TotalUpdate(rich, b, Account(0, 0));
    if a != b {
      TwoBalances(rich, a, b);
    }
  }

  lemma {:induction false} MovesMonotone(r: u64, p: u64, out: nat, in_: nat)
    requires out <= p <= r && r - out + in_ < U64
    ensures (r - out + in_) % U64 >= (p - out + in_) % U64
  {
  }

  lemma {:induction false} DominatesAt(n: Net, rich: State, poor: State, t: Tx, b: Addr20)
    requires Dominates(rich, poor) && Total(rich) < U64 && t.kind != TX_COINBASE
    requires t.kind == TX_TRANSFER ==> t.amount <= Acct(poor, n.addrOf(t.from)).balance
    ensures Acct(Effect(n, rich, t), b).nonce == Acct(Effect(n, poor, t), b).nonce
            && Acct(Effect(n, rich, t), b).balance >= Acct(Effect(n, poor, t), b).balance
  {
    hide Effect, Total, Acct, In, SentBy;
    var a := n.addrOf(t.from);
    assert Acct(rich, a).balance >= Acct(poor, a).balance;
    assert Acct(rich, b).nonce == Acct(poor, b).nonce && Acct(rich, b).balance >= Acct(poor, b).balance;
    EffectMoves(n, rich, t, b);
    EffectMoves(n, poor, t, b);
    MoveFits(n, rich, t, b);
    MovesMonotone(Acct(rich, b).balance, Acct(poor, b).balance, Out(n, t, b), In(t, b));
  }

  /** A run applicable in a state stays applicable in any richer one. */
  lemma {:induction false} DominatesRun(n: Net, rich: State, poor: State, txs: seq<Tx>, height: u64)
    requires Dominates(rich, poor) && RunOk(n, poor, txs, height, false)
    requires Total(rich) < U64
    ensures RunOk(n, rich, txs, height, false)
    ensures Dominates(StateAfter(n, rich, txs), StateAfter(n, poor, txs))
    ensures Total(StateAfter(n, rich, txs)) == Total(rich)
    decreases |txs|
  {
    hide Verdict, Effect, RunOk, Dominates;
    if txs == [] {
      RunOkNothing(n, rich, height, false);
    } else {
      var k := |txs| - 1;
      RunOkPrefix(n, poor, txs, height, false, k);
      DominatesRun(n, rich, poor, txs[..k], height);
      RunOkLast(n, poor, txs, height, false);
      DominatesStep(n, StateAfter(n, rich, txs[..k]), StateAfter(n, poor, txs[..k]), txs[k], height);
      RunOkSnoc(n, rich, txs, height, false);
    }
  }

  lemma {:induction false} RunOkNothing(n: Net, st: State, height: u64, block: bool)
    ensures RunOk(n, st, [], height, block)
  {
  }

  lemma {:induction false} RunOkSnoc(n: Net, st: State, txs: seq<Tx>, height: u64, block: bool)
    requires txs != []
    requires RunOk(n, st, txs[..|txs| - 1], height, block)
    requires Verdict(n, StateAfter(n, st, txs[..|txs| - 1]), txs[|txs| - 1], height, block && |txs| == 1).Good?
    ensures RunOk(n, st, txs, height, block)
  {
    hide Verdict, StateAfter;
    var k := |txs| - 1;
    forall i | 0 <= i < |txs|
      ensures Verdict(n, StateAfter(n, st, txs[..i]), txs[i], height, block && i == 0).Good?
    {
      if i < k {
        assert txs[..k][..i] == txs[..i] && txs[..k][i] == txs[i];
      }
    }
  }
}
