/** The account map as a value, and what a block does to it. RebuildState and MineBlock in module LedgerNode are
    proved against these functions. */
module Accounts {
  import opened Machine
  import opened Consensus
  import opened Transfers
  import opened Blocks

  datatype Account = Account(balance: u64, nonce: u64)
  type AccountMap = map<string, Account>

  /** A missing account counts as an empty one. */
  function BalanceOf(m: AccountMap, a: string): u64 { if a in m then m[a].balance else 0 }

  ghost predicate SameBalances(m: AccountMap, n: AccountMap) { forall a :: BalanceOf(m, a) == BalanceOf(n, a) }

  function Touch(m: AccountMap, a: string): AccountMap { if a in m then m else m[a := Account(0, 0)] }

  function Credit(m: AccountMap, a: string, value: u64): AccountMap {
    var t := Touch(m, a);
    t[a := t[a].(balance := Add64(t[a].balance, value))]
  }

  /** Takes the cost of a transfer, or all there is, and counts the transfer. */
  function Debit(m: AccountMap, a: string, cost: u64): AccountMap {
    var t := Touch(m, a);
    t[a := Account(if t[a].balance >= cost then t[a].balance - cost else 0, Add64(t[a].nonce, 1))]
  }

  // ---- Replay: RebuildState over a chain ----

  function ApplyTransfer(m: AccountMap, tx: Transfer): AccountMap {
    Credit(Debit(m, Sender(tx), Cost(tx)), tx.recipient, tx.value)
  }

  function ApplyTransfers(m: AccountMap, txs: seq<Transfer>): AccountMap {
    if txs == [] then m else ApplyTransfer(ApplyTransfers(m, txs[..|txs| - 1]), txs[|txs| - 1])
  }

  function FeeTotal(txs: seq<Transfer>): u64 {
    if txs == [] then 0 else Add64(FeeTotal(txs[..|txs| - 1]), txs[|txs| - 1].fee)
  }

  function MinerCredit(reward: u64, txs: seq<Transfer>): u64 { Add64(reward, FeeTotal(txs)) }

  function PayMiner(m: AccountMap, miner: string, amount: u64): AccountMap {
    if amount > 0 then Credit(m, miner, amount) else m
  }

  predicate PaysMiner(b: LedgerBlock) { b.miner != SYSTEM_GENESIS && b.miner != "" }

  function ApplyBlock(m: AccountMap, b: LedgerBlock): AccountMap {
    var m' := ApplyTransfers(m, b.transfers);
    if PaysMiner(b) then PayMiner(m', b.miner, MinerCredit(b.reward, b.transfers)) else m'
  }

  function ApplyChain(m: AccountMap, chain: seq<LedgerBlock>): AccountMap {
    if chain == [] then m else ApplyBlock(ApplyChain(m, chain[..|chain| - 1]), chain[|chain| - 1])
  }

  function Replay(chain: seq<LedgerBlock>): AccountMap { ApplyChain(map[], chain) }

  // ---- What a replayed transfer and a replayed block do ----

  function NonceOf(m: AccountMap, a: string): u64 { if a in m then m[a].nonce else 0 }

  /** The sender pays value and fee, or all it has; the recipient, who may be the sender, then gets the value; the
      sender's nonce rises by one; nothing else changes. */
  lemma TransferMoves(m: AccountMap, tx: Transfer, a: string)
    ensures var t, from := ApplyTransfer(m, tx), PubkeyToAddress(tx.senderPubKey);
            var cost := Add64(tx.value, tx.fee);
            var left := if a != from then BalanceOf(m, a)
                        else if BalanceOf(m, a) >= cost then BalanceOf(m, a) - cost else 0;
            && BalanceOf(t, a) == (if a == tx.recipient then Add64(left, tx.value) else left)
            && NonceOf(t, a) == (if a == from then Add64(NonceOf(m, a), 1) else NonceOf(m, a))
  {
    hide PubkeyToAddress;
  }

  /** A block then pays reward and fees to its miner, unless that is SYSTEM_GENESIS or nobody. */
  lemma BlockPays(m: AccountMap, b: LedgerBlock, a: string)
    ensures var t, m' := ApplyBlock(m, b), ApplyTransfers(m, b.transfers);
            && BalanceOf(t, a) == (if a == b.miner && a != "SYSTEM_GENESIS" && a != ""
                                   then Add64(BalanceOf(m', a), Add64(b.reward, FeeTotal(b.transfers)))
                                   else BalanceOf(m', a))
            && NonceOf(t, a) == NonceOf(m', a)
  {
    hide ApplyTransfers, FeeTotal;
  }

  function Sent(txs: seq<Transfer>, a: string): nat {
    if txs == [] then 0 else Sent(txs[..|txs| - 1], a) + if Sender(txs[|txs| - 1]) == a then 1 else 0
  }

  function SentInChain(chain: seq<LedgerBlock>, a: string): nat {
    if chain == [] then 0
    else SentInChain(chain[..|chain| - 1], a) + Sent(chain[|chain| - 1].transfers, a)
  }

  lemma {:induction false} TransfersCount(m: AccountMap, txs: seq<Transfer>, a: string)
    ensures NonceOf(ApplyTransfers(m, txs), a) == Wrap64(NonceOf(m, a) + Sent(txs, a))
  {
    if txs == [] {
      WrapFits(NonceOf(m, a));
    } else {
      hide ApplyTransfer, Wrap64, Add64, PubkeyToAddress, NonceOf;
      var rest, tx := txs[..|txs| - 1], txs[|txs| - 1];
      TransfersCount(m, rest, a);
      OneMoreCounts(ApplyTransfers(m, rest), tx, a, NonceOf(m, a) + Sent(rest, a));
    }
  }

  lemma OneMoreCounts(m: AccountMap, tx: Transfer, a: string, n: nat)
    requires NonceOf(m, a) == Wrap64(n)
    ensures NonceOf(ApplyTransfer(m, tx), a) == Wrap64(n + if Sender(tx) == a then 1 else 0)
  {
    TransferMoves(m, tx, a);
    WrapAdd(n, 1);
    hide ApplyTransfer, Wrap64, Add64, PubkeyToAddress, NonceOf;
  }

  /** After a replay an account's nonce is the number of transfers it sent in the chain, in 64 bits. */
  lemma {:induction false} ReplayCounts(chain: seq<LedgerBlock>, a: string)
    ensures NonceOf(Replay(chain), a) == Wrap64(SentInChain(chain, a))
  {
    if chain == [] {
      assert Replay(chain) == map[];
    } else {
      hide ApplyBlock, ApplyTransfers, Wrap64, Sent, NonceOf;
      var rest, b := chain[..|chain| - 1], chain[|chain| - 1];
      assert Replay(chain) == ApplyBlock(Replay(rest), b);
      hide Replay;
      ReplayCounts(rest, a);
      BlockPays(Replay(rest), b, a);
      TransfersCount(Replay(rest), b.transfers, a);
      WrapSum(SentInChain(rest, a), Sent(b.transfers, a));
    }
  }

  lemma WrapSum(x: int, y: int)
    ensures Wrap64(Wrap64(x) + y) == Wrap64(x + y)
  {
  }

  // ---- Balances do not depend on which empty accounts exist, nor on nonces ----

  lemma CreditSame(m: AccountMap, n: AccountMap, a: string, value: u64)
    requires SameBalances(m, n)
    ensures SameBalances(Credit(m, a, value), Credit(n, a, value))
  {
    forall x ensures BalanceOf(Credit(m, a, value), x) == BalanceOf(Credit(n, a, value), x) {
      assert BalanceOf(m, x) == BalanceOf(n, x);
    }
  }

  /** And a credit hides no difference. */
  lemma CreditCancels(m: AccountMap, n: AccountMap, a: string, value: u64)
    ensures SameBalances(Credit(m, a, value), Credit(n, a, value)) <==> SameBalances(m, n)
  {
    if SameBalances(m, n) {
      CreditSame(m, n, a, value);
    }
    if SameBalances(Credit(m, a, value), Credit(n, a, value)) {
      forall x ensures BalanceOf(m, x) == BalanceOf(n, x) {
        assert BalanceOf(Credit(m, a, value), x) == BalanceOf(Credit(n, a, value), x);
      }
    }
  }

  lemma DebitSame(m: AccountMap, n: AccountMap, a: string, cost: u64)
    requires SameBalances(m, n)
    ensures SameBalances(Debit(m, a, cost), Debit(n, a, cost))
  {
    forall x ensures BalanceOf(Debit(m, a, cost), x) == BalanceOf(Debit(n, a, cost), x) {
      assert BalanceOf(m, x) == BalanceOf(n, x);
    }
  }

  lemma ApplyTransferSame(m: AccountMap, n: AccountMap, tx: Transfer)
    requires SameBalances(m, n)
    ensures SameBalances(ApplyTransfer(m, tx), ApplyTransfer(n, tx))
  {
    DebitSame(m, n, Sender(tx), Cost(tx));
    CreditSame(Debit(m, Sender(tx), Cost(tx)), Debit(n, Sender(tx), Cost(tx)), tx.recipient, tx.value);
  }

  lemma {:induction false} ApplyTransfersSame(m: AccountMap, n: AccountMap, txs: seq<Transfer>)
    requires SameBalances(m, n)
    ensures SameBalances(ApplyTransfers(m, txs), ApplyTransfers(n, txs))
  {
    if txs != [] {
      var rest := txs[..|txs| - 1];
      ApplyTransfersSame(m, n, rest);
      ApplyTransferSame(ApplyTransfers(m, rest), ApplyTransfers(n, rest), txs[|txs| - 1]);
    }
  }

  lemma ApplyBlockSame(m: AccountMap, n: AccountMap, b: LedgerBlock)
    requires SameBalances(m, n)
    ensures SameBalances(ApplyBlock(m, b), ApplyBlock(n, b))
  {
    ApplyTransfersSame(m, n, b.transfers);
    CreditSame(ApplyTransfers(m, b.transfers), ApplyTransfers(n, b.transfers), b.miner,
               MinerCredit(b.reward, b.transfers));
  }

  // ---- Selecting transfers for a block: the first phase of MineBlock ----

  /** What the selection loop has done: the accounts, the transfers picked, the bytes counted, the transfers
      passed over because the sender could not pay, and whether the size limit ended the loop. */
  datatype Selection =
    Selection(accounts: AccountMap, picked: seq<Transfer>, bytes: nat, skipped: seq<Transfer>, full: bool)

  const BLOCK_OVERHEAD_BYTES: nat := 512

  predicate Affordable(m: AccountMap, tx: Transfer) { BalanceOf(m, Sender(tx)) >= Cost(tx) }

  /** MineBlock's own way to charge a sender, without a clamp, and to pay, with a new account for a missing
      one. */
  function Charge(m: AccountMap, a: string, cost: u64): AccountMap
    requires a in m && m[a].balance >= cost
  {
    m[a := Account(m[a].balance - cost, Add64(m[a].nonce, 1))]
  }

  function Pay(m: AccountMap, a: string, value: u64): AccountMap {
    if a in m then m[a := m[a].(balance := Add64(m[a].balance, value))] else m[a := Account(value, 0)]
  }

  function Settle(m: AccountMap, tx: Transfer): AccountMap
    requires Affordable(m, tx)
  {
    Pay(Charge(Touch(m, Sender(tx)), Sender(tx), Cost(tx)), tx.recipient, tx.value)
  }

  function Consider(env: Env, s: Selection, tx: Transfer): Selection {
    var size := |env.encodeTransfer(tx)|;
    if s.full || s.bytes + size > MAX_BLOCK_SIZE_BYTES then s.(full := true)
    else if !Affordable(s.accounts, tx) then
      s.(accounts := Touch(s.accounts, Sender(tx)), skipped := s.skipped + [tx])
    else
      Selection(Settle(s.accounts, tx), s.picked + [tx], s.bytes + size, s.skipped, false)
  }

  lemma PayIsCredit(m: AccountMap, a: string, value: u64)
    ensures Pay(m, a, value) == Credit(m, a, value)
  {
  }

  /** The two ways to process a transfer agree on one that can be paid for, also when sender and recipient are
      the same or new. */
  lemma SettleIsReplay(m: AccountMap, tx: Transfer)
    requires Affordable(m, tx)
    ensures Settle(m, tx) == ApplyTransfer(m, tx)
  {
    PayIsCredit(Debit(m, Sender(tx), Cost(tx)), tx.recipient, tx.value);
  }

  function Select(env: Env, m: AccountMap, pool: seq<Transfer>): Selection {
    if pool == [] then Selection(m, [], BLOCK_OVERHEAD_BYTES, [], false)
    else Consider(env, Select(env, m, pool[..|pool| - 1]), pool[|pool| - 1])
  }

  /** One step either ends the loop, or skips the transfer without touching a balance, or applies it. */
  lemma ConsiderStep(env: Env, s: Selection, tx: Transfer)
    ensures var t := Consider(env, s, tx);
            || (t.full && t == s.(full := true))
            || (!s.full && !t.full && t.picked == s.picked && t.skipped == s.skipped + [tx]
                && !Affordable(s.accounts, tx) && SameBalances(t.accounts, s.accounts))
            || (!s.full && !t.full && t.picked == s.picked + [tx] && t.skipped == s.skipped
                && Affordable(s.accounts, tx) && t.accounts == ApplyTransfer(s.accounts, tx))
  {
    if Affordable(s.accounts, tx) {
      SettleIsReplay(s.accounts, tx);
    }
  }

  /** Selecting has the effect on balances of replaying exactly the picked transfers, rejected ones,
      self-transfers and new accounts included. */
  lemma {:induction false} SelectReplaysPicked(env: Env, m: AccountMap, pool: seq<Transfer>)
    ensures var s := Select(env, m, pool); SameBalances(s.accounts, ApplyTransfers(m, s.picked))
  {
    if pool != [] {
      var before, tx := Select(env, m, pool[..|pool| - 1]), pool[|pool| - 1];
      SelectReplaysPicked(env, m, pool[..|pool| - 1]);
      ConsiderStep(env, before, tx);
      var s := Select(env, m, pool);
      if s.picked != before.picked {
        assert s.picked[..|s.picked| - 1] == before.picked;
        ApplyTransferSame(before.accounts, ApplyTransfers(m, before.picked), tx);
      }
    }
  }

  /** No picked transfer was short of money: each one's sender could pay its (64-bit) cost when its turn
      came. */
  ghost predicate AllAffordable(m: AccountMap, txs: seq<Transfer>) {
    txs == [] || (AllAffordable(m, txs[..|txs| - 1]) && Affordable(ApplyTransfers(m, txs[..|txs| - 1]), txs[|txs| - 1]))
  }

  lemma {:induction false} SelectPicksAffordable(env: Env, m: AccountMap, pool: seq<Transfer>)
    ensures AllAffordable(m, Select(env, m, pool).picked)
  {
    if pool != [] {
      var before := Select(env, m, pool[..|pool| - 1]);
      SelectPicksAffordable(env, m, pool[..|pool| - 1]);
      SelectReplaysPicked(env, m, pool[..|pool| - 1]);
      ConsiderStep(env, before, pool[|pool| - 1]);
      var s := Select(env, m, pool);
      if s.picked != before.picked {
        assert s.picked[..|s.picked| - 1] == before.picked;
      }
    }
  }

  lemma {:induction false} AllAffordableSame(m: AccountMap, n: AccountMap, txs: seq<Transfer>)
    requires SameBalances(m, n)
    ensures AllAffordable(m, txs) == AllAffordable(n, txs)
  {
    if txs != [] {
      AllAffordableSame(m, n, txs[..|txs| - 1]);
      ApplyTransfersSame(m, n, txs[..|txs| - 1]);
    }
  }

  // ---- What the trim of the mempool removes ----

  /** How many pool entries the loop looked at before the size limit ended it. */
  ghost function Looked(s: Selection): nat { |s.picked| + |s.skipped| }

  /** Every entry the loop looked at was either picked or skipped. */
  ghost predicate Partitions(s: Selection, pool: seq<Transfer>) {
    && Looked(s) <= |pool|
    && (!s.full ==> Looked(s) == |pool|)
    && multiset(pool[..Looked(s)]) == multiset(s.picked) + multiset(s.skipped)
  }

  lemma PartitionStep(env: Env, before: Selection, shorter: seq<Transfer>, tx: Transfer)
    requires Partitions(before, shorter)
    ensures Partitions(Consider(env, before, tx), shorter + [tx])
  {
    var s, pool := Consider(env, before, tx), shorter + [tx];
    ConsiderStep(env, before, tx);
    if s.full {
      assert shorter[..Looked(s)] == pool[..Looked(s)];
    } else {
      assert shorter[..Looked(before)] == shorter && pool[..Looked(s)] == pool;
    }
  }

  /** The loop looks at a prefix of the pool, the whole pool unless the size limit ends it. */
  lemma {:induction false} SelectPartitions(env: Env, m: AccountMap, pool: seq<Transfer>)
    ensures Partitions(Select(env, m, pool), pool)
  {
    if pool != [] {
      SelectPartitions(env, m, pool[..|pool| - 1]);
      PartitionStep(env, Select(env, m, pool[..|pool| - 1]), pool[..|pool| - 1], pool[|pool| - 1]);
      assert pool == pool[..|pool| - 1] + [pool[|pool| - 1]];
    }
  }

  /** MineBlock drops as many entries from the front of the pool as it picked. */
  function Trimmed(env: Env, m: AccountMap, pool: seq<Transfer>): seq<Transfer>
  {
    var k := |Select(env, m, pool).picked|;
    if k <= |pool| then pool[k..] else []
  }

  lemma {:induction false} SelectPrefix(env: Env, m: AccountMap, pool: seq<Transfer>, k: nat)
    requires k <= |pool|
    ensures Select(env, m, pool[..k]).picked <= Select(env, m, pool).picked
    ensures Select(env, m, pool[..k]).skipped <= Select(env, m, pool).skipped
    ensures Select(env, m, pool[..k]).full ==> Select(env, m, pool) == Select(env, m, pool[..k])
  {
    if k == |pool| {
      assert pool[..k] == pool;
    } else {
      var shorter := pool[..|pool| - 1];
      SelectPrefix(env, m, shorter, k);
      assert shorter[..k] == pool[..k];
      ConsiderStep(env, Select(env, m, shorter), pool[|pool| - 1]);
    }
  }

  // ---- The size check ----

  function EncodedSum(env: Env, txs: seq<Transfer>): nat {
    if txs == [] then 0 else EncodedSum(env, txs[..|txs| - 1]) + |env.encodeTransfer(txs[|txs| - 1])|
  }

  /** The loop counts the allowance and the picked encodings, and keeps that within the limit. */
  lemma {:induction false} SelectCountsBytes(env: Env, m: AccountMap, pool: seq<Transfer>)
    ensures var s := Select(env, m, pool);
            s.bytes == 512 + EncodedSum(env, s.picked) <= 4_194_304
  {
    if pool != [] {
      hide Consider, EncodedSum;
      SelectCountsBytes(env, m, pool[..|pool| - 1]);
      ConsiderCountsBytes(env, Select(env, m, pool[..|pool| - 1]), pool[|pool| - 1]);
    } else {
      assert EncodedSum(env, []) == 0;
    }
  }

  lemma ConsiderCountsBytes(env: Env, s: Selection, tx: Transfer)
    requires s.bytes == 512 + EncodedSum(env, s.picked) <= 4_194_304
    ensures var t := Consider(env, s, tx); t.bytes == 512 + EncodedSum(env, t.picked) <= 4_194_304
  {
    hide Settle, Touch, Affordable;
    assert (s.picked + [tx])[..|s.picked|] == s.picked;
  }

  predicate FitsAfter(env: Env, txs: seq<Transfer>, more: seq<Transfer>) {
    BLOCK_OVERHEAD_BYTES + EncodedSum(env, txs) + EncodedSum(env, more) <= MAX_BLOCK_SIZE_BYTES
  }

  /** Whether the loop picks the next transfer, in terms of what it picked so far. */
  lemma ConsiderMeans(env: Env, m: AccountMap, pool: seq<Transfer>, tx: Transfer)
    ensures var s, t := Select(env, m, pool), Select(env, m, pool + [tx]);
            && t.full == (s.full || !FitsAfter(env, s.picked, [tx]))
            && var taken := !t.full && Affordable(ApplyTransfers(m, s.picked), tx);
               t.picked == if taken then s.picked + [tx] else s.picked
  {
    SelectOneMore(env, m, pool, tx);
    EncodedOne(env, tx);
    hide Select, EncodedSum, Settle, ApplyTransfers;
    var s := Select(env, m, pool);
    SelectCountsBytes(env, m, pool);
    SelectReplaysPicked(env, m, pool);
    assert BalanceOf(s.accounts, Sender(tx)) == BalanceOf(ApplyTransfers(m, s.picked), Sender(tx));
    hide SameBalances;
  }

  lemma SelectOneMore(env: Env, m: AccountMap, pool: seq<Transfer>, tx: Transfer)
    ensures Select(env, m, pool + [tx]) == Consider(env, Select(env, m, pool), tx)
  {
    assert (pool + [tx])[..|pool|] == pool;
  }

  lemma EncodedOne(env: Env, tx: Transfer)
    ensures EncodedSum(env, [tx]) == |env.encodeTransfer(tx)|
  {
    assert [tx][..0] == [];
  }

  // ---- When the trim is exact ----

  /** The first j entries fit and can be paid for in turn; every one after them, up to the end of the pool or the
      first that does not fit, cannot be paid for. */
  ghost predicate FrontOnly(env: Env, m: AccountMap, pool: seq<Transfer>, j: nat, end: nat) {
    && j <= end <= |pool|
    && AllAffordable(m, pool[..j]) && FitsAfter(env, pool[..j], [])
    && (forall i :: j <= i < end ==>
          FitsAfter(env, pool[..j], [pool[i]]) && !Affordable(ApplyTransfers(m, pool[..j]), pool[i]))
    && (end < |pool| ==> !FitsAfter(env, pool[..j], [pool[end]]))
  }

  lemma EncodedSumOneMore(env: Env, txs: seq<Transfer>, tx: Transfer)
    ensures EncodedSum(env, txs + [tx]) == EncodedSum(env, txs) + EncodedSum(env, [tx])
  {
    assert (txs + [tx])[..|txs|] == txs && [tx][..0] == [];
  }

  lemma {:induction false} FrontPicked(env: Env, m: AccountMap, pool: seq<Transfer>)
    requires AllAffordable(m, pool) && FitsAfter(env, pool, [])
    ensures Select(env, m, pool).picked == pool && !Select(env, m, pool).full
  {
    if pool != [] {
      hide Select, EncodedSum, Affordable, ApplyTransfers;
      var rest, tx := pool[..|pool| - 1], pool[|pool| - 1];
      assert pool == rest + [tx];
      EncodedSumOneMore(env, rest, tx);
      FrontPicked(env, m, rest);
      ConsiderMeans(env, m, rest, tx);
    }
  }

  /** Then the loop picks exactly those first ones. */
  lemma {:induction false} FrontOnlyPicks(env: Env, m: AccountMap, pool: seq<Transfer>, j: nat, end: nat)
    requires FrontOnly(env, m, pool, j, end)
    ensures Select(env, m, pool).picked == pool[..j] && (Select(env, m, pool).full <==> end < |pool|)
  {
    if j == |pool| {
      assert pool[..j] == pool;
      FrontPicked(env, m, pool);
    } else {
      var rest, tx := pool[..|pool| - 1], pool[|pool| - 1];
      assert rest[..j] == pool[..j] && pool == rest + [tx];
      var last := if end < |pool| then end else |rest|;
      hide Select, AllAffordable, Affordable, FitsAfter;
      assert FrontOnly(env, m, rest, j, last);
      FrontOnlyPicks(env, m, rest, j, last);
      ConsiderMeans(env, m, rest, tx);
    }
  }

  lemma FrontOnlyStep(env: Env, m: AccountMap, rest: seq<Transfer>, tx: Transfer, j: nat, end: nat) returns (more: nat)
    requires FrontOnly(env, m, rest, j, end)
    requires end == |rest| && FitsAfter(env, rest[..j], [tx]) ==> !Affordable(ApplyTransfers(m, rest[..j]), tx)
    ensures FrontOnly(env, m, rest + [tx], j, more)
  {
    hide AllAffordable, Affordable, FitsAfter, ApplyTransfers;
    more := if end == |rest| && FitsAfter(env, rest[..j], [tx]) then end + 1 else end;
    assert (rest + [tx])[..j] == rest[..j];
  }

  /** The entry right after the front cannot be paid for. */
  lemma NextUnaffordable(env: Env, m: AccountMap, pool: seq<Transfer>, j: nat, end: nat)
    requires FrontOnly(env, m, pool, j, end) && j < end
    ensures !Affordable(ApplyTransfers(m, pool[..j]), pool[j])
  {
  }

  lemma PrefixSplits<T>(few: seq<T>, many: seq<T>, rest: seq<T>, x: T)
    requires few <= many <= rest + [x] && many != rest + [x]
    ensures few <= rest && rest[..|few|] == few && many <= rest
    ensures many == few + [x] ==> |few| < |rest| && rest[|few|] == x
  {
    assert many == (rest + [x])[..|many|] == rest[..|many|];
    if many == few + [x] {
      assert many[|few|] == x;
    }
  }

  lemma PicksAll(env: Env, m: AccountMap, pool: seq<Transfer>)
    requires Select(env, m, pool).picked == pool
    ensures FrontOnly(env, m, pool, |pool|, |pool|)
  {
    SelectPicksAffordable(env, m, pool);
    SelectCountsBytes(env, m, pool);
    hide Select, AllAffordable, Affordable;
    assert pool[..|pool|] == pool;
  }

  lemma {:induction false} PicksFrontOnly(env: Env, m: AccountMap, pool: seq<Transfer>) returns (end: nat)
    requires Select(env, m, pool).picked <= pool
    ensures FrontOnly(env, m, pool, |Select(env, m, pool).picked|, end)
  {
    hide Select, AllAffordable, Affordable, FitsAfter, FrontOnly;
    var picked := Select(env, m, pool).picked;
    if picked == pool {
      PicksAll(env, m, pool);
      end := |pool|;
    } else {
      var rest, tx := pool[..|pool| - 1], pool[|pool| - 1];
      var before := Select(env, m, rest);
      assert pool == rest + [tx];
      ConsiderMeans(env, m, rest, tx);
      PrefixSplits(before.picked, picked, rest, tx);
      end := PicksFrontOnly(env, m, rest);
      FrontOnlyPicks(env, m, rest, |before.picked|, end);
      FrontEnds(env, m, rest, |before.picked|, end);
      if picked != before.picked {
        NextUnaffordable(env, m, rest, |before.picked|, end);
      }
      end := FrontOnlyStep(env, m, rest, tx, |before.picked|, end);
    }
  }

  lemma FrontEnds(env: Env, m: AccountMap, pool: seq<Transfer>, j: nat, end: nat)
    requires FrontOnly(env, m, pool, j, end)
    ensures j <= end <= |pool|
  {
  }

  /** The picked transfers are the front of the pool, entry by entry, exactly when each of that many first ones
      can be paid for in turn; and exactly when the pool has a front that fits and can be paid for, after which
      nothing that fits can be. */
  lemma TrimIsExact(env: Env, m: AccountMap, pool: seq<Transfer>)
    ensures var picked := Select(env, m, pool).picked;
            && |picked| <= |pool|
            && (picked == pool[..|picked|] <==> AllAffordable(m, pool[..|picked|]))
            && (picked == pool[..|picked|] <==> exists j: nat, end: nat :: FrontOnly(env, m, pool, j, end))
    ensures forall j: nat, end: nat :: FrontOnly(env, m, pool, j, end) ==>
              j <= |pool| && Trimmed(env, m, pool) == pool[j..]
  {
    var picked := Select(env, m, pool).picked;
    SelectPartitions(env, m, pool);
    SelectPicksAffordable(env, m, pool);
    AffordableFront(env, m, pool);
    if picked == pool[..|picked|] {
      var end := PicksFrontOnly(env, m, pool);
    }
    hide FrontOnly, Select;
    forall j: nat, end: nat | FrontOnly(env, m, pool, j, end)
      ensures picked == pool[..j] && j <= |pool|
    {
      FrontOnlyPicks(env, m, pool, j, end);
      FrontEnds(env, m, pool, j, end);
    }
  }

  /** The loop skips none of the entries that the trim will remove exactly if they are the picked ones, which is
      to say that they can be paid for in turn. */
  lemma AffordableFront(env: Env, m: AccountMap, pool: seq<Transfer>)
    ensures var picked := Select(env, m, pool).picked;
            && |picked| <= |pool|
            && var front := pool[..|picked|];
               && (Select(env, m, front).skipped == [] <==> AllAffordable(m, front))
               && (Select(env, m, front).skipped == [] ==> picked == front && Select(env, m, front).picked == front)
  {
    hide Select, AllAffordable;
    FrontSplits(env, m, pool);
    var picked := Select(env, m, pool).picked;
    var front := pool[..|picked|];
    if AllAffordable(m, front) {
      AffordableNotSkipped(env, m, front);
    }
    if Select(env, m, front).skipped == [] {
      NoSkipPicksAll(env, m, front);
      SameBagSame(Select(env, m, front).picked, front);
      SelectPicksAffordable(env, m, front);
    }
  }

  lemma SameBagSame<T>(few: seq<T>, many: seq<T>)
    requires few <= many && multiset(few) == multiset(many)
    ensures few == many
  {
    assert |multiset(few)| == |multiset(many)|;
  }

  // ---- What the trim removes ----

  /** What the loop did with the entries that the trim will remove. */
  lemma FrontSplits(env: Env, m: AccountMap, pool: seq<Transfer>)
    ensures var s := Select(env, m, pool);
            && |s.picked| <= Looked(s) <= |pool|
            && var early := Select(env, m, pool[..|s.picked|]);
               && early.picked <= s.picked && early.skipped <= s.skipped
               && multiset(pool[..|s.picked|]) == multiset(early.picked) + multiset(early.skipped)
  {
    var s := Select(env, m, pool);
    hide Select;
    SelectPartitions(env, m, pool);
    var front := pool[..|s.picked|];
    SelectPrefix(env, m, pool, |s.picked|);
    SelectPartitions(env, m, front);
    assert front[..|front|] == front;
  }

  /** The pool loses exactly the picked transfers, in whatever order they stand, when the transfers passed over
      among that many first ones are, count for count, those picked after them. */
  lemma TrimRemovesPicked(env: Env, m: AccountMap, pool: seq<Transfer>)
    ensures var picked := Select(env, m, pool).picked;
            && |picked| <= |pool|
            && var early := Select(env, m, pool[..|picked|]);
               |early.picked| <= |picked|
               && (multiset(Trimmed(env, m, pool)) == multiset(pool) - multiset(picked)
                   <==> multiset(early.skipped) == multiset(picked[|early.picked|..]))
  {
    hide Select;
    var s := Select(env, m, pool);
    FrontSplits(env, m, pool);
    SelectPartitions(env, m, pool);
    var early := Select(env, m, pool[..|s.picked|]);
    PickedWithin(s, pool);
    hide Partitions, Looked;
    RemovalLaw(pool, s.picked, early.picked, early.skipped);
  }

  lemma PickedWithin(s: Selection, pool: seq<Transfer>)
    requires Partitions(s, pool)
    ensures multiset(s.picked) <= multiset(pool)
  {
    assert pool == pool[..Looked(s)] + pool[Looked(s)..];
  }

  lemma RemovalLaw(pool: seq<Transfer>, picked: seq<Transfer>, early: seq<Transfer>, passed: seq<Transfer>)
    requires |picked| <= |pool| && early <= picked && multiset(picked) <= multiset(pool)
    requires multiset(pool[..|picked|]) == multiset(early) + multiset(passed)
    ensures multiset(pool[|picked|..]) == multiset(pool) - multiset(picked)
       <==> multiset(passed) == multiset(picked[|early|..])
  {
    var k := |picked|;
    assert pool == pool[..k] + pool[k..] && picked == early + picked[|early|..];
    TakeAway(multiset(pool[..k]), multiset(pool[k..]), multiset(picked));
    CancelLeft(multiset(early), multiset(passed), multiset(picked[|early|..]));
  }

  lemma TakeAway<T>(front: multiset<T>, rest: multiset<T>, taken: multiset<T>)
    requires taken <= front + rest && |taken| == |front|
    ensures rest == front + rest - taken <==> front == taken
  {
    if rest == front + rest - taken {
      assert front + rest == rest + taken;
      CancelLeft(rest, front, taken);
    }
  }

  lemma CancelLeft<T>(x: multiset<T>, a: multiset<T>, b: multiset<T>)
    ensures x + a == x + b <==> a == b
  {
    if x + a == x + b {
      forall t ensures a[t] == b[t] {
        assert (x + a)[t] == (x + b)[t];
      }
    }
  }

  /** On a pool without repeated entries the two conditions are one. */
  lemma TrimWithoutRepeats(env: Env, m: AccountMap, pool: seq<Transfer>)
    requires forall i, j :: 0 <= i < j < |pool| ==> pool[i] != pool[j]
    ensures var picked := Select(env, m, pool).picked;
            && |picked| <= |pool|
            && (multiset(Trimmed(env, m, pool)) == multiset(pool) - multiset(picked)
                <==> AllAffordable(m, pool[..|picked|]))
  {
    hide Select, Trimmed, AllAffordable, Partitions, Looked;
    var s := Select(env, m, pool);
    TrimRemovesPicked(env, m, pool);
    AffordableFront(env, m, pool);
    FrontSplits(env, m, pool);
    SelectPartitions(env, m, pool);
    var early := Select(env, m, pool[..|s.picked|]);
    if early.skipped == [] {
      assert s.picked[|early.picked|..] == [];
    } else {
      SkippedNotPicked(s, early.picked, early.skipped, pool);
    }
  }

  lemma SkippedNotPicked(s: Selection, early: seq<Transfer>, passed: seq<Transfer>, pool: seq<Transfer>)
    requires Partitions(s, pool) && early <= s.picked && passed <= s.skipped && passed != []
    requires forall i, j :: 0 <= i < j < |pool| ==> pool[i] != pool[j]
    ensures multiset(passed) != multiset(s.picked[|early|..])
  {
    var tx := passed[0];
    OnceInPrefix(pool, Looked(s), tx);
    assert s.skipped[0] == tx;
    assert multiset(s.skipped)[tx] >= 1 && multiset(passed)[tx] >= 1;
    TailWithin(s.picked, |early|, tx);
  }

  lemma TailWithin<T>(s: seq<T>, i: nat, x: T)
    requires i <= |s| && x !in s
    ensures multiset(s[i..])[x] == 0
  {
  }

  lemma {:induction false} OnceInPrefix(pool: seq<Transfer>, k: nat, tx: Transfer)
    requires k <= |pool| && forall i, j :: 0 <= i < j < |pool| ==> pool[i] != pool[j]
    ensures multiset(pool[..k])[tx] <= 1
  {
    if k > 0 {
      OnceInPrefix(pool, k - 1, tx);
      assert pool[..k] == pool[..k - 1] + [pool[k - 1]];
      if pool[k - 1] == tx {
        assert tx !in pool[..k - 1];
      }
    }
  }

  lemma {:induction false} AffordableNotSkipped(env: Env, m: AccountMap, txs: seq<Transfer>)
    requires AllAffordable(m, txs)
    ensures Select(env, m, txs).skipped == []
  {
    if txs != [] {
      var rest := txs[..|txs| - 1];
      AffordableNotSkipped(env, m, rest);
      NoSkipPicksAll(env, m, rest);
      SelectReplaysPicked(env, m, rest);
      ConsiderStep(env, Select(env, m, rest), txs[|txs| - 1]);
    }
  }

  lemma {:induction false} NoSkipPicksAll(env: Env, m: AccountMap, pool: seq<Transfer>)
    requires Select(env, m, pool).skipped == []
    ensures Select(env, m, pool).picked <= pool
    ensures !Select(env, m, pool).full ==> Select(env, m, pool).picked == pool
  {
    hide Consider;
    if pool != [] {
      var shorter := pool[..|pool| - 1];
      SelectPrefix(env, m, pool, |pool| - 1);
      NoSkipPicksAll(env, m, shorter);
      ConsiderStep(env, Select(env, m, shorter), pool[|pool| - 1]);
      assert pool == shorter + [pool[|pool| - 1]];
    }
  }

  /** The trim can drop a transfer that was never mined and keep one that was: an unaffordable transfer ahead
      of an affordable one is enough. */
  lemma TrimDropsTheWrongOne(env: Env, m: AccountMap, poor: Transfer, rich: Transfer)
    requires !Affordable(m, poor) && Affordable(m, rich)
    requires BLOCK_OVERHEAD_BYTES + |env.encodeTransfer(poor)| <= MAX_BLOCK_SIZE_BYTES
    requires BLOCK_OVERHEAD_BYTES + |env.encodeTransfer(rich)| <= MAX_BLOCK_SIZE_BYTES
    ensures Select(env, m, [poor, rich]).picked == [rich] && Trimmed(env, m, [poor, rich]) == [rich]
  {
    assert [poor, rich][..1] == [poor] && [poor][..0] == [];
    ConsiderStep(env, Select(env, m, []), poor);
    ConsiderStep(env, Select(env, m, [poor]), rich);
  }
}
