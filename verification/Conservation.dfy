/** Where the coins are: the sum of all balances against the coins that blocks issued. */
module Conservation {
  import opened Machine
  import opened Transfers
  import opened Blocks
  import opened Accounts

  ghost function Pick(m: AccountMap): string
    requires m != map[]
    ensures Pick(m) in m
  {
    var a :| a in m; a
  }

  ghost function Total(m: AccountMap): nat
    decreases |m|
  {
    if m == map[] then 0 else m[Pick(m)].balance + Total(m - {Pick(m)})
  }

  lemma {:induction false} TotalRemove(m: AccountMap, a: string)
    requires a in m
    ensures Total(m) == m[a].balance + Total(m - {a})
    decreases |m|
  {
    var b := Pick(m);
    if a != b {
      TotalRemove(m - {b}, a);
      TotalRemove(m - {a}, b);
      assert m - {a} - {b} == m - {b} - {a};
    }
  }

  lemma TotalWithout(m: AccountMap, a: string)
    ensures Total(m) == BalanceOf(m, a) + Total(m - {a})
    ensures a in m ==> |m - {a}| < |m|
    ensures a !in m ==> m - {a} == m
  {
    if a in m {
      TotalRemove(m, a);
    } else {
      assert m - {a} == m;
    }
  }

  lemma TotalUpdate(m: AccountMap, a: string, account: Account)
    ensures Total(m[a := account]) == Total(m) - BalanceOf(m, a) + account.balance
    ensures BalanceOf(m, a) <= Total(m)
  {
    TotalWithout(m[a := account], a);
    TotalWithout(m, a);
    assert m[a := account] - {a} == m - {a};
  }

  lemma SameWithout(m: AccountMap, n: AccountMap, a: string)
    requires SameBalances(m, n)
    ensures SameBalances(m - {a}, n - {a})
  {
    forall x ensures BalanceOf(m - {a}, x) == BalanceOf(n - {a}, x) {
      assert BalanceOf(m, x) == BalanceOf(n, x);
    }
  }

  /** The total only depends on the balances. */
  lemma {:induction false} TotalSame(m: AccountMap, n: AccountMap)
    requires SameBalances(m, n)
    ensures Total(m) == Total(n)
    decreases |m| + |n|
  {
    if m != map[] || n != map[] {
      var a := if m != map[] then Pick(m) else Pick(n);
      TotalWithout(m, a);
      TotalWithout(n, a);
      SameWithout(m, n, a);
      TotalSame(m - {a}, n - {a});
    }
  }

  /** A credit adds its value, less the 2^64 it loses if the balance overflows. */
  lemma CreditTotal(m: AccountMap, a: string, value: u64)
    ensures Total(Credit(m, a, value)) == Total(m) + value - if BalanceOf(m, a) + value < TWO64 then 0 else TWO64
  {
    var t := Touch(m, a);
    TotalUpdate(m, a, Account(0, 0));
    TotalUpdate(t, a, t[a].(balance := Add64(t[a].balance, value)));
  }

  /** What a debit could not take because the account held less. */
  function Shortfall(m: AccountMap, tx: Transfer): nat {
    if Affordable(m, tx) then 0 else Cost(tx) - BalanceOf(m, Sender(tx))
  }

  lemma DebitTotal(m: AccountMap, tx: Transfer)
    ensures Total(Debit(m, Sender(tx), Cost(tx))) == Total(m) - Cost(tx) + Shortfall(m, tx)
  {
    var a := Sender(tx);
    var t := Touch(m, a);
    TotalUpdate(m, a, Account(0, 0));
    TotalUpdate(t, a, Debit(m, a, Cost(tx))[a]);
  }

  // ---- The law modulo 2^64, for every chain ----

  function TransfersShortfall(m: AccountMap, txs: seq<Transfer>): nat {
    if txs == [] then 0
    else
      var rest := txs[..|txs| - 1];
      TransfersShortfall(m, rest) + Shortfall(ApplyTransfers(m, rest), txs[|txs| - 1])
  }

  function ChainShortfall(chain: seq<LedgerBlock>): nat {
    if chain == [] then 0
    else
      var rest := chain[..|chain| - 1];
      ChainShortfall(rest) + TransfersShortfall(Replay(rest), chain[|chain| - 1].transfers)
  }

  function Unpaid(b: LedgerBlock): u64 { if PaysMiner(b) then 0 else MinerCredit(b.reward, b.transfers) }

  /** The reward and fees of the blocks that pay nobody: those whose miner is SYSTEM_GENESIS or empty. */
  function Uncredited(chain: seq<LedgerBlock>): nat {
    if chain == [] then 0
    else
      var b := chain[|chain| - 1];
      Uncredited(chain[..|chain| - 1]) + Unpaid(b)
  }

  /** GetTotalCirculatingSupply. */
  function CirculatingSupply(chain: seq<LedgerBlock>): u64 {
    if chain == [] then 0 else Add64(CirculatingSupply(chain[..|chain| - 1]), chain[|chain| - 1].reward)
  }

  /** Each of these laws holds up to a number of full turns of a 64-bit counter, which it returns. */
  lemma TransferTotal(m: AccountMap, tx: Transfer) returns (turns: int)
    ensures Total(ApplyTransfer(m, tx)) == Total(m) - tx.fee + Shortfall(m, tx) + turns * TWO64
  {
    var debited := Debit(m, Sender(tx), Cost(tx));
    DebitTotal(m, tx);
    CreditTotal(debited, tx.recipient, tx.value);
    turns := (if tx.value + tx.fee < TWO64 then 0 else 1)
             - (if BalanceOf(debited, tx.recipient) + tx.value < TWO64 then 0 else 1);
  }

  lemma {:induction false} TransfersTotal(m: AccountMap, txs: seq<Transfer>) returns (turns: int)
    ensures Total(ApplyTransfers(m, txs)) + FeeTotal(txs) == Total(m) + TransfersShortfall(m, txs) + turns * TWO64
  {
    turns := 0;
    if txs != [] {
      var rest, tx := txs[..|txs| - 1], txs[|txs| - 1];
      turns := TransfersTotal(m, rest);
      var more := TransferTotal(ApplyTransfers(m, rest), tx);
      turns := turns + more - if FeeTotal(rest) + tx.fee < TWO64 then 0 else 1;
    }
  }

  lemma BlockTotal(m: AccountMap, b: LedgerBlock) returns (turns: int)
    ensures Total(ApplyBlock(m, b)) + Unpaid(b)
         == Total(m) + b.reward + TransfersShortfall(m, b.transfers) + turns * TWO64
  {
    var m', amount := ApplyTransfers(m, b.transfers), MinerCredit(b.reward, b.transfers);
    turns := TransfersTotal(m, b.transfers);
    CreditTotal(m', b.miner, amount);
    turns := turns - (if b.reward + FeeTotal(b.transfers) < TWO64 then 0 else 1)
             - (if PaysMiner(b) && BalanceOf(m', b.miner) + amount >= TWO64 then 1 else 0);
  }

  lemma {:induction false} ChainTotal(chain: seq<LedgerBlock>) returns (turns: int)
    ensures Total(Replay(chain)) + Uncredited(chain)
         == CirculatingSupply(chain) + ChainShortfall(chain) + turns * TWO64
  {
    turns := 0;
    if chain != [] {
      var rest, b := chain[..|chain| - 1], chain[|chain| - 1];
      turns := ChainTotal(rest);
      var more := BlockTotal(Replay(rest), b);
      turns := turns + more + if CirculatingSupply(rest) + b.reward < TWO64 then 0 else 1;
    }
  }

  lemma TurnsVanish(x: int, y: int, turns: int)
    requires x == y + turns * TWO64
    ensures Congruent(x, y)
  {
  }

  /** For every chain whatever, in 64-bit arithmetic: the balances after a replay exceed the issued coins by
      exactly what the clamps to zero forgave, less what nobody was paid. */
  lemma ConservationModulo(chain: seq<LedgerBlock>)
    ensures Congruent(Total(Replay(chain)) + Uncredited(chain), CirculatingSupply(chain) + ChainShortfall(chain))
  {
    var turns := ChainTotal(chain);
    hide Congruent, Total, Uncredited, CirculatingSupply, ChainShortfall, Replay;
    TurnsVanish(Total(Replay(chain)) + Uncredited(chain), CirculatingSupply(chain) + ChainShortfall(chain), turns);
  }

  // ---- The exact law, when nothing wraps ----

  ghost predicate NoWrap(txs: seq<Transfer>) { forall tx :: tx in txs ==> tx.value + tx.fee < TWO64 }

  function FeeSum(txs: seq<Transfer>): nat {
    if txs == [] then 0 else FeeSum(txs[..|txs| - 1]) + txs[|txs| - 1].fee
  }

  /** Every credit of a transfer fits its 64-bit balance. */
  ghost predicate CreditsFit(m: AccountMap, txs: seq<Transfer>) {
    txs == [] ||
    var rest, tx := txs[..|txs| - 1], txs[|txs| - 1];
    CreditsFit(m, rest)
    && BalanceOf(Debit(ApplyTransfers(m, rest), Sender(tx), Cost(tx)), tx.recipient) + tx.value < TWO64
  }

  lemma {:induction false} CreditsFitSame(m: AccountMap, n: AccountMap, txs: seq<Transfer>)
    requires SameBalances(m, n)
    ensures CreditsFit(m, txs) == CreditsFit(n, txs)
  {
    if txs != [] {
      var rest, tx := txs[..|txs| - 1], txs[|txs| - 1];
      CreditsFitSame(m, n, rest);
      ApplyTransfersSame(m, n, rest);
      DebitSame(ApplyTransfers(m, rest), ApplyTransfers(n, rest), Sender(tx), Cost(tx));
    }
  }

  /** Each lemma named so returns how many times 2^64 was lost to overflow: not once exactly if everything fits. */
  lemma TransferLoses(m: AccountMap, tx: Transfer)
    requires tx.value + tx.fee < TWO64
    ensures var fits := BalanceOf(Debit(m, Sender(tx), Cost(tx)), tx.recipient) + tx.value < TWO64;
            Total(ApplyTransfer(m, tx)) + (if fits then 0 else TWO64) == Total(m) - tx.fee + Shortfall(m, tx)
  {
    DebitTotal(m, tx);
    CreditTotal(Debit(m, Sender(tx), Cost(tx)), tx.recipient, tx.value);
  }

  lemma {:induction false} TransfersLose(m: AccountMap, txs: seq<Transfer>) returns (lost: nat)
    requires NoWrap(txs)
    ensures Total(ApplyTransfers(m, txs)) + FeeSum(txs) + lost * TWO64 == Total(m) + TransfersShortfall(m, txs)
    ensures lost == 0 <==> CreditsFit(m, txs)
  {
    lost := 0;
    if txs != [] {
      var rest, tx := txs[..|txs| - 1], txs[|txs| - 1];
      assert tx in txs;
      lost := TransfersLose(m, rest);
      TransferLoses(ApplyTransfers(m, rest), tx);
      if BalanceOf(Debit(ApplyTransfers(m, rest), Sender(tx), Cost(tx)), tx.recipient) + tx.value >= TWO64 {
        lost := lost + 1;
      }
    }
  }

  lemma {:induction false} FeesLose(txs: seq<Transfer>) returns (lost: nat)
    ensures FeeTotal(txs) + lost * TWO64 == FeeSum(txs)
    ensures lost == 0 <==> FeeSum(txs) < TWO64
  {
    lost := 0;
    if txs != [] {
      lost := FeesLose(txs[..|txs| - 1]);
      if FeeTotal(txs[..|txs| - 1]) + txs[|txs| - 1].fee >= TWO64 {
        lost := lost + 1;
      }
    }
  }

  /** Transfers that do not wrap move coins from balances to fees, with what the clamps forgave as the only excess,
      exactly if no credit overflows; none does while total and shortfall stay below 2^64. */
  lemma TransfersExact(m: AccountMap, txs: seq<Transfer>)
    requires NoWrap(txs)
    ensures Total(ApplyTransfers(m, txs)) + FeeSum(txs) == Total(m) + TransfersShortfall(m, txs) <==> CreditsFit(m, txs)
    ensures Total(m) + TransfersShortfall(m, txs) < TWO64 ==> CreditsFit(m, txs) && FeeTotal(txs) == FeeSum(txs)
  {
    var lost := TransfersLose(m, txs);
    var fees := FeesLose(txs);
  }

  /** They can overflow: twice the largest value, from an account that has nothing, to an empty one. */
  lemma CreditsOverflow(tx: Transfer)
    requires tx.value == TWO64 - 1 && tx.fee == 0 && tx.recipient != Sender(tx)
    ensures NoWrap([tx, tx]) && !CreditsFit(map[], [tx, tx])
  {
    assert [tx, tx][..1] == [tx] && [tx][..0] == [];
    assert ApplyTransfers(map[], [tx]) == ApplyTransfer(ApplyTransfers(map[], []), tx);
  }

  /** Transfers whose senders can pay leave no shortfall. */
  lemma {:induction false} PaidMeansNoShortfall(m: AccountMap, txs: seq<Transfer>)
    ensures TransfersShortfall(m, txs) == 0 <==> AllAffordable(m, txs)
  {
    if txs != [] {
      PaidMeansNoShortfall(m, txs[..|txs| - 1]);
    }
  }

  function RewardSum(chain: seq<LedgerBlock>): nat {
    if chain == [] then 0 else RewardSum(chain[..|chain| - 1]) + chain[|chain| - 1].reward
  }

  ghost predicate ChainNoWrap(chain: seq<LedgerBlock>) {
    chain == [] || (ChainNoWrap(chain[..|chain| - 1]) && NoWrap(chain[|chain| - 1].transfers))
  }

  /** No addition overflows when the block is applied: neither a transfer's credit, nor the sum of reward and
      fees, nor the miner's credit. */
  ghost predicate BlockFits(m: AccountMap, b: LedgerBlock) {
    && CreditsFit(m, b.transfers) && b.reward + FeeSum(b.transfers) < TWO64
    && (PaysMiner(b) ==> BalanceOf(ApplyTransfers(m, b.transfers), b.miner) + b.reward + FeeSum(b.transfers) < TWO64)
  }

  ghost predicate ReplayFits(chain: seq<LedgerBlock>) {
    chain == [] || (ReplayFits(chain[..|chain| - 1]) && BlockFits(Replay(chain[..|chain| - 1]), chain[|chain| - 1]))
  }

  lemma BlockFitsSame(m: AccountMap, n: AccountMap, b: LedgerBlock)
    requires SameBalances(m, n)
    ensures BlockFits(m, b) == BlockFits(n, b)
  {
    CreditsFitSame(m, n, b.transfers);
    ApplyTransfersSame(m, n, b.transfers);
  }

  lemma MinerLoses(m: AccountMap, b: LedgerBlock) returns (lost: nat)
    ensures var amount := MinerCredit(b.reward, b.transfers);
            Total(if PaysMiner(b) then PayMiner(m, b.miner, amount) else m) + Unpaid(b) + lost * TWO64
            == Total(m) + b.reward + FeeSum(b.transfers)
    ensures lost == 0 <==>
              && b.reward + FeeSum(b.transfers) < TWO64
              && (PaysMiner(b) ==> BalanceOf(m, b.miner) + b.reward + FeeSum(b.transfers) < TWO64)
  {
    var amount := MinerCredit(b.reward, b.transfers);
    lost := FeesLose(b.transfers);
    CreditTotal(m, b.miner, amount);
    hide FeeSum, FeeTotal, Total, Credit;
    if b.reward + FeeTotal(b.transfers) >= TWO64 {
      lost := lost + 1;
    }
    if PaysMiner(b) && BalanceOf(m, b.miner) + amount >= TWO64 {
      lost := lost + 1;
    }
  }

  lemma BlockLoses(m: AccountMap, b: LedgerBlock) returns (lost: nat)
    requires NoWrap(b.transfers)
    ensures Total(ApplyBlock(m, b)) + Unpaid(b) + lost * TWO64
         == Total(m) + b.reward + TransfersShortfall(m, b.transfers)
    ensures lost == 0 <==> BlockFits(m, b)
  {
    lost := TransfersLose(m, b.transfers);
    var more := MinerLoses(ApplyTransfers(m, b.transfers), b);
    lost := lost + more;
  }

  lemma {:induction false} ChainLoses(chain: seq<LedgerBlock>) returns (lost: nat)
    requires ChainNoWrap(chain)
    ensures Total(Replay(chain)) + Uncredited(chain) + lost * TWO64 == RewardSum(chain) + ChainShortfall(chain)
    ensures lost == 0 <==> ReplayFits(chain)
  {
    lost := 0;
    if chain != [] {
      hide BlockFits, ApplyBlock, NoWrap, TransfersShortfall, Unpaid;
      lost := ChainLoses(chain[..|chain| - 1]);
      var more := BlockLoses(Replay(chain[..|chain| - 1]), chain[|chain| - 1]);
      lost := lost + more;
    }
  }

  lemma {:induction false} SupplyIsSum(chain: seq<LedgerBlock>)
    requires RewardSum(chain) < TWO64
    ensures CirculatingSupply(chain) == RewardSum(chain)
  {
    if chain != [] {
      SupplyIsSum(chain[..|chain| - 1]);
    }
  }

  /** On a chain whose transfers do not wrap, balances plus uncredited coins exceed the issued coins by exactly
      the shortfall the clamps forgave, if and only if no addition of the replay overflows; none does while
      issued coins and shortfall stay below 2^64. */
  lemma ConservationExact(chain: seq<LedgerBlock>)
    requires ChainNoWrap(chain)
    ensures Total(Replay(chain)) + Uncredited(chain) == RewardSum(chain) + ChainShortfall(chain) <==> ReplayFits(chain)
    ensures RewardSum(chain) + ChainShortfall(chain) < TWO64 ==> ReplayFits(chain)
    ensures RewardSum(chain) < TWO64 ==> CirculatingSupply(chain) == RewardSum(chain)
  {
    var lost := ChainLoses(chain);
    if RewardSum(chain) < TWO64 {
      SupplyIsSum(chain);
    }
  }
}
