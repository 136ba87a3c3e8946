/** Running a block's transactions (core/state_processor.go) and filling a new block (miner/worker.go). */
module BlockExecution {
  import opened Basics
  import opened Uint64
  import opened Gas
  import opened Ledger
  import opened StateTransition

  datatype Receipt = Receipt(txHash: nat, gasUsed: nat, cumulativeGasUsed: nat, failed: bool)

  // -------------------------------------------------------------- specification

  /** Rules of a block being executed for real: a base fee exactly from London on, and no fee exemptions. */
  ghost predicate BlockRules(rules: Rules) {
    (rules.isLondon <==> rules.baseFee.Some?) && !rules.noBaseFee
  }

  /** What every unit of used gas removes from circulation in this block. */
  ghost function Burn(rules: Rules): nat {
    if rules.baseFee.Some? then rules.baseFee.value else 0
  }

  ghost predicate EncodableTx(tx: Transaction) {
    tx.gas <= MAX_UINT64 && tx.nonce <= MAX_UINT64 && |tx.data| <= MAX_UINT64
  }

  ghost predicate AllEncodable(txs: seq<Transaction>) {
    forall j | 0 <= j < |txs| :: EncodableTx(txs[j])
  }

  /** The message of a transaction whose sender could be recovered. */
  ghost function MessageOf(tx: Transaction, rules: Rules): (m: Message)
    requires tx.sender.Some? && EncodableTx(tx) && BlockRules(rules)
    ensures Priced(m, rules) && m.gasLimit == tx.gas && BurnPrice(m, rules) == Burn(rules)
  {
    TransactionToMessage(tx, rules.baseFee).value
  }

  /** How far a block has been executed; `created` sums up what the EVM did to the total of all balances. */
  datatype Progress = Progress(world: World, left: nat, used: nat, receipts: seq<Receipt>, created: int)

  ghost predicate Applicable(world: World, left: nat, tx: Transaction, rules: Rules)
    requires EncodableTx(tx) && BlockRules(rules)
  {
    tx.sender.Some? && Accepted(MessageOf(tx, rules), rules, world, left)
  }

  /** A transaction whose sender has moved past it. */
  ghost predicate StaleTx(world: World, tx: Transaction) {
    tx.sender.Some? && NonceOf(world, tx.sender.value) > tx.nonce
  }

  /** One more transaction, if it is acceptable in this place. */
  ghost function Applied(p: Progress, tx: Transaction, rules: Rules, evm: Evm): Option<Progress>
    requires EncodableTx(tx) && BlockRules(rules) && Frugal(evm)
  {
    if !Applicable(p.world, p.left, tx, rules) then None else
      var m := MessageOf(tx, rules);
      var o := Ran(m, rules, p.world, p.left, evm);
      var c := Charge(o, m.gasLimit, rules);
      Some(Progress(Final(m, rules, o), p.left - c, p.used + c,
                    p.receipts + [Receipt(tx.hash, c, p.used + c, o.failed)],
                    p.created + EvmDelta(m, p.world, o)))
  }

  /** All the transactions in order, if each is acceptable in its place. */
  ghost function Executed(p: Progress, txs: seq<Transaction>, rules: Rules, evm: Evm): Option<Progress>
    requires AllEncodable(txs) && BlockRules(rules) && Frugal(evm)
    decreases |txs|
  {
    if txs == [] then Some(p) else
      var q := Applied(p, txs[0], rules, evm);
      if q.None? then None else Executed(q.value, txs[1..], rules, evm)
  }

  function Start(world: World, gasLimit: nat): Progress {
    Progress(world, gasLimit, 0, [], 0)
  }

  lemma {:induction false} ExecutedMore(p: Progress, txs: seq<Transaction>, tx: Transaction, rules: Rules, evm: Evm)
    requires AllEncodable(txs) && EncodableTx(tx) && BlockRules(rules) && Frugal(evm)
    requires Executed(p, txs, rules, evm).Some?
    ensures AllEncodable(txs + [tx])
    ensures Executed(p, txs + [tx], rules, evm) == Applied(Executed(p, txs, rules, evm).value, tx, rules, evm)
    decreases |txs|
  {
    if txs == [] {
      assert txs + [tx] == [tx];
    } else {
      assert (txs + [tx])[1..] == txs[1..] + [tx];
      ExecutedMore(Applied(p, txs[0], rules, evm).value, txs[1..], tx, rules, evm);
    }
  }

  // ----------------------------------------------------------------- properties

  /** Each receipt's cumulative gas is its predecessor's plus its own, and the last one's is `used`. */
  ghost predicate Tallied(receipts: seq<Receipt>, used: nat) {
    && (receipts == [] ==> used == 0)
    && (receipts != [] ==> used == receipts[|receipts| - 1].cumulativeGasUsed)
    && (receipts != [] ==> receipts[0].cumulativeGasUsed == receipts[0].gasUsed)
    && forall i, j | 0 <= i < |receipts| && 0 <= j < |receipts| && i == j + 1 ::
         receipts[i].cumulativeGasUsed == receipts[j].cumulativeGasUsed + receipts[i].gasUsed
  }

  /** The accounts of a block in progress: the pool and the gas used make up the limit, the receipts add up to the gas
      used, and the total of all balances has changed by what the EVM did minus the base fee of the gas used. */
  ghost predicate InBalance(limit: nat, start: World, p: Progress, rules: Rules) {
    && p.left + p.used == limit
    && Tallied(p.receipts, p.used)
    && Total(p.world.balances) == Total(start.balances) + p.created - Wei(p.used, Burn(rules))
  }

  lemma WeiAdds(a: nat, b: nat, price: nat)
    ensures Wei(a + b, price) == Wei(a, price) + Wei(b, price)
  {
  }

  lemma InBalanceNext(limit: nat, start: World, p: Progress, tx: Transaction, rules: Rules, evm: Evm)
    requires InBalance(limit, start, p, rules) && EncodableTx(tx) && BlockRules(rules) && Frugal(evm)
             && Applicable(p.world, p.left, tx, rules)
    ensures InBalance(limit, start, Applied(p, tx, rules, evm).value, rules)
  {
    var m := MessageOf(tx, rules);
    var o := Ran(m, rules, p.world, p.left, evm);
    WeiConserved(m, rules, p.world, o);
    WeiAdds(p.used, Charge(o, m.gasLimit, rules), Burn(rules));
  }

  /** Whatever transactions a block runs, in whatever order and with whatever EVM, its accounts are in balance. */
  lemma {:induction false} ExecutionInBalance(limit: nat, start: World, p: Progress, txs: seq<Transaction>,
                                              rules: Rules, evm: Evm)
    requires InBalance(limit, start, p, rules) && AllEncodable(txs) && BlockRules(rules) && Frugal(evm)
    requires Executed(p, txs, rules, evm).Some?
    ensures InBalance(limit, start, Executed(p, txs, rules, evm).value, rules)
    decreases |txs|
  {
    if txs != [] {
      InBalanceNext(limit, start, p, txs[0], rules, evm);
      ExecutionInBalance(limit, start, Applied(p, txs[0], rules, evm).value, txs[1..], rules, evm);
    }
  }

  /** An EVM that neither creates nor destroys wei. */
  ghost predicate Conserving(evm: Evm) {
    forall m, w, g {:trigger evm(m, w, g)} :: Total(evm(m, w, g).world.balances) == Total(w.balances)
  }

  /** With a conserving EVM, all that a block takes out of circulation is the base fee of the gas it uses. */
  lemma {:induction false} NothingCreated(p: Progress, txs: seq<Transaction>, rules: Rules, evm: Evm)
    requires AllEncodable(txs) && BlockRules(rules) && Frugal(evm) && Conserving(evm)
             && Executed(p, txs, rules, evm).Some?
    ensures Executed(p, txs, rules, evm).value.created == p.created
    decreases |txs|
  {
    if txs != [] {
      var m := MessageOf(txs[0], rules);
      Affordable(m, rules, p.world, p.left);
      EvmStart(m, p.world);
      NothingCreated(Applied(p, txs[0], rules, evm).value, txs[1..], rules, evm);
    }
  }

  /** So the total of all balances at the end of a block is that at its start minus the base fee of the gas used. */
  lemma BlockBurns(world: World, gasLimit: nat, txs: seq<Transaction>, rules: Rules, evm: Evm)
    requires AllEncodable(txs) && BlockRules(rules) && Frugal(evm) && Conserving(evm)
             && Executed(Start(world, gasLimit), txs, rules, evm).Some?
    ensures var q := Executed(Start(world, gasLimit), txs, rules, evm).value;
            Total(q.world.balances) == Total(world.balances) - Wei(q.used, Burn(rules))
  {
    NothingCreated(Start(world, gasLimit), txs, rules, evm);
    ExecutionInBalance(gasLimit, world, Start(world, gasLimit), txs, rules, evm);
  }

  /** The intrinsic gas is not zero, which it could only be after wrapping around 64 bits. */
  ghost predicate Priceable(tx: Transaction, rules: Rules)
    requires tx.sender.Some? && EncodableTx(tx) && BlockRules(rules)
  {
    Wrap(IntrinsicCost(MessageOf(tx, rules), rules)) > 0
  }

  ghost predicate Answers(receipt: Receipt, tx: Transaction, rules: Rules)
    requires EncodableTx(tx) && BlockRules(rules)
  {
    tx.sender.Some? && receipt.txHash == tx.hash && (Priceable(tx, rules) ==> receipt.gasUsed > 0)
  }

  lemma {:induction false} ReceiptsGrow(p: Progress, txs: seq<Transaction>, rules: Rules, evm: Evm)
    requires AllEncodable(txs) && BlockRules(rules) && Frugal(evm) && Executed(p, txs, rules, evm).Some?
    ensures p.receipts <= Executed(p, txs, rules, evm).value.receipts
    ensures |Executed(p, txs, rules, evm).value.receipts| == |p.receipts| + |txs|
    decreases |txs|
  {
    if txs != [] { ReceiptsGrow(Applied(p, txs[0], rules, evm).value, txs[1..], rules, evm); }
  }

  lemma NextReceipt(p: Progress, next: Progress, q: Progress, txs: seq<Transaction>, rules: Rules, i: nat)
    requires 0 < i < |txs| && AllEncodable(txs) && BlockRules(rules) && |next.receipts| == |p.receipts| + 1
    requires |q.receipts| == |p.receipts| + |txs|
    requires Answers(q.receipts[|next.receipts| + (i - 1)], txs[1..][i - 1], rules)
    ensures Answers(q.receipts[|p.receipts| + i], txs[i], rules)
  {
    assert |next.receipts| + (i - 1) == |p.receipts| + i;
  }

  lemma ReceiptCharged(p: Progress, tx: Transaction, rules: Rules, evm: Evm)
    requires EncodableTx(tx) && BlockRules(rules) && Frugal(evm) && Applicable(p.world, p.left, tx, rules)
    ensures Answers(Applied(p, tx, rules, evm).value.receipts[|p.receipts|], tx, rules)
  {
    var m := MessageOf(tx, rules);
    var o := Ran(m, rules, p.world, p.left, evm);
    if o.gasLeft < m.gasLimit { ChargePositive(o, m.gasLimit, rules); }
  }

  lemma FirstReceipt(p: Progress, txs: seq<Transaction>, rules: Rules, evm: Evm)
    requires AllEncodable(txs) && BlockRules(rules) && Frugal(evm) && Executed(p, txs, rules, evm).Some? && txs != []
    ensures var q := Executed(p, txs, rules, evm).value;
            |p.receipts| < |q.receipts| && Answers(q.receipts[|p.receipts|], txs[0], rules)
  {
    ReceiptsGrow(Applied(p, txs[0], rules, evm).value, txs[1..], rules, evm);
    ReceiptCharged(p, txs[0], rules, evm);
  }

  /** Every transaction has a receipt in its place, and is charged something if its intrinsic gas is not zero. */
  lemma {:induction false} ReceiptsAnswer(p: Progress, txs: seq<Transaction>, rules: Rules, evm: Evm, i: nat)
    requires AllEncodable(txs) && BlockRules(rules) && Frugal(evm) && Executed(p, txs, rules, evm).Some? && i < |txs|
    ensures var q := Executed(p, txs, rules, evm).value;
            |q.receipts| == |p.receipts| + |txs| && Answers(q.receipts[|p.receipts| + i], txs[i], rules)
    decreases |txs|
  {
    ReceiptsGrow(p, txs, rules, evm);
    if i > 0 {
      var next := Applied(p, txs[0], rules, evm).value;
      ReceiptsAnswer(next, txs[1..], rules, evm, i - 1);
      NextReceipt(p, next, Executed(p, txs, rules, evm).value, txs, rules, i);
    } else {
      FirstReceipt(p, txs, rules, evm);
    }
  }

  /** The transaction was accepted in the state `q`, and the receipt tells what it was charged and whether it failed. */
  ghost predicate Tells(receipt: Receipt, q: Progress, tx: Transaction, rules: Rules, evm: Evm)
    requires EncodableTx(tx) && BlockRules(rules) && Frugal(evm)
  {
    && Applicable(q.world, q.left, tx, rules)
    && var o := Ran(MessageOf(tx, rules), rules, q.world, q.left, evm);
       receipt.failed == o.failed && receipt.gasUsed == Charge(o, tx.gas, rules)
  }

  lemma FirstTells(p: Progress, txs: seq<Transaction>, rules: Rules, evm: Evm)
    requires AllEncodable(txs) && BlockRules(rules) && Frugal(evm) && Executed(p, txs, rules, evm).Some? && txs != []
    ensures |Executed(p, txs, rules, evm).value.receipts| == |p.receipts| + |txs|
    ensures Tells(Executed(p, txs, rules, evm).value.receipts[|p.receipts|], p, txs[0], rules, evm)
  {
    ReceiptsGrow(Applied(p, txs[0], rules, evm).value, txs[1..], rules, evm);
  }

  /** Executing a block is executing a first part and then, from there, the rest. */
  lemma {:induction false} ExecutedParts(p: Progress, txs: seq<Transaction>, rules: Rules, evm: Evm, n: nat)
    requires AllEncodable(txs) && BlockRules(rules) && Frugal(evm) && Executed(p, txs, rules, evm).Some? && n <= |txs|
    ensures Executed(p, txs[..n], rules, evm).Some?
    ensures Executed(Executed(p, txs[..n], rules, evm).value, txs[n..], rules, evm) == Executed(p, txs, rules, evm)
    decreases |txs|
  {
    if n > 0 {
      ExecutedParts(Applied(p, txs[0], rules, evm).value, txs[1..], rules, evm, n - 1);
      assert txs[..n][1..] == txs[1..][..n - 1] && txs[1..][n - 1..] == txs[n..];
    }
  }

  lemma TellsAt(p: Progress, q: Progress, receipts: seq<Receipt>, txs: seq<Transaction>, rules: Rules, evm: Evm, i: nat)
    requires AllEncodable(txs) && BlockRules(rules) && Frugal(evm) && i < |txs|
    requires |q.receipts| == |p.receipts| + i < |receipts| && Tells(receipts[|q.receipts|], q, txs[i..][0], rules, evm)
    ensures Tells(receipts[|p.receipts| + i], q, txs[i], rules, evm)
  {
  }

  lemma SplitAt(p: Progress, txs: seq<Transaction>, rules: Rules, evm: Evm, i: nat) returns (q: Progress)
    requires AllEncodable(txs) && BlockRules(rules) && Frugal(evm) && Executed(p, txs, rules, evm).Some? && i < |txs|
    ensures Executed(p, txs[..i], rules, evm) == Some(q) && |q.receipts| == |p.receipts| + i
    ensures Executed(q, txs[i..], rules, evm) == Executed(p, txs, rules, evm)
  {
    ExecutedParts(p, txs, rules, evm, i);
    ReceiptsGrow(p, txs[..i], rules, evm);
    q := Executed(p, txs[..i], rules, evm).value;
  }

  /** Every receipt tells what its transaction was charged and whether it failed, run in the state `q` that the
      transactions before it left. */
  lemma ReceiptTells(p: Progress, txs: seq<Transaction>, rules: Rules, evm: Evm, i: nat) returns (q: Progress)
    requires AllEncodable(txs) && BlockRules(rules) && Frugal(evm) && Executed(p, txs, rules, evm).Some? && i < |txs|
    ensures Executed(p, txs[..i], rules, evm) == Some(q)
    ensures |Executed(p, txs, rules, evm).value.receipts| == |p.receipts| + |txs|
    ensures Tells(Executed(p, txs, rules, evm).value.receipts[|p.receipts| + i], q, txs[i], rules, evm)
  {
    q := SplitAt(p, txs, rules, evm, i);
    FirstTells(q, txs[i..], rules, evm);
    TellsAt(p, q, Executed(p, txs, rules, evm).value.receipts, txs, rules, evm, i);
  }

  ghost predicate AllCharged(receipts: seq<Receipt>) {
    forall i | 0 <= i < |receipts| :: receipts[i].gasUsed > 0
  }

  lemma {:induction false} CumulativeBelow(receipts: seq<Receipt>, used: nat, j: nat)
    requires Tallied(receipts, used) && j < |receipts|
    ensures receipts[j].cumulativeGasUsed <= used
    decreases |receipts| - j
  {
    if j + 1 < |receipts| { CumulativeBelow(receipts, used, j + 1); }
  }

  /** Cumulative gas is strictly increasing. */
  lemma {:induction false} CumulativeIncreases(receipts: seq<Receipt>, used: nat, i: nat, j: nat)
    requires Tallied(receipts, used) && AllCharged(receipts) && i < j < |receipts|
    ensures receipts[i].cumulativeGasUsed < receipts[j].cumulativeGasUsed <= used
    decreases j
  {
    assert receipts[j].cumulativeGasUsed == receipts[j - 1].cumulativeGasUsed + receipts[j].gasUsed;
    if i + 1 < j { CumulativeIncreases(receipts, used, i, j - 1); }
    CumulativeBelow(receipts, used, j);
  }

  ghost predicate AllPriceable(txs: seq<Transaction>, rules: Rules)
    requires AllEncodable(txs) && BlockRules(rules)
  {
    forall i | 0 <= i < |txs| && txs[i].sender.Some? :: Priceable(txs[i], rules)
  }

  /** Every receipt of a block whose transactions all have a price is charged, so its cumulative gas is strictly
      increasing up to the gas used. */
  lemma BlockCumulative(world: World, gasLimit: nat, txs: seq<Transaction>, rules: Rules, evm: Evm, i: nat, j: nat)
    requires AllEncodable(txs) && BlockRules(rules) && Frugal(evm) && AllPriceable(txs, rules) && i < j < |txs|
    requires Executed(Start(world, gasLimit), txs, rules, evm).Some?
    ensures var q := Executed(Start(world, gasLimit), txs, rules, evm).value;
            && |q.receipts| == |txs|
            && q.receipts[i].cumulativeGasUsed < q.receipts[j].cumulativeGasUsed <= q.used
  {
    var p := Start(world, gasLimit);
    var q := Executed(p, txs, rules, evm).value;
    ReceiptsGrow(p, txs, rules, evm);
    forall k | 0 <= k < |q.receipts| ensures q.receipts[k].gasUsed > 0 { ReceiptsAnswer(p, txs, rules, evm, k); }
    ExecutionInBalance(gasLimit, world, p, txs, rules, evm);
    CumulativeIncreases(q.receipts, q.used, i, j);
  }

  /** An EVM that never lowers a nonce, and raises the sender's when it creates a contract. */
  ghost predicate Forward(evm: Evm) {
    forall m, w, g, a {:trigger NonceOf(evm(m, w, g).world, a)} ::
      && NonceOf(evm(m, w, g).world, a) >= NonceOf(w, a)
      && (m.to.None? && a == m.from ==> NonceOf(evm(m, w, g).world, a) > NonceOf(w, a))
  }

  /** A transaction is applied at its sender's nonce and leaves a higher one; no nonce falls. */
  lemma NonceSpent(p: Progress, tx: Transaction, rules: Rules, evm: Evm, a: Address)
    requires EncodableTx(tx) && BlockRules(rules) && Frugal(evm) && Forward(evm)
    requires Applicable(p.world, p.left, tx, rules)
    ensures var q := Applied(p, tx, rules, evm).value;
            && NonceOf(q.world, a) >= NonceOf(p.world, a)
            && (tx.sender == Some(a) ==> NonceOf(p.world, a) == tx.nonce < NonceOf(q.world, a))
  {
    var m := MessageOf(tx, rules);
    MessageKeeps(tx, rules.baseFee);
    var o := Ran(m, rules, p.world, p.left, evm);
    Affordable(m, rules, p.world, p.left);
    NoncedIs(m, Bought(m, p.world), a);
    FinalKeepsNonces(m, rules, o, a);
    var g := m.gasLimit - Wrap(IntrinsicCost(m, rules));
    assert NonceOf(evm(m, Nonced(m, Bought(m, p.world)), g).world, a) >= NonceOf(p.world, a);
  }

  lemma {:induction false} NonceFloor(p: Progress, txs: seq<Transaction>, rules: Rules, evm: Evm, j: nat, n: nat)
    requires AllEncodable(txs) && BlockRules(rules) && Frugal(evm) && Forward(evm) && j < |txs|
    requires Executed(p, txs, rules, evm).Some? && txs[j].sender.Some? && NonceOf(p.world, txs[j].sender.value) >= n
    ensures txs[j].nonce >= n
    decreases |txs|
  {
    var a := txs[j].sender.value;
    NonceSpent(p, txs[0], rules, evm, a);
    if j > 0 {
      assert txs[1..][j - 1] == txs[j];
      NonceFloor(Applied(p, txs[0], rules, evm).value, txs[1..], rules, evm, j - 1, n);
    }
  }

  lemma ReplayFirst(p: Progress, txs: seq<Transaction>, rules: Rules, evm: Evm, j: nat)
    requires AllEncodable(txs) && BlockRules(rules) && Frugal(evm) && Forward(evm) && 0 < j < |txs|
    requires Executed(p, txs, rules, evm).Some? && txs[0].sender.Some? && txs[0].sender == txs[j].sender
    ensures txs[0].nonce < txs[j].nonce
  {
    NonceSpent(p, txs[0], rules, evm, txs[0].sender.value);
    assert txs[1..][j - 1] == txs[j];
    NonceFloor(Applied(p, txs[0], rules, evm).value, txs[1..], rules, evm, j - 1, txs[0].nonce + 1);
  }

  /** No transaction can be replayed: in every executed block, a sender's nonces are strictly increasing. */
  lemma NoReplay(p: Progress, txs: seq<Transaction>, rules: Rules, evm: Evm, i: nat, j: nat)
    requires AllEncodable(txs) && BlockRules(rules) && Frugal(evm) && Forward(evm) && i < j < |txs|
    requires Executed(p, txs, rules, evm).Some? && txs[i].sender.Some? && txs[i].sender == txs[j].sender
    ensures txs[i].nonce < txs[j].nonce
  {
    var q := SplitAt(p, txs, rules, evm, i);
    ReplayFirst(q, txs[i..], rules, evm, j - i);
  }

  // ----------------------------------------------------------- one transaction

  /** Applies one transaction on top of the progress `p`.  It succeeds exactly where the specification does, and with
      its result; on failure the total is left alone and the pool may be short of at most the gas limit. */
  method ApplyTransaction(tx: Transaction, rules: Rules, gp: GasPool, world: World, usedGas: nat, evm: Evm,
                          ghost p: Progress)
    returns (r: Result<Receipt>, world': World, usedGas': nat)
    requires gp.Valid() && EncodableTx(tx) && BlockRules(rules) && Frugal(evm)
    requires p.world == world && p.left == gp.gas && p.used == usedGas
    modifies gp
    ensures gp.Valid()
    ensures r.Ok? <==> Applied(p, tx, rules, evm).Some?
    ensures r.Err? ==> (r.error == NONCE_TOO_LOW <==> StaleTx(world, tx))
    ensures r.Err? ==> usedGas' == usedGas && (gp.gas == old(gp.gas) || gp.gas == old(gp.gas) - tx.gas)
    ensures r.Ok? ==> var q := Applied(p, tx, rules, evm).value;
      world' == q.world && gp.gas == q.left && usedGas' == q.used && q.receipts == p.receipts + [r.value]
  {
    world', usedGas' := world, usedGas;
    var msg := TransactionToMessage(tx, rules.baseFee);
    if msg.Err? { return Err(msg.error), world', usedGas'; }
    assert msg.value == MessageOf(tx, rules);
    var st := new StateTransition(msg.value, rules, gp, world);
    var result := st.TransitionDb(evm);
    world' := st.world;
    if result.Err? { return Err(result.error), world', usedGas'; }
    usedGas' := usedGas + result.value.usedGas;
    r := Ok(Receipt(tx.hash, result.value.usedGas, usedGas', result.value.failed));
  }

  // ---------------------------------------------------------------- a whole block

  datatype Processed = Processed(receipts: seq<Receipt>, usedGas: nat, world: World, gasLeft: nat)

  ghost predicate Reports(r: Processed, p: Progress) {
    r == Processed(p.receipts, p.used, p.world, p.left)
  }

  /** Runs all transactions of a block, or fails with the first one that cannot be applied: it succeeds exactly where
      the specification does, and with its result. */
  method Process(txs: seq<Transaction>, gasLimit: nat, world: World, rules: Rules, evm: Evm)
    returns (r: Result<Processed>)
    requires gasLimit <= MAX_UINT64 && BlockRules(rules) && Frugal(evm) && AllEncodable(txs)
    ensures r.Ok? <==> Executed(Start(world, gasLimit), txs, rules, evm).Some?
    ensures r.Ok? ==> Reports(r.value, Executed(Start(world, gasLimit), txs, rules, evm).value)
  {
    var gp := new GasPool();
    gp.AddGas(gasLimit);
    var receipts, state := [], world;
    var usedGas: nat := 0;
    ghost var p := Start(world, gasLimit);
    var i := 0;
    while i < |txs|
      invariant 0 <= i <= |txs| && gp.Valid() && fresh(gp)
      invariant Reports(Processed(receipts, usedGas, state, gp.gas), p)
      invariant Executed(p, txs[i..], rules, evm) == Executed(Start(world, gasLimit), txs, rules, evm)
    {
      assert txs[i..][0] == txs[i] && txs[i..][1..] == txs[i + 1..];
      var receipt;
      receipt, state, usedGas := ApplyTransaction(txs[i], rules, gp, state, usedGas, evm, p);
      if receipt.Err? { return Err(receipt.error); }
      receipts := receipts + [receipt.value];
      p := Applied(p, txs[i], rules, evm).value;
      i := i + 1;
    }
    r := Ok(Processed(receipts, usedGas, state, gp.gas));
  }

  // ------------------------------------------------------------------ the miner

  /** The pending transactions by sender, each list in nonce order. */
  type Pending = seq<seq<Transaction>>

  function Count(p: Pending): nat {
    if p == [] then 0 else |p[0]| + Count(p[1..])
  }

  /** Drops the `k`-th element, which is the rest of a sender's transactions. */
  function Pop<T>(p: seq<T>, k: nat): seq<T>
    requires k < |p|
  {
    p[..k] + p[k + 1..]
  }

  /** Replaces the `k`-th sender's transaction by its next one, if there is one that pays its way. */
  function Shift(p: Pending, k: nat, nextPays: bool): Pending
    requires k < |p|
  {
    if |p[k]| > 1 && nextPays then p[k := p[k][1..]] else Pop(p, k)
  }

  lemma {:induction false} PopCounts(p: Pending, k: nat)
    requires k < |p|
    ensures Count(Pop(p, k)) == Count(p) - |p[k]|
  {
    if k == 0 {
      assert Pop(p, 0) == p[1..];
    } else {
      PopCounts(p[1..], k - 1);
      assert Pop(p, k)[1..] == Pop(p[1..], k - 1);
    }
  }

  lemma {:induction false} ReplaceCounts(p: Pending, k: nat, l: seq<Transaction>)
    requires k < |p|
    ensures Count(p[k := l]) == Count(p) - |p[k]| + |l|
  {
    if k == 0 {
      assert p[0 := l][1..] == p[1..];
    } else {
      ReplaceCounts(p[1..], k - 1, l);
      assert p[k := l][1..] == p[1..][k - 1 := l];
    }
  }

  /** Every sender has something pending, and all of it can be encoded. */
  ghost predicate WellFormed(p: Pending) {
    forall i | 0 <= i < |p| :: p[i] != [] && AllEncodable(p[i])
  }

  lemma PopShrinks(p: Pending, k: nat)
    requires k < |p| && WellFormed(p)
    ensures WellFormed(Pop(p, k)) && Count(Pop(p, k)) < Count(p)
  {
    PopCounts(p, k);
    assert p[k] != [];
  }

  lemma ShiftShrinks(p: Pending, k: nat, nextPays: bool)
    requires k < |p| && WellFormed(p)
    ensures WellFormed(Shift(p, k, nextPays)) && Count(Shift(p, k, nextPays)) < Count(p)
  {
    if |p[k]| > 1 && nextPays { ReplaceCounts(p, k, p[k][1..]); } else { PopShrinks(p, k); }
  }

  // ---------------------------------------------- where transactions come from

  /** A place in the pending lists. */
  datatype Pick = Pick(sender: nat, index: nat)

  /** The lists still pending are tails of different lists of `pending`, the `k`-th one starting at `next[k]`. */
  ghost predicate Lined(pending: Pending, rest: Pending, next: seq<Pick>) {
    && |next| == |rest|
    && (forall k | 0 <= k < |rest| ::
          && next[k].sender < |pending| && next[k].index <= |pending[next[k].sender]|
          && rest[k] == pending[next[k].sender][next[k].index..])
    && (forall k, l | 0 <= k < l < |rest| :: next[k].sender != next[l].sender)
  }

  /** The committed transactions are those at `picks`: from each sender a subsequence of its list. */
  ghost predicate Picked(pending: Pending, committed: seq<Transaction>, picks: seq<Pick>) {
    && |picks| == |committed|
    && (forall i | 0 <= i < |picks| ::
          && picks[i].sender < |pending| && picks[i].index < |pending[picks[i].sender]|
          && committed[i] == pending[picks[i].sender][picks[i].index])
    && (forall i, j | 0 <= i < j < |picks| && picks[i].sender == picks[j].sender :: picks[i].index < picks[j].index)
  }

  ghost predicate Ahead(picks: seq<Pick>, next: seq<Pick>) {
    forall i, k | 0 <= i < |picks| && 0 <= k < |next| && picks[i].sender == next[k].sender ::
      picks[i].index < next[k].index
  }

  lemma AheadMore(picks: seq<Pick>, next: seq<Pick>, pick: Pick)
    requires Ahead(picks, next)
    requires forall l | 0 <= l < |next| && next[l].sender == pick.sender :: pick.index < next[l].index
    ensures Ahead(picks + [pick], next)
  {
  }

  ghost predicate Drawn(pending: Pending, rest: Pending, next: seq<Pick>, committed: seq<Transaction>,
                        picks: seq<Pick>) {
    Lined(pending, rest, next) && Picked(pending, committed, picks) && Ahead(picks, next)
  }

  lemma DrawnPop(pending: Pending, rest: Pending, next: seq<Pick>, committed: seq<Transaction>, picks: seq<Pick>,
                 k: nat)
    requires Drawn(pending, rest, next, committed, picks) && k < |rest|
    ensures Drawn(pending, Pop(rest, k), Pop(next, k), committed, picks)
  {
    forall i, l | 0 <= i < |picks| && 0 <= l < |Pop(next, k)| && picks[i].sender == Pop(next, k)[l].sender
      ensures picks[i].index < Pop(next, k)[l].index
    {
      assert Pop(next, k)[l] == next[if l < k then l else l + 1];
    }
  }

  ghost function ShiftNext(rest: Pending, next: seq<Pick>, k: nat, nextPays: bool): seq<Pick>
    requires k < |rest| == |next|
  {
    if |rest[k]| > 1 && nextPays then next[k := next[k].(index := next[k].index + 1)] else Pop(next, k)
  }

  lemma DrawnShift(pending: Pending, rest: Pending, next: seq<Pick>, committed: seq<Transaction>, picks: seq<Pick>,
                   k: nat, nextPays: bool)
    requires Drawn(pending, rest, next, committed, picks) && k < |rest|
    ensures Drawn(pending, Shift(rest, k, nextPays), ShiftNext(rest, next, k, nextPays), committed, picks)
  {
    if !(|rest[k]| > 1 && nextPays) { DrawnPop(pending, rest, next, committed, picks, k); }
  }

  lemma PickedMore(pending: Pending, rest: Pending, next: seq<Pick>, committed: seq<Transaction>, picks: seq<Pick>,
                   k: nat)
    requires Drawn(pending, rest, next, committed, picks) && k < |rest| && rest[k] != []
    ensures Picked(pending, committed + [rest[k][0]], picks + [next[k]])
  {
    assert rest[k] == pending[next[k].sender][next[k].index..];
  }

  /** The place taken is behind the sender's next one, wherever that is. */
  lemma ShiftPasses(rest: Pending, next: seq<Pick>, k: nat, nextPays: bool, l: nat)
    requires k < |rest| == |next| && l < |ShiftNext(rest, next, k, nextPays)|
    requires forall i, j | 0 <= i < j < |next| :: next[i].sender != next[j].sender
    requires ShiftNext(rest, next, k, nextPays)[l].sender == next[k].sender
    ensures next[k].index < ShiftNext(rest, next, k, nextPays)[l].index
  {
    if !(|rest[k]| > 1 && nextPays) {
      assert ShiftNext(rest, next, k, nextPays)[l] == next[if l < k then l else l + 1];
    }
  }

  /** Committing the first transaction of the `k`-th list, and moving on. */
  lemma DrawnCommit(pending: Pending, rest: Pending, next: seq<Pick>, committed: seq<Transaction>, picks: seq<Pick>,
                    k: nat, nextPays: bool)
    requires Drawn(pending, rest, next, committed, picks) && k < |rest| && rest[k] != []
    ensures Drawn(pending, Shift(rest, k, nextPays), ShiftNext(rest, next, k, nextPays), committed + [rest[k][0]],
            picks + [next[k]])
  {
    DrawnShift(pending, rest, next, committed, picks, k, nextPays);
    PickedMore(pending, rest, next, committed, picks, k);
    var next' := ShiftNext(rest, next, k, nextPays);
    forall l | 0 <= l < |next'| && next'[l].sender == next[k].sender ensures next[k].index < next'[l].index {
      ShiftPasses(rest, next, k, nextPays, l);
    }
    AheadMore(picks, next', next[k]);
  }

  /** What became of a transaction. */
  datatype Fate = Committed | NonceTooLow | Unfit

  /** One round of the fill loop: the sender chosen, whether its next transaction pays, whether the first one is skipped
      for its replay protection, and what became of it. */
  datatype Move = Move(k: nat, nextPays: bool, skip: bool, fate: Fate)

  /** Moves on to the sender's next transaction, or drops the sender if the transaction was unfit. */
  function Advance(p: Pending, m: Move): Pending {
    if m.k >= |p| then p else if m.fate.Unfit? then Pop(p, m.k) else Shift(p, m.k, m.nextPays)
  }

  lemma AdvanceShrinks(p: Pending, m: Move)
    requires m.k < |p| && WellFormed(p)
    ensures WellFormed(Advance(p, m)) && Count(Advance(p, m)) < Count(p)
    ensures p[m.k] != [] && EncodableTx(p[m.k][0])
  {
    PopShrinks(p, m.k);
    ShiftShrinks(p, m.k, m.nextPays);
  }

  /** Only the sender's own list changes: its next transaction comes up unless the first one was unfit, it was the last,
      or the next does not pay. */
  lemma AdvanceIs(p: Pending, m: Move)
    requires m.k < |p|
    ensures var up := !m.fate.Unfit? && m.nextPays && |p[m.k]| > 1;
            && Advance(p, m) == p[..m.k] + (if up then [p[m.k][1..]] else []) + p[m.k + 1..]
            && Count(Advance(p, m)) == Count(p) - if up then 1 else |p[m.k]|
  {
    if !m.fate.Unfit? && m.nextPays && |p[m.k]| > 1 {
      ReplaceCounts(p, m.k, p[m.k][1..]);
      assert p[m.k := p[m.k][1..]] == p[..m.k] + [p[m.k][1..]] + p[m.k + 1..];
    } else {
      PopCounts(p, m.k);
      assert Pop(p, m.k) == p[..m.k] + [] + p[m.k + 1..];
    }
  }

  /** What is still pending after some moves. */
  ghost function Rest(pending: Pending, moves: seq<Move>): Pending {
    if moves == [] then pending else Advance(Rest(pending, moves[..|moves| - 1]), moves[|moves| - 1])
  }

  /** The transactions committed by some moves, in order. */
  ghost function Taken(pending: Pending, moves: seq<Move>): seq<Transaction> {
    if moves == [] then [] else
      var before, m := moves[..|moves| - 1], moves[|moves| - 1];
      var p := Rest(pending, before);
      Taken(pending, before) + if m.fate.Committed? && m.k < |p| && p[m.k] != [] then [p[m.k][0]] else []
  }

  lemma MoreMoves(pending: Pending, moves: seq<Move>, m: Move)
    ensures Rest(pending, moves + [m]) == Advance(Rest(pending, moves), m)
    ensures var p := Rest(pending, moves);
            Taken(pending, moves + [m])
            == Taken(pending, moves) + if m.fate.Committed? && m.k < |p| && p[m.k] != [] then [p[m.k][0]] else []
  {
    assert (moves + [m])[..|moves|] == moves;
  }

  /** Every move was that of a sender with something pending. */
  ghost predicate InRange(pending: Pending, moves: seq<Move>) {
    moves != [] ==>
      && InRange(pending, moves[..|moves| - 1])
      && moves[|moves| - 1].k < |Rest(pending, moves[..|moves| - 1])|
  }

  /** If no transaction is unfit and all pay, each round takes up exactly one, so everything pending comes up once. */
  lemma {:induction false} NothingSkipped(pending: Pending, moves: seq<Move>)
    requires WellFormed(pending) && InRange(pending, moves)
    requires forall m | m in moves :: !m.fate.Unfit? && m.nextPays
    ensures WellFormed(Rest(pending, moves)) && |moves| + Count(Rest(pending, moves)) == Count(pending)
    decreases |moves|
  {
    if moves != [] {
      var before, m := moves[..|moves| - 1], moves[|moves| - 1];
      NothingSkipped(pending, before);
      var p := Rest(pending, before);
      AdvanceShrinks(p, m);
      AdvanceIs(p, m);
      assert m in moves;
    }
  }

  /** If moreover all of them are committed, the block gets everything that was pending. */
  lemma {:induction false} EverythingCommitted(pending: Pending, moves: seq<Move>)
    requires WellFormed(pending) && InRange(pending, moves)
    requires forall m | m in moves :: m.fate.Committed? && m.nextPays
    ensures |Taken(pending, moves)| == |moves|
    ensures Rest(pending, moves) == [] ==> |Taken(pending, moves)| == Count(pending)
    decreases |moves|
  {
    NothingSkipped(pending, moves);
    if moves != [] {
      var before, m := moves[..|moves| - 1], moves[|moves| - 1];
      assert forall x | x in before :: x in moves;
      EverythingCommitted(pending, before);
      NothingSkipped(pending, before);
      assert m in moves && Rest(pending, before)[m.k] != [];
    }
  }

  /** A round is right if there was gas for it, only a fork before EIP-155 skips, and the transaction was committed
      exactly if it was applicable and passed over exactly if it was stale. */
  ghost predicate MoveOk(world: World, left: nat, rest: Pending, m: Move, rules: Rules, isEIP155: bool)
    requires BlockRules(rules)
  {
    && left >= TX_GAS && m.k < |rest| && rest[m.k] != [] && EncodableTx(rest[m.k][0]) && (m.skip ==> !isEIP155)
    && (m.fate.Committed? <==> !m.skip && Applicable(world, left, rest[m.k][0], rules))
    && (m.fate.NonceTooLow? <==> !m.skip && StaleTx(world, rest[m.k][0]))
  }

  /** Every move was right in the state that the transactions before it lead to. */
  ghost predicate AllMovesOk(s: Progress, base: seq<Transaction>, pending: Pending, moves: seq<Move>, rules: Rules,
                             evm: Evm, isEIP155: bool)
    requires BlockRules(rules) && Frugal(evm)
  {
    moves != [] ==>
      var before, m := moves[..|moves| - 1], moves[|moves| - 1];
      && AllMovesOk(s, base, pending, before, rules, evm, isEIP155) && AllEncodable(base + Taken(pending, before))
      && var p := Executed(s, base + Taken(pending, before), rules, evm);
         p.Some? && MoveOk(p.value.world, p.value.left, Rest(pending, before), m, rules, isEIP155)
  }

  /** The `txs` are what right moves have added to `base`, and `rest` is what they have left. */
  ghost predicate Filled(s: Progress, base: seq<Transaction>, pending: Pending, moves: seq<Move>, rules: Rules,
                         evm: Evm, isEIP155: bool, txs: seq<Transaction>, rest: Pending)
    requires BlockRules(rules) && Frugal(evm)
  {
    && txs == base + Taken(pending, moves) && rest == Rest(pending, moves) && WellFormed(rest)
    && AllMovesOk(s, base, pending, moves, rules, evm, isEIP155)
  }

  lemma FilledMore(s: Progress, base: seq<Transaction>, pending: Pending, moves: seq<Move>, m: Move, rules: Rules,
                   evm: Evm, isEIP155: bool, txs: seq<Transaction>, rest: Pending)
    requires BlockRules(rules) && Frugal(evm) && Filled(s, base, pending, moves, rules, evm, isEIP155, txs, rest)
    requires AllEncodable(txs)
    requires var p := Executed(s, txs, rules, evm);
             p.Some? && MoveOk(p.value.world, p.value.left, rest, m, rules, isEIP155)
    ensures var txs' := txs + if m.fate.Committed? then [rest[m.k][0]] else [];
            Filled(s, base, pending, moves + [m], rules, evm, isEIP155, txs', Advance(rest, m))
    ensures Count(Advance(rest, m)) < Count(rest)
  {
    assert (moves + [m])[..|moves|] == moves;
    AdvanceShrinks(rest, m);
    MoreMoves(pending, moves, m);
  }

  lemma DrawnMove(pending: Pending, rest: Pending, next: seq<Pick>, committed: seq<Transaction>, picks: seq<Pick>,
                  m: Move)
    returns (next': seq<Pick>, picks': seq<Pick>)
    requires Drawn(pending, rest, next, committed, picks)
    ensures Drawn(pending, Advance(rest, m), next',
                  committed + (if m.fate.Committed? && m.k < |rest| && rest[m.k] != [] then [rest[m.k][0]] else []),
                  picks')
  {
    next', picks' := next, picks;
    assert committed + [] == committed;
    if m.k < |rest| {
      if m.fate.Unfit? {
        DrawnPop(pending, rest, next, committed, picks, m.k);
        next' := Pop(next, m.k);
      } else {
        next' := ShiftNext(rest, next, m.k, m.nextPays);
        if m.fate.Committed? && rest[m.k] != [] {
          DrawnCommit(pending, rest, next, committed, picks, m.k, m.nextPays);
          picks' := picks + [next[m.k]];
        } else {
          DrawnShift(pending, rest, next, committed, picks, m.k, m.nextPays);
        }
      }
    }
  }

  /** Whatever the moves, each sender's committed transactions are a subsequence of its pending ones. */
  lemma {:induction false} MovesDraw(pending: Pending, moves: seq<Move>) returns (next: seq<Pick>, picks: seq<Pick>)
    ensures Drawn(pending, Rest(pending, moves), next, Taken(pending, moves), picks)
    decreases |moves|
  {
    if moves == [] {
      next, picks := seq(|pending|, k requires 0 <= k < |pending| => Pick(k, 0)), [];
    } else {
      var before, m := moves[..|moves| - 1], moves[|moves| - 1];
      next, picks := MovesDraw(pending, before);
      next, picks := DrawnMove(pending, Rest(pending, before), next, Taken(pending, before), picks, m);
    }
  }

  /** The block being assembled. */
  class Environment {
    const gasLimit: nat
    const rules: Rules
    const evm: Evm
    const start: World

    var gasPool: GasPool?
    var gasUsed: nat
    var txs: seq<Transaction>
    var receipts: seq<Receipt>
    var tcount: nat
    var world: World

    /** A block gas limit of 64 bits, a base fee exactly from London on, and an EVM that returns no more gas than it
        got. */
    ghost predicate Configured() {
      gasLimit <= MAX_UINT64 && BlockRules(rules) && Frugal(evm)
    }

    ghost function GasLeft(): nat
      reads this, gasPool
    {
      if gasPool == null then gasLimit else gasPool.gas
    }

    /** The block as assembled so far, run by anybody else from the same start, gives the same receipts, gas and
        state. */
    ghost predicate Valid()
      reads this, gasPool
    {
      && Configured() && AllEncodable(txs) && (gasPool != null ==> gasPool.Valid())
      && var p := Executed(Start(start, gasLimit), txs, rules, evm);
         p.Some? && Reports(Processed(receipts, gasUsed, world, GasLeft()), p.value)
    }

    constructor (gasLimit: nat, rules: Rules, evm: Evm, world: World)
      requires gasLimit <= MAX_UINT64 && BlockRules(rules) && Frugal(evm)
      ensures Valid() && this.gasLimit == gasLimit && this.rules == rules && this.evm == evm && start == world
      ensures gasPool == null && txs == [] && tcount == 0
    {
      this.gasLimit, this.rules, this.evm, this.world, start := gasLimit, rules, evm, world, world;
      gasPool, gasUsed, txs, receipts, tcount := null, 0, [], [], 0;
    }

    /** At every point of the assembly pool and gas used make up the block's limit, every transaction has its receipt,
        and the receipts add up to the gas used. */
    lemma Accounts()
      requires Valid()
      ensures GasLeft() + gasUsed == gasLimit && |receipts| == |txs| && Tallied(receipts, gasUsed)
    {
      ExecutionInBalance(gasLimit, start, Start(start, gasLimit), txs, rules, evm);
      ReceiptsGrow(Start(start, gasLimit), txs, rules, evm);
    }

    /** Applies a transaction on top of the progress `p`, or rolls back state and gas pool. */
    method Attempt(tx: Transaction, ghost p: Progress) returns (r: Result<Receipt>)
      requires Configured() && gasPool != null && gasPool.Valid() && EncodableTx(tx)
      requires p.world == world && p.left == gasPool.gas && p.used == gasUsed
      modifies this`gasUsed, this`world, gasPool
      ensures gasPool.Valid() && (r.Ok? <==> Applied(p, tx, rules, evm).Some?)
      ensures r.Err? ==> (r.error == NONCE_TOO_LOW <==> StaleTx(old(world), tx))
      ensures r.Err? ==> world == old(world) && gasUsed == old(gasUsed) && gasPool.gas == old(gasPool.gas)
      ensures r.Ok? ==> var q := Applied(p, tx, rules, evm).value;
        world == q.world && gasPool.gas == q.left && gasUsed == q.used && q.receipts == p.receipts + [r.value]
    {
      var snap, gp := world, gasPool.gas;
      r, world, gasUsed := ApplyTransaction(tx, rules, gasPool, world, gasUsed, evm, p);
      if r.Err? {
        world := snap;
        gasPool.SetGas(gp);
      }
    }

    /** Tries one transaction.  A failure rolls back both the state and the gas pool, so it leaves no trace. */
    method CommitTransaction(tx: Transaction) returns (r: Result<()>)
      requires Valid() && gasPool != null && EncodableTx(tx)
      modifies this`gasUsed, this`txs, this`receipts, this`world, gasPool
      ensures Valid() && gasPool == old(gasPool)
      ensures r.Ok? <==> Applicable(old(world), old(gasPool.gas), tx, rules)
      ensures r.Err? ==> (r.error == NONCE_TOO_LOW <==> StaleTx(old(world), tx))
      ensures r.Err? ==> unchanged(this) && gasPool.gas == old(gasPool.gas)
      ensures r.Ok? ==> txs == old(txs) + [tx]
    {
      ghost var p := Executed(Start(start, gasLimit), txs, rules, evm).value;
      ExecutedMore(Start(start, gasLimit), txs, tx, rules, evm);
      var receipt := Attempt(tx, p);
      if receipt.Err? { return Err(receipt.error); }
      txs := txs + [tx];
      receipts := receipts + [receipt.value];
      r := Ok(());
    }

    /** After the given moves, all of them right: what they committed has been added to `base`, and `rest` is left. */
    ghost predicate Filling(base: seq<Transaction>, pending: Pending, moves: seq<Move>, rest: Pending, isEIP155: bool)
      reads this, gasPool
    {
      && Valid() && gasPool != null && tcount == |txs|
      && Filled(Start(start, gasLimit), base, pending, moves, rules, evm, isEIP155, txs, rest)
    }

    /** Skips or tries one transaction. */
    method Try(tx: Transaction, skip: bool) returns (fate: Fate)
      requires Valid() && gasPool != null && tcount == |txs| && EncodableTx(tx)
      modifies this`gasUsed, this`txs, this`receipts, this`world, this`tcount, gasPool
      ensures Valid() && tcount == |txs|
      ensures fate.Committed? <==> !skip && Applicable(old(world), old(gasPool.gas), tx, rules)
      ensures fate.NonceTooLow? <==> !skip && StaleTx(old(world), tx)
      ensures txs == if fate.Committed? then old(txs) + [tx] else old(txs)
    {
      if skip { return Unfit; }
      var r := CommitTransaction(tx);
      if r.Ok? {
        tcount := tcount + 1;
        return Committed;
      }
      return if r.error == NONCE_TOO_LOW then NonceTooLow else Unfit;
    }

    /** One round: some sender's first transaction is skipped or tried. */
    method FillNext(ghost base: seq<Transaction>, ghost pending: Pending, ghost moves: seq<Move>, rest: Pending,
                    isEIP155: bool)
      returns (rest': Pending, ghost moves': seq<Move>)
      requires Filling(base, pending, moves, rest, isEIP155) && rest != [] && gasPool.gas >= TX_GAS
      modifies this`gasUsed, this`txs, this`receipts, this`world, this`tcount, gasPool
      ensures Filling(base, pending, moves', rest', isEIP155) && Count(rest') < Count(rest)
    {
      var k: int := *;
      if !(0 <= k < |rest|) { k := 0; }
      var protected: bool, nextPays: bool := *, *;
      var skip := protected && !isEIP155;
      AdvanceShrinks(rest, Move(k, nextPays, skip, Unfit));
      var fate := Try(rest[k][0], skip);
      var m := Move(k, nextPays, skip, fate);
      FilledMore(Start(start, gasLimit), base, pending, moves, m, rules, evm, isEIP155, old(txs), rest);
      assert txs == old(txs) + if fate.Committed? then [rest[k][0]] else [];
      rest', moves' := Advance(rest, m), moves + [m];
    }

    /** The loop of commitTransactions. */
    method Fill(pending: Pending, isEIP155: bool)
      returns (interrupted: bool, rest: Pending, ghost moves: seq<Move>)
      requires Filling(txs, pending, [], pending, isEIP155)
      modifies this`gasUsed, this`txs, this`receipts, this`world, this`tcount, gasPool
      ensures Filling(old(txs), pending, moves, rest, isEIP155)
      ensures interrupted || gasPool.gas < TX_GAS || rest == []
    {
      rest, moves, interrupted := pending, [], *;
      while !interrupted && gasPool.gas >= TX_GAS && rest != []
        invariant Filling(old(txs), pending, moves, rest, isEIP155)
        decreases Count(rest)
      {
        rest, moves := FillNext(old(txs), pending, moves, rest, isEIP155);
        interrupted := *;
      }
    }

    method OpenPool()
      requires Valid()
      modifies this`gasPool
      ensures Valid() && gasPool != null && GasLeft() == old(GasLeft())
      ensures if old(gasPool) == null then fresh(gasPool) else gasPool == old(gasPool)
    {
      if gasPool == null {
        var pool := new GasPool();
        pool.AddGas(gasLimit);
        gasPool := pool;
      }
    }

    /** Fills the block from the pending transactions, in whatever order their prices dictate and until an interrupt,
        a lack of gas or the end of the list.  Across successes, failures and roll-backs the block stays one that
        anybody can run to the same result, and transactions, receipts and the count stay in step.  Every transaction
        that came up was committed, passed over or dropped with its sender as its state of the time demands, and the
        transactions added are, for each sender, a subsequence of the pending ones. */
    method CommitTransactions(pending: Pending, isEIP155: bool)
      returns (interrupted: bool, rest: Pending, ghost moves: seq<Move>)
      requires Valid() && tcount == |txs| && WellFormed(pending)
      modifies this, if gasPool != null then {gasPool} else {}
      ensures Filling(old(txs), pending, moves, rest, isEIP155)
      ensures interrupted || gasPool.gas < TX_GAS || rest == []
      ensures exists picks :: Picked(pending, txs[|old(txs)|..], picks)
    {
      OpenPool();
      interrupted, rest, moves := Fill(pending, isEIP155);
      assert txs[|old(txs)|..] == Taken(pending, moves);
      ghost var next, picks := MovesDraw(pending, moves);
    }

    /** A block assembled here passes Process, with the receipts, gas and state recorded here. */
    method ProcessAssembled() returns (r: Result<Processed>)
      requires Valid()
      ensures r == Ok(Processed(receipts, gasUsed, world, GasLeft()))
    {
      r := Process(txs, gasLimit, start, rules, evm);
    }
  }
}
