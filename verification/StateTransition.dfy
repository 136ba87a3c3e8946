/** Applying one message (core/state_transition.go).  The EVM is a parameter: it may do anything to the state and
    leave any refund counter, but returns no more gas than it was given. */
module StateTransition {
  import opened Basics
  import opened Uint64
  import opened Gas
  import opened Ledger

  const MAX_INIT_CODE_SIZE: nat := 49152
  const REFUND_QUOTIENT: nat := 2
  const REFUND_QUOTIENT_EIP3529: nat := 5
  const TWO_256: nat := 0x1_0000_0000_0000_0000_0000_0000_0000_0000_0000_0000_0000_0000_0000_0000_0000_0000

  datatype World = World(balances: Balances, nonces: map<Address, nat>, contracts: set<Address>)

  function NonceOf(w: World, a: Address): nat {
    if a in w.nonces then w.nonces[a] else 0
  }

  /** A signed transaction; `gasFeeCap` is also its gas price, and legacy transactions tip as much as they cap. */
  datatype Transaction = Transaction(hash: nat, sender: Option<Address>, to: Option<Address>, nonce: nat, gas: nat,
                                     gasFeeCap: nat, gasTipCap: nat, value: nat, data: seq<nat>,
                                     accessList: Option<AccessList>)

  datatype Message = Message(from: Address, to: Option<Address>, nonce: nat, value: nat, gasLimit: nat, gasPrice: nat,
                             gasFeeCap: nat, gasTipCap: nat, data: seq<nat>, accessList: Option<AccessList>,
                             skipAccountChecks: bool)

  datatype Rules = Rules(isHomestead: bool, isIstanbul: bool, isLondon: bool, isShanghai: bool,
                         baseFee: Option<nat>, coinbase: Address, noBaseFee: bool)

  datatype Outcome = Outcome(world: World, gasLeft: nat, refund: nat, failed: bool)

  type Evm = (Message, World, nat) -> Outcome

  ghost predicate Frugal(evm: Evm) {
    forall m, w, g {:trigger evm(m, w, g)} :: evm(m, w, g).gasLeft <= g
  }

  datatype ExecutionResult = ExecutionResult(usedGas: nat, failed: bool)

  /** The price of an amount of gas. */
  function Wei(gas: nat, price: nat): nat { gas * price }

  function TransactionToMessage(tx: Transaction, baseFee: Option<nat>): Result<Message> {
    if tx.sender.None? then Err("invalid sender")
    else
      var gasPrice := if baseFee.Some? then Min(tx.gasTipCap + baseFee.value, tx.gasFeeCap) else tx.gasFeeCap;
      Ok(Message(tx.sender.value, tx.to, tx.nonce, tx.value, tx.gas, gasPrice, tx.gasFeeCap, tx.gasTipCap, tx.data,
          tx.accessList, false))
  }

  /** A message is the transaction it comes from, with its sender, at a price within its caps. */
  lemma MessageKeeps(tx: Transaction, baseFee: Option<nat>)
    ensures var r := TransactionToMessage(tx, baseFee);
            && (r.Ok? <==> tx.sender.Some?)
            && (r.Ok? ==>
                  var m := r.value;
                  && Some(m.from) == tx.sender && m.to == tx.to && m.nonce == tx.nonce && m.value == tx.value
                  && m.gasLimit == tx.gas && m.data == tx.data && m.accessList == tx.accessList
                  && m.gasFeeCap == tx.gasFeeCap && m.gasTipCap == tx.gasTipCap && !m.skipAccountChecks
                  && m.gasPrice <= tx.gasFeeCap
                  && (baseFee.Some? ==> m.gasPrice <= tx.gasTipCap + baseFee.value)
                  && (m.gasPrice == tx.gasFeeCap || (baseFee.Some? && m.gasPrice == tx.gasTipCap + baseFee.value)))
  {
  }

  /** What a transaction that can be encoded guarantees about its 64-bit fields, and pricing for these rules. */
  ghost predicate Priced(m: Message, rules: Rules) {
    && m.gasLimit <= MAX_UINT64 && m.nonce <= MAX_UINT64 && |m.data| <= MAX_UINT64
    && (rules.isLondon <==> rules.baseFee.Some?)
    && m.gasPrice == if rules.baseFee.Some? then Min(m.gasTipCap + rules.baseFee.value, m.gasFeeCap) else m.gasFeeCap
  }

  /** Simulated calls without any fee fields pay nothing to anybody. */
  predicate SkipsFee(m: Message, rules: Rules) {
    rules.noBaseFee && m.gasFeeCap == 0 && m.gasTipCap == 0
  }

  function Quotient(rules: Rules): nat {
    if rules.isLondon then REFUND_QUOTIENT_EIP3529 else REFUND_QUOTIENT
  }

  // -------------------------------------------------------------- specification

  ghost predicate CapCoversBaseFee(m: Message, rules: Rules) {
    rules.baseFee.Some? && !SkipsFee(m, rules) ==> m.gasFeeCap >= rules.baseFee.value
  }

  /** The consensus rules on nonce, sender, fees, funds and block gas. */
  ghost predicate PreChecked(m: Message, rules: Rules, world: World, gas: nat) {
    && (!m.skipAccountChecks ==> NonceOf(world, m.from) == m.nonce < MAX_UINT64 && m.from !in world.contracts)
    && (rules.isLondon && !SkipsFee(m, rules) ==> m.gasTipCap <= m.gasFeeCap < TWO_256)
    && CapCoversBaseFee(m, rules)
    && BalanceOf(world.balances, m.from) >= Wei(m.gasLimit, m.gasFeeCap) + m.value
    && m.gasLimit <= gas
  }

  const NONCE_TOO_LOW := "nonce too low"

  /** The sender's account has moved past the message. */
  ghost predicate Stale(m: Message, world: World) {
    !m.skipAccountChecks && NonceOf(world, m.from) > m.nonce
  }

  ghost function IntrinsicCost(m: Message, rules: Rules): nat
    requires |m.data| <= MAX_UINT64
  {
    DataCost(m.data, m.to.None?, rules.isHomestead, rules.isIstanbul, rules.isShanghai) + AccessListCost(m.accessList)
  }

  /** The rules on intrinsic gas and init code size. */
  ghost predicate CoversIntrinsic(m: Message, rules: Rules)
    requires |m.data| <= MAX_UINT64
  {
    && DataCost(m.data, m.to.None?, rules.isHomestead, rules.isIstanbul, rules.isShanghai) <= MAX_UINT64
    && Wrap(IntrinsicCost(m, rules)) <= m.gasLimit
    && (rules.isShanghai && m.to.None? ==> |m.data| <= MAX_INIT_CODE_SIZE)
  }

  /** Exactly these messages may run. */
  ghost predicate Accepted(m: Message, rules: Rules, world: World, gas: nat)
    requires Priced(m, rules)
  {
    PreChecked(m, rules, world, gas) && CoversIntrinsic(m, rules)
  }

  lemma ScaleBelow(a: nat, b: nat, q: nat)
    requires a <= b
    ensures q * a <= q * b
  {
  }

  /** The worst case covers the price actually paid, and leaves the value to be transferred. */
  lemma Affordable(m: Message, rules: Rules, world: World, gas: nat)
    requires Priced(m, rules) && PreChecked(m, rules, world, gas)
    ensures Wei(m.gasLimit, m.gasPrice) + m.value <= BalanceOf(world.balances, m.from)
  {
    ScaleBelow(m.gasPrice, m.gasFeeCap, m.gasLimit);
  }

  ghost function Bought(m: Message, world: World): World
    requires Wei(m.gasLimit, m.gasPrice) <= BalanceOf(world.balances, m.from)
  {
    world.(balances := Debit(world.balances, m.from, Wei(m.gasLimit, m.gasPrice)))
  }

  /** A call raises the sender's nonce; a creation leaves that to the EVM. */
  function Nonced(m: Message, world: World): World {
    if m.to.None? then world else world.(nonces := world.nonces[m.from := NonceOf(world, m.from) + 1])
  }

  /** A call raises exactly the sender's nonce, by one. */
  lemma NoncedIs(m: Message, world: World, a: Address)
    ensures NonceOf(Nonced(m, world), a) == NonceOf(world, a) + if m.to.Some? && a == m.from then 1 else 0
    ensures Nonced(m, world).balances == world.balances && Nonced(m, world).contracts == world.contracts
  {
  }

  /** The EVM runs with all gas above the intrinsic cost, which has been paid for by the sender. */
  ghost function Ran(m: Message, rules: Rules, world: World, gas: nat, evm: Evm): (o: Outcome)
    requires Priced(m, rules) && Accepted(m, rules, world, gas) && Frugal(evm)
    ensures o.gasLeft + Wrap(IntrinsicCost(m, rules)) <= m.gasLimit
  {
    Affordable(m, rules, world, gas);
    evm(m, Nonced(m, Bought(m, world)), m.gasLimit - Wrap(IntrinsicCost(m, rules)))
  }

  lemma FloorBelow(x: nat, q: nat)
    requires q > 0
    ensures q * (x / q) <= x
  {
  }

  lemma PartFits(x: nat, q: nat)
    requires q > 0
    ensures 0 <= x / q <= x
  {
    FloorBelow(x, q);
    ScaleBelow(1, q, x / q);
  }

  /** The gas charged for an outcome: what was used, minus the refund counter capped at one part in the quotient. */
  ghost function Charge(o: Outcome, limit: nat, rules: Rules): (c: nat)
    requires o.gasLeft <= limit
    ensures c <= limit - o.gasLeft
  {
    var gross := limit - o.gasLeft;
    PartFits(gross, Quotient(rules));
    gross - Min(gross / Quotient(rules), o.refund)
  }

  ghost function Tip(m: Message, rules: Rules): nat
    requires Priced(m, rules) && CapCoversBaseFee(m, rules) && !SkipsFee(m, rules)
  {
    if rules.isLondon then Min(m.gasTipCap, m.gasFeeCap - rules.baseFee.value) else m.gasPrice
  }

  ghost function Refunded(m: Message, rules: Rules, o: Outcome): World
    requires o.gasLeft <= m.gasLimit
  {
    o.world.(balances := Credit(o.world.balances, m.from, Wei(m.gasLimit - Charge(o, m.gasLimit, rules), m.gasPrice)))
  }

  /** The state at the end: the sender has the unused gas back and the miner its tip. */
  ghost function Final(m: Message, rules: Rules, o: Outcome): World
    requires Priced(m, rules) && CapCoversBaseFee(m, rules) && o.gasLeft <= m.gasLimit
  {
    var w := Refunded(m, rules, o);
    if SkipsFee(m, rules) then w
    else w.(balances := Credit(w.balances, rules.coinbase, Wei(Charge(o, m.gasLimit, rules), Tip(m, rules))))
  }

  /** What the EVM itself did to the total of all balances. */
  ghost function EvmDelta(m: Message, world: World, o: Outcome): int {
    Total(o.world.balances) - (Total(world.balances) - Wei(m.gasLimit, m.gasPrice))
  }

  /** What every unit of used gas removes from circulation. */
  ghost function BurnPrice(m: Message, rules: Rules): nat {
    if rules.baseFee.Some? && !SkipsFee(m, rules) then rules.baseFee.value else 0
  }

  // ----------------------------------------------------------------- properties

  /** The EVM starts with the sender's balance reduced by the price of all its gas, so `EvmDelta` is its own doing. */
  lemma EvmStart(m: Message, world: World)
    requires Wei(m.gasLimit, m.gasPrice) <= BalanceOf(world.balances, m.from)
    ensures Total(Nonced(m, Bought(m, world)).balances) == Total(world.balances) - Wei(m.gasLimit, m.gasPrice)
  {
    TotalUpdate(world.balances, m.from, BalanceOf(world.balances, m.from) - Wei(m.gasLimit, m.gasPrice));
  }

  /** What the miner is paid for an amount of gas. */
  ghost function Tips(m: Message, rules: Rules, used: nat): nat
    requires Priced(m, rules) && CapCoversBaseFee(m, rules)
  {
    if SkipsFee(m, rules) then 0 else Wei(used, Tip(m, rules))
  }

  lemma FinalTotal(m: Message, rules: Rules, o: Outcome)
    requires Priced(m, rules) && CapCoversBaseFee(m, rules) && o.gasLeft <= m.gasLimit
    ensures var used := Charge(o, m.gasLimit, rules);
            Total(Final(m, rules, o).balances)
            == Total(o.world.balances) + Wei(m.gasLimit - used, m.gasPrice) + Tips(m, rules, used)
  {
    var w, used := Refunded(m, rules, o), Charge(o, m.gasLimit, rules);
    TotalUpdate(o.world.balances, m.from, BalanceOf(o.world.balances, m.from) + Wei(m.gasLimit - used, m.gasPrice));
    TotalUpdate(w.balances, rules.coinbase, BalanceOf(w.balances, rules.coinbase) + Tips(m, rules, used));
  }

  /** Who is paid at the end: the sender for the gas not charged, the miner for the gas charged, nobody else. */
  lemma FinalBalance(m: Message, rules: Rules, o: Outcome, a: Address)
    requires Priced(m, rules) && CapCoversBaseFee(m, rules) && o.gasLeft <= m.gasLimit
    ensures var used := Charge(o, m.gasLimit, rules);
            BalanceOf(Final(m, rules, o).balances, a)
            == BalanceOf(o.world.balances, a)
               + (if a == m.from then Wei(m.gasLimit - used, m.gasPrice) else 0)
               + (if a == rules.coinbase then Tips(m, rules, used) else 0)
  {
  }

  /** Settling the fees touches neither nonces nor code. */
  lemma FinalKeepsNonces(m: Message, rules: Rules, o: Outcome, a: Address)
    requires Priced(m, rules) && CapCoversBaseFee(m, rules) && o.gasLeft <= m.gasLimit
    ensures NonceOf(Final(m, rules, o), a) == NonceOf(o.world, a) && Final(m, rules, o).contracts == o.world.contracts
  {
  }

  lemma PlainGas(m: Message, rules: Rules)
    requires m.to.Some? && m.data == [] && m.accessList.None?
    ensures IntrinsicCost(m, rules) == Wrap(IntrinsicCost(m, rules)) == 21000
  {
    EmptyDataCost(false, rules.isHomestead, rules.isIstanbul, rules.isShanghai);
  }

  lemma NoRefund(o: Outcome, limit: nat, rules: Rules)
    requires o.gasLeft <= limit && o.refund == 0
    ensures Charge(o, limit, rules) == limit - o.gasLeft
  {
    PartFits(limit - o.gasLeft, Quotient(rules));
  }

  lemma WeiSplits(limit: nat, used: nat, price: nat)
    requires used <= limit
    ensures Wei(limit, price) == Wei(limit - used, price) + used * price
  {
  }

  /** A plain transfer end to end, for an EVM that moves the value and uses no gas of its own: it is charged 21000 gas,
      the sender pays that and the value, the recipient gets the value and the miner the tip on the gas, nobody else's
      balance changes, and exactly the sender's nonce rises. */
  lemma PlainTransfer(m: Message, rules: Rules, world: World, gas: nat, evm: Evm, a: Address)
    requires Priced(m, rules) && Accepted(m, rules, world, gas) && Frugal(evm)
    requires m.to.Some? && m.data == [] && m.accessList.None? && !SkipsFee(m, rules)
    requires var start := Nonced(m, Bought(m, world)); var o := evm(m, start, m.gasLimit - 21000);
             && o.gasLeft == m.gasLimit - 21000 && o.refund == 0 && o.world.nonces == start.nonces
             && forall x :: BalanceOf(o.world.balances, x) == BalanceOf(start.balances, x)
                            - (if x == m.from then m.value else 0) + (if x == m.to.value then m.value else 0)
    ensures var o := Ran(m, rules, world, gas, evm);
            && Charge(o, m.gasLimit, rules) == 21000
            && BalanceOf(Final(m, rules, o).balances, a)
               == BalanceOf(world.balances, a) - (if a == m.from then m.value + 21000 * m.gasPrice else 0)
                  + (if a == m.to.value then m.value else 0)
                  + (if a != rules.coinbase then 0
                     else 21000 * if rules.baseFee.None? then m.gasPrice
                                  else Min(m.gasTipCap, m.gasFeeCap - rules.baseFee.value))
            && NonceOf(Final(m, rules, o), a) == NonceOf(world, a) + if a == m.from then 1 else 0
  {
    PlainGas(m, rules);
    Affordable(m, rules, world, gas);
    var start := Nonced(m, Bought(m, world));
    var o := evm(m, start, m.gasLimit - 21000);
    assert Ran(m, rules, world, gas, evm) == o;
    NoRefund(o, m.gasLimit, rules);
    FinalBalance(m, rules, o, a);
    WeiSplits(m.gasLimit, 21000, m.gasPrice);
    FinalKeepsNonces(m, rules, o, a);
    NoncedIs(m, Bought(m, world), a);
  }

  lemma Free(limit: nat, back: nat, used: nat, price: nat, burn: nat)
    requires used <= limit && price == burn == 0 && back == Wei(limit - used, price)
    ensures Wei(limit, price) == back == Wei(used, burn) == 0
  {
  }

  /** The price paid is the tip plus what is burned. */
  lemma PriceSplits(m: Message, rules: Rules)
    requires Priced(m, rules) && CapCoversBaseFee(m, rules)
    ensures if SkipsFee(m, rules) then m.gasPrice == 0 else m.gasPrice == Tip(m, rules) + BurnPrice(m, rules)
  {
  }

  /** Buying `limit` gas, returning `left` of it and tipping for the rest burns the base fee of the rest. */
  lemma Settlement(limit: nat, left: nat, price: nat, tip: nat, burn: nat)
    requires left <= limit && price == tip + burn
    ensures Wei(limit, price) - Wei(left, price) - Wei(limit - left, tip) == Wei(limit - left, burn)
  {
    assert limit * price - left * price == (limit - left) * price;
    assert (limit - left) * price == (limit - left) * tip + (limit - left) * burn;
  }

  /** The price of all gas is what comes back, what the miner gets and what is burned. */
  lemma PaidOut(m: Message, rules: Rules, used: nat)
    requires Priced(m, rules) && CapCoversBaseFee(m, rules) && used <= m.gasLimit
    ensures Wei(m.gasLimit, m.gasPrice)
         == Wei(m.gasLimit - used, m.gasPrice) + Tips(m, rules, used) + Wei(used, BurnPrice(m, rules))
  {
    PriceSplits(m, rules);
    if SkipsFee(m, rules) {
      Free(m.gasLimit, Wei(m.gasLimit - used, m.gasPrice), used, m.gasPrice, BurnPrice(m, rules));
    } else {
      Settlement(m.gasLimit, m.gasLimit - used, m.gasPrice, Tip(m, rules), BurnPrice(m, rules));
    }
  }

  /** Applying a message changes the total of all balances by exactly what the EVM did to it, minus the base fee of the
      gas charged, whoever sender, recipient and coinbase are and whatever the refund counter. */
  lemma WeiConserved(m: Message, rules: Rules, world: World, o: Outcome)
    requires Priced(m, rules) && CapCoversBaseFee(m, rules) && o.gasLeft <= m.gasLimit
    ensures Total(Final(m, rules, o).balances)
         == Total(world.balances) + EvmDelta(m, world, o) - Wei(Charge(o, m.gasLimit, rules), BurnPrice(m, rules))
  {
    FinalTotal(m, rules, o);
    PaidOut(m, rules, Charge(o, m.gasLimit, rules));
  }

  /** A refund of at most one part in `q` leaves at least `q - 1` parts to pay. */
  lemma RefundCap(gross: nat, q: nat, refund: nat)
    requires q > 0 && refund <= gross / q
    ensures refund <= gross && q * (gross - refund) >= (q - 1) * gross
  {
    FloorBelow(gross, q);
    ScaleBelow(refund, gross / q, q);
    ScaleBelow(1, q, gross / q);
    assert q * (gross - refund) == q * gross - q * refund;
    assert (q - 1) * gross == q * gross - gross;
  }

  /** Whatever the refund counter, at least `q - 1` parts in `q` of the gas used are charged. */
  lemma ChargeFloor(o: Outcome, limit: nat, rules: Rules)
    requires o.gasLeft <= limit
    ensures Quotient(rules) * Charge(o, limit, rules) >= (Quotient(rules) - 1) * (limit - o.gasLeft)
  {
    var gross := limit - o.gasLeft;
    RefundCap(gross, Quotient(rules), Min(gross / Quotient(rules), o.refund));
  }

  /** In figures: from London on at least four fifths of the gas used is charged, before at least one half. */
  lemma ChargeShare(o: Outcome, limit: nat, rules: Rules)
    requires o.gasLeft <= limit
    ensures var gross, charged := limit - o.gasLeft, Charge(o, limit, rules);
            && charged <= gross
            && (rules.isLondon ==> 5 * charged >= 4 * gross)
            && (!rules.isLondon ==> 2 * charged >= gross)
  {
    ChargeFloor(o, limit, rules);
  }

  /** A refund counter of no more than one fifth, before London one half, of the gas used is refunded in full, and any
      other as far as that share goes. */
  lemma ChargeExact(o: Outcome, limit: nat, rules: Rules)
    requires o.gasLeft <= limit
    ensures var gross, charged := limit - o.gasLeft, Charge(o, limit, rules);
            var q := if rules.isLondon then 5 else 2;
            && (q * o.refund <= gross ==> charged == gross - o.refund)
            && (q * o.refund > gross ==> q * (gross - charged) <= gross < q * (gross - charged + 1))
  {
  }

  /** Gas used is never refunded completely. */
  lemma ChargePositive(o: Outcome, limit: nat, rules: Rules)
    requires o.gasLeft < limit
    ensures Charge(o, limit, rules) > 0
  {
    ChargeFloor(o, limit, rules);
  }

  // -------------------------------------------------------------- state machine

  class StateTransition {
    const msg: Message
    const rules: Rules
    const gp: GasPool
    var gasRemaining: nat
    var initialGas: nat
    var world: World

    constructor (msg: Message, rules: Rules, gp: GasPool, world: World)
      ensures this.msg == msg && this.rules == rules && this.gp == gp && this.world == world
              && gasRemaining == initialGas == 0
    {
      this.msg, this.rules, this.gp, this.world := msg, rules, gp, world;
      gasRemaining, initialGas := 0, 0;
    }

    function GasUsed(): int
      reads this
    {
      initialGas - gasRemaining
    }

    /** Checks that the sender can pay the worst case, takes the gas from the block and its price from the sender.
        A failure changes nothing. */
    method BuyGas() returns (r: Result<()>)
      requires gp.Valid() && msg.gasPrice <= msg.gasFeeCap && gasRemaining == 0
      modifies this, gp
      ensures gp.Valid()
      ensures r.Err? ==> unchanged(this) && gp.gas == old(gp.gas)
      ensures r.Err? ==> r.error != NONCE_TOO_LOW
      ensures r.Ok? <==>
        && BalanceOf(old(world.balances), msg.from) >= Wei(msg.gasLimit, msg.gasFeeCap) + msg.value
        && msg.gasLimit <= old(gp.gas)
      ensures r.Ok? ==>
        && gp.gas == old(gp.gas) - msg.gasLimit && gasRemaining == initialGas == msg.gasLimit
        && Wei(msg.gasLimit, msg.gasPrice) <= BalanceOf(old(world.balances), msg.from)
        && world == Bought(msg, old(world))
    {
      var mgval := Wei(msg.gasLimit, msg.gasPrice);
      var balanceCheck := Wei(msg.gasLimit, msg.gasFeeCap) + msg.value;
      ScaleBelow(msg.gasPrice, msg.gasFeeCap, msg.gasLimit);
      if BalanceOf(world.balances, msg.from) < balanceCheck {
        return Err("insufficient funds for gas * price + value");
      }
      r := gp.SubGas(msg.gasLimit);
      if r.Err? { return; }
      gasRemaining := gasRemaining + msg.gasLimit;
      initialGas := msg.gasLimit;
      world := world.(balances := Debit(world.balances, msg.from, mgval));
    }

    /** The consensus checks before a message may run.  A failure changes nothing; success has bought the gas. */
    method PreCheck() returns (r: Result<()>)
      requires gp.Valid() && Priced(msg, rules) && gasRemaining == 0
      modifies this, gp
      ensures gp.Valid()
      ensures r.Ok? <==> PreChecked(msg, rules, old(world), old(gp.gas))
      ensures r.Err? ==> (r.error == NONCE_TOO_LOW <==> Stale(msg, old(world)))
      ensures r.Err? ==> unchanged(this) && gp.gas == old(gp.gas)
      ensures r.Ok? ==>
        && gp.gas == old(gp.gas) - msg.gasLimit && gasRemaining == initialGas == msg.gasLimit
        && Wei(msg.gasLimit, msg.gasPrice) <= BalanceOf(old(world.balances), msg.from)
        && world == Bought(msg, old(world))
    {
      if !msg.skipAccountChecks {
        var stNonce := NonceOf(world, msg.from);
        if stNonce < msg.nonce { return Err("nonce too high"); }
        if stNonce > msg.nonce { return Err(NONCE_TOO_LOW); }
        if stNonce + 1 > MAX_UINT64 { return Err("nonce has max value"); }
        if msg.from in world.contracts { return Err("sender not an eoa"); }
      }
      if rules.isLondon {
        if !rules.noBaseFee || msg.gasFeeCap > 0 || msg.gasTipCap > 0 {
          if msg.gasFeeCap >= TWO_256 { return Err("max fee per gas higher than 2^256-1"); }
          if msg.gasTipCap >= TWO_256 { return Err("max priority fee per gas higher than 2^256-1"); }
          if msg.gasFeeCap < msg.gasTipCap { return Err("max priority fee per gas higher than max fee per gas"); }
          if msg.gasFeeCap < rules.baseFee.value { return Err("max fee per gas less than block base fee"); }
        }
      }
      r := BuyGas();
    }

    /** The checks between buying gas and running the message: intrinsic gas, value, init code size. */
    method ChargeIntrinsic() returns (r: Result<()>)
      requires Priced(msg, rules) && gasRemaining == msg.gasLimit
      modifies this`gasRemaining
      ensures r.Ok? <==> CoversIntrinsic(msg, rules) && BalanceOf(world.balances, msg.from) >= msg.value
      ensures r.Ok? ==> gasRemaining == msg.gasLimit - Wrap(IntrinsicCost(msg, rules))
      ensures r.Err? ==> r.error != NONCE_TOO_LOW
    {
      var creation := msg.to.None?;
      var gas := IntrinsicGas(msg.data, msg.accessList, creation, rules.isHomestead, rules.isIstanbul,
          rules.isShanghai);
      if gas.Err? { return Err(gas.error); }
      if gasRemaining < gas.value { return Err("intrinsic gas too low"); }
      gasRemaining := gasRemaining - gas.value;
      if msg.value > 0 && BalanceOf(world.balances, msg.from) < msg.value {
        return Err("insufficient funds for transfer");
      }
      if rules.isShanghai && creation && |msg.data| > MAX_INIT_CODE_SIZE { return Err("max initcode size exceeded"); }
      r := Ok(());
    }

    /** Runs the message with all remaining gas. */
    method Execute(evm: Evm) returns (o: Outcome)
      requires Frugal(evm)
      modifies this`gasRemaining, this`world
      ensures o == evm(msg, Nonced(msg, old(world)), old(gasRemaining))
      ensures world == o.world && gasRemaining == o.gasLeft <= old(gasRemaining)
    {
      o := evm(msg, Nonced(msg, world), gasRemaining);
      world, gasRemaining := o.world, o.gasLeft;
    }

    /** Returns unused gas, and the capped refund, to the sender and the block. */
    method RefundGas(q: nat, counter: nat)
      requires q > 0 && gp.Valid() && gasRemaining <= initialGas && gp.gas + initialGas <= MAX_UINT64
      modifies this, gp
      ensures gp.Valid() && gasRemaining <= initialGas == old(initialGas)
      ensures GasUsed() == old(GasUsed()) - Min(old(GasUsed()) / q, counter)
      ensures world == old(world).(balances := Credit(old(world.balances), msg.from, Wei(gasRemaining, msg.gasPrice)))
      ensures gp.gas == old(gp.gas) + gasRemaining
    {
      var refund := GasUsed() / q;
      PartFits(GasUsed(), q);
      if refund > counter { refund := counter; }
      gasRemaining := gasRemaining + refund;
      world := world.(balances := Credit(world.balances, msg.from, Wei(gasRemaining, msg.gasPrice)));
      gp.AddGas(gasRemaining);
    }

    /** Pays the miner its tip. */
    method PayTip()
      requires Priced(msg, rules) && CapCoversBaseFee(msg, rules) && gasRemaining <= initialGas
      modifies this`world
      ensures SkipsFee(msg, rules) ==> world == old(world)
      ensures !SkipsFee(msg, rules) ==>
        world == old(world).(balances := Credit(old(world.balances), rules.coinbase, Wei(GasUsed(), Tip(msg, rules))))
    {
      if SkipsFee(msg, rules) { return; }
      var effectiveTip := msg.gasPrice;
      if rules.isLondon { effectiveTip := Min(msg.gasTipCap, msg.gasFeeCap - rules.baseFee.value); }
      world := world.(balances := Credit(world.balances, rules.coinbase, Wei(GasUsed(), effectiveTip)));
    }

    method Settle(o: Outcome)
      requires gp.Valid() && Priced(msg, rules) && CapCoversBaseFee(msg, rules) && gp.gas + msg.gasLimit <= MAX_UINT64
      requires o.gasLeft <= msg.gasLimit == initialGas && world == o.world && gasRemaining == o.gasLeft
      modifies this, gp
      ensures gp.Valid() && GasUsed() == Charge(o, msg.gasLimit, rules)
      ensures world == Final(msg, rules, o) && gp.gas == old(gp.gas) + msg.gasLimit - GasUsed()
      ensures if rules.isLondon then 5 * GasUsed() >= 4 * (msg.gasLimit - o.gasLeft)
              else 2 * GasUsed() >= msg.gasLimit - o.gasLeft
    {
      ChargeShare(o, msg.gasLimit, rules);
      RefundGas(Quotient(rules), o.refund);
      PayTip();
    }

    /** Applies the message.  It succeeds exactly on the accepted messages, with the charge and the final state of the
        specification, and the block has then lost exactly the gas charged.  On failure the block may have lost the gas
        limit, which the caller has to undo. */
    method TransitionDb(evm: Evm) returns (r: Result<ExecutionResult>)
      requires gp.Valid() && Priced(msg, rules) && Frugal(evm) && gasRemaining == 0
      modifies this, gp
      ensures gp.Valid()
      ensures r.Ok? <==> Accepted(msg, rules, old(world), old(gp.gas))
      ensures r.Err? ==> (r.error == NONCE_TOO_LOW <==> Stale(msg, old(world)))
      ensures r.Err? ==>
        gp.gas == old(gp.gas) - if PreChecked(msg, rules, old(world), old(gp.gas)) then msg.gasLimit else 0
      ensures r.Ok? ==>
        var o := Ran(msg, rules, old(world), old(gp.gas), evm);
        && r.value == ExecutionResult(Charge(o, msg.gasLimit, rules), o.failed)
        && (if rules.isLondon then 5 * r.value.usedGas >= 4 * (msg.gasLimit - o.gasLeft)
            else 2 * r.value.usedGas >= msg.gasLimit - o.gasLeft)
        && gp.gas == old(gp.gas) - r.value.usedGas
        && world == Final(msg, rules, o)
    {
      var checked := PreCheck();
      if checked.Err? { return Err(checked.error); }
      Affordable(msg, rules, old(world), old(gp.gas));
      var covered := ChargeIntrinsic();
      if covered.Err? { return Err(covered.error); }
      var o := Execute(evm);
      Settle(o);
      r := Ok(ExecutionResult(GasUsed(), o.failed));
    }
  }
}
