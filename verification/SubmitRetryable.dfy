/**
 * Submit-retryable transactions: the fee computation (crates/arbos/src/tx_processor.rs) and the money it moves
 * (crates/arb-evm/src/build.rs).
 */
module SubmitRetryable {
  import opened Machine
  import opened Options
  import opened Accounts
  import opened Ledger
  import opened Executor
  import opened Books

  const ARBOS_VERSION_11: nat := 11

  // ----- fee computation -----

  /** Takes up to `take` from `pool`: what was taken and what is left. */
  function TakeFunds(pool: U256, take: U256): (r: (U256, U256))
    ensures r.0 + r.1 == pool && r.0 == Min(pool, take)
  {
    if pool < take then (pool, 0) else (take, pool - take)
  }

  datatype SubmitTx = SubmitTx(
    sender: Address,
    feeRefundAddr: Address,
    escrow: Address,
    depositValue: U256,
    retryValue: U256,
    gasFeeCap: U256,
    gas: U64,
    maxSubmissionFee: U256,
    submissionFee: U256)

  datatype Env = Env(
    networkFeeAccount: Address,
    infraFeeAccount: Address,
    baseFee: U256,
    minBaseFee: U256,
    arbosVersion: nat)

  datatype Fees =
    | FeeError
    | Fees(submissionFeeRefund: U256, canPayForGas: bool, infraCost: U256, networkCost: U256,
           gasPriceRefund: U256, gasCostRefund: U256, availableRefund: U256, withheldSubmissionFee: U256)

  /** The infra and network shares of the gas cost. */
  function GasSplit(tx: SubmitTx, env: Env): (U256, U256) {
    var gasCost := SatMul256(env.baseFee, tx.gas);
    if env.arbosVersion >= ARBOS_VERSION_11 && env.infraFeeAccount != 0 then
      TakeFunds(gasCost, SatMul256(Min(env.minBaseFee, env.baseFee), tx.gas))
    else
      (0, gasCost)
  }

  /** The sender's balance as predicted before any transfer is made. */
  function BalanceAfterDeductions(tx: SubmitTx, balance: U256, submissionFeeRefund: U256): U256 {
    var rest := SatSub(SatSub(balance, tx.submissionFee), tx.retryValue);
    if tx.feeRefundAddr != tx.sender then SatSub(rest, submissionFeeRefund) else rest
  }

  function ComputeFees(tx: SubmitTx, env: Env, balance: U256): Fees {
    if balance < tx.maxSubmissionFee || tx.maxSubmissionFee < tx.submissionFee then
      FeeError
    else
      var (_, pool0) := TakeFunds(tx.depositValue, tx.retryValue);
      var (withheld, pool1) := TakeFunds(pool0, tx.submissionFee);
      var (refund, pool2) := TakeFunds(pool1, SatSub(tx.maxSubmissionFee, tx.submissionFee));
      var maxGasCost := SatMul256(tx.gasFeeCap, tx.gas);
      var canPay :=
        && tx.gasFeeCap >= env.baseFee
        && tx.gas >= TX_GAS
        && BalanceAfterDeductions(tx, balance, refund) >= maxGasCost;
      var (infraCost, networkCost) := GasSplit(tx, env);
      if !canPay then
        var (gasCostRefund, pool3) := TakeFunds(pool2, maxGasCost);
        Fees(refund, false, infraCost, networkCost, 0, gasCostRefund, pool3, withheld)
      else
        var (withheldGas, pool3) := TakeFunds(pool2, SatMul256(env.baseFee, tx.gas));
        var (priceRefund, pool4) := TakeFunds(pool3, SatMul256(tx.gasFeeCap - env.baseFee, tx.gas));
        Fees(refund, true, infraCost, networkCost, priceRefund, 0,
             SatAdd256(SatAdd256(pool4, withheldGas), withheld), withheld)
  }

  /**
   * The predicted balance is the one the sender really has after its transfers, less what a sender that is itself
   * the network account or the escrow pays to itself: those self-transfers are deducted although nothing leaves.
   */
  lemma PredictedBalance(tx: SubmitTx, env: Env, balance: U256, submissionFeeRefund: U256)
    ensures
      var moved := Gain(Move(tx.sender, env.networkFeeAccount, tx.submissionFee), tx.sender)
                   + Gain(Move(tx.sender, tx.feeRefundAddr, submissionFeeRefund), tx.sender)
                   + Gain(Move(tx.sender, tx.escrow, tx.retryValue), tx.sender);
      var toItself := (if env.networkFeeAccount == tx.sender then tx.submissionFee else 0)
                      + (if tx.escrow == tx.sender then tx.retryValue else 0);
      BalanceAfterDeductions(tx, balance, submissionFeeRefund) == Max(0, balance + moved - toItself)
  {
  }

  /** What the fee payments that precede the gas check really leave the sender. */
  ghost function BalanceBeforeGas(tx: SubmitTx, env: Env, balance: U256, submissionFeeRefund: U256): int {
    balance
    + Gain(Move(tx.sender, env.networkFeeAccount, tx.submissionFee), tx.sender)
    + Gain(Move(tx.sender, tx.feeRefundAddr, submissionFeeRefund), tx.sender)
    + Gain(Move(tx.sender, tx.escrow, tx.retryValue), tx.sender)
  }

  /** Gas the sender could pay for is refused exactly when only what the sender pays to itself makes up the price. */
  lemma AffordableGasRefused(tx: SubmitTx, env: Env, balance: U256)
    ensures
      var f := ComputeFees(tx, env, balance);
      var maxGasCost := SatMul256(tx.gasFeeCap, tx.gas);
      var toItself := (if env.networkFeeAccount == tx.sender then tx.submissionFee else 0)
                      + (if tx.escrow == tx.sender then tx.retryValue else 0);
      f.Fees? && tx.gasFeeCap >= env.baseFee && tx.gas >= TX_GAS ==>
        var left := BalanceBeforeGas(tx, env, balance, f.submissionFeeRefund);
        left >= maxGasCost && !f.canPayForGas <==> maxGasCost <= left < maxGasCost + toItself && maxGasCost > 0
  {
    var f := ComputeFees(tx, env, balance);
    if f.Fees? {
      PredictedBalance(tx, env, balance, f.submissionFeeRefund);
    }
  }

  /** The network account submits for itself: 21,050 less a fee of 100 paid to itself leaves 21,050, and gas for 21,000
      is refused. */
  lemma AffordableGasRefusedExample()
    ensures
      var tx := SubmitTx(7, 7, 8, 0, 0, 1, 21_000, 100, 100);
      var env := Env(7, 0, 1, 1, 20);
      && ComputeFees(tx, env, 21_050).Fees? && !ComputeFees(tx, env, 21_050).canPayForGas
      && BalanceBeforeGas(tx, env, 21_050, 0) == 21_050 > tx.gasFeeCap * tx.gas
  {
    var tx := SubmitTx(7, 7, 8, 0, 0, 1, 21_000, 100, 100);
    var env := Env(7, 0, 1, 1, 20);
    assert BalanceAfterDeductions(tx, 21_050, 0) == 20_950;
    assert SatMul256(tx.gasFeeCap, tx.gas) == 21_000;
  }

  /** The deposit is spent exactly once: on the call value, on refunds made now, or on what a redeem may still refund. */
  lemma DepositSpentOnce(tx: SubmitTx, env: Env, balance: U256)
    ensures
      var f := ComputeFees(tx, env, balance);
      var toCallValue := Min(tx.depositValue, tx.retryValue);
      f.Fees? ==>
        tx.depositValue == toCallValue + f.submissionFeeRefund + f.gasPriceRefund + f.gasCostRefund + f.availableRefund
                           + (if f.canPayForGas then 0 else f.withheldSubmissionFee)
  {
  }

  /** From version 11 with an infra account it gets the minimum base fee for the gas before the network gets anything;
      otherwise it gets nothing. */
  lemma InfraComesFirst(tx: SubmitTx, env: Env, balance: U256)
    ensures
      var f := ComputeFees(tx, env, balance);
      f.Fees? ==>
        if env.arbosVersion >= ARBOS_VERSION_11 && env.infraFeeAccount != 0 then
          && f.infraCost <= SatMul256(env.minBaseFee, tx.gas)
          && (f.networkCost > 0 ==> f.infraCost == SatMul256(env.minBaseFee, tx.gas))
        else f.infraCost == 0
  {
    ProductMonotone(Min(env.minBaseFee, env.baseFee), env.minBaseFee, tx.gas, tx.gas);
  }

  /** The deposit pays claims in order, each as far as what is left goes: call value, submission fee, its excess, then the
      gas at the cap when gas cannot be paid for, and otherwise the gas at the base fee before the rest of the cap. */
  lemma DepositPaysInOrder(tx: SubmitTx, env: Env, balance: U256)
    ensures
      var f, value := ComputeFees(tx, env, balance), tx.retryValue;
      var atCap, atBase := SatMul256(tx.gasFeeCap, tx.gas), SatMul256(env.baseFee, tx.gas);
      f.Fees? ==>
        && Min(tx.depositValue, value) + f.withheldSubmissionFee == Min(tx.depositValue, value + tx.submissionFee)
        && Min(tx.depositValue, value + tx.submissionFee) + f.submissionFeeRefund
           == Min(tx.depositValue, value + tx.maxSubmissionFee)
        && f.gasCostRefund
           == (if f.canPayForGas then 0
               else Min(tx.depositValue, value + tx.maxSubmissionFee + atCap)
                    - Min(tx.depositValue, value + tx.maxSubmissionFee))
        && f.gasPriceRefund
           == (if !f.canPayForGas then 0
               else Min(tx.depositValue,
                        value + tx.maxSubmissionFee + atBase + SatMul256(tx.gasFeeCap - env.baseFee, tx.gas))
                    - Min(tx.depositValue, value + tx.maxSubmissionFee + atBase))
  {
  }

  /** Fees are refused exactly when the sender or the cap does not cover the submission fee, and gas is paid for exactly
      when price, gas and predicted balance suffice. */
  lemma FeesAccepted(tx: SubmitTx, env: Env, balance: U256)
    ensures
      var f, atCap := ComputeFees(tx, env, balance), SatMul256(tx.gasFeeCap, tx.gas);
      && (f.Fees? <==> tx.submissionFee <= tx.maxSubmissionFee <= balance)
      && (f.Fees? ==>
            var refund := if tx.feeRefundAddr == tx.sender then 0 else f.submissionFeeRefund;
            (f.canPayForGas <==>
               && env.baseFee <= tx.gasFeeCap
               && TX_GAS <= tx.gas
               && (atCap == 0 || atCap + tx.submissionFee + tx.retryValue + refund <= balance)))
  {
    hide SatMul256, GasSplit;
  }

  /** The bounds that let every fee be paid: the sender can cover each amount that is going to be moved. */
  lemma FeesCovered(tx: SubmitTx, env: Env, balance: U256)
    requires balance >= tx.depositValue
    ensures
      var f := ComputeFees(tx, env, balance);
      f.Fees? ==>
        && tx.submissionFee + f.submissionFeeRefund <= tx.maxSubmissionFee <= balance
        && f.withheldSubmissionFee <= tx.submissionFee
        && f.infraCost + f.networkCost == SatMul256(env.baseFee, tx.gas)
        && (env.infraFeeAccount == 0 ==> f.infraCost == 0)
        && (f.canPayForGas ==>
              f.infraCost + f.networkCost + f.gasPriceRefund
              <= Max(BalanceAfterDeductions(tx, balance, f.submissionFeeRefund),
                     balance - tx.submissionFee - tx.retryValue - f.submissionFeeRefund))
        && (f.gasCostRefund > 0 ==>
              f.gasCostRefund + tx.retryValue + tx.submissionFee + f.submissionFeeRefund <= balance)
  {
    var f := ComputeFees(tx, env, balance);
    if f.Fees? && f.canPayForGas {
      ProductMonotone(env.baseFee, tx.gasFeeCap, tx.gas, tx.gas);
    }
  }

  // ----- the money flow -----

  datatype Outcome =
    | FeeRejected
    | EscrowShortfall
    | TicketCreated(gasUsed: U64, scheduled: Option<RetryTx>)

  datatype RetryTx = RetryTx(gas: U64, refundTo: Address, maxRefund: U256, submissionFeeRefund: U256)

  ghost predicate AddressesBelow(tx: SubmitTx, env: Env, n: nat) {
    tx.sender < n && tx.feeRefundAddr < n && tx.escrow < n && env.networkFeeAccount < n && env.infraFeeAccount < n
  }

  /** The submission fee and the refund of its excess. */
  ghost function FeeMoves(tx: SubmitTx, env: Env, f: Fees): seq<Move>
    requires f.Fees?
  {
    [Move(tx.sender, env.networkFeeAccount, tx.submissionFee), Move(tx.sender, tx.feeRefundAddr, f.submissionFeeRefund)]
  }

  /** When the escrow transfer falls short: the fee goes back, and what the deposit covered of it is refunded. */
  ghost function ShortfallMoves(tx: SubmitTx, env: Env, f: Fees): seq<Move>
    requires f.Fees?
  {
    [Move(env.networkFeeAccount, tx.sender, tx.submissionFee), Move(tx.sender, tx.feeRefundAddr, f.withheldSubmissionFee)]
  }

  /** The cost of gas split over its two collectors and the price refund, or the refund of what gas would have cost. */
  ghost function GasMoves(tx: SubmitTx, env: Env, f: Fees): seq<Move>
    requires f.Fees?
  {
    if f.canPayForGas then
      [Move(tx.sender, env.infraFeeAccount, f.infraCost),
       Move(tx.sender, env.networkFeeAccount, f.networkCost),
       Move(tx.sender, tx.feeRefundAddr, f.gasPriceRefund)]
    else
      [Move(tx.sender, tx.feeRefundAddr, f.gasCostRefund)]
  }

  /** Every move of value the transaction makes after its deposit was minted, in order. */
  ghost function Payments(tx: SubmitTx, env: Env, f: Fees, escrowed: bool): seq<Move> {
    if f.FeeError? then []
    else if !escrowed then FeeMoves(tx, env, f) + ShortfallMoves(tx, env, f)
    else FeeMoves(tx, env, f) + [Move(tx.sender, tx.escrow, tx.retryValue)] + GasMoves(tx, env, f)
  }

  predicate AllDifferent(tx: SubmitTx, env: Env) {
    && tx.sender !in {tx.feeRefundAddr, tx.escrow, env.networkFeeAccount, env.infraFeeAccount}
    && tx.feeRefundAddr !in {tx.escrow, env.networkFeeAccount, env.infraFeeAccount}
    && tx.escrow !in {env.networkFeeAccount, env.infraFeeAccount}
    && env.networkFeeAccount != env.infraFeeAccount
  }

  /** Who gets what of an escrowed submission, when all its accounts are different. */
  lemma RolesGain(tx: SubmitTx, env: Env, f: Fees)
    requires f.Fees?
    requires AllDifferent(tx, env)
    ensures
      var paid := Payments(tx, env, f, true);
      && Net(paid, env.networkFeeAccount) == tx.submissionFee + (if f.canPayForGas then f.networkCost else 0)
      && Net(paid, env.infraFeeAccount) == (if f.canPayForGas then f.infraCost else 0)
      && Net(paid, tx.escrow) == tx.retryValue
      && Net(paid, tx.feeRefundAddr)
         == f.submissionFeeRefund + (if f.canPayForGas then f.gasPriceRefund else f.gasCostRefund)
  {
    var escrow := Move(tx.sender, tx.escrow, tx.retryValue);
    var fees, gas := FeeMoves(tx, env, f), GasMoves(tx, env, f);
    forall a: Address
      ensures Net(fees + [escrow] + gas, a) == Net(fees, a) + Gain(escrow, a) + Net(gas, a)
      ensures Net(fees, a) == Gain(fees[0], a) + Gain(fees[1], a)
      ensures f.canPayForGas ==> Net(gas, a) == Gain(gas[0], a) + Gain(gas[1], a) + Gain(gas[2], a)
      ensures !f.canPayForGas ==> Net(gas, a) == Gain(gas[0], a)
    {
      NetConcat(fees + [escrow], gas, a);
      NetAppend(fees, escrow, a);
      NetFew(fees, a);
      NetFew(gas, a);
    }
  }

  // ----- the same as books, with whatever may fall short -----

  function FeePostings(tx: SubmitTx, env: Env, f: Fees): seq<Posting>
    requires f.Fees?
  {
    [MoveIfCovered(tx.sender, env.networkFeeAccount, tx.submissionFee)]
    + [MoveIfCovered(tx.sender, tx.feeRefundAddr, f.submissionFeeRefund)]
  }

  function ShortfallPostings(tx: SubmitTx, env: Env, f: Fees): seq<Posting>
    requires f.Fees?
  {
    [MoveIfCovered(env.networkFeeAccount, tx.sender, tx.submissionFee)]
    + [MoveIfCovered(tx.sender, tx.feeRefundAddr, f.withheldSubmissionFee)]
  }

  function GasPostings(tx: SubmitTx, env: Env, f: Fees): seq<Posting>
    requires f.Fees?
  {
    if f.canPayForGas then
      [MoveIfCovered(tx.sender, env.infraFeeAccount, f.infraCost)]
      + [MoveIfCovered(tx.sender, env.networkFeeAccount, f.networkCost)]
      + [MoveIfCovered(tx.sender, tx.feeRefundAddr, f.gasPriceRefund)]
    else
      [MoveIfCovered(tx.sender, tx.feeRefundAddr, f.gasCostRefund)]
  }

  function FundsPostings(tx: SubmitTx, env: Env, f: Fees, escrowed: bool): seq<Posting>
    requires f.Fees?
  {
    var toEscrow := FeePostings(tx, env, f) + [MoveIfCovered(tx.sender, tx.escrow, tx.retryValue)];
    if !escrowed then toEscrow + ShortfallPostings(tx, env, f)
    else toEscrow + (if tx.retryValue == 0 then [Materialise(tx.escrow)] else []) + GasPostings(tx, env, f)
  }

  /** Whether the sender can cover the call value once the submission fee is paid. */
  ghost predicate EscrowCovered(tx: SubmitTx, env: Env, f: Fees, k: Book)
    requires f.Fees?
  {
    tx.retryValue <= Funds(ViewsOf(Plus(k, FeePostings(tx, env, f)))(tx.sender))
  }

  /** Everything a submission books. */
  ghost function SubmitPostings(tx: SubmitTx, env: Env, k: Book): seq<Posting> {
    var minted := Plus(k, [MintTo(tx.sender, tx.depositValue)]);
    var f := ComputeFees(tx, env, Funds(ViewsOf(minted)(tx.sender)));
    [MintTo(tx.sender, tx.depositValue)]
    + if f.FeeError? then [] else FundsPostings(tx, env, f, EscrowCovered(tx, env, f, minted))
  }

  ghost predicate Fits(x: ArbBlockExecutor, tx: SubmitTx, env: Env, n: nat)
    reads x.state
  {
    AddressesBelow(tx, env, n) && x.TotalBalance(n) <= U256_MAX
  }

  /** All balances are those of `start` changed by the payments made so far. */
  ghost predicate Accounted(x: ArbBlockExecutor, start: map<Address, CacheAccount>, paid: seq<Move>)
    reads x.state
  {
    forall a: Address :: x.state.BalanceOf(a) == BalanceIn(x.state.db, start, a) + Net(paid, a)
  }

  lemma AccountedFromStart(x: ArbBlockExecutor)
    ensures Accounted(x, x.state.cache, [])
  {
    forall a: Address
      ensures x.state.BalanceOf(a) == BalanceIn(x.state.db, x.state.cache, a)
    {
    }
  }

  /** A transfer whose shortfall is swallowed, and which touches both accounts; skipped for some zero amounts. */
  method Pay(x: ArbBlockExecutor, from: Address, to: Address, amount: U256, skipped: bool,
             ghost n: nat, ghost start: map<Address, CacheAccount>, ghost paid: seq<Move>, ghost k: Book)
    returns (r: BalanceResult, ghost paid': seq<Move>)
    requires x.Valid() && x.AllTouched() && Matches(x, k)
    requires skipped ==> amount == 0
    modifies x`touched, x.state`cache, x.overlay`entries
    ensures x.Valid() && x.AllTouched() && Matches(x, Plus(k, [MoveIfCovered(from, to, amount)]))
    ensures x.touched == if skipped then old(x.touched) else old(x.touched) + {from, to}
    ensures r.InsufficientBalance? <==> old(x.state.BalanceOf(from)) < amount
    ensures paid' == if r.Moved? then paid + [Move(from, to, amount)] else paid
    ensures from < n && to < n && old(x.TotalBalance(n)) <= U256_MAX ==>
              && x.TotalBalance(n) == old(x.TotalBalance(n))
              && (forall a: Address :: x.state.BalanceOf(a)
                    == old(x.state.BalanceOf(a)) + (if r.Moved? then Gain(Move(from, to, amount), a) else 0))
              && (old(Accounted(x, start, paid)) ==> Accounted(x, start, paid'))
  {
    hide ArbBlockExecutor.Valid, ViewsOf, ZombiesOf, Plus;
    PlusOne(k, MoveIfCovered(from, to, amount));
    r := Moved;
    if !skipped {
      r := x.Transfer(from, to, amount);
      x.touched := x.touched + {from, to};
    }
    paid' := if r.Moved? then paid + [Move(from, to, amount)] else paid;
    forall a: Address
      ensures Net(paid', a) == Net(paid, a) + (if r.Moved? then Gain(Move(from, to, amount), a) else 0)
    {
      NetAppend(paid, Move(from, to, amount), a);
    }
  }

  /** Pays the submission fee to the network and refunds its excess. */
  method PayFees(x: ArbBlockExecutor, env: Env, t: SubmitTx, f: Fees, ghost n: nat, ghost k: Book)
    returns (ghost paid: seq<Move>)
    requires x.Valid() && x.AllTouched() && Matches(x, k) && f.Fees?
    modifies x`touched, x.state`cache, x.overlay`entries
    ensures x.Valid() && x.AllTouched() && Matches(x, Plus(k, FeePostings(t, env, f)))
    ensures old(Fits(x, t, env, n)) && old(x.state.BalanceOf(t.sender)) >= t.submissionFee + f.submissionFeeRefund ==>
              && x.TotalBalance(n) == old(x.TotalBalance(n))
              && paid == FeeMoves(t, env, f)
              && Accounted(x, old(x.state.cache), paid)
              && (forall a: Address :: x.state.BalanceOf(a) == old(x.state.BalanceOf(a)) + FeeGain(t, env, f, a))
  {
    hide ArbBlockExecutor.Valid, ArbBlockExecutor.AllTouched, Accounted, Matches, Plus;
    var r;
    ghost var start, ps := x.state.cache, [MoveIfCovered(t.sender, env.networkFeeAccount, t.submissionFee)];
    paid := [];
    AccountedFromStart(x);
    r, paid := Pay(x, t.sender, env.networkFeeAccount, t.submissionFee, t.submissionFee == 0, n, start, paid, k);
    r, paid := Pay(x, t.sender, t.feeRefundAddr, f.submissionFeeRefund, false, n, start, paid, Plus(k, ps));
    PlusTwice(k, ps, [MoveIfCovered(t.sender, t.feeRefundAddr, f.submissionFeeRefund)]);
  }

  ghost function FeeGain(t: SubmitTx, env: Env, f: Fees, a: Address): int
    requires f.Fees?
  {
    Gain(Move(t.sender, env.networkFeeAccount, t.submissionFee), a)
    + Gain(Move(t.sender, t.feeRefundAddr, f.submissionFeeRefund), a)
  }

  /** Once the call value is escrowed, the sender still covers everything that remains to be paid, whoever else it is. */
  lemma RestCovered(t: SubmitTx, env: Env, balance: U256)
    requires balance >= t.depositValue
    ensures
      var f := ComputeFees(t, env, balance);
      f.Fees? ==>
        var beforeEscrow := balance + FeeGain(t, env, f, t.sender);
        && beforeEscrow >= (if env.networkFeeAccount == t.sender then t.submissionFee else 0)
        && (beforeEscrow >= t.retryValue ==>
              beforeEscrow + Gain(Move(t.sender, t.escrow, t.retryValue), t.sender)
              >= (if f.canPayForGas then f.infraCost + f.networkCost + f.gasPriceRefund else f.gasCostRefund))
  {
    FeesCovered(t, env, balance);
  }

  /** Collects the gas cost, or refunds it when gas cannot be paid for. */
  method PayForGas(x: ArbBlockExecutor, env: Env, t: SubmitTx, f: Fees,
                   ghost n: nat, ghost start: map<Address, CacheAccount>, ghost paid: seq<Move>, ghost k: Book)
    returns (ghost paid': seq<Move>)
    requires x.Valid() && x.AllTouched() && Matches(x, k) && f.Fees?
    requires env.infraFeeAccount == 0 ==> f.infraCost == 0
    modifies x`touched, x.state`cache, x.overlay`entries
    ensures x.Valid() && x.AllTouched() && Matches(x, Plus(k, GasPostings(t, env, f)))
    ensures old(Fits(x, t, env, n)) && old(Accounted(x, start, paid))
            && old(x.state.BalanceOf(t.sender)) >= (if f.canPayForGas then f.infraCost + f.networkCost + f.gasPriceRefund
                                                    else f.gasCostRefund) ==>
              && x.TotalBalance(n) == old(x.TotalBalance(n))
              && paid' == paid + GasMoves(t, env, f)
              && Accounted(x, start, paid')
  {
    hide ArbBlockExecutor.Valid, ArbBlockExecutor.AllTouched, Accounted, Matches, Plus;
    var r;
    if f.canPayForGas {
      ghost var ps := [MoveIfCovered(t.sender, env.infraFeeAccount, f.infraCost)];
      ghost var qs := ps + [MoveIfCovered(t.sender, env.networkFeeAccount, f.networkCost)];
      r, paid' := Pay(x, t.sender, env.infraFeeAccount, f.infraCost, env.infraFeeAccount == 0, n, start, paid, k);
      r, paid' := Pay(x, t.sender, env.networkFeeAccount, f.networkCost, f.networkCost == 0, n, start, paid', Plus(k, ps));
      PlusTwice(k, ps, [MoveIfCovered(t.sender, env.networkFeeAccount, f.networkCost)]);
      r, paid' := Pay(x, t.sender, t.feeRefundAddr, f.gasPriceRefund, false, n, start, paid', Plus(k, qs));
      PlusTwice(k, qs, [MoveIfCovered(t.sender, t.feeRefundAddr, f.gasPriceRefund)]);
    } else {
      r, paid' := Pay(x, t.sender, t.feeRefundAddr, f.gasCostRefund, f.gasCostRefund == 0, n, start, paid, k);
    }
  }

  /** Undoes the submission fee after the escrow transfer fell short. */
  method RefundShortfall(x: ArbBlockExecutor, env: Env, t: SubmitTx, f: Fees,
                         ghost n: nat, ghost start: map<Address, CacheAccount>, ghost paid: seq<Move>, ghost k: Book)
    returns (ghost paid': seq<Move>)
    requires x.Valid() && x.AllTouched() && Matches(x, k) && f.Fees?
    modifies x`touched, x.state`cache, x.overlay`entries
    ensures x.Valid() && x.AllTouched() && Matches(x, Plus(k, ShortfallPostings(t, env, f)))
    ensures old(Fits(x, t, env, n)) && old(Accounted(x, start, paid)) && f.withheldSubmissionFee <= t.submissionFee
            && old(x.state.BalanceOf(env.networkFeeAccount)) >= t.submissionFee ==>
              && x.TotalBalance(n) == old(x.TotalBalance(n))
              && paid' == paid + ShortfallMoves(t, env, f)
              && Accounted(x, start, paid')
  {
    hide ArbBlockExecutor.Valid, ArbBlockExecutor.AllTouched, Accounted, Matches, Plus;
    var r;
    ghost var ps := [MoveIfCovered(env.networkFeeAccount, t.sender, t.submissionFee)];
    r, paid' := Pay(x, env.networkFeeAccount, t.sender, t.submissionFee, false, n, start, paid, k);
    r, paid' := Pay(x, t.sender, t.feeRefundAddr, f.withheldSubmissionFee, false, n, start, paid', Plus(k, ps));
    PlusTwice(k, ps, [MoveIfCovered(t.sender, t.feeRefundAddr, f.withheldSubmissionFee)]);
  }

  /** At zero call value the escrow is materialised so that Finalise destructs it; no balance changes. */
  method TouchEscrow(x: ArbBlockExecutor, t: SubmitTx, ghost start: map<Address, CacheAccount>, ghost paid: seq<Move>,
                     ghost k: Book)
    requires x.Valid() && x.AllTouched() && Matches(x, k)
    modifies x`touched, x.state`cache, x.overlay`entries
    ensures x.Valid() && x.AllTouched()
    ensures Matches(x, Plus(k, if t.retryValue == 0 then [Materialise(t.escrow)] else []))
    ensures forall a: Address :: x.state.BalanceOf(a) == old(x.state.BalanceOf(a))
    ensures forall n: nat :: x.TotalBalance(n) == old(x.TotalBalance(n))
    ensures t.retryValue == 0 ==> x.state.View(t.escrow).Some? && t.escrow in x.touched
    ensures old(Accounted(x, start, paid)) ==> Accounted(x, start, paid)
  {
    hide ArbBlockExecutor.Valid, ViewsOf, ZombiesOf, Plus;
    PlusOne(k, Materialise(t.escrow));
    PlusTwice(k, [], []);
    if t.retryValue == 0 {
      x.MaterialiseEmpty(t.escrow);
    }
  }

  /** Moves the funds of a transaction whose fees were accepted; reports whether the call value was escrowed. */
  method MoveFunds(x: ArbBlockExecutor, env: Env, t: SubmitTx, f: Fees, ghost n: nat, ghost k: Book)
    returns (escrowed: bool)
    requires x.Valid() && x.AllTouched() && Matches(x, k)
    requires x.state.BalanceOf(t.sender) <= U256_MAX && f == ComputeFees(t, env, x.state.BalanceOf(t.sender))
    requires f.Fees? && x.state.BalanceOf(t.sender) >= t.depositValue
    modifies x`touched, x.state`cache, x.overlay`entries
    ensures x.Valid() && x.AllTouched()
    ensures Matches(x, Plus(k, FundsPostings(t, env, f, escrowed))) && (escrowed <==> EscrowCovered(t, env, f, k))
    ensures old(Fits(x, t, env, n)) ==>
              && x.TotalBalance(n) == old(x.TotalBalance(n))
              && Accounted(x, old(x.state.cache), Payments(t, env, f, escrowed))
              && (escrowed <==> t.retryValue <= old(x.state.BalanceOf(t.sender)) + FeeGain(t, env, f, t.sender))
  {
    hide ArbBlockExecutor.Valid, ArbBlockExecutor.AllTouched, Accounted, ComputeFees, Matches, ViewsOf, Plus;
    hide FeePostings, ShortfallPostings, GasPostings;
    FeesCovered(t, env, x.state.BalanceOf(t.sender));
    RestCovered(t, env, x.state.BalanceOf(t.sender));
    ghost var start := x.state.cache;
    ghost var fits := Fits(x, t, env, n);
    ghost var ps := FeePostings(t, env, f);
    ghost var paid := PayFees(x, env, t, f, n, k);
    SenderShown(x, t, Plus(k, ps));
    var r;
    r, paid := Pay(x, t.sender, t.escrow, t.retryValue, false, n, start, paid, Plus(k, ps));
    PlusTwice(k, ps, [MoveIfCovered(t.sender, t.escrow, t.retryValue)]);
    ps := ps + [MoveIfCovered(t.sender, t.escrow, t.retryValue)];
    if r.InsufficientBalance? {
      paid := RefundShortfall(x, env, t, f, n, start, paid, Plus(k, ps));
      PlusTwice(k, ps, ShortfallPostings(t, env, f));
      assert fits ==> paid == Payments(t, env, f, false);
      return false;
    }
    TouchEscrow(x, t, start, paid, Plus(k, ps));
    ghost var touch := if t.retryValue == 0 then [Materialise(t.escrow)] else [];
    PlusTwice(k, ps, touch);
    paid := PayForGas(x, env, t, f, n, start, paid, Plus(k, ps + touch));
    PlusTwice(k, ps + touch, GasPostings(t, env, f));
    assert fits ==> paid == Payments(t, env, f, true);
    return true;
  }

  lemma SenderShown(x: ArbBlockExecutor, t: SubmitTx, k: Book)
    requires Matches(x, k)
    ensures x.state.BalanceOf(t.sender) == Funds(ViewsOf(k)(t.sender))
  {
  }

  /** `expected_balance_delta`, saturating as an i128. */
  function AddDelta(delta: int, value: U256): int {
    Min(delta + Min(value, I128_MAX), I128_MAX)
  }

  /** Mints the deposit and accounts for it. */
  method MintDeposit(x: ArbBlockExecutor, sender: Address, value: U256, ghost n: nat, ghost k: Book)
    requires x.Valid() && x.AllTouched() && Matches(x, k)
    modifies x`touched, x`expectedBalanceDelta, x.state`cache, x.overlay`entries
    ensures x.Valid() && x.AllTouched() && Matches(x, Plus(k, [MintTo(sender, value)]))
    ensures x.expectedBalanceDelta == AddDelta(old(x.expectedBalanceDelta), value)
    ensures old(x.state.BalanceOf(sender)) <= U256_MAX
    ensures x.state.BalanceOf(sender) == SatAdd256(old(x.state.BalanceOf(sender)), value)
    ensures forall a: Address :: a != sender ==> x.state.BalanceOf(a) == old(x.state.BalanceOf(a))
    ensures sender < n && old(x.TotalBalance(n)) + value <= U256_MAX ==>
              && x.TotalBalance(n) == old(x.TotalBalance(n)) + value
              && x.state.BalanceOf(sender) == old(x.state.BalanceOf(sender)) + value
  {
    hide ArbBlockExecutor.Valid, ViewsOf, ZombiesOf, Plus;
    PlusOne(k, MintTo(sender, value));
    x.Mint(sender, value);
    x.touched := x.touched + {sender};
    x.expectedBalanceDelta := AddDelta(x.expectedBalanceDelta, value);
  }

  /** Reading a balance leaves the books as they are. */
  method ReadBooked(x: ArbBlockExecutor, a: Address, ghost k: Book) returns (balance: U256)
    requires x.Valid() && x.AllTouched() && Matches(x, k)
    modifies x.state`cache
    ensures x.Valid() && x.AllTouched() && Matches(x, k)
    ensures balance == old(x.state.BalanceOf(a)) == Funds(ViewsOf(k)(a))
    ensures forall b: Address :: x.state.BalanceOf(b) == old(x.state.BalanceOf(b))
    ensures forall n: nat :: x.TotalBalance(n) == old(x.TotalBalance(n))
  {
    hide ArbBlockExecutor.Valid, ArbBlockExecutor.AllTouched, ViewsOf, ZombiesOf;
    balance := x.GetBalance(a);
  }

  /** Where the fee refunds of a transaction go: a filtered one has them redirected. */
  function Redirected(tx: SubmitTx, filteredRecipient: Option<Address>): SubmitTx {
    if filteredRecipient.Some? then tx.(feeRefundAddr := filteredRecipient.value) else tx
  }

  /**
   * Executes a submit-retryable transaction. Whatever branch is taken and however its addresses coincide, only
   * the escrow transfer can fall short: every other amount moves in full, and balances change by exactly the
   * deposit and the payments of that branch.
   */
  method ExecuteSubmitRetryable(x: ArbBlockExecutor, env: Env, submitted: SubmitTx, filteredRecipient: Option<Address>,
                                ghost n: nat, ghost k: Book)
    returns (outcome: Outcome, ghost fees: Fees)
    requires x.Valid() && x.AllTouched() && Matches(x, k)
    modifies x`touched, x`expectedBalanceDelta, x.state`cache, x.overlay`entries
    ensures x.Valid() && x.AllTouched()
    ensures Matches(x, Plus(k, SubmitPostings(Redirected(submitted, filteredRecipient), env, k)))
    ensures var t, before := Redirected(submitted, filteredRecipient), old(x.state.BalanceOf(submitted.sender));
      && before <= U256_MAX
      && fees == ComputeFees(t, env, SatAdd256(before, t.depositValue))
      && x.expectedBalanceDelta == AddDelta(old(x.expectedBalanceDelta), t.depositValue)
      && (outcome.FeeRejected? <==> fees.FeeError?)
      && (outcome.TicketCreated? ==>
            && outcome.gasUsed == (if fees.canPayForGas then t.gas else 0)
            && outcome.scheduled == (if fees.canPayForGas && filteredRecipient.None?
                                     then Some(RetryTx(t.gas, t.feeRefundAddr, fees.availableRefund, t.submissionFee))
                                     else None))
      && (AddressesBelow(t, env, n) && old(x.TotalBalance(n)) + t.depositValue <= U256_MAX ==>
            && x.TotalBalance(n) == old(x.TotalBalance(n)) + t.depositValue
            && (fees.Fees? ==>
                  (outcome.TicketCreated? <==>
                     t.retryValue <= before + t.depositValue + FeeGain(t, env, fees, t.sender)))
            && forall a: Address :: x.state.BalanceOf(a)
                 == old(x.state.BalanceOf(a)) + (if a == t.sender then t.depositValue else 0)
                    + Net(Payments(t, env, fees, outcome.TicketCreated?), a))
  {
    hide ArbBlockExecutor.Valid, ArbBlockExecutor.AllTouched, ComputeFees, Matches, ViewsOf, Plus, FundsPostings;
    var t := Redirected(submitted, filteredRecipient);
    ghost var ps := [MintTo(t.sender, t.depositValue)];
    MintDeposit(x, t.sender, t.depositValue, n, k);
    var balance := ReadBooked(x, t.sender, Plus(k, ps));
    assert ps + [] == ps;
    var f := ComputeFees(t, env, balance);
    fees := f;
    if f.FeeError? {
      outcome := FeeRejected;
      return;
    }
    ghost var minted := x.state.cache;
    var escrowed := MoveFunds(x, env, t, f, n, Plus(k, ps));
    PlusTwice(k, ps, FundsPostings(t, env, f, escrowed));
    if !escrowed {
      outcome := EscrowShortfall;
    } else {
      outcome := TicketCreated(
        if f.canPayForGas then t.gas else 0,
        if f.canPayForGas && filteredRecipient.None?
        then Some(RetryTx(t.gas, t.feeRefundAddr, f.availableRefund, t.submissionFee))
        else None);
    }
  }
}
