/**
 * What an EVM-executed user transaction pays for its gas: prices, poster and held gas, the calldata floor, the
 * corrected BALANCE and the distribution of fees (crates/arb-evm/src/build.rs and evm.rs,
 * crates/arbos/src/tx_processor.rs).
 */
module GasLedger {
  import opened Machine
  import opened Options

  /** A user transaction; `maxFee` is the plain gas price when it has no priority fee. */
  datatype UserTx = UserTx(gasLimit: U64, maxFee: U128, priority: Option<U128>, value: U256)

  datatype Fees = Fees(baseFee: U256, dropTip: bool)

  /** What an amount of gas costs at a price. */
  function Cost(price: nat, gas: nat): nat {
    price * gas
  }

  // ----- prices -----

  function BaseFee128(f: Fees): U128 {
    Min(f.baseFee, U128_MAX)
  }

  /** The effective price of EIP-1559. */
  function EffectivePrice(tx: UserTx, f: Fees): U128 {
    match tx.priority
    case Some(p) => Min(tx.maxFee, SatAdd128(BaseFee128(f), p))
    case None => tx.maxFee
  }

  /** The price the sender pays for poster gas. */
  function ActualGasPrice(tx: UserTx, f: Fees): U256 {
    if f.dropTip || EffectivePrice(tx, f) == 0 then f.baseFee else EffectivePrice(tx, f)
  }

  /** The transaction as the EVM sees it: its price is capped to the base fee when tips are dropped. */
  function Capped(tx: UserTx, f: Fees): UserTx {
    if f.dropTip && tx.maxFee > BaseFee128(f) then tx.(maxFee := BaseFee128(f), priority := Some(0)) else tx
  }

  /** The tip per gas the EVM pays the coinbase. */
  function EffectiveTip(tx: UserTx, f: Fees): U128 {
    var room := SatSub(tx.maxFee, BaseFee128(f));
    match tx.priority
    case Some(p) => Min(p, room)
    case None => room
  }

  /** The EVM buys gas at the very price poster gas is charged at, and the tip is what that price exceeds the base fee by. */
  lemma PricesAgree(tx: UserTx, f: Fees)
    requires tx.maxFee >= f.baseFee
    ensures EffectivePrice(Capped(tx, f), f) == ActualGasPrice(tx, f)
    ensures f.baseFee <= ActualGasPrice(tx, f) <= tx.maxFee
    ensures !f.dropTip ==> EffectiveTip(tx, f) == ActualGasPrice(tx, f) - f.baseFee
    ensures f.dropTip ==> ActualGasPrice(tx, f) == f.baseFee
  {
  }

  // ----- gas withheld from the EVM -----

  /** Gas held back so that computation stays within the block limit, or from version 50 the transaction limit. */
  function HoldGas(gasLimit: U64, intrinsic: U64, poster: U64, version: nat, perBlockLimit: U64, perTxLimit: U64): U64 {
    var available := SatSub(SatSub(gasLimit, intrinsic), poster);
    var maxCompute := if version < ARBOS_VERSION_50 then perBlockLimit else SatSub(perTxLimit, intrinsic);
    if maxCompute > 0 && available > maxCompute then available - maxCompute else 0
  }

  /** After the hold, what is left for computation respects the limit, and nothing is held from less. */
  lemma HoldClampsCompute(gasLimit: U64, intrinsic: U64, poster: U64, version: nat, perBlockLimit: U64, perTxLimit: U64)
    ensures
      var hold := HoldGas(gasLimit, intrinsic, poster, version, perBlockLimit, perTxLimit);
      var available := SatSub(SatSub(gasLimit, intrinsic), poster);
      var maxCompute := if version < ARBOS_VERSION_50 then perBlockLimit else SatSub(perTxLimit, intrinsic);
      && hold <= available
      && available - hold == (if maxCompute == 0 then available else Min(available, maxCompute))
  {
  }

  function EvmGasLimit(gasLimit: U64, poster: U64, hold: U64): U64 {
    SatSub(gasLimit, SatAdd64(poster, hold))
  }

  // ----- the calldata floor -----

  function ZeroBytes(data: seq<nat>): nat {
    if data == [] then 0 else ZeroBytes(data[..|data| - 1]) + (if data[|data| - 1] == 0 then 1 else 0)
  }

  function FloorDataGas(data: seq<nat>): U64
    requires |data| <= U64_MAX
  {
    var zero := Min(ZeroBytes(data), U64_MAX);
    var nonzero := SatSub(|data|, zero);
    var tokens := SatAdd64(SatMul64(nonzero, 4), zero);
    SatAdd64(TX_GAS, SatMul64(tokens, 10))
  }

  /** The floor of EIP-7623: 10 gas for every token, a zero byte being one token and any other byte four. */
  ghost function FloorCost(data: seq<nat>): nat {
    if data == [] then 0 else FloorCost(data[..|data| - 1]) + (if data[|data| - 1] == 0 then 10 else 40)
  }

  lemma {:induction false} FloorIsPerByte(data: seq<nat>)
    ensures ZeroBytes(data) <= |data|
    ensures FloorCost(data) == 10 * (4 * (|data| - ZeroBytes(data)) + ZeroBytes(data))
  {
    if data != [] {
      FloorIsPerByte(data[..|data| - 1]);
    }
  }

  lemma FloorMatchesStandard(data: seq<nat>)
    requires TX_GAS + 40 * |data| <= U64_MAX
    ensures FloorDataGas(data) == TX_GAS + FloorCost(data)
  {
    FloorIsPerByte(data);
  }

  // ----- receipt gas and the sender's debit -----

  /** Gas on the receipt: the EVM's, plus poster gas, raised to the floor. */
  function ReceiptGas(evmGasUsed: U64, poster: U64, floor: U64): U64 {
    var withPoster := SatAdd64(evmGasUsed, poster);
    if floor > withPoster then SatAdd64(withPoster, floor - withPoster) else withPoster
  }

  /** What admission checks of the sender. */
  predicate Admitted(tx: UserTx, f: Fees, balance: U256, floor: U64) {
    && tx.maxFee >= f.baseFee
    && balance >= Min(Cost(tx.maxFee, tx.gasLimit) + tx.value, U256_MAX)
    && floor <= tx.gasLimit
  }

  /** A run: the gas withheld from the EVM, the gas it used and the value that left the sender. */
  datatype Run = Run(poster: U64, hold: U64, evmGasUsed: U64, valueMoved: U256)

  /** The EVM covers a transaction's intrinsic gas from the gas it is given, and uses no more than that. */
  predicate Ran(tx: UserTx, r: Run) {
    && EvmGasLimit(tx.gasLimit, r.poster, r.hold) >= TX_GAS
    && r.evmGasUsed <= EvmGasLimit(tx.gasLimit, r.poster, r.hold)
    && r.valueMoved <= tx.value
  }

  /** The sender's balance after a run that took only gas at the price of the capped transaction, and value. */
  function BalanceAfterEvm(tx: UserTx, f: Fees, balance: U256, r: Run): int {
    balance - Cost(EffectivePrice(Capped(tx, f), f), r.evmGasUsed) - r.valueMoved
  }

  /** The burn at commit for the gas the EVM did not charge. */
  function BalanceAfterCommit(tx: UserTx, f: Fees, balanceAfterEvm: nat, r: Run, floor: U64): nat {
    var extra := SatSub(ReceiptGas(r.evmGasUsed, r.poster, floor), r.evmGasUsed);
    if extra > 0 then SatSub(balanceAfterEvm, Min(Cost(ActualGasPrice(tx, f), extra), U256_MAX)) else balanceAfterEvm
  }

  /**
   * The receipt shows the larger of the gas spent and the floor, within the limit, and the sender pays exactly the
   * actual price for exactly that gas, whether or not tips are collected.
   */
  lemma SenderPaysReceipt(tx: UserTx, f: Fees, balance: U256, r: Run, floor: U64)
    requires Admitted(tx, f, balance, floor) && Ran(tx, r)
    requires Cost(tx.maxFee, tx.gasLimit) + tx.value <= U256_MAX
    ensures
      var receipt := ReceiptGas(r.evmGasUsed, r.poster, floor);
      && receipt == Max(r.evmGasUsed + r.poster, floor)
      && receipt <= tx.gasLimit
      && 0 <= BalanceAfterEvm(tx, f, balance, r)
      && BalanceAfterCommit(tx, f, BalanceAfterEvm(tx, f, balance, r), r, floor)
         == balance - r.valueMoved - Cost(ActualGasPrice(tx, f), receipt)
  {
    hide Cost, EffectivePrice, ActualGasPrice, ReceiptGas;
    PricesAgree(tx, f);
    ReceiptWithinLimit(tx, r, floor);
    var receipt := ReceiptGas(r.evmGasUsed, r.poster, floor);
    PurchaseCovers(tx, ActualGasPrice(tx, f), r.evmGasUsed, receipt - r.evmGasUsed);
  }

  lemma ReceiptWithinLimit(tx: UserTx, r: Run, floor: U64)
    requires Ran(tx, r) && floor <= tx.gasLimit
    ensures
      var receipt := ReceiptGas(r.evmGasUsed, r.poster, floor);
      && receipt == Max(r.evmGasUsed + r.poster, floor)
      && r.evmGasUsed <= receipt <= tx.gasLimit
  {
  }

  /** Gas up to the limit, bought in two parts at a price up to the maximum, costs no more than was checked for. */
  lemma PurchaseCovers(tx: UserTx, price: nat, first: nat, second: nat)
    requires price <= tx.maxFee && first + second <= tx.gasLimit
    ensures Cost(price, first) + Cost(price, second) == Cost(price, first + second) <= Cost(tx.maxFee, tx.gasLimit)
    ensures Cost(tx.maxFee, tx.gasLimit) <= U256_MAX
  {
    ProductDistributes(first, second, price);
    ProductMonotone(price, tx.maxFee, first + second, first + second);
    ProductMonotone(tx.maxFee, tx.maxFee, first + second, tx.gasLimit);
    ProductMonotone(tx.maxFee, U128_MAX, tx.gasLimit, U64_MAX);
  }

  // ----- BALANCE of the sender during the run -----

  function Correction(tx: UserTx, f: Fees, r: Run): U128 {
    Min(Min(Cost(ActualGasPrice(tx, f), SatAdd64(r.poster, r.hold)), U256_MAX), U128_MAX)
  }

  /** What BALANCE shows of the sender when it holds `held` in the EVM's state. */
  function ShownBalance(tx: UserTx, f: Fees, held: U256, r: Run): nat {
    SatSub(held, Correction(tx, f, r))
  }

  /**
   * BALANCE shows what buying the full gas limit would have left exactly when the withheld gas costs no more than a
   * 128-bit word holds; `spent` is what else the run has taken from the sender so far.
   */
  lemma BalanceShowsFullPurchase(tx: UserTx, f: Fees, balance: U256, r: Run, floor: U64, spent: nat)
    requires Admitted(tx, f, balance, floor) && Ran(tx, r) && spent <= tx.value
    requires Cost(tx.maxFee, tx.gasLimit) + tx.value <= U256_MAX
    ensures
      var price := ActualGasPrice(tx, f);
      var held := balance - Cost(price, EvmGasLimit(tx.gasLimit, r.poster, r.hold)) - spent;
      && 0 <= held <= U256_MAX
      && (ShownBalance(tx, f, held, r) == balance - Cost(price, tx.gasLimit) - spent
          <==> Cost(price, r.poster + r.hold) <= U128_MAX)
  {
    hide Cost, EffectivePrice, ActualGasPrice;
    PricesAgree(tx, f);
    var price := ActualGasPrice(tx, f);
    var evmLimit := EvmGasLimit(tx.gasLimit, r.poster, r.hold);
    assert tx.gasLimit == evmLimit + (r.poster + r.hold);
    PurchaseCovers(tx, price, evmLimit, r.poster + r.hold);
  }

  // ----- where the money goes -----

  /** What is minted at the end of a transaction to the infra, network and poster accounts. */
  datatype Distribution = Distribution(infra: U256, network: U256, poster: U256)

  datatype Collectors = Collectors(version: nat, hasInfraAccount: bool, minBaseFee: U256)

  function Distributed(tx: UserTx, f: Fees, c: Collectors, r: Run, floor: U64): Distribution {
    var computeGas := SatSub(ReceiptGas(r.evmGasUsed, r.poster, floor), r.poster);
    var computeCost := Min(Cost(f.baseFee, computeGas), U256_MAX);
    var infra :=
      if c.version > 4 && c.hasInfraAccount then Min(Cost(Min(c.minBaseFee, f.baseFee), computeGas), U256_MAX) else 0;
    Distribution(infra, SatSub(computeCost, infra), Min(Cost(ActualGasPrice(tx, f), r.poster), U256_MAX))
  }

  /** After version 4 with an infra account it gets the minimum base fee for the gas of computation before the network gets
      anything, and otherwise nothing; the poster gets the actual price for its gas. */
  lemma InfraComesFirst(tx: UserTx, f: Fees, c: Collectors, r: Run, floor: U64)
    ensures
      var d, compute := Distributed(tx, f, c, r, floor), SatSub(ReceiptGas(r.evmGasUsed, r.poster, floor), r.poster);
      && d.infra + d.network == Min(Cost(f.baseFee, compute), U256_MAX)
      && d.poster == Min(Cost(ActualGasPrice(tx, f), r.poster), U256_MAX)
      && if c.version > 4 && c.hasInfraAccount then
           && d.infra <= Min(Cost(c.minBaseFee, compute), U256_MAX)
           && (d.network > 0 ==> d.infra == Min(Cost(c.minBaseFee, compute), U256_MAX))
         else d.infra == 0
  {
    hide ActualGasPrice, ReceiptGas;
    var compute := SatSub(ReceiptGas(r.evmGasUsed, r.poster, floor), r.poster);
    InfraWithinCompute(c, f, compute);
    ProductMonotone(Min(c.minBaseFee, f.baseFee), c.minBaseFee, compute, compute);
  }

  /** The tip the EVM mints to the coinbase: what the price exceeds the base fee by, for the gas it ran. */
  function MintedTip(tx: UserTx, f: Fees, r: Run): nat
    requires tx.maxFee >= f.baseFee
  {
    PricesAgree(tx, f);
    Cost(ActualGasPrice(tx, f) - f.baseFee, r.evmGasUsed)
  }

  /** The tip moved from the coinbase to the network account, when the coinbase holds that much. */
  function RedirectedTip(tx: UserTx, f: Fees, r: Run, floor: U64): nat {
    var receipt := ReceiptGas(r.evmGasUsed, r.poster, floor);
    if !f.dropTip && EffectiveTip(tx, f) > 0 && receipt > 0
    then Min(Cost(EffectiveTip(tx, f), SatSub(receipt, r.poster)), U256_MAX)
    else 0
  }

  /** Gas on the receipt that neither the EVM nor the poster used: the top-up to the floor. */
  function TopUp(r: Run, floor: U64): nat {
    SatSub(floor, r.evmGasUsed + r.poster)
  }

  /**
   * All that is minted for a transaction falls short of what its sender paid by exactly the tip on the floor top-up.
   * So fees are conserved exactly when no tip is collected or the floor does not bind.
   */
  lemma FeesConserved(tx: UserTx, f: Fees, c: Collectors, balance: U256, r: Run, floor: U64)
    requires Admitted(tx, f, balance, floor) && Ran(tx, r)
    ensures
      var receipt := ReceiptGas(r.evmGasUsed, r.poster, floor);
      var d := Distributed(tx, f, c, r, floor);
      var paid := Cost(ActualGasPrice(tx, f), receipt);
      var minted := MintedTip(tx, f, r) + d.infra + d.network + d.poster;
      && f.baseFee <= ActualGasPrice(tx, f)
      && paid == minted + Cost(ActualGasPrice(tx, f) - f.baseFee, TopUp(r, floor))
      && (paid == minted <==> ActualGasPrice(tx, f) == f.baseFee || floor <= r.evmGasUsed + r.poster)
  {
    PricesAgree(tx, f);
    ReceiptWithinLimit(tx, r, floor);
    var price := ActualGasPrice(tx, f);
    var receipt := ReceiptGas(r.evmGasUsed, r.poster, floor);
    var computeGas := receipt - r.poster;
    InfraWithinCompute(c, f, computeGas);
    PurchaseCovers(tx, price, r.poster, computeGas);
    PurchaseCovers(tx, f.baseFee, 0, computeGas);
    PriceSplits(f.baseFee, price - f.baseFee, computeGas);
    PurchaseCovers(tx, price - f.baseFee, r.evmGasUsed, TopUp(r, floor));
    CostZero(price - f.baseFee, TopUp(r, floor));
    hide Cost, EffectivePrice, ActualGasPrice, ReceiptGas;
  }

  /** The redirect takes from the coinbase what the EVM minted to it, plus the tip on the floor top-up. */
  lemma RedirectTakesMintedTip(tx: UserTx, f: Fees, balance: U256, r: Run, floor: U64)
    requires Admitted(tx, f, balance, floor) && Ran(tx, r)
    requires !f.dropTip
    ensures RedirectedTip(tx, f, r, floor) == MintedTip(tx, f, r) + Cost(EffectiveTip(tx, f), TopUp(r, floor))
  {
    PricesAgree(tx, f);
    ReceiptWithinLimit(tx, r, floor);
    PurchaseCovers(tx, EffectiveTip(tx, f), r.evmGasUsed, TopUp(r, floor));
    CostZero(EffectiveTip(tx, f), r.evmGasUsed);
    CostZero(EffectiveTip(tx, f), TopUp(r, floor));
    hide Cost, EffectivePrice, ActualGasPrice, ReceiptGas, EffectiveTip;
  }

  lemma InfraWithinCompute(c: Collectors, f: Fees, gas: nat)
    ensures Cost(Min(c.minBaseFee, f.baseFee), gas) <= Cost(f.baseFee, gas)
  {
    ProductMonotone(Min(c.minBaseFee, f.baseFee), f.baseFee, gas, gas);
  }

  lemma PriceSplits(base: nat, tip: nat, gas: nat)
    ensures Cost(base + tip, gas) == Cost(base, gas) + Cost(tip, gas)
  {
    ProductDistributes(base, tip, gas);
  }

  lemma CostZero(price: nat, gas: nat)
    ensures Cost(price, gas) == 0 <==> price == 0 || gas == 0
  {
  }

  /** With a tip of one and a floor of 30,000 over 21,000 gas used, 9,000 of the 90,000 paid are minted to nobody. */
  lemma FloorBurnsTipExample()
    ensures
      var tx, f := UserTx(100_000, 3, Some(1), 0), Fees(2, false);
      var r, floor := Run(0, 0, 21_000, 0), 30_000;
      var d := Distributed(tx, f, Collectors(0, false, 0), r, floor);
      && Admitted(tx, f, 1_000_000, floor) && Ran(tx, r)
      && Cost(ActualGasPrice(tx, f), ReceiptGas(r.evmGasUsed, r.poster, floor)) == 90_000
      && MintedTip(tx, f, r) + d.infra + d.network + d.poster == 81_000
  {
  }

  /** At the largest price two units of poster gas cost more than the correction can hold. */
  lemma CorrectionOverflowExample()
    ensures
      var tx, f, r := UserTx(21_002, U128_MAX, None, 0), Fees(U128_MAX, true), Run(2, 0, 21_000, 0);
      var balance := U128_MAX * 21_002;
      && balance <= U256_MAX && Admitted(tx, f, balance, 0) && Ran(tx, r)
      && ShownBalance(tx, f, balance - Cost(U128_MAX, 21_000), r) == U128_MAX
      && balance - Cost(U128_MAX, tx.gasLimit) == 0
  {
  }
}
