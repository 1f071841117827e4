/** What transactions that run the EVM book, and what that comes to (crates/arb-evm/src/build.rs). */
module TxPostings {
  import opened Machine
  import opened Options
  import opened Accounts
  import opened Ledger
  import opened Executor
  import opened SubmitRetryable
  import opened EvmCommit
  import opened Books
  import opened Retries
  import GasLedger

  const ARBSYS_ADDRESS: Address := 0x64

  // ----- the run and its commit -----

  /** A run that did not err: what the EVM wrote, or that it was skipped for a recorded or filtered transaction, and
      the amounts that commit moves for it. */
  datatype EvmRun = EvmRun(
    writes: map<Address, EvmWrite>,
    skipsEvm: bool,
    evmGasUsed: U64,
    gasUsed: U64,
    success: bool,
    multiCost: Option<U256>,
    coinbase: Address,
    tip: U256,
    dataFee: U256,
    sweep: Option<(Address, Address)>,
    withdrawal: U256)

  predicate LawfulRun(run: EvmRun) {
    && (forall a :: a in run.writes ==> Lawful(run.writes[a]))
    && (run.skipsEvm ==> run.writes == map[])
  }

  function EvmPosting(sender: Address, run: EvmRun): Posting {
    if run.skipsEvm then BumpNonce(sender) else WriteAll(run.writes)
  }

  function TipPosting(env: Env, run: EvmRun): seq<Posting> {
    if run.coinbase == env.networkFeeAccount then [] else [MoveIfCovered(run.coinbase, env.networkFeeAccount, run.tip)]
  }

  function SweepPosting(run: EvmRun): seq<Posting> {
    if run.sweep.Some? then [Sweep(run.sweep.value.0, run.sweep.value.1)] else []
  }

  function UnchargedCost(run: EvmRun, price: U256): U256 {
    SatMul256(price, SatSub(run.gasUsed, run.evmGasUsed))
  }

  /** The EVM's changes, the tip and the activation fee. */
  function RunPostings(env: Env, sender: Address, run: EvmRun): seq<Posting> {
    [EvmPosting(sender, run)] + TipPosting(env, run)
    + [BurnUpTo(sender, run.dataFee)] + [MintTo(env.networkFeeAccount, run.dataFee)]
  }

  /** Everything the commit books up to the fees: the run, a cancelled ticket's escrow, withdrawals, and the gas that the
      EVM did not charge. */
  function CommitPostings(env: Env, sender: Address, run: EvmRun, price: U256): seq<Posting> {
    RunPostings(env, sender, run) + SweepPosting(run)
    + [BurnUpTo(ARBSYS_ADDRESS, run.withdrawal)]
    + [BurnUpTo(sender, UnchargedCost(run, price))]
  }

  // ----- user transactions -----

  /** What is minted for a user transaction's fees, and what resource prices give back. */
  datatype FeeDist = FeeDist(
    network: U256,
    infraAccount: Address,
    infra: U256,
    posterAccount: Address,
    poster: U256,
    refund: U256)

  function MintPostings(env: Env, f: FeeDist): seq<Posting> {
    [MintTo(env.networkFeeAccount, f.network)] + [MintTo(f.infraAccount, f.infra)] + [MintTo(f.posterAccount, f.poster)]
  }

  function FeeDistPostings(env: Env, sender: Address, f: FeeDist): seq<Posting> {
    MintPostings(env, f) + [MoveIfCovered(env.networkFeeAccount, sender, f.refund)]
  }

  function UserPostings(env: Env, sender: Address, run: EvmRun, price: U256, f: FeeDist): seq<Posting> {
    CommitPostings(env, sender, run, price) + FeeDistPostings(env, sender, f)
  }

  // ----- retries -----

  /** The end of a retry, in order: the unused gas burned, the refunds, and what is in escrow to the beneficiary of a
      deleted ticket or the value back to escrow. */
  function EndPostings(r: Retry, env: Env, s: Spent): seq<Posting> {
    [BurnUpTo(r.sender, SatMul256(env.baseFee, s.gasLeft))]
    + RefundPostings(r, r.maxRefund, Demands(r, env, s))
    + LastPosting(r, s.success)
  }

  function LastPosting(r: Retry, success: bool): seq<Posting> {
    if !success then [AwareMove(r.sender, r.escrow, r.value)]
    else if r.stillOpen then [Sweep(r.escrow, r.beneficiary)]
    else []
  }

  function SpentBy(r: Retry, run: EvmRun): Spent {
    Spent(SatSub(r.gasLimit, run.gasUsed), run.gasUsed, run.success, run.multiCost)
  }

  /** The value out of escrow, the prepaid gas, and the escrow gone when that empties it. */
  ghost function StartPostings(r: Retry, env: Env, escrowed: Option<AccountInfo>): seq<Posting> {
    [AwareMove(r.escrow, r.sender, r.value)] + [MintTo(r.sender, Prepaid(r, env))]
    + [Drop(if EmptiesEscrow(r, escrowed) then {r.escrow} else {})]
  }

  /** What follows the start of a retry that runs. */
  function RunAndEnd(r: Retry, env: Env, run: EvmRun): seq<Posting> {
    CommitPostings(env, r.sender, run, env.baseFee) + EndPostings(r, env, SpentBy(r, run))
  }

  /** How a retry starts, when the accounts are seen as `v`. */
  ghost function StartOf(r: Retry, v: Views): Start {
    if !r.opens then NotOpen else if Funds(v(r.escrow)) < r.value then EscrowShort else Ready
  }

  /** Everything a retry books when its run does not err. */
  ghost function RetryPostings(r: Retry, env: Env, run: EvmRun, v: Views): seq<Posting> {
    if StartOf(r, v) == Ready then StartPostings(r, env, v(r.escrow)) + RunAndEnd(r, env, run) else []
  }

  /** The start of a retry as booked is the start as seen. */
  lemma StartBooked(k: Book, r: Retry, env: Env)
    requires k.entries == [] && r.escrow != r.sender && r.value <= Funds(k.start(r.escrow))
    ensures
      var started := Plus(k, StartPostings(r, env, k.start(r.escrow)));
      && started.start == k.start && started.wakeable == k.wakeable
      && (forall a: Address :: ViewsOf(started)(a) == DrainedView(r, Prepaid(r, env), k.wakeable, a, k.start(a)))
      && ZombiesOf(started)
         == AwareZombies(k.zombies, k.start(r.escrow).None? && r.escrow in k.wakeable, r.escrow, r.sender, r.value)
  {
    hide Prepaid, ViewsOf, ZombiesOf, Plus, EmptiesEscrow;
    var p, q := AwareMove(r.escrow, r.sender, r.value), MintTo(r.sender, Prepaid(r, env));
    var d := Drop(if EmptiesEscrow(r, k.start(r.escrow)) then {r.escrow} else {});
    NothingBooked(k);
    PlusOne(k, p);
    PlusOne(Plus(k, [p]), q);
    PlusTwice(k, [p], [q]);
    PlusOne(Plus(k, [p] + [q]), d);
    PlusTwice(k, [p] + [q], [d]);
  }

  lemma NothingBooked(k: Book)
    requires k.entries == []
    ensures ViewsOf(k) == k.start && ZombiesOf(k) == k.zombies
  {
  }

  // ----- a retry makes and destroys no money -----

  lemma SumPlus(k: Book, p: Posting, n: nat)
    ensures SumOf(ViewsOf(Plus(k, [p])), n) == SumOf(After(ViewsOf(k), p, k.wakeable), n)
  {
    hide Post, ViewsOf;
    PlusOne(k, p);
    SameSums(ViewsOf(Plus(k, [p])), After(ViewsOf(k), p, k.wakeable), n);
  }

  lemma MoveTotal(k: Book, p: Posting, n: nat)
    requires OnlyMoves(p) && Within(p, n) && SumOf(ViewsOf(k), n) <= U256_MAX
    ensures SumOf(ViewsOf(Plus(k, [p])), n) == SumOf(ViewsOf(k), n)
    ensures forall a: Address ::
              Funds(ViewsOf(Plus(k, [p]))(a)) == Funds(ViewsOf(k)(a)) + Gain(MoveOf(ViewsOf(k), p), a)
  {
    hide ViewsOf, Within, OnlyMoves, Post, MoveOf, Gain;
    PlusOne(k, p);
    SumPlus(k, p, n);
    MovesThat(ViewsOf(k), p, k.wakeable, n);
    MovingKeepsSum(ViewsOf(k), p, k.wakeable, n);
  }

  lemma BurnTotal(k: Book, a: Address, amount: U256, n: nat)
    requires a < n
    ensures
      var after := Plus(k, [BurnUpTo(a, amount)]);
      && SumOf(ViewsOf(after), n) == SumOf(ViewsOf(k), n) - Min(Funds(ViewsOf(k)(a)), amount)
      && Funds(ViewsOf(after)(a)) == SatSub(Funds(ViewsOf(k)(a)), amount)
      && forall b: Address :: b != a || amount == 0 ==> ViewsOf(after)(b) == ViewsOf(k)(b)
  {
    hide ViewsOf, Plus;
    PlusOne(k, BurnUpTo(a, amount));
    SumPlus(k, BurnUpTo(a, amount), n);
    BurnLowersSum(ViewsOf(k), a, amount, k.wakeable, n);
  }

  lemma MintTotal(k: Book, a: Address, amount: U256, b: Address, n: nat)
    requires a < n && SumOf(ViewsOf(k), n) + amount <= U256_MAX
    ensures SumOf(ViewsOf(Plus(k, [MintTo(a, amount)])), n) == SumOf(ViewsOf(k), n) + amount
    ensures Funds(ViewsOf(Plus(k, [MintTo(a, amount)]))(b)) == Funds(ViewsOf(k)(b)) + (if b == a then amount else 0)
  {
    hide ViewsOf, Plus;
    WithinSum(ViewsOf(k), n, a, a);
    PlusOne(k, MintTo(a, amount));
    SumPlus(k, MintTo(a, amount), n);
    MintRaisesSum(ViewsOf(k), a, amount, k.wakeable, n);
  }

  /** What gas costs at the base fee. */
  function GasPrice(env: Env, gas: nat): nat {
    env.baseFee * gas
  }

  ghost predicate RetryWithin(r: Retry, env: Env, run: EvmRun, n: nat) {
    && r.sender < n && r.escrow < n && r.refundTo < n && r.beneficiary < n
    && env.networkFeeAccount < n && env.infraFeeAccount < n && run.coinbase < n && ARBSYS_ADDRESS < n
    && (run.sweep.Some? ==> run.sweep.value.0 < n && run.sweep.value.1 < n)
  }

  /**
   * What the EVM guarantees of a run that takes only gas, seen from the books `k` it started with: it destroys the gas it
   * charged and nothing else, and the gas it did not use is back with the sender, above what an activation costs. No tip is
   * paid, nothing is withdrawn, and no swept escrow is the sender.
   */
  ghost predicate TakesOnlyGas(k: Book, r: Retry, env: Env, run: EvmRun, n: nat) {
    var ran := Plus(k, [EvmPosting(r.sender, run)]);
    && run.evmGasUsed <= run.gasUsed <= r.gasLimit
    && SumOf(ViewsOf(ran), n) + GasPrice(env, run.evmGasUsed) == SumOf(ViewsOf(k), n)
    && Funds(ViewsOf(ran)(r.sender)) >= GasPrice(env, r.gasLimit - run.evmGasUsed) + run.dataFee
    && run.tip == 0 && run.withdrawal == 0
    && (run.sweep.Some? ==> run.sweep.value.0 != r.sender)
  }

  /** The start raises the sum by the prepaid gas. */
  lemma StartTotal(k: Book, r: Retry, env: Env, n: nat)
    requires k.entries == [] && r.escrow != r.sender && r.value <= Funds(k.start(r.escrow))
    requires r.sender < n && r.escrow < n && SumOf(k.start, n) + Prepaid(r, env) <= U256_MAX
    ensures SumOf(ViewsOf(Plus(k, StartPostings(r, env, k.start(r.escrow)))), n) == SumOf(k.start, n) + Prepaid(r, env)
  {
    hide Prepaid, ViewsOf, Plus;
    var p, q := AwareMove(r.escrow, r.sender, r.value), MintTo(r.sender, Prepaid(r, env));
    var d := Drop(if EmptiesEscrow(r, k.start(r.escrow)) then {r.escrow} else {});
    NothingBooked(k);
    MoveTotal(k, p, n);
    PlusOne(k, p);
    MintTotal(Plus(k, [p]), r.sender, Prepaid(r, env), r.sender, n);
    PlusOne(Plus(k, [p]), q);
    PlusTwice(k, [p], [q]);
    var minted := Plus(k, [p] + [q]);
    SumPlus(minted, d, n);
    var v, w := ViewsOf(minted), After(ViewsOf(minted), d, k.wakeable);
    forall a: Address
      ensures Funds(w(a)) == Funds(v(a))
    {
    }
    SumAfterCredit(v, w, n, 0, 0);
    PlusTwice(k, [p] + [q], [d]);
  }

  /** The tip that leaves the coinbase, when it holds that much. */
  ghost function TipMove(v: Views, env: Env, run: EvmRun): Move {
    Move(run.coinbase, env.networkFeeAccount, if run.tip <= Funds(v(run.coinbase)) then run.tip else 0)
  }

  lemma TipTotal(k: Book, env: Env, run: EvmRun, n: nat)
    requires env.networkFeeAccount < n && run.coinbase < n && SumOf(ViewsOf(k), n) <= U256_MAX
    ensures SumOf(ViewsOf(Plus(k, TipPosting(env, run))), n) == SumOf(ViewsOf(k), n)
    ensures forall a: Address ::
              Funds(ViewsOf(Plus(k, TipPosting(env, run)))(a)) == Funds(ViewsOf(k)(a)) + Gain(TipMove(ViewsOf(k), env, run), a)
  {
    hide ViewsOf, Plus;
    PlusTwice(k, [], []);
    MoveTotal(k, MoveIfCovered(run.coinbase, env.networkFeeAccount, run.tip), n);
  }

  /** A whole escrow, to its beneficiary. */
  ghost function SweepMove(v: Views, run: EvmRun): Move {
    if run.sweep.Some? then Move(run.sweep.value.0, run.sweep.value.1, Funds(v(run.sweep.value.0))) else Move(0, 0, 0)
  }

  /** The sweep of an escrow. */
  lemma SweepTotal(k: Book, run: EvmRun, a: Address, n: nat)
    requires run.sweep.Some? ==> run.sweep.value.0 < n && run.sweep.value.1 < n
    requires SumOf(ViewsOf(k), n) <= U256_MAX
    ensures SumOf(ViewsOf(Plus(k, SweepPosting(run))), n) == SumOf(ViewsOf(k), n)
    ensures Funds(ViewsOf(Plus(k, SweepPosting(run)))(a)) == Funds(ViewsOf(k)(a)) + Gain(SweepMove(ViewsOf(k), run), a)
  {
    hide ViewsOf, Plus;
    PlusTwice(k, [], []);
    if run.sweep.Some? {
      var p := Sweep(run.sweep.value.0, run.sweep.value.1);
      PlusOne(k, p);
      MoveTotal(k, p, n);
    }
  }

  /** The activation fee moves from the sender to the network account. */
  lemma ActivationTotal(k: Book, env: Env, sender: Address, fee: U256, a: Address, n: nat)
    requires sender < n && env.networkFeeAccount < n
    requires SumOf(ViewsOf(k), n) <= U256_MAX && fee <= Funds(ViewsOf(k)(sender))
    ensures
      var after := Plus(k, [BurnUpTo(sender, fee)] + [MintTo(env.networkFeeAccount, fee)]);
      && SumOf(ViewsOf(after), n) == SumOf(ViewsOf(k), n)
      && Funds(ViewsOf(after)(a)) == Funds(ViewsOf(k)(a)) + Gain(Move(sender, env.networkFeeAccount, fee), a)
  {
    hide ViewsOf, Plus;
    BurnTotal(k, sender, fee, n);
    MintTotal(Plus(k, [BurnUpTo(sender, fee)]), env.networkFeeAccount, fee, a, n);
    PlusTwice(k, [BurnUpTo(sender, fee)], [MintTo(env.networkFeeAccount, fee)]);
  }

  /** After the run the tip and the activation fee move, when the sender is left enough for both. */
  lemma RunTotal(k: Book, env: Env, sender: Address, run: EvmRun, a: Address, n: nat)
    requires sender < n && env.networkFeeAccount < n && run.coinbase < n
    requires SumOf(ViewsOf(Plus(k, [EvmPosting(sender, run)])), n) <= U256_MAX
    requires Funds(ViewsOf(Plus(k, [EvmPosting(sender, run)]))(sender))
          >= run.dataFee + (if run.coinbase == sender then run.tip else 0)
    ensures
      var ran, settled := ViewsOf(Plus(k, [EvmPosting(sender, run)])), ViewsOf(Plus(k, RunPostings(env, sender, run)));
      && SumOf(settled, n) == SumOf(ran, n)
      && Funds(settled(a))
         == Funds(ran(a)) + Gain(TipMove(ran, env, run), a) + Gain(Move(sender, env.networkFeeAccount, run.dataFee), a)
  {
    hide ViewsOf, Plus, TipPosting, EvmPosting;
    var evm, tip := [EvmPosting(sender, run)], TipPosting(env, run);
    var fee := [BurnUpTo(sender, run.dataFee)] + [MintTo(env.networkFeeAccount, run.dataFee)];
    TipTotal(Plus(k, evm), env, run, n);
    PlusTwice(k, evm, tip);
    ActivationTotal(Plus(k, evm + tip), env, sender, run.dataFee, a, n);
    PlusTwice(k, evm + tip, fee);
    assert evm + tip + fee == RunPostings(env, sender, run);
  }

  /** A sweep, withdrawals and the gas that the EVM did not charge. */
  lemma RestTotal(k: Book, sender: Address, run: EvmRun, price: U256, left: nat, n: nat)
    requires sender < n && ARBSYS_ADDRESS < n && (run.withdrawal == 0 || WithdrawalApart(sender, run))
    requires run.sweep.Some? ==> run.sweep.value.0 < n && run.sweep.value.1 < n && run.sweep.value.0 != sender
    requires SumOf(ViewsOf(k), n) <= U256_MAX && Funds(ViewsOf(k)(sender)) >= UnchargedCost(run, price) + left
    ensures
      var after := Plus(k, SweepPosting(run) + [BurnUpTo(ARBSYS_ADDRESS, run.withdrawal)]
                           + [BurnUpTo(sender, UnchargedCost(run, price))]);
      && SumOf(ViewsOf(after), n) == SumOf(ViewsOf(k), n) - UnchargedCost(run, price) - Withdrawn(ViewsOf(k), run)
      && Funds(ViewsOf(after)(sender)) >= left
  {
    hide ViewsOf, Plus, SweepPosting, UnchargedCost;
    var sweep, withdrawn := SweepPosting(run), [BurnUpTo(ARBSYS_ADDRESS, run.withdrawal)];
    SweepTotal(k, run, sender, n);
    SweepTotal(k, run, ARBSYS_ADDRESS, n);
    BurnTotal(Plus(k, sweep), ARBSYS_ADDRESS, run.withdrawal, n);
    PlusTwice(k, sweep, withdrawn);
    BurnTotal(Plus(k, sweep + withdrawn), sender, UnchargedCost(run, price), n);
    PlusTwice(k, sweep + withdrawn, [BurnUpTo(sender, UnchargedCost(run, price))]);
  }

  /** The account that withdrawals are burned from is not one that the commit moves other money of. */
  ghost predicate WithdrawalApart(sender: Address, run: EvmRun) {
    && ARBSYS_ADDRESS != sender && ARBSYS_ADDRESS != run.coinbase
    && (run.sweep.Some? ==> ARBSYS_ADDRESS != run.sweep.value.0 && ARBSYS_ADDRESS != run.sweep.value.1)
  }

  /** What a withdrawal burns of what is there. */
  ghost function Withdrawn(v: Views, run: EvmRun): nat {
    Min(Funds(v(ARBSYS_ADDRESS)), run.withdrawal)
  }

  /** The addresses a commit names, and that a swept escrow is not the sender. */
  ghost predicate CommitWithin(env: Env, sender: Address, run: EvmRun, n: nat) {
    && sender < n && env.networkFeeAccount < n && run.coinbase < n && ARBSYS_ADDRESS < n
    && (run.sweep.Some? ==> run.sweep.value.0 < n && run.sweep.value.1 < n && run.sweep.value.0 != sender)
  }

  /** Nothing is withdrawn, or from an account that the commit does not use otherwise. */
  ghost predicate WithdrawsApart(env: Env, sender: Address, run: EvmRun) {
    run.withdrawal == 0 || (WithdrawalApart(sender, run) && ARBSYS_ADDRESS != env.networkFeeAccount)
  }

  /** What the commit takes from the sender beside what the run took. */
  function TakenAtCommit(sender: Address, run: EvmRun, price: U256): nat {
    run.dataFee + (if run.coinbase == sender then run.tip else 0) + UnchargedCost(run, price)
  }

  /** A sender left enough by the run pays for the gas that the EVM did not charge, and the commit destroys only that and
      what is withdrawn. */
  lemma CommitLeaves(k: Book, env: Env, sender: Address, run: EvmRun, price: U256, left: nat, n: nat)
    requires CommitWithin(env, sender, run, n) && WithdrawsApart(env, sender, run)
    requires SumOf(ViewsOf(Plus(k, [EvmPosting(sender, run)])), n) <= U256_MAX
    requires Funds(ViewsOf(Plus(k, [EvmPosting(sender, run)]))(sender)) >= TakenAtCommit(sender, run, price) + left
    ensures
      var ran, after := ViewsOf(Plus(k, [EvmPosting(sender, run)])), Plus(k, CommitPostings(env, sender, run, price));
      && SumOf(ViewsOf(after), n) == SumOf(ran, n) - UnchargedCost(run, price) - Withdrawn(ran, run)
      && Funds(ViewsOf(after)(sender)) >= left
  {
    hide ViewsOf, Plus, RunPostings, SweepPosting, UnchargedCost, EvmPosting;
    var ps := RunPostings(env, sender, run);
    var rest := SweepPosting(run) + [BurnUpTo(ARBSYS_ADDRESS, run.withdrawal)]
                + [BurnUpTo(sender, UnchargedCost(run, price))];
    RunTotal(k, env, sender, run, sender, n);
    RunTotal(k, env, sender, run, ARBSYS_ADDRESS, n);
    RestTotal(Plus(k, ps), sender, run, price, left, n);
    PlusTwice(k, ps, rest);
    assert ps + rest == CommitPostings(env, sender, run, price);
  }

  /** The run and its commit destroy the gas that was used and leave the rest with the sender. */
  lemma CommitTotal(k: Book, r: Retry, env: Env, run: EvmRun, n: nat)
    requires RetryWithin(r, env, run, n) && TakesOnlyGas(k, r, env, run, n)
    requires SumOf(ViewsOf(k), n) <= U256_MAX && GasPrice(env, r.gasLimit) <= U256_MAX
    ensures
      var after := Plus(k, CommitPostings(env, r.sender, run, env.baseFee));
      && SumOf(ViewsOf(after), n) + GasPrice(env, run.gasUsed) == SumOf(ViewsOf(k), n)
      && Funds(ViewsOf(after)(r.sender)) >= GasPrice(env, r.gasLimit - run.gasUsed)
  {
    hide ViewsOf, Plus, CommitPostings, UnchargedCost, EvmPosting, GasPrice;
    UnchargedFits(r, env, run);
    CommitLeaves(k, env, r.sender, run, env.baseFee, GasPrice(env, r.gasLimit - run.gasUsed), n);
  }

  // ----- what a user transaction brings whom -----

  /** What is minted to an account for the fees. */
  function MintedTo(env: Env, f: FeeDist, a: Address): nat {
    (if a == env.networkFeeAccount then f.network else 0)
    + (if a == f.infraAccount then f.infra else 0)
    + (if a == f.posterAccount then f.poster else 0)
  }

  /** Each collector gains its share, and the network account gives the refund of resource prices to the sender if it holds
      that much. */
  lemma FeesReach(k: Book, env: Env, sender: Address, f: FeeDist, a: Address, n: nat)
    requires sender < n && env.networkFeeAccount < n && f.infraAccount < n && f.posterAccount < n
    requires SumOf(ViewsOf(k), n) + f.network + f.infra + f.poster <= U256_MAX
    ensures
      var v, w, network := ViewsOf(k), ViewsOf(Plus(k, FeeDistPostings(env, sender, f))), env.networkFeeAccount;
      var refund := if f.refund <= Funds(v(network)) + MintedTo(env, f, network) then f.refund else 0;
      && SumOf(w, n) == SumOf(v, n) + f.network + f.infra + f.poster
      && Funds(w(a)) == Funds(v(a)) + MintedTo(env, f, a) + Gain(Move(network, sender, refund), a)
  {
    hide ViewsOf, Plus, MintPostings;
    MintsReach(k, env, f, a, n);
    MintsReach(k, env, f, env.networkFeeAccount, n);
    var minted := Plus(k, MintPostings(env, f));
    MoveTotal(minted, MoveIfCovered(env.networkFeeAccount, sender, f.refund), n);
    PlusTwice(k, MintPostings(env, f), [MoveIfCovered(env.networkFeeAccount, sender, f.refund)]);
  }

  lemma MintsReach(k: Book, env: Env, f: FeeDist, a: Address, n: nat)
    requires env.networkFeeAccount < n && f.infraAccount < n && f.posterAccount < n
    requires SumOf(ViewsOf(k), n) + f.network + f.infra + f.poster <= U256_MAX
    ensures
      var v, w := ViewsOf(k), ViewsOf(Plus(k, MintPostings(env, f)));
      SumOf(w, n) == SumOf(v, n) + f.network + f.infra + f.poster && Funds(w(a)) == Funds(v(a)) + MintedTo(env, f, a)
  {
    hide ViewsOf, Plus;
    var p, q, s := MintTo(env.networkFeeAccount, f.network), MintTo(f.infraAccount, f.infra), MintTo(f.posterAccount, f.poster);
    MintTotal(k, env.networkFeeAccount, f.network, a, n);
    MintTotal(Plus(k, [p]), f.infraAccount, f.infra, a, n);
    PlusTwice(k, [p], [q]);
    MintTotal(Plus(k, [p] + [q]), f.posterAccount, f.poster, a, n);
    PlusTwice(k, [p] + [q], [s]);
  }

  /** After the run the total changes by what is minted to the collectors, less the gas that the EVM did not charge and what
      is withdrawn. */
  lemma UserTotal(k: Book, env: Env, sender: Address, run: EvmRun, price: U256, f: FeeDist, n: nat)
    requires CommitWithin(env, sender, run, n) && WithdrawsApart(env, sender, run)
    requires f.infraAccount < n && f.posterAccount < n
    requires SumOf(ViewsOf(Plus(k, [EvmPosting(sender, run)])), n) + f.network + f.infra + f.poster <= U256_MAX
    requires Funds(ViewsOf(Plus(k, [EvmPosting(sender, run)]))(sender)) >= TakenAtCommit(sender, run, price)
    ensures
      var ran := ViewsOf(Plus(k, [EvmPosting(sender, run)]));
      SumOf(ViewsOf(Plus(k, UserPostings(env, sender, run, price, f))), n)
      == SumOf(ran, n) - UnchargedCost(run, price) - Withdrawn(ran, run) + f.network + f.infra + f.poster
  {
    hide ViewsOf, Plus, CommitPostings, FeeDistPostings, UnchargedCost, EvmPosting;
    CommitLeaves(k, env, sender, run, price, 0, n);
    FeesReach(Plus(k, CommitPostings(env, sender, run, price)), env, sender, f, sender, n);
    PlusTwice(k, CommitPostings(env, sender, run, price), FeeDistPostings(env, sender, f));
  }

  /** A run that takes only gas, where what it takes is what is minted to the collectors less what the EVM did not charge.
      The sender is left enough for the commit, and nothing is withdrawn. */
  ghost predicate TakesOnlyFees(k: Book, env: Env, sender: Address, run: EvmRun, price: U256, f: FeeDist, n: nat) {
    var ran, minted := ViewsOf(Plus(k, [EvmPosting(sender, run)])), f.network + f.infra + f.poster;
    && CommitWithin(env, sender, run, n) && run.withdrawal == 0 && f.infraAccount < n && f.posterAccount < n
    && Funds(ran(sender)) >= TakenAtCommit(sender, run, price)
    && SumOf(ran, n) + minted <= U256_MAX
    && SumOf(ran, n) + minted == SumOf(ViewsOf(k), n) + UnchargedCost(run, price)
  }

  lemma UserKeepsTotal(k: Book, env: Env, sender: Address, run: EvmRun, price: U256, f: FeeDist, n: nat)
    requires TakesOnlyFees(k, env, sender, run, price, f, n)
    ensures SumOf(ViewsOf(Plus(k, UserPostings(env, sender, run, price, f))), n) == SumOf(ViewsOf(k), n)
  {
    hide ViewsOf, Plus, UserPostings, UnchargedCost, EvmPosting, CommitWithin, TakenAtCommit;
    UserTotal(k, env, sender, run, price, f, n);
  }

  /** The run and the fees of `tx`: its gas, its price, and each collector's share. */
  ghost predicate FeesOf(tx: GasLedger.UserTx, fees: GasLedger.Fees, c: GasLedger.Collectors, g: GasLedger.Run, floor: U64,
                         run: EvmRun, price: U256, f: FeeDist)
  {
    var d := GasLedger.Distributed(tx, fees, c, g, floor);
    && run.evmGasUsed == g.evmGasUsed && run.gasUsed == GasLedger.ReceiptGas(g.evmGasUsed, g.poster, floor)
    && price == GasLedger.ActualGasPrice(tx, fees)
    && f.network == d.network && f.infra == d.infra && f.poster == d.poster
  }

  /**
   * A user transaction whose run takes nothing but the gas the EVM charged, of which it gives the tip to the coinbase, makes
   * no money and destroys only what it withdraws and the tip on the gas that its receipt was raised by to the floor.
   */
  lemma UserConserves(k: Book, env: Env, sender: Address, run: EvmRun, price: U256, f: FeeDist, n: nat, balance: U256,
                      tx: GasLedger.UserTx, fees: GasLedger.Fees, c: GasLedger.Collectors, g: GasLedger.Run, floor: U64)
    requires GasLedger.Admitted(tx, fees, balance, floor) && GasLedger.Ran(tx, g)
    requires FeesOf(tx, fees, c, g, floor, run, price, f)
    requires CommitWithin(env, sender, run, n) && WithdrawsApart(env, sender, run)
    requires f.infraAccount < n && f.posterAccount < n
    requires SumOf(ViewsOf(k), n) + GasLedger.Cost(price, run.gasUsed) <= U256_MAX
    requires SumOf(ViewsOf(Plus(k, [EvmPosting(sender, run)])), n) + GasLedger.Cost(price, run.evmGasUsed)
          == SumOf(ViewsOf(k), n) + GasLedger.MintedTip(tx, fees, g)
    requires Funds(ViewsOf(Plus(k, [EvmPosting(sender, run)]))(sender)) >= TakenAtCommit(sender, run, price)
    ensures fees.baseFee <= price
    ensures SumOf(ViewsOf(Plus(k, UserPostings(env, sender, run, price, f))), n)
            + GasLedger.Cost(price - fees.baseFee, GasLedger.TopUp(g, floor))
            + Withdrawn(ViewsOf(Plus(k, [EvmPosting(sender, run)])), run)
         == SumOf(ViewsOf(k), n)
  {
    hide ViewsOf, Plus, UserPostings, UnchargedCost, EvmPosting, CommitWithin, TakenAtCommit, Withdrawn, WithdrawsApart;
    hide GasLedger.Cost, GasLedger.ActualGasPrice, GasLedger.Distributed, GasLedger.MintedTip, GasLedger.ReceiptGas,
         GasLedger.TopUp;
    GasLedger.FeesConserved(tx, fees, c, balance, g, floor);
    GasLedger.ReceiptWithinLimit(tx, g, floor);
    UnchargedIsRest(run, price);
    UserTotal(k, env, sender, run, price, f, n);
  }

  lemma UnchargedIsRest(run: EvmRun, price: U256)
    requires run.evmGasUsed <= run.gasUsed && GasLedger.Cost(price, run.gasUsed) <= U256_MAX
    ensures UnchargedCost(run, price) == GasLedger.Cost(price, run.gasUsed) - GasLedger.Cost(price, run.evmGasUsed)
  {
    ProductDistributes(run.evmGasUsed, run.gasUsed - run.evmGasUsed, price);
  }

  /** The three parts of the prepaid gas. */
  lemma UnchargedFits(r: Retry, env: Env, run: EvmRun)
    requires run.evmGasUsed <= run.gasUsed <= r.gasLimit && GasPrice(env, r.gasLimit) <= U256_MAX
    ensures UnchargedCost(run, env.baseFee) == GasPrice(env, run.gasUsed) - GasPrice(env, run.evmGasUsed)
    ensures GasPrice(env, r.gasLimit - run.evmGasUsed) == GasPrice(env, r.gasLimit) - GasPrice(env, run.evmGasUsed)
    ensures GasPrice(env, r.gasLimit - run.gasUsed) == GasPrice(env, r.gasLimit) - GasPrice(env, run.gasUsed)
    ensures SatMul256(env.baseFee, r.gasLimit - run.gasUsed) == GasPrice(env, r.gasLimit - run.gasUsed)
  {
    ProductMonotone(env.baseFee, env.baseFee, run.gasUsed, r.gasLimit);
    assert GasPrice(env, run.gasUsed - run.evmGasUsed) == GasPrice(env, run.gasUsed) - GasPrice(env, run.evmGasUsed);
  }

  lemma {:induction false} RefundsOnlyMove(r: Retry, env: Env, run: EvmRun, pool: U256, demands: seq<Demand>, n: nat)
    requires RetryWithin(r, env, run, n)
    requires forall i :: 0 <= i < |demands| && demands[i].Pay? ==>
               demands[i].from == env.networkFeeAccount || demands[i].from == env.infraFeeAccount
    ensures forall i :: 0 <= i < |RefundPostings(r, pool, demands)| ==>
              OnlyMoves(RefundPostings(r, pool, demands)[i]) && Within(RefundPostings(r, pool, demands)[i], n)
  {
    if demands != [] {
      RefundsOnlyMove(r, env, run, pool, demands[..|demands| - 1], n);
    }
  }

  /** What the end of a retry moves. */
  function EndMoves(r: Retry, env: Env, s: Spent): seq<Posting> {
    RefundPostings(r, r.maxRefund, Demands(r, env, s)) + LastPosting(r, s.success)
  }

  lemma EndOnlyMoves(r: Retry, env: Env, run: EvmRun, s: Spent, n: nat)
    requires RetryWithin(r, env, run, n)
    ensures forall i :: 0 <= i < |EndMoves(r, env, s)| ==>
              OnlyMoves(EndMoves(r, env, s)[i]) && Within(EndMoves(r, env, s)[i], n)
    ensures EndPostings(r, env, s) == [BurnUpTo(r.sender, SatMul256(env.baseFee, s.gasLeft))] + EndMoves(r, env, s)
  {
    hide RefundPostings, SatMul256;
    RefundsOnlyMove(r, env, run, r.maxRefund, Demands(r, env, s), n);
  }

  /** The end of a retry burns the unused gas and otherwise only moves what is there. */
  lemma EndTotal(k: Book, r: Retry, env: Env, run: EvmRun, n: nat)
    requires RetryWithin(r, env, run, n) && SumOf(ViewsOf(k), n) <= U256_MAX
    ensures SumOf(ViewsOf(Plus(k, EndPostings(r, env, SpentBy(r, run)))), n)
         == SumOf(ViewsOf(k), n)
            - Min(Funds(ViewsOf(k)(r.sender)), SatMul256(env.baseFee, SatSub(r.gasLimit, run.gasUsed)))
  {
    hide Post, Posted, PostedZombies, EndPostings, EndMoves, OnlyMoves, Within, SatMul256;
    var s := SpentBy(r, run);
    var unused, moves := SatMul256(env.baseFee, s.gasLeft), EndMoves(r, env, s);
    BurnTotal(k, r.sender, unused, n) by {
      SenderWithin(r, env, run, n);
    }
    EndOnlyMoves(r, env, run, s, n);
    var burned := Plus(k, [BurnUpTo(r.sender, unused)]);
    MovesKeepSum(ViewsOf(burned), moves, k.wakeable, n);
    PostedConcat(k.start, k.zombies, burned.entries, moves, k.wakeable);
    PlusTwice(k, [BurnUpTo(r.sender, unused)], moves);
  }

  /** Where the last posting of a retry takes what is in escrow, or the value: to the beneficiary when the ticket of a
      success is still open, and back to escrow after a failure whose sender still holds it. */
  lemma LastTotal(k: Book, r: Retry, success: bool, a: Address, n: nat)
    requires r.sender < n && r.escrow < n && r.beneficiary < n && SumOf(ViewsOf(k), n) <= U256_MAX
    ensures
      var v, w := ViewsOf(k), ViewsOf(Plus(k, LastPosting(r, success)));
      Funds(w(a)) - Funds(v(a))
      == (if success && r.stillOpen then Gain(Move(r.escrow, r.beneficiary, Funds(v(r.escrow))), a)
          else if !success && r.value <= Funds(v(r.sender)) then Gain(Move(r.sender, r.escrow, r.value), a)
          else 0)
  {
    hide ViewsOf, Plus;
    PlusTwice(k, [], []);
    if LastPosting(r, success) != [] {
      MoveTotal(k, LastPosting(r, success)[0], n);
    }
  }

  /** The prepaid gas is what was used and what was not. */
  lemma PrepaidSplits(r: Retry, env: Env, run: EvmRun)
    requires run.gasUsed <= r.gasLimit && GasPrice(env, r.gasLimit) <= U256_MAX
    ensures
      var unused := SatMul256(env.baseFee, SatSub(r.gasLimit, run.gasUsed));
      && unused == GasPrice(env, r.gasLimit - run.gasUsed)
      && Prepaid(r, env) == GasPrice(env, r.gasLimit) == GasPrice(env, run.gasUsed) + unused
  {
    ProductMonotone(env.baseFee, env.baseFee, r.gasLimit - run.gasUsed, r.gasLimit);
    ProductDistributes(run.gasUsed, r.gasLimit - run.gasUsed, env.baseFee);
  }

  /** A retry whose run takes only gas makes and destroys no money: the prepaid gas is what the EVM charges, what it did not
      charge and what was not used. */
  lemma RetryConserves(k: Book, r: Retry, env: Env, run: EvmRun, n: nat)
    requires k.entries == [] && r.escrow != r.sender && StartOf(r, k.start) == Ready
    requires RetryWithin(r, env, run, n) && SumOf(k.start, n) + GasPrice(env, r.gasLimit) <= U256_MAX
    requires TakesOnlyGas(Plus(k, StartPostings(r, env, k.start(r.escrow))), r, env, run, n)
    ensures SumOf(ViewsOf(Plus(k, RetryPostings(r, env, run, k.start))), n) == SumOf(k.start, n)
  {
    hide ViewsOf, Plus, StartPostings, CommitPostings, EndPostings, TakesOnlyGas, RetryWithin;
    hide SatMul256, Prepaid, SumOf, GasPrice;
    var started := StartPostings(r, env, k.start(r.escrow));
    var commit, end := CommitPostings(env, r.sender, run, env.baseFee), EndPostings(r, env, SpentBy(r, run));
    GasWithin(Plus(k, started), r, env, run, n);
    PrepaidSplits(r, env, run);
    StartTotal(k, r, env, n) by {
      SenderWithin(r, env, run, n);
    }
    CommitTotal(Plus(k, started), r, env, run, n);
    PlusTwice(k, started, commit);
    EndTotal(Plus(k, started + commit), r, env, run, n);
    PlusTwice(k, started + commit, end);
    assert started + (commit + end) == started + commit + end;
  }

  lemma SenderWithin(r: Retry, env: Env, run: EvmRun, n: nat)
    requires RetryWithin(r, env, run, n)
    ensures r.sender < n && r.escrow < n
  {
  }

  lemma GasWithin(k: Book, r: Retry, env: Env, run: EvmRun, n: nat)
    requires TakesOnlyGas(k, r, env, run, n)
    ensures run.evmGasUsed <= run.gasUsed <= r.gasLimit
  {
  }

  // ----- an escrow that the start of a retry empties -----

  /** What the EVM leaves of an account that was not there. */
  function EvmLeaves(run: EvmRun, a: Address): Option<AccountInfo> {
    if !run.skipsEvm && a in run.writes then WrittenInfo(run.writes[a]) else None
  }

  /** What a retry books after its run. */
  function AfterRun(r: Retry, env: Env, run: EvmRun): seq<Posting> {
    RunAndEnd(r, env, run)[1..]
  }

  ghost function BookedRun(k: Book, r: Retry, env: Env, run: EvmRun): Book {
    Plus(k, StartPostings(r, env, k.start(r.escrow)) + [EvmPosting(r.sender, run)])
  }

  lemma {:induction false} RefundsOnlyFunds(r: Retry, pool: U256, demands: seq<Demand>)
    ensures forall i :: 0 <= i < |RefundPostings(r, pool, demands)| ==> RefundPostings(r, pool, demands)[i].AwareMove?
  {
    if demands != [] {
      RefundsOnlyFunds(r, pool, demands[..|demands| - 1]);
    }
  }

  lemma AfterRunOnlyFunds(r: Retry, env: Env, run: EvmRun)
    ensures forall i :: 0 <= i < |AfterRun(r, env, run)| ==> OnlyFunds(AfterRun(r, env, run)[i])
    ensures RunAndEnd(r, env, run) == [EvmPosting(r.sender, run)] + AfterRun(r, env, run)
  {
    hide RefundPostings, Demands, UnchargedCost, SatMul256;
    RefundsOnlyFunds(r, r.maxRefund, Demands(r, env, SpentBy(r, run)));
  }

  /** After the run, an escrow that the start emptied is what the EVM left of it. */
  lemma EscrowAfterRun(k: Book, r: Retry, env: Env, run: EvmRun)
    requires k.entries == [] && r.escrow != r.sender && StartOf(r, k.start) == Ready
    requires EmptiesEscrow(r, k.start(r.escrow))
    ensures ViewsOf(BookedRun(k, r, env, run))(r.escrow) == EvmLeaves(run, r.escrow)
    ensures r.escrow !in ZombiesOf(BookedRun(k, r, env, run))
  {
    hide Prepaid, ViewsOf, ZombiesOf, Plus, StartPostings;
    var ps := StartPostings(r, env, k.start(r.escrow));
    StartBooked(k, r, env);
    PlusOne(Plus(k, ps), EvmPosting(r.sender, run));
    PlusTwice(k, ps, [EvmPosting(r.sender, run)]);
  }

  /** The rest of the books. */
  lemma RestBooked(k: Book, r: Retry, env: Env, run: EvmRun)
    requires StartOf(r, k.start) == Ready
    ensures Plus(k, RetryPostings(r, env, run, k.start)) == Plus(BookedRun(k, r, env, run), AfterRun(r, env, run))
    ensures ViewsOf(Plus(k, RetryPostings(r, env, run, k.start)))
         == Posted(ViewsOf(BookedRun(k, r, env, run)), AfterRun(r, env, run), k.wakeable)
    ensures ZombiesOf(Plus(k, RetryPostings(r, env, run, k.start)))
         == PostedZombies(ViewsOf(BookedRun(k, r, env, run)), ZombiesOf(BookedRun(k, r, env, run)),
                          AfterRun(r, env, run), k.wakeable)
  {
    hide StartPostings, RunAndEnd, EvmPosting, Posted, PostedZombies;
    var ps, e := StartPostings(r, env, k.start(r.escrow)), [EvmPosting(r.sender, run)];
    AfterRunOnlyFunds(r, env, run);
    assert ps + (e + AfterRun(r, env, run)) == ps + e + AfterRun(r, env, run);
    PlusTwice(k, ps + e, AfterRun(r, env, run));
    PostedConcat(k.start, k.zombies, BookedRun(k, r, env, run).entries, AfterRun(r, env, run), k.wakeable);
  }

  /**
   * An escrow that the start of a retry emptied was dropped by the early drain. Finalise removes and lists it exactly when
   * something made it present again, the EVM or a later posting, it ends without funds, nonce and code, and it is no
   * zombie.
   */
  lemma EmptiedEscrowListed(x: ArbBlockExecutor, k: Book, r: Retry, env: Env, run: EvmRun,
                            listed: set<Address>, removed: set<Address>)
    requires k.entries == [] && r.escrow != r.sender && StartOf(r, k.start) == Ready
    requires EmptiesEscrow(r, k.start(r.escrow)) && !PresentBlank(x.Original(r.escrow))
    requires Finalised(x, Plus(k, RetryPostings(r, env, run, k.start)), listed, removed)
    ensures
      var evm, end := EvmLeaves(run, r.escrow), ViewsOf(Plus(k, RetryPostings(r, env, run, k.start)))(r.escrow);
      r.escrow in removed <==>
        && (evm.Some? || MadeBy(ViewsOf(BookedRun(k, r, env, run)), AfterRun(r, env, run), k.wakeable, r.escrow))
        && Funds(end) == 0
        && (evm.Some? ==> evm.value.nonce == 0 && evm.value.codeHash == KECCAK_EMPTY)
        && r.escrow !in x.zombies
  {
    hide ViewsOf, ZombiesOf, Plus, RetryPostings, BookedRun, AfterRun, MadeBy;
    EscrowAfterRun(k, r, env, run);
    AfterRunOnlyFunds(r, env, run);
    RestBooked(k, r, env, run);
    StartKept(k, RetryPostings(r, env, run, k.start));
    PresentIffMade(ViewsOf(BookedRun(k, r, env, run)), AfterRun(r, env, run), k.wakeable, r.escrow);
  }

  lemma StartKept(k: Book, ps: seq<Posting>)
    ensures Plus(k, ps).start == k.start && Plus(k, ps).wakeable == k.wakeable
  {
  }

  /** Nobody else has anything to do with the escrow. */
  ghost predicate Undisturbed(r: Retry, env: Env, run: EvmRun) {
    && r.escrow !in {r.sender, r.refundTo, r.beneficiary, env.networkFeeAccount, env.infraFeeAccount, run.coinbase,
                     ARBSYS_ADDRESS}
    && r.escrow !in run.writes
    && (run.sweep.Some? ==> r.escrow != run.sweep.value.0 && r.escrow != run.sweep.value.1)
  }

  lemma {:induction false} RefundsSpareEscrow(r: Retry, env: Env, run: EvmRun, pool: U256, demands: seq<Demand>)
    requires Undisturbed(r, env, run)
    requires forall i :: 0 <= i < |demands| && demands[i].Pay? ==>
               demands[i].from == env.networkFeeAccount || demands[i].from == env.infraFeeAccount
    ensures forall i :: 0 <= i < |RefundPostings(r, pool, demands)| ==> !Names(RefundPostings(r, pool, demands)[i], r.escrow)
  {
    if demands != [] {
      RefundsSpareEscrow(r, env, run, pool, demands[..|demands| - 1]);
    }
  }

  /** Everything but the last posting spares an undisturbed escrow. */
  lemma OnlyLastNamesEscrow(r: Retry, env: Env, run: EvmRun)
    requires Undisturbed(r, env, run)
    ensures
      var rest := AfterRun(r, env, run);
      var last := LastPosting(r, run.success);
      && |last| <= |rest| && rest[|rest| - |last|..] == last
      && forall i :: 0 <= i < |rest| - |last| ==> !Names(rest[i], r.escrow)
  {
    hide RefundPostings, UnchargedCost, SatMul256;
    RefundsSpareEscrow(r, env, run, r.maxRefund, Demands(r, env, SpentBy(r, run)));
  }

  /** An undisturbed escrow that the start emptied is never listed: a successful retry leaves it gone, unless deleting the
      ticket resurrects it as a zombie, and a failed one gives it its value back or leaves it gone. */
  lemma UndisturbedEscrowNotListed(x: ArbBlockExecutor, k: Book, r: Retry, env: Env, run: EvmRun,
                                   listed: set<Address>, removed: set<Address>)
    requires k.entries == [] && StartOf(r, k.start) == Ready && Undisturbed(r, env, run)
    requires EmptiesEscrow(r, k.start(r.escrow))
    requires Finalised(x, Plus(k, RetryPostings(r, env, run, k.start)), listed, removed)
    ensures r.escrow !in removed
    ensures run.success && r.escrow !in x.zombies ==> x.state.View(r.escrow).None?
  {
    hide ViewsOf, ZombiesOf, Plus, RetryPostings, BookedRun, AfterRun, Posted, PostedZombies;
    EscrowAfterRun(k, r, env, run);
    RestBooked(k, r, env, run);
    OnlyLastNamesEscrow(r, env, run);
    StartKept(k, RetryPostings(r, env, run, k.start));
    var v, z := ViewsOf(BookedRun(k, r, env, run)), ZombiesOf(BookedRun(k, r, env, run));
    var rest, last := AfterRun(r, env, run), LastPosting(r, run.success);
    EscrowAtLast(v, z, rest[..|rest| - |last|], last, k.wakeable, r, run.success);
    assert rest == rest[..|rest| - |last|] + last;
  }

  /** What the last posting makes of an escrow that is absent before it. */
  lemma EscrowAtLast(v: Views, z: set<Address>, ps: seq<Posting>, last: seq<Posting>, wakeable: set<Address>, r: Retry,
                     success: bool)
    requires v(r.escrow).None? && r.escrow !in z && r.escrow != r.sender && r.escrow != r.beneficiary && r.value > 0
    requires last == LastPosting(r, success) && forall i :: 0 <= i < |ps| ==> !Names(ps[i], r.escrow)
    ensures
      var end, zs := Posted(v, ps + last, wakeable)(r.escrow), PostedZombies(v, z, ps + last, wakeable);
      && (end.None? || r.escrow in zs || !IsBlank(end.value))
      && (success && r.escrow !in zs ==> end.None?)
  {
    hide Posted, PostedZombies;
    UnnamedStays(v, z, ps, wakeable, r.escrow);
    if last == [] {
      assert ps + last == ps;
    } else {
      assert last == [last[0]];
      PostedOne(v, z, ps, last[0], wakeable, r.escrow);
    }
  }
}
