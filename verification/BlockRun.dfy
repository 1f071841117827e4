/** Whole blocks of transactions (crates/arb-evm/src/build.rs). */
module BlockRun {
  import opened Machine
  import opened Options
  import opened Accounts
  import opened Overlay
  import opened Ledger
  import opened Executor
  import opened SubmitRetryable
  import opened EvmCommit
  import opened Books
  import opened Retries
  import opened TxPostings
  import opened EvmTxs

  datatype InternalTransfer = InternalTransfer(from: Address, to: Address, amount: U256)

  datatype Tx =
    | Deposit(sender: Address, to: Address, value: U256, filteredRecipient: Option<Address>)
    | Internal(transfers: seq<InternalTransfer>)
    | Submit(tx: SubmitTx, filteredRecipient: Option<Address>)
    | Redeem(retry: Retry, run: Option<EvmRun>)
    | User(sender: Address, run: Option<EvmRun>, price: U256, fees: FeeDist)

  /** The transactions that end without running the EVM. */
  predicate SkipsEvm(tx: Tx) {
    tx.Deposit? || tx.Internal? || tx.Submit?
  }

  /** What the EVM and the hash of a ticket guarantee. */
  predicate LawfulTx(tx: Tx) {
    match tx
    case Redeem(retry, run) => retry.escrow != retry.sender && (run.Some? ==> LawfulRun(run.value))
    case User(_, run, _, _) => run.Some? ==> LawfulRun(run.value)
    case _ => true
  }

  /** A retry whose run errs although its start moved something. */
  predicate Strands(tx: Tx, env: Env) {
    tx.Redeem? && tx.run.None? && tx.retry.opens && tx.retry.value + Prepaid(tx.retry, env) > 0
  }

  /** The accounts that such a retry may leave out of step. */
  function Stranded(tx: Tx, env: Env): set<Address> {
    if Strands(tx, env) then {tx.retry.sender, tx.retry.escrow} else {}
  }

  function AllStranded(txs: seq<Tx>, env: Env): set<Address> {
    if txs == [] then {} else AllStranded(txs[..|txs| - 1], env) + Stranded(txs[|txs| - 1], env)
  }

  // ----- the books of every kind of transaction -----

  function RecipientOf(to: Address, filteredRecipient: Option<Address>): Address {
    if filteredRecipient.Some? then filteredRecipient.value else to
  }

  function DepositPostings(sender: Address, recipient: Address, value: U256): seq<Posting> {
    [MintTo(sender, value)] + [MoveIfCovered(sender, recipient, value)]
  }

  function InternalPostings(transfers: seq<InternalTransfer>): seq<Posting> {
    if transfers == [] then []
    else
      var t := transfers[|transfers| - 1];
      InternalPostings(transfers[..|transfers| - 1]) + [AwareMove(t.from, t.to, t.amount)]
  }

  /** What a transaction that does not err books, from books `k` just opened. */
  ghost function TxBooks(tx: Tx, env: Env, k: Book): seq<Posting> {
    match tx
    case Deposit(sender, to, value, recipient) => DepositPostings(sender, RecipientOf(to, recipient), value)
    case Internal(transfers) => InternalPostings(transfers)
    case Submit(t, recipient) => SubmitPostings(Redirected(t, recipient), env, k)
    case Redeem(retry, Some(run)) => RetryPostings(retry, env, run, k.start)
    case User(sender, Some(run), price, fees) => UserPostings(env, sender, run, price, fees)
    case _ => []
  }

  /** A user transaction that errs, or a retry that errs after its start. */
  ghost predicate Errs(tx: Tx, v: Views) {
    match tx
    case Redeem(retry, run) => run.None? && StartOf(retry, v) == Ready
    case User(_, run, _, _) => run.None?
    case _ => false
  }

  /** What execution leaves for the commit. */
  datatype PendingTx = PendingTx(sender: Address, gasUsed: U64, evmGasUsed: U64, actualGasPrice: U256)

  function Minted(tx: Tx): nat {
    match tx
    case Deposit(_, _, value, _) => value
    case Internal(_) => 0
    case Submit(t, _) => t.depositValue
    case _ => 0
  }

  function TotalMinted(txs: seq<Tx>): nat {
    if txs == [] then 0 else TotalMinted(txs[..|txs| - 1]) + Minted(txs[|txs| - 1])
  }

  ghost predicate TransfersWithin(transfers: seq<InternalTransfer>, n: nat) {
    forall i :: 0 <= i < |transfers| ==> transfers[i].from < n && transfers[i].to < n
  }

  ghost predicate TxWithin(tx: Tx, env: Env, n: nat) {
    match tx
    case Deposit(sender, to, _, recipient) => sender < n && to < n && (recipient.Some? ==> recipient.value < n)
    case Internal(transfers) => TransfersWithin(transfers, n)
    case Submit(t, recipient) => AddressesBelow(Redirected(t, recipient), env, n)
    case _ => false
  }

  /** The transfers that go through, in order: each needs its amount once the earlier ones are made. */
  ghost function MovesOf(db: map<Address, AccountInfo>, start: map<Address, CacheAccount>,
                         transfers: seq<InternalTransfer>): seq<Move>
  {
    if transfers == [] then []
    else
      var earlier := MovesOf(db, start, transfers[..|transfers| - 1]);
      var t := transfers[|transfers| - 1];
      if BalanceIn(db, start, t.from) + Net(earlier, t.from) >= t.amount
      then earlier + [Move(t.from, t.to, t.amount)] else earlier
  }

  /** What a transaction adds to the balance of `a`, starting from `start`. */
  ghost function Effect(tx: Tx, env: Env, db: map<Address, AccountInfo>, start: map<Address, CacheAccount>,
                        a: Address): int
  {
    match tx
    case Deposit(_, to, value, recipient) =>
      if a == RecipientOf(to, recipient) then value else 0
    case Internal(transfers) => Net(MovesOf(db, start, transfers), a)
    case Submit(submitted, recipient) =>
      var t, before := Redirected(submitted, recipient), BalanceIn(db, start, submitted.sender);
      if before > U256_MAX then 0
      else
        var fees := ComputeFees(t, env, SatAdd256(before, t.depositValue));
        var escrowed := fees.Fees? && t.retryValue <= before + t.depositValue + FeeGain(t, env, fees, t.sender);
        (if a == t.sender then t.depositValue else 0) + Net(Payments(t, env, fees, escrowed), a)
    case _ => 0
  }

  /** A deposit: mint to the sender, move to the recipient, who a filter may redirect. */
  method ExecuteDeposit(x: ArbBlockExecutor, sender: Address, to: Address, value: U256,
                        filteredRecipient: Option<Address>, ghost n: nat, ghost k: Book)
    returns (pending: PendingTx)
    requires x.Valid() && x.AllTouched() && Matches(x, k)
    modifies x`touched, x`expectedBalanceDelta, x.state`cache, x.overlay`entries
    ensures x.Valid() && x.AllTouched()
    ensures Matches(x, Plus(k, DepositPostings(sender, RecipientOf(to, filteredRecipient), value)))
    ensures pending.gasUsed == pending.evmGasUsed
    ensures x.expectedBalanceDelta == AddDelta(old(x.expectedBalanceDelta), value)
    ensures var recipient := RecipientOf(to, filteredRecipient);
      sender < n && recipient < n && old(x.TotalBalance(n)) + value <= U256_MAX ==>
        && x.TotalBalance(n) == old(x.TotalBalance(n)) + value
        && forall a: Address :: x.state.BalanceOf(a) == old(x.state.BalanceOf(a)) + (if a == recipient then value else 0)
  {
    hide ArbBlockExecutor.Valid, Matches, Plus;
    var recipient := RecipientOf(to, filteredRecipient);
    MintDeposit(x, sender, value, n, k);
    var _, _ := SubmitRetryable.Pay(x, sender, recipient, value, false, n, x.state.cache, [],
                                    Plus(k, [MintTo(sender, value)]));
    PlusTwice(k, [MintTo(sender, value)], [MoveIfCovered(sender, recipient, value)]);
    pending := PendingTx(sender, 0, 0, 0);
  }

  /** The transfers an internal transaction asks for, each best effort. */
  method ExecuteInternal(x: ArbBlockExecutor, transfers: seq<InternalTransfer>, ghost n: nat, ghost k: Book)
    returns (pending: PendingTx)
    requires x.Valid() && x.AllTouched() && Matches(x, k)
    modifies x`touched, x`zombies, x.state`cache, x.overlay`entries
    ensures x.Valid() && x.AllTouched() && Matches(x, Plus(k, InternalPostings(transfers)))
    ensures pending.gasUsed == pending.evmGasUsed
    ensures TransfersWithin(transfers, n) && old(x.TotalBalance(n)) <= U256_MAX ==>
              && x.TotalBalance(n) == old(x.TotalBalance(n))
              && Accounted(x, old(x.state.cache), MovesOf(x.state.db, old(x.state.cache), transfers))
  {
    hide ArbBlockExecutor.Valid, Matches, Plus, Accounted;
    ghost var start := x.state.cache;
    AccountedFromStart(x);
    PlusTwice(k, [], []);
    for i := 0 to |transfers|
      invariant x.Valid() && x.AllTouched() && Matches(x, Plus(k, InternalPostings(transfers[..i])))
      invariant TransfersWithin(transfers, n) && old(x.TotalBalance(n)) <= U256_MAX ==>
                  && x.TotalBalance(n) == old(x.TotalBalance(n))
                  && Accounted(x, start, MovesOf(x.state.db, start, transfers[..i]))
    {
      var t := transfers[i];
      ghost var ps := InternalPostings(transfers[..i]);
      assert transfers[..i + 1][..i] == transfers[..i];
      MoveInternal(x, t, start, MovesOf(x.state.db, start, transfers[..i]), n, Plus(k, ps));
      PlusTwice(k, ps, [AwareMove(t.from, t.to, t.amount)]);
    }
    assert transfers[..|transfers|] == transfers;
    pending := PendingTx(0, 0, 0, 0);
  }

  /** One transfer of an internal transaction, after those that made the moves `earlier`. */
  method MoveInternal(x: ArbBlockExecutor, t: InternalTransfer, ghost start: map<Address, CacheAccount>,
                      ghost earlier: seq<Move>, ghost n: nat, ghost k: Book)
    requires x.Valid() && x.AllTouched() && Matches(x, k)
    modifies x`touched, x`zombies, x.state`cache, x.overlay`entries
    ensures x.Valid() && x.AllTouched() && Matches(x, Plus(k, [AwareMove(t.from, t.to, t.amount)]))
    ensures t.from < n && t.to < n && old(x.TotalBalance(n)) <= U256_MAX && old(Accounted(x, start, earlier)) ==>
      && x.TotalBalance(n) == old(x.TotalBalance(n))
      && Accounted(x, start, if BalanceIn(x.state.db, start, t.from) + Net(earlier, t.from) >= t.amount
                             then earlier + [Move(t.from, t.to, t.amount)] else earlier)
  {
    hide ArbBlockExecutor.Valid, ViewsOf, ZombiesOf, Plus, AwareZombies;
    PlusOne(k, AwareMove(t.from, t.to, t.amount));
    ghost var r := x.TransferZombieAware(t.from, t.to, t.amount);
    forall a: Address {
      NetAppend(earlier, Move(t.from, t.to, t.amount), a);
    }
  }

  function ExtraPosting(pending: PendingTx): seq<Posting> {
    if pending.gasUsed <= pending.evmGasUsed then []
    else [BurnUpTo(pending.sender, SatMul256(pending.actualGasPrice, pending.gasUsed - pending.evmGasUsed))]
  }

  /** Charges the sender for gas revm did not charge, then finalises and drains. */
  method CommitTransaction(x: ArbBlockExecutor, pending: PendingTx, ghost k: Book) returns (ghost removed: set<Address>)
    requires x.Valid() && x.AllTouched() && Matches(x, k)
    modifies x`touched, x`finaliseDeleted, x`drifted, x.state, x.overlay`entries
    ensures x.Valid() && x.Idle() && x.drifted <= old(x.drifted)
    ensures Finalised(x, Plus(k, ExtraPosting(pending)), old(x.finaliseDeleted), removed)
    ensures pending.gasUsed == pending.evmGasUsed ==>
      && (forall a: Address :: x.state.BalanceOf(a) == old(x.state.BalanceOf(a)))
      && (forall n: nat :: x.TotalBalance(n) == old(x.TotalBalance(n)))
  {
    hide ArbBlockExecutor.Valid, ArbBlockExecutor.AllTouched, ViewsOf, ZombiesOf, Plus, Finalised;
    PlusTwice(k, [], []);
    if pending.gasUsed > pending.evmGasUsed {
      var extraCost := SatMul256(pending.actualGasPrice, pending.gasUsed - pending.evmGasUsed);
      BurnIf(x, true, pending.sender, extraCost, k);
    }
    removed := Close(x, Plus(k, ExtraPosting(pending)));
  }

  /** What a transaction does to the money there is, when it fits. */
  ghost predicate TakesEffect(x: ArbBlockExecutor, tx: Tx, env: Env, n: nat, start: map<Address, CacheAccount>)
    reads x.state
  {
    && x.TotalBalance(n) == Total(x.state.db, start, n) + Minted(tx)
    && forall a: Address :: x.state.BalanceOf(a)
         == BalanceIn(x.state.db, start, a) + Effect(tx, env, x.state.db, start, a)
  }

  method ExecuteSubmit(x: ArbBlockExecutor, env: Env, tx: Tx, ghost n: nat, ghost k: Book) returns (pending: PendingTx)
    requires x.Valid() && x.AllTouched() && Matches(x, k) && tx.Submit?
    modifies x`touched, x`expectedBalanceDelta, x.state`cache, x.overlay`entries
    ensures x.Valid() && x.AllTouched()
    ensures Matches(x, Plus(k, SubmitPostings(Redirected(tx.tx, tx.filteredRecipient), env, k)))
    ensures pending.gasUsed == pending.evmGasUsed
    ensures x.expectedBalanceDelta == AddDelta(old(x.expectedBalanceDelta), Minted(tx))
    ensures TxWithin(tx, env, n) && old(x.TotalBalance(n)) + Minted(tx) <= U256_MAX ==>
              TakesEffect(x, tx, env, n, old(x.state.cache))
  {
    hide ArbBlockExecutor.Valid, ComputeFees, Payments, FeeGain, Net, Matches, SubmitPostings, Plus;
    var outcome;
    ghost var fees;
    outcome, fees := ExecuteSubmitRetryable(x, env, tx.tx, tx.filteredRecipient, n, k);
    var gasUsed := if outcome.TicketCreated? then outcome.gasUsed else 0;
    pending := PendingTx(tx.tx.sender, gasUsed, gasUsed, env.baseFee);
  }

  /** A transaction that ends without running the EVM, up to its commit. */
  method ExecuteTx(x: ArbBlockExecutor, env: Env, tx: Tx, ghost n: nat, ghost k: Book) returns (pending: PendingTx)
    requires x.Valid() && x.AllTouched() && Matches(x, k) && SkipsEvm(tx)
    modifies x`touched, x`zombies, x`expectedBalanceDelta, x.state`cache, x.overlay`entries
    ensures x.Valid() && x.AllTouched() && Matches(x, Plus(k, TxBooks(tx, env, k)))
    ensures pending.gasUsed == pending.evmGasUsed
    ensures x.expectedBalanceDelta
         == if tx.Internal? then old(x.expectedBalanceDelta) else AddDelta(old(x.expectedBalanceDelta), Minted(tx))
    ensures TxWithin(tx, env, n) && old(x.TotalBalance(n)) + Minted(tx) <= U256_MAX ==>
              TakesEffect(x, tx, env, n, old(x.state.cache))
  {
    hide ArbBlockExecutor.Valid, ComputeFees, Payments, FeeGain, Net, MovesOf, Matches, Plus, SubmitPostings;
    match tx {
      case Deposit(sender, to, value, recipient) =>
        pending := ExecuteDeposit(x, sender, to, value, recipient, n, k);
      case Internal(transfers) =>
        pending := ExecuteInternal(x, transfers, n, k);
      case Submit(_, _) =>
        pending := ExecuteSubmit(x, env, tx, n, k);
    }
  }

  /** An aborted retry that moved something leaves its sender adrift, and restores every balance. */
  lemma AbortStrays(x: ArbBlockExecutor, r: Retry, prepaid: U256, wasDrifted: set<Address>, v: Views)
    requires forall a: Address :: Aborted(x, r, prepaid, a in wasDrifted, a, v(a))
    ensures r.value + prepaid > 0 ==> r.sender in x.drifted
    ensures forall a: Address :: x.state.BalanceOf(a) == Funds(v(a))
  {
    assert Aborted(x, r, prepaid, r.sender in wasDrifted, r.sender, v(r.sender));
    forall a: Address
      ensures x.state.BalanceOf(a) == Funds(v(a))
    {
      assert Aborted(x, r, prepaid, a in wasDrifted, a, v(a));
    }
  }

  /** The zombies after a transaction: as booked, or those of a retry's start when the run then errs. */
  ghost function ZombiesAfter(tx: Tx, env: Env, k: Book): set<Address> {
    if Errs(tx, k.start) && tx.Redeem? then
      AwareZombies(k.zombies, k.start(tx.retry.escrow).None? && tx.retry.escrow in k.wakeable,
                   tx.retry.escrow, tx.retry.sender, tx.retry.value)
    else ZombiesOf(Plus(k, TxBooks(tx, env, k)))
  }

  /** Whatever the transaction, its zombies were zombies or deleted before. */
  lemma ZombiesComeFromDeleted(tx: Tx, env: Env, k: Book)
    requires k.entries == []
    ensures ZombiesAfter(tx, env, k) <= k.zombies + k.wakeable
  {
    hide TxBooks;
    assert [] + TxBooks(tx, env, k) == TxBooks(tx, env, k);
    ZombiesAreDeleted(k.start, k.zombies, TxBooks(tx, env, k), k.wakeable);
  }

  /** No credit of an erring retry's start overflows. */
  ghost predicate CreditFits(tx: Tx, env: Env, v: Views) {
    tx.Redeem? ==> Funds(v(tx.retry.sender)) + tx.retry.value + Prepaid(tx.retry, env) <= U256_MAX
  }

  /** A retry that runs, or a user transaction, whose run takes only gas. */
  ghost predicate TakesOnlyGasTx(tx: Tx, env: Env, k: Book, n: nat) {
    match tx
    case Redeem(retry, Some(run)) =>
      && StartOf(retry, k.start) == Ready
      && RetryWithin(retry, env, run, n) && SumOf(k.start, n) + GasPrice(env, retry.gasLimit) <= U256_MAX
      && TakesOnlyGas(Plus(k, StartPostings(retry, env, k.start(retry.escrow))), retry, env, run, n)
    case User(sender, Some(run), price, fees) => TakesOnlyFees(k, env, sender, run, price, fees, n)
    case _ => false
  }

  lemma FinalisedFunds(x: ArbBlockExecutor, k: Book, listed: set<Address>, removed: set<Address>)
    requires Finalised(x, k, listed, removed)
    ensures forall a: Address :: x.state.BalanceOf(a) == Funds(ViewsOf(k)(a))
    ensures forall n: nat :: x.TotalBalance(n) == SumOf(ViewsOf(k), n)
    ensures x.zombies == ZombiesOf(k) && x.finaliseDeleted == listed + removed
  {
    hide ViewsOf, ZombiesOf;
    forall a: Address
      ensures x.state.BalanceOf(a) == Funds(ViewsOf(k)(a))
    {
      assert Pruned(x.state.View(a), false) == Pruned(ViewsOf(k)(a), false);
    }
    forall n: nat
      ensures x.TotalBalance(n) == SumOf(ViewsOf(k), n)
    {
      var v := ViewsIn(x.state.db, x.state.cache);
      forall a: Address
        ensures Funds(ViewsOf(k)(a)) == Funds(v(a))
      {
        assert x.state.BalanceOf(a) == Funds(v(a));
      }
      SumAfterCredit(v, ViewsOf(k), n, 0, 0);
    }
  }

  /** A retry. */
  method RunRedeem(x: ArbBlockExecutor, env: Env, tx: Tx, ghost n: nat) returns (ghost removed: set<Address>)
    requires x.Valid() && x.Idle() && LawfulTx(tx) && tx.Redeem?
    modifies x`touched, x`zombies, x`finaliseDeleted, x`drifted, x`unmoored, x.state, x.overlay`entries
    ensures x.Valid() && x.Idle()
    ensures x.zombies == ZombiesAfter(tx, env, old(Opened(x))) && x.finaliseDeleted == old(x.finaliseDeleted) + removed
    ensures !Errs(tx, old(Opened(x)).start) ==>
      Finalised(x, Plus(old(Opened(x)), TxBooks(tx, env, old(Opened(x)))), old(x.finaliseDeleted), removed)
    ensures Errs(tx, old(Opened(x)).start) ==>
      && removed == {}
      && (CreditFits(tx, env, old(Opened(x)).start) ==>
            forall a: Address :: x.state.BalanceOf(a) == old(x.state.BalanceOf(a)))
    ensures !(Strands(tx, env) && Errs(tx, old(Opened(x)).start)) ==>
      x.unmoored == old(x.unmoored) && x.drifted <= old(x.drifted) + x.unmoored
    ensures x.drifted + x.unmoored <= old(x.drifted + x.unmoored) + Stranded(tx, env)
    ensures Strands(tx, env) && Errs(tx, old(Opened(x)).start) && CreditFits(tx, env, old(Opened(x)).start) ==>
      tx.retry.sender in x.drifted
    ensures TakesOnlyGasTx(tx, env, old(Opened(x)), n) ==> x.TotalBalance(n) == old(x.TotalBalance(n))
  {
    hide ArbBlockExecutor.Valid, Aborted, Prepaid, Finalised, Plus, ViewsOf, ZombiesOf, AwareZombies, RetryPostings;
    hide TakesOnlyGas, RetryWithin, StartPostings;
    ghost var k := Opened(x);
    var start;
    start, removed := RunRetry(x, env, tx.retry, tx.run);
    OldViews(x, k, old(x.state.cache));
    if start == Ready && tx.run.None? {
      if CreditFits(tx, env, k.start) {
        AbortStrays(x, tx.retry, Prepaid(tx.retry, env), old(x.drifted), k.start);
      }
    } else {
      ghost var booked := Plus(k, TxBooks(tx, env, k));
      UnreadyBooks(k, tx, env);
      FinalisedFunds(x, booked, old(x.finaliseDeleted), removed);
      if TakesOnlyGasTx(tx, env, k, n) {
        RetryConserves(k, tx.retry, env, tx.run.value, n);
      }
    }
  }

  lemma OldViews(x: ArbBlockExecutor, k: Book, cache: map<Address, CacheAccount>)
    requires k.start == ViewsIn(x.state.db, cache)
    ensures forall a: Address :: k.start(a) == Seen(x.state.db, cache, a).account
  {
  }

  /** A retry that does not start books nothing. */
  lemma UnreadyBooks(k: Book, tx: Tx, env: Env)
    ensures tx.Redeem? && StartOf(tx.retry, k.start) != Ready ==> Plus(k, TxBooks(tx, env, k)) == k
  {
    PlusTwice(k, [], []);
  }

  /** A user transaction. */
  method RunUserTx(x: ArbBlockExecutor, env: Env, tx: Tx, ghost n: nat) returns (ghost removed: set<Address>)
    requires x.Valid() && x.Idle() && LawfulTx(tx) && tx.User?
    modifies x`touched, x`zombies, x`finaliseDeleted, x`drifted, x.state, x.overlay`entries
    ensures x.Valid() && x.Idle()
    ensures x.zombies == ZombiesAfter(tx, env, old(Opened(x))) && x.finaliseDeleted == old(x.finaliseDeleted) + removed
    ensures !Errs(tx, old(Opened(x)).start) ==>
      Finalised(x, Plus(old(Opened(x)), TxBooks(tx, env, old(Opened(x)))), old(x.finaliseDeleted), removed)
    ensures Errs(tx, old(Opened(x)).start) ==>
      removed == {} && forall a: Address :: x.state.View(a) == old(x.state.View(a))
    ensures x.drifted <= old(x.drifted) + x.unmoored
    ensures TakesOnlyGasTx(tx, env, old(Opened(x)), n) ==> x.TotalBalance(n) == old(x.TotalBalance(n))
  {
    hide ArbBlockExecutor.Valid, Finalised, Plus, ViewsOf, ZombiesOf, UserPostings, TakesOnlyFees;
    ghost var k := Opened(x);
    removed := RunUser(x, env, tx.sender, tx.run, tx.price, tx.fees);
    if tx.run.Some? {
      FinalisedFunds(x, Plus(k, TxBooks(tx, env, k)), old(x.finaliseDeleted), removed);
      NothingBooked(k);
      if TakesOnlyGasTx(tx, env, k, n) {
        UserKeepsTotal(k, env, tx.sender, tx.run.value, tx.price, tx.fees, n);
      }
    } else {
      PlusTwice(k, [], []);
      NothingBooked(k);
    }
  }

  /** A transaction that ends without the EVM. */
  method RunPlain(x: ArbBlockExecutor, env: Env, tx: Tx, ghost n: nat) returns (ghost removed: set<Address>)
    requires x.Valid() && x.Idle() && SkipsEvm(tx)
    modifies x, x.state, x.overlay`entries
    ensures x.Valid() && x.Idle() && x.unmoored == old(x.unmoored) && x.drifted <= old(x.drifted)
    ensures x.zombies == ZombiesAfter(tx, env, old(Opened(x))) && x.finaliseDeleted == old(x.finaliseDeleted) + removed
    ensures Finalised(x, Plus(old(Opened(x)), TxBooks(tx, env, old(Opened(x)))), old(x.finaliseDeleted), removed)
    ensures x.expectedBalanceDelta
         == if tx.Internal? then old(x.expectedBalanceDelta) else AddDelta(old(x.expectedBalanceDelta), Minted(tx))
    ensures TxWithin(tx, env, n) && old(x.TotalBalance(n)) + Minted(tx) <= U256_MAX ==>
              TakesEffect(x, tx, env, n, old(x.state.cache))
  {
    hide ArbBlockExecutor.Valid, ArbBlockExecutor.AllTouched, Effect, Finalised, Matches, Plus, ViewsOf, ZombiesOf;
    hide SubmitPostings, InternalPostings, DepositPostings;
    ghost var k := Opened(x);
    OpenedMatches(x);
    IdleIsTouched(x);
    var pending := ExecuteTx(x, env, tx, n, k);
    removed := CommitTransaction(x, pending, Plus(k, TxBooks(tx, env, k)));
    PlusTwice(Plus(k, TxBooks(tx, env, k)), [], []);
    FinalisedFunds(x, Plus(k, TxBooks(tx, env, k)), old(x.finaliseDeleted), removed);
  }

  /**
   * Executes and commits one transaction, whose start clears the overlay. Whatever its kind, every account, every zombie
   * and every listed deletion is as booked. One that errs removes nothing and changes no balance; of a retry only sender
   * and escrow may drift, and from a block in step they do exactly when the start moved something.
   */
  method RunTransaction(x: ArbBlockExecutor, env: Env, tx: Tx, ghost n: nat) returns (ghost removed: set<Address>)
    requires x.Valid() && x.Idle() && LawfulTx(tx)
    modifies x, x.state, x.overlay
    ensures x.Valid() && x.Idle()
    ensures x.zombies == ZombiesAfter(tx, env, old(Opened(x))) && x.zombies <= old(x.zombies + x.finaliseDeleted)
    ensures x.finaliseDeleted == old(x.finaliseDeleted) + removed
    ensures !Errs(tx, old(Opened(x)).start) ==>
      Finalised(x, Plus(old(Opened(x)), TxBooks(tx, env, old(Opened(x)))), old(x.finaliseDeleted), removed)
    ensures Errs(tx, old(Opened(x)).start) ==>
      && removed == {}
      && (CreditFits(tx, env, old(Opened(x)).start) ==>
            forall a: Address :: x.state.BalanceOf(a) == old(x.state.BalanceOf(a)))
    ensures !Strands(tx, env) ==> x.unmoored == old(x.unmoored) && x.drifted <= old(x.drifted) + x.unmoored
    ensures x.drifted + x.unmoored <= old(x.drifted + x.unmoored) + Stranded(tx, env)
    ensures old(x.drifted == x.unmoored == {}) && CreditFits(tx, env, old(Opened(x)).start) ==>
              (x.drifted == {} <==> !(Strands(tx, env) && Errs(tx, old(Opened(x)).start)))
    ensures TakesOnlyGasTx(tx, env, old(Opened(x)), n) ==> x.TotalBalance(n) == old(x.TotalBalance(n))
    ensures SkipsEvm(tx) ==>
      x.expectedBalanceDelta
      == if tx.Internal? then old(x.expectedBalanceDelta) else AddDelta(old(x.expectedBalanceDelta), Minted(tx))
    ensures TxWithin(tx, env, n) && old(x.TotalBalance(n)) + Minted(tx) <= U256_MAX ==>
              TakesEffect(x, tx, env, n, old(x.state.cache))
  {
    hide ArbBlockExecutor.Valid, Effect, Finalised, Plus, ZombiesAfter, TxBooks, CreditFits, TakesOnlyGas, RetryWithin;
    hide StartPostings, Prepaid, TakesOnlyFees;
    ZombiesComeFromDeleted(tx, env, Opened(x));
    x.overlay.ResetTx();
    match tx {
      case Redeem(_, _) => removed := RunRedeem(x, env, tx, n);
      case User(_, _, _, _) => removed := RunUserTx(x, env, tx, n);
      case _ => removed := RunPlain(x, env, tx, n);
    }
  }

  /** What is left of a transaction booked as `k`: `removed` is gone, zombies aside all else is as booked. */
  ghost predicate LeavesBooked(k: Book, after: Book, removed: set<Address>, db: map<Address, AccountInfo>) {
    && (forall a :: a in removed ==> PresentBlank(ViewsOf(k)(a)) && a !in after.zombies)
    && (forall a: Address :: a !in after.zombies ==> after.start(a) == if a in removed then None else ViewsOf(k)(a))
    && (forall a: Address :: Pruned(after.start(a), false) == Pruned(ViewsOf(k)(a), false))
    && (forall a: Address ::
          (&& PresentBlank(ViewsOf(k)(a)) && a !in after.zombies
           && ViewsOf(k)(a) != k.start(a) && !PresentBlank(LoadedFrom(db, a).account))
          ==> a in removed)
  }

  /** One transaction of a block, from the accounts, zombies and wakeable accounts before it to those after it. */
  ghost predicate TookPlace(tx: Tx, env: Env, before: Book, after: Book, removed: set<Address>,
                            db: map<Address, AccountInfo>)
  {
    && after.zombies == ZombiesAfter(tx, env, before)
    && before.wakeable <= after.wakeable <= before.wakeable + removed
    && if Errs(tx, before.start) then
         && removed == {}
         && (CreditFits(tx, env, before.start) ==> forall a: Address :: Funds(after.start(a)) == Funds(before.start(a)))
       else LeavesBooked(Plus(before, TxBooks(tx, env, before)), after, removed, db)
  }

  lemma TransactionTook(x: ArbBlockExecutor, env: Env, tx: Tx, before: Book, listed: set<Address>, removed: set<Address>)
    requires before.wakeable == if x.arbosVersion < ARBOS_VERSION_STYLUS then listed else {}
    requires x.zombies == ZombiesAfter(tx, env, before) && x.finaliseDeleted == listed + removed
    requires !Errs(tx, before.start) ==> Finalised(x, Plus(before, TxBooks(tx, env, before)), listed, removed)
    requires Errs(tx, before.start) ==> removed == {}
    requires Errs(tx, before.start) && CreditFits(tx, env, before.start) ==>
               forall a: Address :: x.state.BalanceOf(a) == Funds(before.start(a))
    ensures TookPlace(tx, env, before, Opened(x), removed, x.state.db)
  {
    hide Errs, ZombiesAfter, CreditFits, TxBooks, ViewsOf, Plus;
    forall a: Address
      ensures Opened(x).start(a) == x.state.View(a) && Funds(x.state.View(a)) == x.state.BalanceOf(a)
    {
    }
  }

  /** All transactions of a block, in order. */
  ghost predicate TookPlaceAll(txs: seq<Tx>, env: Env, trace: seq<Book>, removals: seq<set<Address>>,
                               db: map<Address, AccountInfo>)
  {
    && |trace| == |txs| + 1 && |removals| == |txs|
    && forall i :: 0 <= i < |txs| ==> TookPlace(txs[i], env, trace[i], trace[i + 1], removals[i], db)
  }

  /** Every run takes only gas, or there is none. */
  ghost predicate OnlyDepositsMint(txs: seq<Tx>, env: Env, trace: seq<Book>, n: nat)
    requires |txs| <= |trace|
  {
    forall i :: 0 <= i < |txs| ==> TxWithin(txs[i], env, n) || TakesOnlyGasTx(txs[i], env, trace[i], n)
  }

  lemma OneMoreTransaction(txs: seq<Tx>, tx: Tx, env: Env, trace: seq<Book>, after: Book, removals: seq<set<Address>>,
                           removed: set<Address>, db: map<Address, AccountInfo>, n: nat)
    requires TookPlaceAll(txs, env, trace, removals, db) && TookPlace(tx, env, trace[|txs|], after, removed, db)
    ensures TookPlaceAll(txs + [tx], env, trace + [after], removals + [removed], db)
    ensures OnlyDepositsMint(txs + [tx], env, trace + [after], n) <==>
              OnlyDepositsMint(txs, env, trace, n) && (TxWithin(tx, env, n) || TakesOnlyGasTx(tx, env, trace[|txs|], n))
  {
    hide TookPlace, TxWithin, TakesOnlyGasTx;
    var all, books := txs + [tx], trace + [after];
    assert all[|txs|] == tx && books[|txs|] == trace[|txs|];
    assert forall i :: 0 <= i < |txs| ==> all[i] == txs[i] && books[i] == trace[i];
  }

  lemma OpenedShows(x: ArbBlockExecutor)
    ensures Opened(x).wakeable == if x.arbosVersion < ARBOS_VERSION_STYLUS then x.finaliseDeleted else {}
    ensures forall a: Address :: Funds(Opened(x).start(a)) == x.state.BalanceOf(a)
  {
  }

  lemma NothingTook(env: Env, k: Book, db: map<Address, AccountInfo>)
    ensures TookPlaceAll([], env, [k], [], db) && TotalMinted([]) == 0 && AllStranded([], env) == {}
  {
  }

  lemma OneMoreSum(txs: seq<Tx>, tx: Tx, env: Env)
    ensures TotalMinted(txs + [tx]) == TotalMinted(txs) + Minted(tx)
    ensures AllStranded(txs + [tx], env) == AllStranded(txs, env) + Stranded(tx, env)
  {
    assert (txs + [tx])[..|txs|] == txs;
  }

  lemma GasMintsNothing(tx: Tx, env: Env, k: Book, n: nat)
    requires TakesOnlyGasTx(tx, env, k, n)
    ensures Minted(tx) == 0
  {
  }

  /**
   * Any block: every transaction in turn takes place as booked. Only senders and escrows of retries that err after a start
   * that moved something can be out of step, and the transitions replay every other account to what is seen, zombies
   * included, and revert it. Zombies come only from accounts that were listed as deleted, and the list only grows. Where
   * every run takes only gas the money there is changes by exactly what was deposited, which without EVM runs is also what
   * the executor expects.
   */
  method RunBlock(x: ArbBlockExecutor, env: Env, txs: seq<Tx>, ghost n: nat)
    returns (ghost trace: seq<Book>, ghost removals: seq<set<Address>>)
    requires x.Valid() && x.Idle()
    requires forall i :: 0 <= i < |txs| ==> LawfulTx(txs[i])
    modifies x, x.state, x.overlay
    ensures x.Valid() && x.Idle()
    ensures TookPlaceAll(txs, env, trace, removals, x.state.db)
    ensures trace[0] == old(Opened(x)) && trace[|txs|] == Opened(x)
    ensures x.drifted + x.unmoored <= old(x.drifted + x.unmoored) + AllStranded(txs, env)
    ensures forall a: Address :: a !in old(x.drifted + x.unmoored) + AllStranded(txs, env) ==>
              var replayed := ReplayAt(x.Original(a), x.state.transitions, a);
              && Pruned(replayed, false) == Pruned(x.state.View(a), false)
              && Pruned(replayed, a in x.zombies) == Pruned(x.state.View(a), a in x.zombies)
              && SameOriginal(RevertAt(replayed, x.state.transitions, a), x.Original(a))
    ensures forall a: Address ::
              var replayed := ReplayAt(x.Original(a), x.state.transitions, a);
              && (Pruned(replayed, false) == Pruned(x.state.View(a), false) <==> a !in x.drifted)
              && (a !in x.unmoored ==> SameOriginal(RevertAt(replayed, x.state.transitions, a), x.Original(a)))
    ensures x.zombies <= old(x.zombies) + x.finaliseDeleted && old(x.finaliseDeleted) <= x.finaliseDeleted
    ensures OnlyDepositsMint(txs, env, trace, n) && old(x.TotalBalance(n)) + TotalMinted(txs) <= U256_MAX ==>
              x.TotalBalance(n) == old(x.TotalBalance(n)) + TotalMinted(txs)
    ensures (forall i :: 0 <= i < |txs| ==> SkipsEvm(txs[i]))
            && old(x.expectedBalanceDelta) + TotalMinted(txs) <= I128_MAX && old(x.expectedBalanceDelta) >= 0 ==>
              x.expectedBalanceDelta == old(x.expectedBalanceDelta) + TotalMinted(txs)
  {
    hide ArbBlockExecutor.Valid, Effect, Strands, Stranded, LawfulTx, SkipsEvm, ZombiesAfter, Finalised, Errs, CreditFits;
    hide TakesOnlyGasTx, TookPlace, TxWithin, TookPlaceAll, OnlyDepositsMint, TotalMinted, AllStranded, Minted, Opened;
    trace, removals := [Opened(x)], [];
    assert txs[..0] == [];
    NothingTook(env, Opened(x), x.state.db);
    for i := 0 to |txs|
      invariant x.Valid() && x.Idle()
      invariant |trace| == i + 1 && TookPlaceAll(txs[..i], env, trace, removals, x.state.db)
      invariant trace[0] == old(Opened(x)) && trace[i] == Opened(x)
      invariant x.drifted + x.unmoored <= old(x.drifted + x.unmoored) + AllStranded(txs[..i], env)
      invariant x.zombies <= old(x.zombies) + x.finaliseDeleted && old(x.finaliseDeleted) <= x.finaliseDeleted
      invariant OnlyDepositsMint(txs[..i], env, trace, n) && old(x.TotalBalance(n)) + TotalMinted(txs) <= U256_MAX ==>
                  x.TotalBalance(n) == old(x.TotalBalance(n)) + TotalMinted(txs[..i])
      invariant (forall j :: 0 <= j < i ==> SkipsEvm(txs[j]))
                && old(x.expectedBalanceDelta) + TotalMinted(txs) <= I128_MAX && old(x.expectedBalanceDelta) >= 0 ==>
                  x.expectedBalanceDelta == old(x.expectedBalanceDelta) + TotalMinted(txs[..i])
    {
      MintedPrefix(txs, i + 1);
      assert txs[..i + 1] == txs[..i] + [txs[i]];
      OneMoreSum(txs[..i], txs[i], env);
      ghost var before, listed := Opened(x), x.finaliseDeleted;
      OpenedShows(x);
      ghost var removed := RunTransaction(x, env, txs[i], n);
      TransactionTook(x, env, txs[i], before, listed, removed);
      OneMoreTransaction(txs[..i], txs[i], env, trace, Opened(x), removals, removed, x.state.db, n);
      if TakesOnlyGasTx(txs[i], env, before, n) {
        GasMintsNothing(txs[i], env, before, n);
      }
      trace, removals := trace + [Opened(x)], removals + [removed];
      InternalMintsNothing(txs[i]);
    }
    assert txs[..|txs|] == txs;
    forall a: Address {
      x.BlockReplays(a);
    }
  }

  lemma InternalMintsNothing(tx: Tx)
    ensures tx.Internal? ==> Minted(tx) == 0
  {
  }

  /** A retry of 21,000 gas at price one whose run errs: its sender's prepaid gas is in the transitions and nowhere else. */
  method ErringRetryDrifts() returns (x: ArbBlockExecutor)
    ensures x.Valid() && x.Idle()
    ensures x.state.BalanceOf(7) == 0
    ensures
      var replayed := ReplayAt(x.Original(7), x.state.transitions, 7);
      Pruned(replayed, false) != Pruned(x.state.View(7), false)
  {
    x := new ArbBlockExecutor(map[], map[], 60);
    var env := Env(1, 2, 1, 1, 60);
    var retry := Retry(7, 8, 0, 21_000, 7, 0, 0, 7, true, true);
    assert x.state.View(7) == None && x.state.BalanceOf(8) == 0;
    assert Prepaid(retry, env) == 21_000;
    ghost var _ := RunRedeem(x, env, Redeem(retry, None), 0);
    x.BlockReplays(7);
  }

  /** A run that used no gas, wrote nothing and succeeded. */
  function IdleRun(): EvmRun {
    EvmRun(map[], false, 0, 0, true, None, 1, 0, 0, None, 0)
  }

  /** A whole retry whose start empties an escrow that was live when the block began: the escrow is gone and not among
      the deleted. */
  method EmptiedEscrowIsNotListed() returns (x: ArbBlockExecutor)
    ensures x.Valid() && x.Idle()
    ensures x.Original(8).Some? && x.state.View(8).None? && 8 !in x.finaliseDeleted
  {
    hide ArbBlockExecutor.Valid, Finalised, Plus, ViewsOf, ZombiesOf, RetryPostings, Prepaid;
    x := new ArbBlockExecutor(map[8 := AccountInfo(5, 0, KECCAK_EMPTY)], map[], 20);
    assert x.state.View(8) == Some(AccountInfo(5, 0, KECCAK_EMPTY));
    var env := Env(1, 2, 1, 1, 20);
    var retry := Retry(7, 8, 5, 21_000, 7, 0, 0, 7, true, true);
    ghost var k := Opened(x);
    assert k.start(8) == x.state.View(8);
    ghost var removed := RunTransaction(x, env, Redeem(retry, Some(IdleRun())), 0);
    UndisturbedEscrowNotListed(x, k, retry, env, IdleRun(), {}, removed);
  }

  lemma {:induction false} MintedPrefix(txs: seq<Tx>, k: nat)
    requires k <= |txs|
    ensures TotalMinted(txs[..k]) <= TotalMinted(txs)
  {
    if k == |txs| {
      assert txs[..k] == txs;
    } else {
      MintedPrefix(txs[..|txs| - 1], k);
      assert txs[..|txs| - 1][..k] == txs[..k];
    }
  }

  // ----- a zombie made by a submission and a transfer of nothing, and then credited -----

  /** A submission of zero call value leaves its escrow present and blank, when nobody else has anything to do with it. */
  lemma EscrowMaterialised(k: Book, t: SubmitTx, env: Env)
    requires k.start(t.escrow).None? && k.entries == [] && t.retryValue == 0
    requires t.escrow !in {t.sender, t.feeRefundAddr, env.networkFeeAccount, env.infraFeeAccount}
    requires ComputeFees(t, env, Funds(ViewsOf(Plus(k, [MintTo(t.sender, t.depositValue)]))(t.sender))).Fees?
    ensures ViewsOf(Plus(k, SubmitPostings(t, env, k)))(t.escrow) == Some(DEFAULT_INFO)
    ensures ZombiesOf(Plus(k, SubmitPostings(t, env, k))) == k.zombies
  {
    hide ComputeFees, SubmitPostings, ViewsOf, ZombiesOf;
    ZeroValueBooks(t, env, k);
    var f := ComputeFees(t, env, Funds(ViewsOf(Plus(k, [MintTo(t.sender, t.depositValue)]))(t.sender)));
    EscrowMade(k, t, [MintTo(t.sender, t.depositValue)] + FeePostings(t, env, f), GasPostings(t, env, f));
  }

  /** What a submission of zero call value books. */
  lemma ZeroValueBooks(t: SubmitTx, env: Env, k: Book)
    requires t.retryValue == 0
    ensures
      var f := ComputeFees(t, env, Funds(ViewsOf(Plus(k, [MintTo(t.sender, t.depositValue)]))(t.sender)));
      f.Fees? ==>
        SubmitPostings(t, env, k)
        == [MintTo(t.sender, t.depositValue)] + FeePostings(t, env, f)
           + [MoveIfCovered(t.sender, t.escrow, t.retryValue)] + [Materialise(t.escrow)] + GasPostings(t, env, f)
  {
    hide ComputeFees, Posted, FeePostings, GasPostings;
  }

  /** A transfer of nothing and a materialised account, between postings that do not name it. */
  lemma EscrowMade(k: Book, t: SubmitTx, fees: seq<Posting>, gas: seq<Posting>)
    requires k.start(t.escrow).None? && k.entries == [] && t.retryValue == 0
    requires forall i :: 0 <= i < |fees| ==> !Names(fees[i], t.escrow) && !fees[i].AwareMove? && !fees[i].Sweep?
    requires forall i :: 0 <= i < |gas| ==> !Names(gas[i], t.escrow) && !gas[i].AwareMove? && !gas[i].Sweep?
    ensures
      var after := Plus(k, fees + [MoveIfCovered(t.sender, t.escrow, t.retryValue)] + [Materialise(t.escrow)] + gas);
      ViewsOf(after)(t.escrow) == Some(DEFAULT_INFO) && ZombiesOf(after) == k.zombies
  {
    hide Posted, PostedZombies, Names;
    var move, make := [MoveIfCovered(t.sender, t.escrow, t.retryValue)], [Materialise(t.escrow)];
    UnnamedStays(k.start, k.zombies, fees, k.wakeable, t.escrow);
    assert Plus(k, fees).entries == fees;
    PlusOne(Plus(k, fees), move[0]);
    PlusTwice(k, fees, move);
    PlusOne(Plus(k, fees + move), make[0]);
    PlusTwice(k, fees + move, make);
    var made := Plus(k, fees + move + make);
    UnnamedStays(ViewsOf(made), ZombiesOf(made), gas, k.wakeable, t.escrow);
    PostedConcat(k.start, k.zombies, made.entries, gas, k.wakeable);
    PlusTwice(k, fees + move + make, gas);
    OthersKeepZombies(k.start, k.zombies, fees + move + make + gas, k.wakeable);
    assert Plus(k, fees + move + make + gas).entries == fees + move + make + gas;
  }

  /** A transfer of nothing from an account that was deleted resurrects it. */
  lemma TransferOfNothing(k: Book, from: Address, to: Address)
    requires k.entries == [] && k.start(from).None? && from in k.wakeable && from != to
    ensures
      var after := Plus(k, InternalPostings([InternalTransfer(from, to, 0)]));
      from in ZombiesOf(after) && ViewsOf(after)(from) == Some(DEFAULT_INFO)
  {
    var t := InternalTransfer(from, to, 0);
    assert [t][..0] == [];
    assert InternalPostings([t]) == [AwareMove(from, to, 0)];
    NothingBooked(k);
    PlusOne(k, AwareMove(from, to, 0));
  }

  lemma DepositBooked(k: Book, sender: Address, recipient: Address, value: U256)
    requires k.entries == [] && sender != recipient && Funds(k.start(recipient)) + value <= U256_MAX
    ensures
      var after := Plus(k, DepositPostings(sender, recipient, value));
      ZombiesOf(after) == k.zombies && Funds(ViewsOf(after)(recipient)) == Funds(k.start(recipient)) + value
  {
    hide ViewsOf, ZombiesOf, Plus;
    var p, q := MintTo(sender, value), MoveIfCovered(sender, recipient, value);
    NothingBooked(k);
    PlusOne(k, p);
    PlusOne(Plus(k, [p]), q);
    PlusTwice(k, [p], [q]);
  }

  /** A submission of zero call value ends with its escrow listed as deleted. */
  method SubmissionListsEscrow(x: ArbBlockExecutor, env: Env, t: SubmitTx)
    requires x.Valid() && x.Idle() && t.retryValue == 0
    requires x.state.View(t.escrow).None? && t.escrow !in x.zombies && !PresentBlank(x.Original(t.escrow))
    requires t.escrow !in {t.sender, t.feeRefundAddr, env.networkFeeAccount, env.infraFeeAccount}
    requires ComputeFees(t, env, SatAdd256(Funds(x.state.View(t.sender)), t.depositValue)).Fees?
    modifies x, x.state, x.overlay
    ensures x.Valid() && x.Idle()
    ensures t.escrow in x.finaliseDeleted && x.state.View(t.escrow).None? && x.zombies == old(x.zombies)
  {
    hide ArbBlockExecutor.Valid, Plus, ViewsOf, ZombiesOf, SubmitPostings, TakesEffect, ComputeFees;
    ghost var k := Opened(x);
    assert k.start(t.escrow) == x.state.View(t.escrow) && k.start(t.sender) == x.state.View(t.sender);
    NothingBooked(k);
    PlusOne(k, MintTo(t.sender, t.depositValue));
    EscrowMaterialised(k, t, env);
    StartKept(k, SubmitPostings(t, env, k));
    ghost var _ := RunTransaction(x, env, Submit(t, None), 0);
  }

  /** A transfer of nothing from a deleted account makes it a zombie without funds. */
  method TransferWakes(x: ArbBlockExecutor, env: Env, from: Address, to: Address)
    requires x.Valid() && x.Idle() && x.Wakes(from) && from != to
    modifies x, x.state, x.overlay
    ensures x.Valid() && x.Idle()
    ensures from in x.zombies && x.state.BalanceOf(from) == 0
  {
    hide ArbBlockExecutor.Valid, Plus, ViewsOf, ZombiesOf, InternalPostings, TakesEffect, Finalised;
    ghost var k := Opened(x);
    assert k.start(from) == x.state.View(from);
    TransferOfNothing(k, from, to);
    ghost var listed := x.finaliseDeleted;
    ghost var removed := RunTransaction(x, env, Internal([InternalTransfer(from, to, 0)]), 0);
    FinalisedFunds(x, Plus(k, InternalPostings([InternalTransfer(from, to, 0)])), listed, removed);
  }

  /** A deposit credits its recipient, and whoever was a zombie stays one. */
  method DepositKeepsZombies(x: ArbBlockExecutor, env: Env, sender: Address, to: Address, value: U256)
    requires x.Valid() && x.Idle() && sender != to && x.state.BalanceOf(to) + value <= U256_MAX
    modifies x, x.state, x.overlay
    ensures x.Valid() && x.Idle()
    ensures x.zombies == old(x.zombies) && x.state.BalanceOf(to) == old(x.state.BalanceOf(to)) + value
  {
    hide ArbBlockExecutor.Valid, Plus, ViewsOf, ZombiesOf, DepositPostings, TakesEffect, Finalised;
    ghost var k := Opened(x);
    assert k.start(to) == x.state.View(to) && Funds(k.start(to)) == x.state.BalanceOf(to);
    DepositBooked(k, sender, to, value);
    ghost var listed := x.finaliseDeleted;
    ghost var removed := RunTransaction(x, env, Deposit(sender, to, value, None), 0);
    FinalisedFunds(x, Plus(k, DepositPostings(sender, to, value)), listed, removed);
  }

  /** A zombie that a deposit credits and does not end: version 20, a submission of zero call value, an internal transfer
      of nothing from its escrow, and a deposit to it. */
  method DepositLeavesZombie() returns (x: ArbBlockExecutor)
    ensures x.Valid() && x.Idle()
    ensures 8 in x.zombies && x.state.BalanceOf(8) == 5
  {
    hide ArbBlockExecutor.Valid;
    x := new ArbBlockExecutor(map[], map[], 20);
    var env := Env(1, 2, 0, 0, 20);
    var submission := SubmitTx(7, 7, 8, 0, 0, 0, 0, 0, 0);
    assert x.state.View(8).None? && x.state.View(7).None?;
    SubmissionListsEscrow(x, env, submission);
    TransferWakes(x, env, 8, 9);
    DepositKeepsZombies(x, env, 6, 8, 5);
  }
}
