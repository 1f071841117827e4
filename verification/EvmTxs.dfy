/** Transactions that run the EVM: what execution and commit do around the run (crates/arb-evm/src/build.rs). */
module EvmTxs {
  import opened Machine
  import opened Options
  import opened Accounts
  import opened Ledger
  import opened Executor
  import opened SubmitRetryable
  import opened EvmCommit
  import opened Books
  import opened Retries
  import opened TxPostings

  // ----- single postings -----

  /** Raises a nonce; an absent account stays absent. */
  method RaiseNonce(x: ArbBlockExecutor, a: Address)
    requires x.Valid() && x.AllTouched()
    modifies x`touched, x.state`cache, x.overlay`entries
    ensures x.Valid() && x.AllTouched()
    ensures x.touched == old(x.touched) + {a}
    ensures x.state.View(a)
         == match old(x.state.View(a)) { case Some(i) => Some(i.(nonce := i.nonce + 1)) case None => None }
    ensures forall b: Address :: b != a ==> x.state.View(b) == old(x.state.View(b))
  {
    x.Touch(a);
    assert x.ConsistentAt(a);
    var seen := x.state.View(a);
    if seen.Some? {
      x.Write(a, seen.value.(nonce := seen.value.nonce + 1), x.state.cache[a].status);
    }
    x.touched := x.touched + {a};
  }

  method IncrementNonce(x: ArbBlockExecutor, a: Address, ghost k: Book)
    requires x.Valid() && x.AllTouched() && Matches(x, k)
    modifies x`touched, x.state`cache, x.overlay`entries
    ensures x.Valid() && x.AllTouched() && Matches(x, Plus(k, [BumpNonce(a)]))
    ensures x.touched == old(x.touched) + {a}
  {
    hide ArbBlockExecutor.Valid, ViewsOf, ZombiesOf, Plus;
    PlusOne(k, BumpNonce(a));
    RaiseNonce(x, a);
  }

  /** Burns up to an amount, when it applies. */
  method BurnIf(x: ArbBlockExecutor, applies: bool, a: Address, amount: U256, ghost k: Book)
    requires x.Valid() && x.AllTouched() && Matches(x, k)
    requires !applies ==> amount == 0
    modifies x`touched, x.state`cache, x.overlay`entries
    ensures x.Valid() && x.AllTouched() && Matches(x, Plus(k, [BurnUpTo(a, amount)]))
    ensures x.touched == old(x.touched) + (if applies then {a} else {})
  {
    hide ArbBlockExecutor.Valid, ViewsOf, ZombiesOf, Plus;
    PlusOne(k, BurnUpTo(a, amount));
    if applies {
      x.ApplyBurn(a, amount);
      x.touched := x.touched + {a};
    }
  }

  /** Mints an amount, when it applies. */
  method MintIf(x: ArbBlockExecutor, applies: bool, a: Address, amount: U256, ghost k: Book)
    requires x.Valid() && x.AllTouched() && Matches(x, k)
    requires !applies ==> amount == 0
    modifies x`touched, x.state`cache, x.overlay`entries
    ensures x.Valid() && x.AllTouched() && Matches(x, Plus(k, [MintTo(a, amount)]))
    ensures x.touched == old(x.touched) + (if applies then {a} else {})
  {
    hide ArbBlockExecutor.Valid, ViewsOf, ZombiesOf, Plus;
    PlusOne(k, MintTo(a, amount));
    if applies {
      x.ApplyMint(a, amount);
      x.touched := x.touched + {a};
    }
  }

  /** A transfer that touches both ends, when it applies. */
  method TransferIf(x: ArbBlockExecutor, applies: bool, from: Address, to: Address, amount: U256, ghost k: Book)
    requires x.Valid() && x.AllTouched() && Matches(x, k)
    requires !applies ==> amount == 0 || Funds(ViewsOf(k)(from)) < amount
    modifies x`touched, x.state`cache, x.overlay`entries
    ensures x.Valid() && x.AllTouched() && Matches(x, Plus(k, [MoveIfCovered(from, to, amount)]))
    ensures x.touched == old(x.touched) + (if applies then {from, to} else {})
  {
    hide ArbBlockExecutor.Valid, ViewsOf, ZombiesOf, Plus;
    PlusOne(k, MoveIfCovered(from, to, amount));
    if applies {
      var _ := x.Transfer(from, to, amount);
      x.touched := x.touched + {from, to};
    }
  }

  /** A zombie-aware transfer. */
  method MakeMove(x: ArbBlockExecutor, from: Address, to: Address, amount: U256, ghost k: Book)
    requires x.Valid() && x.AllTouched() && Matches(x, k)
    modifies x`touched, x`zombies, x.state`cache, x.overlay`entries
    ensures x.Valid() && x.AllTouched() && Matches(x, Plus(k, [AwareMove(from, to, amount)]))
    ensures x.touched == old(x.touched) + {from, to}
  {
    hide ArbBlockExecutor.Valid, ViewsOf, ZombiesOf, Plus, AwareZombies;
    PlusOne(k, AwareMove(from, to, amount));
    ghost var _ := x.TransferZombieAware(from, to, amount);
  }

  /** A zombie-aware transfer of all there is: a cancelled or deleted ticket's escrow to its beneficiary. */
  method SweepEscrow(x: ArbBlockExecutor, escrow: Address, beneficiary: Address, ghost k: Book)
    requires x.Valid() && x.AllTouched() && Matches(x, k)
    modifies x`touched, x`zombies, x.state`cache, x.overlay`entries
    ensures x.Valid() && x.AllTouched() && Matches(x, Plus(k, [Sweep(escrow, beneficiary)]))
    ensures x.touched == old(x.touched) + {escrow, beneficiary}
  {
    hide ArbBlockExecutor.Valid, ViewsOf, ZombiesOf, Plus, AwareZombies;
    PlusOne(k, Sweep(escrow, beneficiary));
    var amount := ReadBooked(x, escrow, k);
    ghost var _ := x.TransferZombieAware(escrow, beneficiary, amount);
  }

  // ----- the end of a retry -----

  /** Meets one demand of a retry's end. */
  method MeetDemand(x: ArbBlockExecutor, r: Retry, d: Demand, pool: U256, ghost k: Book) returns (left: U256)
    requires x.Valid() && x.AllTouched() && Matches(x, k)
    modifies x`touched, x`zombies, x.state`cache, x.overlay`entries
    ensures x.Valid() && x.AllTouched() && Matches(x, Plus(k, DemandPostings(r, pool, d)))
    ensures x.touched >= old(x.touched)
    ensures left == TakeFunds(pool, d.amount).1
  {
    hide ArbBlockExecutor.Valid, Matches, Plus;
    var taken := TakeFunds(pool, d.amount);
    var pooled := taken.0;
    left := taken.1;
    if d.Pay? {
      ghost var first, second := AwareMove(d.from, r.refundTo, pooled), AwareMove(d.from, r.sender, d.amount - pooled);
      MakeMove(x, d.from, r.refundTo, pooled, k);
      MakeMove(x, d.from, r.sender, d.amount - pooled, Plus(k, [first]));
      PlusTwice(k, [first], [second]);
    } else {
      PlusTwice(k, [], []);
    }
  }

  /** Meets the demands of a retry's end, one refund after the other. */
  method MeetDemands(x: ArbBlockExecutor, r: Retry, demands: seq<Demand>, ghost k: Book)
    requires x.Valid() && x.AllTouched() && Matches(x, k)
    modifies x`touched, x`zombies, x.state`cache, x.overlay`entries
    ensures x.Valid() && x.AllTouched() && Matches(x, Plus(k, RefundPostings(r, r.maxRefund, demands)))
    ensures x.touched >= old(x.touched)
  {
    hide ArbBlockExecutor.Valid, Matches, Plus, DemandPostings;
    var pool := r.maxRefund;
    PlusTwice(k, [], []);
    for i := 0 to |demands|
      invariant x.Valid() && x.AllTouched() && x.touched >= old(x.touched)
      invariant pool == PoolAfter(r.maxRefund, demands[..i])
      invariant Matches(x, Plus(k, RefundPostings(r, r.maxRefund, demands[..i])))
    {
      assert demands[..i + 1][..i] == demands[..i];
      ghost var ps, qs := RefundPostings(r, r.maxRefund, demands[..i]), DemandPostings(r, pool, demands[i]);
      pool := MeetDemand(x, r, demands[i], pool, Plus(k, ps));
      PlusTwice(k, ps, qs);
    }
    assert demands[..|demands|] == demands;
  }

  method EndRetry(x: ArbBlockExecutor, r: Retry, env: Env, s: Spent, ghost k: Book)
    requires x.Valid() && x.AllTouched() && Matches(x, k)
    modifies x`touched, x`zombies, x.state`cache, x.overlay`entries
    ensures x.Valid() && x.AllTouched() && Matches(x, Plus(k, EndPostings(r, env, s)))
    ensures x.touched >= old(x.touched) + {r.sender}
  {
    hide ArbBlockExecutor.Valid, ArbBlockExecutor.AllTouched, Matches, Plus, SatMul256, RefundPostings, Demands;
    var unused := SatMul256(env.baseFee, s.gasLeft);
    ghost var ps, qs := [BurnUpTo(r.sender, unused)], RefundPostings(r, r.maxRefund, Demands(r, env, s));
    BurnIf(x, true, r.sender, unused, k);
    MeetDemands(x, r, Demands(r, env, s), Plus(k, ps));
    PlusTwice(k, ps, qs);
    if s.success {
      if r.stillOpen {
        SweepEscrow(x, r.escrow, r.beneficiary, Plus(k, ps + qs));
      }
    } else {
      MakeMove(x, r.sender, r.escrow, r.value, Plus(k, ps + qs));
    }
    PlusTwice(k, ps + qs, LastPosting(r, s.success));
    assert ps + qs + [] == ps + qs;
  }

  // ----- around the run -----

  lemma IdleIsTouched(x: ArbBlockExecutor)
    requires x.Idle()
    ensures x.AllTouched()
  {
  }

  method ApplyRun(x: ArbBlockExecutor, sender: Address, run: EvmRun, ghost k: Book)
    requires x.Valid() && x.Idle() && LawfulRun(run) && Matches(x, k)
    modifies x`touched, x`drifted, x.state, x.overlay`entries
    ensures x.Valid() && x.AllTouched() && Matches(x, Plus(k, [EvmPosting(sender, run)]))
    ensures x.touched == old(x.touched) + (if run.skipsEvm then {sender} else run.writes.Keys)
    ensures x.drifted <= old(x.drifted) + x.unmoored
  {
    IdleIsTouched(x);
    hide ArbBlockExecutor.Valid, ArbBlockExecutor.AllTouched, ViewsOf, ZombiesOf, Plus;
    PlusOne(k, EvmPosting(sender, run));
    if run.skipsEvm {
      IncrementNonce(x, sender, k);
    } else {
      CommitEvm(x, run.writes);
    }
  }

  /** The tip redirected from the coinbase, when it holds that much. */
  method RedirectTip(x: ArbBlockExecutor, env: Env, run: EvmRun, ghost k: Book)
    requires x.Valid() && x.AllTouched() && Matches(x, k)
    modifies x`touched, x.state`cache, x.overlay`entries
    ensures x.Valid() && x.AllTouched() && Matches(x, Plus(k, TipPosting(env, run)))
    ensures x.touched >= old(x.touched)
  {
    hide ArbBlockExecutor.Valid, ArbBlockExecutor.AllTouched, Matches, ViewsOf, Plus;
    if run.coinbase != env.networkFeeAccount {
      var moves := false;
      if run.tip != 0 {
        var held := ReadBooked(x, run.coinbase, k);
        moves := held >= run.tip;
      }
      TransferIf(x, moves, run.coinbase, env.networkFeeAccount, run.tip, k);
    } else {
      PlusTwice(k, [], []);
    }
  }

  /** The activation fee of a Stylus program goes from the sender to the network. */
  method ChargeActivation(x: ArbBlockExecutor, env: Env, sender: Address, fee: U256, ghost k: Book)
    requires x.Valid() && x.AllTouched() && Matches(x, k)
    modifies x`touched, x.state`cache, x.overlay`entries
    ensures x.Valid() && x.AllTouched()
    ensures Matches(x, Plus(k, [BurnUpTo(sender, fee)] + [MintTo(env.networkFeeAccount, fee)]))
    ensures x.touched == old(x.touched) + (if fee != 0 then {sender, env.networkFeeAccount} else {})
  {
    hide ArbBlockExecutor.Valid, ArbBlockExecutor.AllTouched, Matches, Plus;
    BurnIf(x, fee != 0, sender, fee, k);
    MintIf(x, fee != 0, env.networkFeeAccount, fee, Plus(k, [BurnUpTo(sender, fee)]));
    PlusTwice(k, [BurnUpTo(sender, fee)], [MintTo(env.networkFeeAccount, fee)]);
  }

  method SettleRun(x: ArbBlockExecutor, env: Env, sender: Address, run: EvmRun, ghost k: Book)
    requires x.Valid() && x.Idle() && LawfulRun(run) && Matches(x, k)
    modifies x`touched, x`drifted, x.state, x.overlay`entries
    ensures x.Valid() && x.AllTouched() && Matches(x, Plus(k, RunPostings(env, sender, run)))
    ensures x.touched >= old(x.touched) + run.writes.Keys
    ensures x.drifted <= old(x.drifted) + x.unmoored
  {
    hide ArbBlockExecutor.Valid, ArbBlockExecutor.AllTouched, Matches, Plus, TipPosting;
    ghost var ps, tip := [EvmPosting(sender, run)], TipPosting(env, run);
    ApplyRun(x, sender, run, k);
    RedirectTip(x, env, run, Plus(k, ps));
    PlusTwice(k, ps, tip);
    ChargeActivation(x, env, sender, run.dataFee, Plus(k, ps + tip));
    ghost var fee := [BurnUpTo(sender, run.dataFee)] + [MintTo(env.networkFeeAccount, run.dataFee)];
    PlusTwice(k, ps + tip, fee);
    assert ps + tip + fee == RunPostings(env, sender, run);
  }

  /** The sweep that a run asks for, if any. */
  method SweepIfAny(x: ArbBlockExecutor, run: EvmRun, ghost k: Book)
    requires x.Valid() && x.AllTouched() && Matches(x, k)
    modifies x`touched, x`zombies, x.state`cache, x.overlay`entries
    ensures x.Valid() && x.AllTouched() && Matches(x, Plus(k, SweepPosting(run)))
    ensures x.touched == old(x.touched) + (if run.sweep.Some? then {run.sweep.value.0, run.sweep.value.1} else {})
  {
    hide ArbBlockExecutor.Valid, ArbBlockExecutor.AllTouched, Matches, Plus;
    PlusTwice(k, [], []);
    if run.sweep.Some? {
      SweepEscrow(x, run.sweep.value.0, run.sweep.value.1, k);
    }
  }

  /** Commit up to the fees: every account and every zombie as booked. */
  method AfterEvm(x: ArbBlockExecutor, env: Env, sender: Address, run: EvmRun, price: U256, ghost k: Book)
    requires x.Valid() && x.Idle() && LawfulRun(run) && Matches(x, k)
    modifies x`touched, x`zombies, x`drifted, x.state, x.overlay`entries
    ensures x.Valid() && x.AllTouched() && Matches(x, Plus(k, CommitPostings(env, sender, run, price)))
    ensures x.touched >= old(x.touched) + run.writes.Keys
    ensures x.drifted <= old(x.drifted) + x.unmoored
  {
    hide ArbBlockExecutor.Valid, ArbBlockExecutor.AllTouched, Matches, Plus, SatMul256, RunPostings, SweepPosting;
    ghost var ps, sweep := RunPostings(env, sender, run), SweepPosting(run);
    SettleRun(x, env, sender, run, k);
    SweepIfAny(x, run, Plus(k, ps));
    PlusTwice(k, ps, sweep);
    BurnIf(x, run.withdrawal != 0, ARBSYS_ADDRESS, run.withdrawal, Plus(k, ps + sweep));
    ghost var qs := ps + sweep + [BurnUpTo(ARBSYS_ADDRESS, run.withdrawal)];
    PlusTwice(k, ps + sweep, [BurnUpTo(ARBSYS_ADDRESS, run.withdrawal)]);
    BurnUncharged(x, sender, run, price, Plus(k, qs));
    PlusTwice(k, qs, [BurnUpTo(sender, UnchargedCost(run, price))]);
  }

  /** The gas that the EVM did not charge. */
  method BurnUncharged(x: ArbBlockExecutor, sender: Address, run: EvmRun, price: U256, ghost k: Book)
    requires x.Valid() && x.AllTouched() && Matches(x, k)
    modifies x`touched, x.state`cache, x.overlay`entries
    ensures x.Valid() && x.AllTouched() && Matches(x, Plus(k, [BurnUpTo(sender, UnchargedCost(run, price))]))
    ensures x.touched == old(x.touched) + (if run.gasUsed > run.evmGasUsed then {sender} else {})
  {
    BurnIf(x, run.gasUsed > run.evmGasUsed, sender, UnchargedCost(run, price), k);
  }

  // ----- user transactions -----

  /** Mints what is due; the network account is touched only when something is due to it. */
  method MintFees(x: ArbBlockExecutor, env: Env, f: FeeDist, ghost k: Book)
    requires x.Valid() && x.AllTouched() && Matches(x, k)
    modifies x`touched, x.state`cache, x.overlay`entries
    ensures x.Valid() && x.AllTouched() && Matches(x, Plus(k, MintPostings(env, f)))
    ensures x.touched == old(x.touched) + {f.infraAccount, f.posterAccount}
                         + (if f.network != 0 then {env.networkFeeAccount} else {})
  {
    hide ArbBlockExecutor.Valid, ArbBlockExecutor.AllTouched, Matches, Plus;
    ghost var ps, infra := [MintTo(env.networkFeeAccount, f.network)], [MintTo(f.infraAccount, f.infra)];
    MintIf(x, f.network != 0, env.networkFeeAccount, f.network, k);
    MintIf(x, true, f.infraAccount, f.infra, Plus(k, ps));
    PlusTwice(k, ps, infra);
    MintIf(x, true, f.posterAccount, f.poster, Plus(k, ps + infra));
    PlusTwice(k, ps + infra, [MintTo(f.posterAccount, f.poster)]);
  }

  method DistributeFees(x: ArbBlockExecutor, env: Env, sender: Address, f: FeeDist, ghost k: Book)
    requires x.Valid() && x.AllTouched() && Matches(x, k)
    modifies x`touched, x.state`cache, x.overlay`entries
    ensures x.Valid() && x.AllTouched() && Matches(x, Plus(k, FeeDistPostings(env, sender, f)))
    ensures x.touched == old(x.touched) + {f.infraAccount, f.posterAccount}
                         + (if f.network != 0 || f.refund != 0 then {env.networkFeeAccount} else {})
                         + (if f.refund != 0 then {sender} else {})
  {
    hide ArbBlockExecutor.Valid, ArbBlockExecutor.AllTouched, Matches, Plus, MintPostings;
    MintFees(x, env, f, k);
    TransferIf(x, f.refund != 0, env.networkFeeAccount, sender, f.refund, Plus(k, MintPostings(env, f)));
    PlusTwice(k, MintPostings(env, f), [MoveIfCovered(env.networkFeeAccount, sender, f.refund)]);
  }

  /** A user transaction; one that errs leaves nothing behind. */
  method RunUser(x: ArbBlockExecutor, env: Env, sender: Address, run: Option<EvmRun>, price: U256, f: FeeDist)
    returns (ghost removed: set<Address>)
    requires x.Valid() && x.Idle() && (run.Some? ==> LawfulRun(run.value))
    modifies x`touched, x`zombies, x`finaliseDeleted, x`drifted, x.state, x.overlay`entries
    ensures x.Valid() && x.Idle()
    ensures x.drifted <= old(x.drifted) + x.unmoored
    ensures run.None? ==> unchanged(x) && unchanged(x.state) && unchanged(x.overlay) && removed == {}
    ensures run.Some? ==>
      Finalised(x, Plus(old(Opened(x)), UserPostings(env, sender, run.value, price, f)), old(x.finaliseDeleted), removed)
  {
    hide ArbBlockExecutor.Valid, ArbBlockExecutor.AllTouched, Matches, Plus, CommitPostings, FeeDistPostings, Opened;
    removed := {};
    if run.None? {
      return;
    }
    ghost var k := Opened(x);
    OpenedMatches(x);
    AfterEvm(x, env, sender, run.value, price, k);
    ghost var ps, fees := CommitPostings(env, sender, run.value, price), FeeDistPostings(env, sender, f);
    DistributeFees(x, env, sender, f, Plus(k, ps));
    PlusTwice(k, ps, fees);
    removed := Close(x, Plus(k, ps + fees));
  }

  // ----- retries -----

  /** A retry's commit. */
  method CommitRetry(x: ArbBlockExecutor, env: Env, r: Retry, run: EvmRun, ghost k: Book)
    returns (ghost removed: set<Address>)
    requires x.Valid() && x.Idle() && LawfulRun(run) && Matches(x, k)
    modifies x`touched, x`zombies, x`finaliseDeleted, x`drifted, x.state, x.overlay`entries
    ensures x.Valid() && x.Idle()
    ensures x.drifted <= old(x.drifted) + x.unmoored
    ensures Finalised(x, Plus(k, RunAndEnd(r, env, run)), old(x.finaliseDeleted), removed)
  {
    hide ArbBlockExecutor.Valid, ArbBlockExecutor.AllTouched, Matches, Plus, CommitPostings, EndPostings;
    ghost var ps, end := CommitPostings(env, r.sender, run, env.baseFee), EndPostings(r, env, SpentBy(r, run));
    AfterEvm(x, env, r.sender, run, env.baseFee, k);
    EndRetry(x, r, env, SpentBy(r, run), Plus(k, ps));
    PlusTwice(k, ps, end);
    removed := Close(x, Plus(k, ps + end));
  }

  /** After its start a retry's books are open with its start in them. */
  lemma StartMatches(x: ArbBlockExecutor, k: Book, r: Retry, env: Env)
    requires k.entries == [] && k.wakeable == x.Wakeable()
    requires r.escrow != r.sender && r.value <= Funds(k.start(r.escrow))
    requires forall a: Address :: x.state.View(a) == DrainedView(r, Prepaid(r, env), x.Wakeable(), a, k.start(a))
    requires x.zombies == AwareZombies(k.zombies, k.start(r.escrow).None? && r.escrow in k.wakeable,
                                       r.escrow, r.sender, r.value)
    requires {r.escrow, r.sender} <= x.touched
    ensures Matches(x, Plus(k, StartPostings(r, env, k.start(r.escrow))))
  {
    StartBooked(k, r, env);
    hide Prepaid, ViewsOf, ZombiesOf, Plus, StartPostings, AwareZombies, EmptiesEscrow;
  }

  lemma NothingStrays(x: ArbBlockExecutor, r: Retry, wasDrifted: set<Address>, start: map<Address, CacheAccount>)
    requires forall a: Address :: Aborted(x, r, 0, a in wasDrifted, a, Seen(x.state.db, start, a).account)
    requires r.value == 0
    ensures x.drifted <= wasDrifted
  {
    forall a | a in x.drifted
      ensures a in wasDrifted
    {
      assert Aborted(x, r, 0, a in wasDrifted, a, Seen(x.state.db, start, a).account);
    }
  }

  /**
   * A retry, whose run errs when `run` is none. It keeps the block replayable exactly when it does not err after its start
   * was emitted, or its start moved nothing.
   */
  method RunRetry(x: ArbBlockExecutor, env: Env, r: Retry, run: Option<EvmRun>)
    returns (start: Start, ghost removed: set<Address>)
    requires x.Valid() && x.Idle() && r.escrow != r.sender && (run.Some? ==> LawfulRun(run.value))
    modifies x`touched, x`zombies, x`finaliseDeleted, x`drifted, x`unmoored, x.state, x.overlay`entries
    ensures x.Valid() && x.Idle()
    ensures start == StartOf(r, old(Opened(x)).start)
    ensures start != Ready ==> Finalised(x, old(Opened(x)), old(x.finaliseDeleted), removed)
    ensures start == Ready && run.Some? ==>
      Finalised(x, Plus(old(Opened(x)), RetryPostings(r, env, run.value, old(Opened(x)).start)),
                old(x.finaliseDeleted), removed)
    ensures start != Ready || run.Some? || r.value + Prepaid(r, env) == 0 ==>
              x.drifted <= old(x.drifted) + x.unmoored && x.unmoored == old(x.unmoored)
    ensures start == Ready && run.None? ==>
      && removed == {} && x.finaliseDeleted == old(x.finaliseDeleted)
      && x.zombies == AwareZombies(old(x.zombies), old(x.Wakes(r.escrow)), r.escrow, r.sender, r.value)
      && (forall a: Address :: a != r.sender && a != r.escrow ==>
            (a in x.drifted <==> a in old(x.drifted)) && (a in x.unmoored <==> a in old(x.unmoored)))
      && (old(x.state.BalanceOf(r.sender)) + r.value + Prepaid(r, env) <= U256_MAX ==>
            && x.unmoored == old(x.unmoored)
            && forall a: Address :: Aborted(x, r, Prepaid(r, env), a in old(x.drifted), a, old(x.state.View(a))))
  {
    hide ArbBlockExecutor.Valid, Started, Aborted, Prepaid, Matches, Plus, RunAndEnd, StartPostings;
    ghost var k := Opened(x);
    removed := {};
    start := StartRetry(x, env, r);
    forall a: Address
      ensures start == Ready ==>
        Started(x, r, Prepaid(r, env), old(x.drifted), a, Seen(x.state.db, old(x.state.cache), a).account)
      ensures old(x.state.View(a)) == k.start(a)
    {
      assert old(x.state.View(a)) == Seen(x.state.db, old(x.state.cache), a).account;
    }
    if start != Ready {
      StillOpened(x, k);
      IdleIsTouched(x);
      removed := Close(x, k);
    } else if run.None? {
      AbortRetry(x, r, Prepaid(r, env), old(x.drifted), old(x.state.cache));
      forall a: Address
        ensures Aborted(x, r, Prepaid(r, env), a in old(x.drifted), a, Seen(x.state.db, old(x.state.cache), a).account)
            ==> Aborted(x, r, Prepaid(r, env), a in old(x.drifted), a, old(x.state.View(a)))
      {
        assert old(x.state.View(a)) == Seen(x.state.db, old(x.state.cache), a).account;
      }
      if r.value + Prepaid(r, env) == 0 {
        NothingStrays(x, r, old(x.drifted), old(x.state.cache));
      }
    } else {
      StartShown(x, env, r, old(x.drifted), old(x.state.cache), k);
      StartMatches(x, k, r, env);
      ghost var ps := StartPostings(r, env, k.start(r.escrow));
      removed := CommitRetry(x, env, r, run.value, Plus(k, ps));
      PlusTwice(k, ps, RunAndEnd(r, env, run.value));
    }
  }

  lemma StillOpened(x: ArbBlockExecutor, k: Book)
    requires k.entries == [] && k.wakeable == x.Wakeable() && k.zombies == x.zombies
    requires forall a: Address :: x.state.View(a) == k.start(a)
    ensures Matches(x, k)
  {
  }

  lemma StartShown(x: ArbBlockExecutor, env: Env, r: Retry, wasDrifted: set<Address>, start: map<Address, CacheAccount>,
                   k: Book)
    requires k.start == ViewsIn(x.state.db, start)
    requires forall a: Address :: Started(x, r, Prepaid(r, env), wasDrifted, a, Seen(x.state.db, start, a).account)
    ensures forall a: Address :: x.state.View(a) == DrainedView(r, Prepaid(r, env), x.Wakeable(), a, k.start(a))
  {
    hide DrainedView, StartedView, Prepaid;
    forall a: Address
      ensures x.state.View(a) == DrainedView(r, Prepaid(r, env), x.Wakeable(), a, k.start(a))
    {
      assert Started(x, r, Prepaid(r, env), wasDrifted, a, Seen(x.state.db, start, a).account);
    }
  }
}
