/**
 * Retry transactions: the escrowed value and the prepaid gas moved before the EVM runs, the rollback when it errs, and
 * the refunds at the end (crates/arb-evm/src/build.rs, crates/arbos/src/tx_processor.rs).
 */
module Retries {
  import opened Machine
  import opened Options
  import opened Accounts
  import opened Overlay
  import opened Ledger
  import opened Executor
  import opened SubmitRetryable
  import opened EvmCommit
  import opened Books

  /** A retry: `opens` says whether its ticket is found, `stillOpen` whether it is there to be deleted at the end. */
  datatype Retry = Retry(
    sender: Address,
    escrow: Address,
    value: U256,
    gasLimit: U64,
    refundTo: Address,
    maxRefund: U256,
    submissionFeeRefund: U256,
    beneficiary: Address,
    opens: bool,
    stillOpen: bool)

  function Prepaid(r: Retry, env: Env): U256 {
    SatMul256(env.baseFee, r.gasLimit)
  }

  datatype Start = NotOpen | EscrowShort | Ready

  /** What the pre-execution moves make of an account: a woken escrow, the value moved, the gas minted. */
  ghost function StartedView(r: Retry, prepaid: U256, wakeable: set<Address>, a: Address, v: Option<AccountInfo>)
    : Option<AccountInfo>
  {
    var woken := if a == r.escrow && r.value == 0 && v.None? && a in wakeable then Some(DEFAULT_INFO) else v;
    var moved := if r.value == 0 then woken else ViewAfter(woken, a == r.escrow, a == r.sender, r.value);
    if a == r.sender && prepaid != 0 then Some(Credited(moved, prepaid)) else moved
  }

  /** Moves the value out of escrow, waking it if there is none; an escrow that cannot cover it changes nothing. */
  method TakeEscrow(x: ArbBlockExecutor, r: Retry) returns (moved: BalanceResult)
    requires x.Valid() && x.Idle() && r.escrow != r.sender
    modifies x`touched, x`zombies, x.state`cache, x.overlay`entries
    ensures x.Valid()
    ensures moved.InsufficientBalance? <==> old(x.state.BalanceOf(r.escrow)) < r.value
    ensures moved.InsufficientBalance? ==> x.Idle() && x.touched == old(x.touched) && x.zombies == old(x.zombies)
    ensures forall a: Address :: x.BaselineOf(a) == old(x.state.View(a))
    ensures x.overlay.entries.Keys <= {r.escrow, r.sender}
    ensures forall a: Address :: x.state.View(a)
              == if moved.Moved? then StartedView(r, 0, x.Wakeable(), a, old(x.state.View(a))) else old(x.state.View(a))
    ensures moved.Moved? ==>
      && x.touched == old(x.touched) + {r.escrow, r.sender}
      && x.zombies == AwareZombies(old(x.zombies), old(x.Wakes(r.escrow)), r.escrow, r.sender, r.value)
  {
    hide ArbBlockExecutor.Valid;
    x.WakeSource(r.escrow, r.value);
    moved := x.ApplyBalanceOp(Some(r.escrow), Some(r.sender), r.value);
    if moved.Moved? {
      x.EndZombies(r.escrow, r.sender, r.value);
    }
  }

  /** The escrow is emptied by the value that leaves it. */
  ghost predicate EmptiesEscrow(r: Retry, escrowed: Option<AccountInfo>) {
    r.value != 0 && escrowed.Some? && escrowed.value.balance == r.value && IsEmpty(escrowed.value.(balance := 0))
  }

  /** Only a woken escrow comes to be present and empty, and only an emptied one stops being live. */
  lemma StartedAccount(r: Retry, prepaid: U256, wakeable: set<Address>, a: Address, v: Option<AccountInfo>)
    requires r.escrow != r.sender
    requires a == r.escrow && r.value != 0 ==> v.Some? && r.value <= v.value.balance
    ensures
      var now := StartedView(r, prepaid, wakeable, a, v);
      && (v.None? && now.Some? && IsEmpty(now.value) ==> a == r.escrow && r.value == 0 && a in wakeable)
      && (!Vacant(v) && now.Some? && IsEmpty(now.value) <==> a == r.escrow && EmptiesEscrow(r, v))
      && (a != r.escrow && Pruned(v, false) == Pruned(now, false) ==> now == v)
      && (a == r.sender && r.value + prepaid > 0 ==> !Vacant(now))
      && (a == r.escrow && r.value > 0 ==> Pruned(v, false) != Pruned(now, false))
  {
  }

  /** The account once the pre-execution moves have been emitted: an emptied escrow is gone. */
  ghost function DrainedView(r: Retry, prepaid: U256, wakeable: set<Address>, a: Address, v: Option<AccountInfo>)
    : Option<AccountInfo>
  {
    if a == r.escrow && EmptiesEscrow(r, v) then None else StartedView(r, prepaid, wakeable, a, v)
  }

  /**
   * Moves the value out of escrow and mints the prepaid gas; both are emitted before the EVM runs. An escrow that this
   * empties is dropped by the drain, without Finalise and so without entering the deleted set.
   */
  method StartRetry(x: ArbBlockExecutor, env: Env, r: Retry) returns (start: Start)
    requires x.Valid() && x.Idle() && r.escrow != r.sender
    modifies x`touched, x`zombies, x`drifted, x.state, x.overlay`entries
    ensures x.Valid() && x.Idle()
    ensures start == if !r.opens then NotOpen
                     else if old(x.state.BalanceOf(r.escrow)) < r.value then EscrowShort else Ready
    ensures start != Ready ==>
      && x.touched == old(x.touched) && x.zombies == old(x.zombies) && x.drifted == old(x.drifted)
      && x.state.transitions == old(x.state.transitions)
      && forall a: Address :: x.state.View(a) == old(x.state.View(a))
    ensures x.drifted <= old(x.drifted)
    ensures start == Ready ==>
      && x.touched == old(x.touched) + {r.escrow, r.sender}
      && x.zombies == AwareZombies(old(x.zombies), old(x.Wakes(r.escrow)), r.escrow, r.sender, r.value)
      && forall a: Address :: Started(x, r, Prepaid(r, env), old(x.drifted), a, old(x.state.View(a)))
  {
    if !r.opens {
      return NotOpen;
    }
    var moved := TakeEscrow(x, r);
    if moved.InsufficientBalance? {
      return EscrowShort;
    }
    EmitStart(x, r, Prepaid(r, env), old(x.state.cache));
    forall a | a in x.drifted
      ensures a in old(x.drifted)
    {
      assert Started(x, r, Prepaid(r, env), old(x.drifted), a, Seen(x.state.db, old(x.state.cache), a).account);
    }
    return Ready;
  }

  /** What the start of a retry leaves of one account that was `v`. */
  ghost predicate Started(x: ArbBlockExecutor, r: Retry, prepaid: U256, wasDrifted: set<Address>, a: Address,
                          v: Option<AccountInfo>)
    reads x`drifted, x`finaliseDeleted, x.state
  {
    var replayed, started := ReplayAt(x.Original(a), x.state.transitions, a), StartedView(r, prepaid, x.Wakeable(), a, v);
    && x.state.View(a) == DrainedView(r, prepaid, x.Wakeable(), a, v)
    && (a == r.escrow && EmptiesEscrow(r, v) ==> x.StatusOf(a) != LoadedNotExisting && replayed.None?)
    && (Pruned(v, false) != Pruned(started, false) ==> a !in x.drifted && Mentions(x.state.transitions, a))
    && (a in x.drifted ==> a in wasDrifted)
    && (a != r.escrow && a in wasDrifted && Pruned(v, false) == Pruned(started, false) ==> a in x.drifted)
  }

  /** The prepaid gas is minted and everything so far emitted; `start` is the cache the retry found. */
  method EmitStart(x: ArbBlockExecutor, r: Retry, prepaid: U256, ghost start: map<Address, CacheAccount>)
    requires x.Valid() && r.escrow != r.sender
    requires x.overlay.entries.Keys <= {r.escrow, r.sender}
    requires forall a: Address ::
      var v := Seen(x.state.db, start, a).account;
      && x.BaselineOf(a) == v
      && x.state.View(a) == StartedView(r, 0, x.Wakeable(), a, v)
      && (a == r.escrow && r.value != 0 ==> v.Some? && r.value <= v.value.balance)
      && (a == r.escrow && r.value == 0 && a in x.Wakeable() && v.None? ==> a in x.zombies)
    modifies x`drifted, x.state, x.overlay`entries
    ensures x.Valid() && x.Idle()
    ensures forall a: Address :: Started(x, r, prepaid, old(x.drifted), a, Seen(x.state.db, start, a).account)
  {
    hide ArbBlockExecutor.Valid, StartedView;
    x.ApplyMint(r.sender, prepaid);
    ghost var entries, cache, ts := x.overlay.entries, x.state.cache, x.state.transitions;
    forall a: Address
      ensures Seen(x.state.db, cache, a).account == StartedView(r, prepaid, x.Wakeable(), a, Seen(x.state.db, start, a).account)
      ensures !Phantom(EntryAt(entries, a), Seen(x.state.db, cache, a), a in x.zombies)
      ensures Drops(EntryAt(entries, a), Seen(x.state.db, cache, a))
          ==> a == r.escrow && EmptiesEscrow(r, Seen(x.state.db, start, a).account)
    {
      var v := Seen(x.state.db, start, a).account;
      assert x.state.View(a) == StartedView(r, prepaid, x.Wakeable(), a, v) by {
        MintedView(r, prepaid, x.Wakeable(), a, v);
      }
      assert x.BaselineOf(a) == v;
      StartedAccount(r, prepaid, x.Wakeable(), a, v);
    }
    ghost var emitted := DrainEarly(x);
    forall a: Address
      ensures Started(x, r, prepaid, old(x.drifted), a, Seen(x.state.db, start, a).account)
    {
      assert DrainedEarly(x, entries, cache, emitted, a);
      MentionsAppend(ts, emitted, a);
      StartedAccount(r, prepaid, x.Wakeable(), a, Seen(x.state.db, start, a).account);
    }
  }

  lemma MintedView(r: Retry, prepaid: U256, wakeable: set<Address>, a: Address, v: Option<AccountInfo>)
    ensures
      var moved := StartedView(r, 0, wakeable, a, v);
      StartedView(r, prepaid, wakeable, a, v)
      == if a == r.sender && prepaid != 0 then Some(Credited(moved, prepaid)) else moved
  {
  }

  // ----- the EVM errs -----

  /** Takes the prepaid gas and the value back, through the overlay and without touching anything. */
  method RollBack(x: ArbBlockExecutor, r: Retry, prepaid: U256) returns (moved: BalanceResult)
    requires x.Valid() && x.Idle() && r.escrow != r.sender
    modifies x.state`cache, x.overlay`entries
    ensures x.Valid()
    ensures forall a: Address :: x.BaselineOf(a) == old(x.state.View(a)) && x.StatusOf(a) == old(x.StatusOf(a))
    ensures x.overlay.entries.Keys
         <= (if r.value + prepaid > 0 then {r.sender} else {}) + (if r.value > 0 then {r.escrow} else {})
    ensures r.value > 0 && moved.Moved? ==> x.overlay.entries.Keys == {r.sender, r.escrow}
    ensures prepaid > 0 ==> r.sender in x.overlay.entries
    ensures r.value > 0 ==> (moved.Moved? <==> r.value <= SatSub(old(x.state.BalanceOf(r.sender)), prepaid))
    ensures forall a: Address :: x.state.View(a)
              == RolledBackView(r, prepaid, r.value > 0 && moved.Moved?, a, old(x.state.View(a)))
  {
    hide ArbBlockExecutor.Valid;
    moved := Moved;
    if prepaid != 0 {
      x.ApplyBurn(r.sender, prepaid);
    }
    if r.value != 0 {
      moved := x.ApplyBalanceOp(Some(r.sender), Some(r.escrow), r.value);
    }
  }

  ghost function RolledBackView(r: Retry, prepaid: U256, moved: bool, a: Address, v: Option<AccountInfo>): Option<AccountInfo> {
    var burned := if a == r.sender && prepaid != 0 then Debited(v, prepaid) else v;
    if moved then ViewAfter(burned, a == r.sender, a == r.escrow, r.value) else burned
  }

  /** The snapshots a rollback takes can be forgotten. */
  lemma RollBackForgettable(o: Option<AccountInfo>, ts: seq<Transition>, a: Address, c: CacheAccount,
                            zombie: bool, drifted: bool, unmoored: bool)
    requires Consistent(o, ts, a, None, c, zombie, drifted, unmoored)
    requires !Vacant(c.account) || (c.status != LoadedNotExisting && ReplayAt(o, ts, a).None?)
    ensures c.status != LoadedNotExisting
    ensures Vacant(ReplayAt(o, ts, a)) ==> ReplayAt(o, ts, a).None?
    ensures !drifted ==> Pruned(ReplayAt(o, ts, a), false) == Pruned(c.account, false)
  {
  }

  /** What of an aborted retry's accounts no longer replays: those that the rollback changed after the early drain. */
  ghost predicate Strays(r: Retry, prepaid: U256, a: Address) {
    (a == r.sender && r.value + prepaid > 0) || (a == r.escrow && r.value > 0)
  }

  /** One account after an aborted retry, where `v` and `wasDrifted` are what the retry found. */
  ghost predicate Aborted(x: ArbBlockExecutor, r: Retry, prepaid: U256, wasDrifted: bool, a: Address, v: Option<AccountInfo>)
    reads x`drifted, x.state
  {
    && x.state.BalanceOf(a) == Funds(v)
    && (Strays(r, prepaid, a) ==> a in x.drifted)
    && (!Strays(r, prepaid, a) && a in x.drifted ==> wasDrifted)
    && (!Strays(r, prepaid, a) && a != r.escrow && wasDrifted ==> a in x.drifted)
  }

  /** The rolled back view of one account, and what its replay says, when no credit overflowed. */
  lemma RolledBackAccount(r: Retry, prepaid: U256, wakeable: set<Address>, a: Address, v: Option<AccountInfo>)
    requires r.escrow != r.sender
    requires a == r.escrow && r.value != 0 ==> v.Some? && r.value <= v.value.balance
    requires a == r.sender ==> Funds(v) + r.value + prepaid <= U256_MAX
    ensures
      var started, drained := StartedView(r, prepaid, wakeable, a, v), DrainedView(r, prepaid, wakeable, a, v);
      var back := RolledBackView(r, prepaid, r.value > 0, a, drained);
      && Funds(back) == Funds(v)
      && (Strays(r, prepaid, a) ==> Pruned(back, false) != Pruned(drained, false) && Pruned(v, false) != Pruned(started, false))
      && (!Strays(r, prepaid, a) ==> back == drained)
      && (a == r.sender ==> r.value + prepaid <= Funds(drained))
  {
  }

  lemma StartedBefore(r: Retry, prepaid: U256, wakeable: set<Address>, a: Address, v: Option<AccountInfo>)
    requires r.escrow != r.sender
    requires a == r.escrow && r.value != 0 ==> v.Some? && r.value <= v.value.balance
    requires Strays(r, prepaid, a)
    ensures !Vacant(DrainedView(r, prepaid, wakeable, a, v)) || (a == r.escrow && EmptiesEscrow(r, v))
  {
    StartedAccount(r, prepaid, wakeable, a, v);
  }

  /** What a rollback changes can be forgotten afterwards. */
  lemma ReadyToAbort(x: ArbBlockExecutor, r: Retry, prepaid: U256, wasDrifted: set<Address>,
                     start: map<Address, CacheAccount>, a: Address)
    requires x.Valid() && x.Idle() && r.escrow != r.sender
    requires Started(x, r, prepaid, wasDrifted, a, Seen(x.state.db, start, a).account)
    requires r.value <= Funds(Seen(x.state.db, start, r.escrow).account)
    ensures Strays(r, prepaid, a) ==>
      && x.StatusOf(a) != LoadedNotExisting
      && (Vacant(ReplayAt(x.Original(a), x.state.transitions, a)) ==> ReplayAt(x.Original(a), x.state.transitions, a).None?)
    ensures a !in x.drifted ==>
      Pruned(ReplayAt(x.Original(a), x.state.transitions, a), false) == Pruned(x.state.View(a), false)
  {
    hide ArbBlockExecutor.Valid, DrainedView, StartedView, EmptiesEscrow, Consistent;
    var ts, c, zombie := x.state.transitions, Seen(x.state.db, x.state.cache, a), a in x.zombies;
    AccountConsistent(x, a);
    if Strays(r, prepaid, a) {
      StartedBefore(r, prepaid, x.Wakeable(), a, Seen(x.state.db, start, a).account);
      RollBackForgettable(x.Original(a), ts, a, c, zombie, a in x.drifted, a in x.unmoored);
    }
    InStepReplays(x.Original(a), ts, a, c, zombie, a in x.drifted, a in x.unmoored);
  }

  /**
   * The EVM errs after the start of a retry: the rollback restores every balance, but the early drain has already
   * emitted the start and the next transaction forgets the rollback's snapshots. Unless a credit overflowed, exactly the
   * accounts that the start changed no longer replay to what is seen.
   */
  method AbortRetry(x: ArbBlockExecutor, r: Retry, prepaid: U256, ghost wasDrifted: set<Address>,
                    ghost start: map<Address, CacheAccount>)
    requires x.Valid() && x.Idle() && r.escrow != r.sender
    requires r.sender !in x.zombies && (r.value > 0 ==> r.escrow !in x.zombies)
    requires forall a: Address :: Started(x, r, prepaid, wasDrifted, a, Seen(x.state.db, start, a).account)
    requires r.value <= Funds(Seen(x.state.db, start, r.escrow).account)
    modifies x`drifted, x`unmoored, x.state`cache, x.overlay`entries
    ensures x.Valid() && x.Idle()
    ensures forall a: Address :: a != r.sender && a != r.escrow ==>
              (a in x.drifted <==> a in wasDrifted) && (a in x.unmoored <==> a in old(x.unmoored))
    ensures Funds(Seen(x.state.db, start, r.sender).account) + r.value + prepaid <= U256_MAX ==>
              && x.unmoored == old(x.unmoored)
              && forall a: Address :: Aborted(x, r, prepaid, a in wasDrifted, a, Seen(x.state.db, start, a).account)
  {
    hide ArbBlockExecutor.Valid, StartedView, DrainedView, RolledBackView, EmptiesEscrow, Consistent;
    ghost var db, ts, wakeable, drifted := x.state.db, x.state.transitions, x.Wakeable(), x.drifted;
    forall a: Address
      ensures Strays(r, prepaid, a) ==>
        && x.StatusOf(a) != LoadedNotExisting
        && (Vacant(ReplayAt(x.Original(a), ts, a)) ==> ReplayAt(x.Original(a), ts, a).None?)
      ensures a !in drifted ==> Pruned(ReplayAt(x.Original(a), ts, a), false) == Pruned(x.state.View(a), false)
    {
      assert Started(x, r, prepaid, wasDrifted, a, Seen(db, start, a).account);
      ReadyToAbort(x, r, prepaid, wasDrifted, start, a);
    }
    var moved := RollBack(x, r, prepaid);
    ghost var entries := x.overlay.entries;
    Forget(x);
    forall a: Address
      ensures a != r.sender && a != r.escrow ==>
        (a in x.drifted <==> a in wasDrifted) && (a in x.unmoored <==> a in old(x.unmoored))
    {
      assert old(Started(x, r, prepaid, wasDrifted, a, Seen(db, start, a).account));
      OthersUntouched(r, prepaid, wakeable, a, Seen(db, start, a).account);
    }
    if Funds(Seen(db, start, r.sender).account) + r.value + prepaid <= U256_MAX {
      assert r.value > 0 ==> moved.Moved? by {
        assert old(Started(x, r, prepaid, wasDrifted, r.sender, Seen(db, start, r.sender).account));
        RolledBackAccount(r, prepaid, wakeable, r.sender, Seen(db, start, r.sender).account);
      }
      forall a: Address
        ensures Aborted(x, r, prepaid, a in wasDrifted, a, Seen(db, start, a).account)
        ensures a in entries ==> !Unmoors(x, a)
      {
        var v := Seen(db, start, a).account;
        assert old(Started(x, r, prepaid, wasDrifted, a, v));
        RolledBackAccount(r, prepaid, wakeable, a, v);
        OthersUntouched(r, prepaid, wakeable, a, v);
      }
    }
  }

  lemma OthersUntouched(r: Retry, prepaid: U256, wakeable: set<Address>, a: Address, v: Option<AccountInfo>)
    ensures a != r.sender && a != r.escrow ==> StartedView(r, prepaid, wakeable, a, v) == v
    ensures a == r.sender && r.value + prepaid == 0 && r.escrow != r.sender ==> StartedView(r, prepaid, wakeable, a, v) == v
  {
  }

  lemma AccountConsistent(x: ArbBlockExecutor, a: Address)
    requires x.Valid()
    ensures x.ConsistentAt(a)
  {
  }

  lemma InStepReplays(o: Option<AccountInfo>, ts: seq<Transition>, a: Address, c: CacheAccount,
                      zombie: bool, drifted: bool, unmoored: bool)
    requires Consistent(o, ts, a, None, c, zombie, drifted, unmoored)
    ensures !drifted ==> Pruned(ReplayAt(o, ts, a), false) == Pruned(c.account, false)
  {
  }

  // ----- the end of a retry -----

  /** What the end of a retry asks for, in order: amounts that only use up the deposit's pool, and refunds. */
  datatype Demand = Forfeit(amount: U256) | Pay(from: Address, amount: U256)

  /** What the run came to. */
  datatype Spent = Spent(gasLeft: U64, gasUsed: U64, success: bool, multiCost: Option<U256>)

  predicate HasInfra(env: Env) {
    env.arbosVersion >= ARBOS_VERSION_11 && env.infraFeeAccount != 0
  }

  /** The infra account's share of the unused gas. */
  function InfraShare(env: Env, gasLeft: U64): (share: U256)
    ensures share <= SatMul256(env.baseFee, gasLeft)
  {
    if HasInfra(env) then Min(SatMul256(env.baseFee, gasLeft), SatMul256(Min(env.minBaseFee, env.baseFee), gasLeft)) else 0
  }

  /** What resource prices give back of the single-dimensional cost. */
  function MultiRefund(env: Env, s: Spent): (refund: U256)
    ensures
      var cost := SatMul256(env.baseFee, s.gasUsed);
      refund + (if s.multiCost.Some? then Min(cost, s.multiCost.value) else cost) == cost
  {
    var cost := SatMul256(env.baseFee, s.gasUsed);
    if s.multiCost.Some? && cost > s.multiCost.value then cost - s.multiCost.value else 0
  }

  /** The submission fee, refunded to a success, and the gas used. */
  function FirstDemands(r: Retry, env: Env, s: Spent): seq<Demand> {
    [if s.success then Pay(env.networkFeeAccount, r.submissionFeeRefund) else Forfeit(r.submissionFeeRefund),
     Forfeit(SatMul256(env.baseFee, s.gasUsed))]
  }

  function Demands(r: Retry, env: Env, s: Spent): seq<Demand> {
    FirstDemands(r, env, s)
    + (if HasInfra(env) then [Pay(env.infraFeeAccount, InfraShare(env, s.gasLeft))] else [])
    + [Pay(env.networkFeeAccount, SatMul256(env.baseFee, s.gasLeft) - InfraShare(env, s.gasLeft))]
    + (if MultiRefund(env, s) > 0 then [Pay(env.networkFeeAccount, MultiRefund(env, s))] else [])
  }

  /** Whether `a` is the one asked about, where None asks about everyone. */
  predicate Concerns(who: Option<Address>, a: Address) {
    who.None? || who.value == a
  }

  /** What is to be paid out of an account, or out of all. */
  function Payable(demands: seq<Demand>, from: Option<Address>): nat {
    if demands == [] then 0
    else
      var d := demands[|demands| - 1];
      Payable(demands[..|demands| - 1], from) + if d.Pay? && Concerns(from, d.from) then d.amount else 0
  }

  /** Everything that uses up the pool. */
  function Demanded(demands: seq<Demand>): nat {
    if demands == [] then 0 else Demanded(demands[..|demands| - 1]) + demands[|demands| - 1].amount
  }

  /** What is left of the pool once some demands are met. */
  function PoolAfter(pool: U256, demands: seq<Demand>): U256 {
    if demands == [] then pool
    else TakeFunds(PoolAfter(pool, demands[..|demands| - 1]), demands[|demands| - 1].amount).1
  }

  /** The transfers asked for to meet one demand: what the pool covers goes to the refund address, the rest to the
      sender. */
  function DemandPostings(r: Retry, pool: U256, d: Demand): seq<Posting> {
    if d.Forfeit? then []
    else
      var pooled := TakeFunds(pool, d.amount).0;
      [AwareMove(d.from, r.refundTo, pooled)] + [AwareMove(d.from, r.sender, d.amount - pooled)]
  }

  function RefundPostings(r: Retry, pool: U256, demands: seq<Demand>): seq<Posting> {
    if demands == [] then []
    else
      var init, d := demands[..|demands| - 1], demands[|demands| - 1];
      RefundPostings(r, pool, init) + DemandPostings(r, PoolAfter(pool, init), d)
  }

  /** What a list of transfers is to move from one account to another, or from or to all. */
  function Sent(ps: seq<Posting>, from: Option<Address>, to: Option<Address>): nat {
    if ps == [] then 0
    else
      var p := ps[|ps| - 1];
      Sent(ps[..|ps| - 1], from, to)
      + if p.AwareMove? && Concerns(from, p.from) && Concerns(to, p.to) then p.amount else 0
  }

  /** What of the payments the pool is to cover. */
  function AskedOfPool(pool: U256, demands: seq<Demand>): nat {
    if demands == [] then 0
    else
      var init, d := demands[..|demands| - 1], demands[|demands| - 1];
      AskedOfPool(pool, init) + if d.Forfeit? then 0 else TakeFunds(PoolAfter(pool, init), d.amount).0
  }

  lemma SentOne(ps: seq<Posting>, p: Posting, from: Option<Address>, to: Option<Address>)
    ensures Sent(ps + [p], from, to)
         == Sent(ps, from, to) + (if p.AwareMove? && Concerns(from, p.from) && Concerns(to, p.to) then p.amount else 0)
  {
    assert (ps + [p])[..|ps|] == ps;
  }

  /** What meeting one more demand sends. */
  lemma SentForDemand(r: Retry, pool: U256, ps: seq<Posting>, d: Demand, from: Option<Address>, to: Option<Address>)
    ensures
      var all := ps + DemandPostings(r, pool, d);
      && (d.Forfeit? ==> Sent(all, from, to) == Sent(ps, from, to))
      && (d.Pay? ==>
            Sent(all, from, to)
            == Sent(ps, from, to)
               + (if Concerns(from, d.from) && Concerns(to, r.refundTo) then Min(pool, d.amount) else 0)
               + (if Concerns(from, d.from) && Concerns(to, r.sender) then d.amount - Min(pool, d.amount) else 0))
  {
    if d.Forfeit? {
      assert ps + [] == ps;
    } else {
      var pooled := Min(pool, d.amount);
      var first, second := AwareMove(d.from, r.refundTo, pooled), AwareMove(d.from, r.sender, d.amount - pooled);
      SentOne(ps, first, from, to);
      SentOne(ps + [first], second, from, to);
      assert ps + ([first] + [second]) == ps + [first] + [second];
    }
  }

  /** Each account is asked for exactly what is demanded of it. */
  lemma {:induction false} RefundsMeetDemands(r: Retry, pool: U256, demands: seq<Demand>, from: Option<Address>)
    ensures Sent(RefundPostings(r, pool, demands), from, None) == Payable(demands, from)
  {
    if demands != [] {
      var init, d := demands[..|demands| - 1], demands[|demands| - 1];
      RefundsMeetDemands(r, pool, init, from);
      SentForDemand(r, PoolAfter(pool, init), RefundPostings(r, pool, init), d, from, None);
    }
  }

  /** What the pool covers is sent to the refund address and the rest to the sender, who is sent something only once the
      pool is used up. */
  lemma {:induction false} RefundsReach(r: Retry, pool: U256, demands: seq<Demand>)
    requires r.refundTo != r.sender
    ensures
      var sent := RefundPostings(r, pool, demands);
      && Sent(sent, None, Some(r.refundTo)) == AskedOfPool(pool, demands)
      && Sent(sent, None, Some(r.refundTo)) + Sent(sent, None, Some(r.sender)) == Payable(demands, None)
      && (Sent(sent, None, Some(r.sender)) > 0 ==> pool < Demanded(demands))
  {
    if demands != [] {
      var init, d := demands[..|demands| - 1], demands[|demands| - 1];
      var before := RefundPostings(r, pool, init);
      RefundsReach(r, pool, init);
      PoolRunsDown(pool, init);
      SentForDemand(r, PoolAfter(pool, init), before, d, None, Some(r.refundTo));
      SentForDemand(r, PoolAfter(pool, init), before, d, None, Some(r.sender));
    }
  }

  /** Every demand uses up the pool, and the pool covers no more than it holds. */
  lemma {:induction false} PoolRunsDown(pool: U256, demands: seq<Demand>)
    ensures PoolAfter(pool, demands) == SatSub(pool, Demanded(demands))
    ensures AskedOfPool(pool, demands) + PoolAfter(pool, demands) <= pool
  {
    if demands != [] {
      PoolRunsDown(pool, demands[..|demands| - 1]);
    }
  }

  /**
   * What the end of a retry asks for. The collectors are asked for exactly the unused gas, the submission fee of a success
   * and the resource difference. Of that the refund address is to get what the deposit still covers once the fee of a
   * failure and the gas used have been taken from it, and the sender the rest.
   */
  lemma RefundsAddUp(r: Retry, env: Env, s: Spent)
    ensures
      var sent, pool := RefundPostings(r, r.maxRefund, Demands(r, env, s)), r.maxRefund;
      var unused, used := SatMul256(env.baseFee, s.gasLeft), SatMul256(env.baseFee, s.gasUsed);
      var fee, multi := r.submissionFeeRefund, MultiRefund(env, s);
      var owed := unused + multi + (if s.success then fee else 0);
      var covered := Min(pool, fee + used + unused + multi) - Min(pool, fee + used) + (if s.success then Min(pool, fee) else 0);
      && Sent(sent, None, None) == owed
      && (env.infraFeeAccount != env.networkFeeAccount ==>
            && Sent(sent, Some(env.infraFeeAccount), None) == InfraShare(env, s.gasLeft)
            && Sent(sent, Some(env.networkFeeAccount), None) == owed - InfraShare(env, s.gasLeft))
      && (r.refundTo != r.sender ==>
            && Sent(sent, None, Some(r.refundTo)) == covered <= pool
            && Sent(sent, None, Some(r.sender)) == owed - covered)
  {
    hide RefundPostings, AskedOfPool, PoolAfter, Sent, SatMul256, InfraShare, MultiRefund, Demands, Payable;
    var demands := Demands(r, env, s);
    RefundsMeetDemands(r, r.maxRefund, demands, None);
    RefundsMeetDemands(r, r.maxRefund, demands, Some(env.infraFeeAccount));
    RefundsMeetDemands(r, r.maxRefund, demands, Some(env.networkFeeAccount));
    DemandsAddUp(r, env, s, r.maxRefund, None);
    DemandsAddUp(r, env, s, r.maxRefund, Some(env.infraFeeAccount));
    DemandsAddUp(r, env, s, r.maxRefund, Some(env.networkFeeAccount));
    PoolRunsDown(r.maxRefund, demands);
    if r.refundTo != r.sender {
      RefundsReach(r, r.maxRefund, demands);
    }
  }

  lemma OneMoreDemand(demands: seq<Demand>, d: Demand, pool: U256, from: Option<Address>)
    ensures
      var all := demands + [d];
      && Payable(all, from) == Payable(demands, from) + (if d.Pay? && Concerns(from, d.from) then d.amount else 0)
      && Demanded(all) == Demanded(demands) + d.amount
      && AskedOfPool(pool, all)
         == AskedOfPool(pool, demands)
            + (if d.Forfeit? then 0 else Min(pool, Demanded(demands) + d.amount) - Min(pool, Demanded(demands)))
  {
    assert (demands + [d])[..|demands|] == demands;
    PoolRunsDown(pool, demands);
  }

  lemma NoDemands(pool: U256, from: Option<Address>)
    ensures Payable([], from) == 0 && Demanded([]) == 0 && AskedOfPool(pool, []) == 0
  {
  }

  lemma DemandsAddUp(r: Retry, env: Env, s: Spent, pool: U256, from: Option<Address>)
    ensures
      var unused, used := SatMul256(env.baseFee, s.gasLeft), SatMul256(env.baseFee, s.gasUsed);
      var fee, multi, share := r.submissionFeeRefund, MultiRefund(env, s), InfraShare(env, s.gasLeft);
      && Payable(Demands(r, env, s), from)
         == (if Concerns(from, env.networkFeeAccount) then unused - share + multi + (if s.success then fee else 0) else 0)
            + (if Concerns(from, env.infraFeeAccount) then share else 0)
      && AskedOfPool(pool, Demands(r, env, s))
         == Min(pool, fee + used + unused + multi) - Min(pool, fee + used) + (if s.success then Min(pool, fee) else 0)
  {
    hide Payable, Demanded, AskedOfPool, SatMul256, MultiRefund, InfraShare, HasInfra, FirstDemands;
    InfraGivesFirst(env, s.gasLeft);
    FirstAddUp(r, env, s, pool, from);
    var unused, share := SatMul256(env.baseFee, s.gasLeft), InfraShare(env, s.gasLeft);
    var first, multi := FirstDemands(r, env, s), MultiRefund(env, s);
    var some := first + if HasInfra(env) then [Pay(env.infraFeeAccount, share)] else [];
    var more := some + [Pay(env.networkFeeAccount, unused - share)];
    OneMoreDemand(first, Pay(env.infraFeeAccount, share), pool, from);
    assert first + [] == first;
    OneMoreDemand(some, Pay(env.networkFeeAccount, unused - share), pool, from);
    OneMoreDemand(more, Pay(env.networkFeeAccount, multi), pool, from);
    assert more + [] == more;
  }

  lemma FirstAddUp(r: Retry, env: Env, s: Spent, pool: U256, from: Option<Address>)
    ensures
      var first, fee, used := FirstDemands(r, env, s), r.submissionFeeRefund, SatMul256(env.baseFee, s.gasUsed);
      && Demanded(first) == fee + used
      && Payable(first, from) == (if Concerns(from, env.networkFeeAccount) && s.success then fee else 0)
      && AskedOfPool(pool, first) == (if s.success then Min(pool, fee) else 0)
  {
    hide Payable, Demanded, AskedOfPool, SatMul256;
    var fee, cost := FirstDemands(r, env, s)[0], FirstDemands(r, env, s)[1];
    NoDemands(pool, from);
    OneMoreDemand([], fee, pool, from);
    OneMoreDemand([fee], cost, pool, from);
    assert [] + [fee] == [fee] && [fee] + [cost] == [fee, cost];
  }

  /** Of the unused gas, the infra account gives back the minimum base fee for it before the network gives back anything. */
  lemma InfraGivesFirst(env: Env, gasLeft: U64)
    ensures
      var share := InfraShare(env, gasLeft);
      if HasInfra(env) then
        && share <= SatMul256(env.minBaseFee, gasLeft)
        && (share < SatMul256(env.baseFee, gasLeft) ==> share == SatMul256(env.minBaseFee, gasLeft))
      else share == 0
  {
    ProductMonotone(Min(env.minBaseFee, env.baseFee), env.minBaseFee, gasLeft, gasLeft);
  }
}
