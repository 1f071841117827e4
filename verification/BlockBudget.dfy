/** The gas budget of a block (crates/arb-evm/src/build.rs). */
module BlockBudget {
  import opened Machine
  import opened Options
  import opened GasLedger

  const ARBOS_VERSION_FIX_REDEEM_GAS: nat := 11

  /** A transaction offered to the block. */
  datatype Offered =
    | EvmUser(tx: UserTx, run: Run, floor: U64)
    | OtherUser(gasLimit: U64, poster: U64, gasUsed: U64)
    | System(poster: U64, gasUsed: U64)

  predicate IsUser(o: Offered) {
    !o.System?
  }

  function PosterOf(o: Offered): U64 {
    match o
    case EvmUser(_, run, _) => run.poster
    case OtherUser(_, poster, _) => poster
    case System(poster, _) => poster
  }

  function GasLimitOf(o: Offered): U64
    requires IsUser(o)
  {
    if o.EvmUser? then o.tx.gasLimit else o.gasLimit
  }

  /** Gas on the receipt. */
  function GasUsedBy(o: Offered): U64 {
    match o
    case EvmUser(_, run, floor) => ReceiptGas(run.evmGasUsed, run.poster, floor)
    case OtherUser(_, _, gasUsed) => gasUsed
    case System(_, gasUsed) => gasUsed
  }

  /** What the EVM and the floor check guarantee of an EVM-executed user transaction. */
  predicate Lawful(o: Offered) {
    o.EvmUser? ==> Ran(o.tx, o.run) && o.floor <= o.tx.gasLimit
  }

  /** Whether a budget of `left` lets a transaction through, after some user transactions. */
  predicate Admits(version: nat, left: U64, users: nat, o: Offered) {
    IsUser(o) ==>
      && TX_GAS <= left
      && (version < ARBOS_VERSION_50 && users > 0 ==> GasLimitOf(o) <= left + PosterOf(o))
  }

  /** What a committed transaction is charged for: its gas but for the poster's and what its retries will be charged. */
  function Charge(version: nat, o: Offered, scheduled: seq<U64>): (charge: nat)
    ensures TX_GAS <= charge <= U64_MAX
  {
    Max(TX_GAS, GasUsedBy(o) - PosterOf(o) - (if version >= ARBOS_VERSION_FIX_REDEEM_GAS then Sum(scheduled) else 0))
  }

  /** What the first `k` transactions leave of a budget. */
  function LeftAfter(version: nat, left: U64, offered: seq<(Offered, seq<U64>)>, k: nat): U64
    requires k <= |offered|
  {
    if k == 0 then left
    else SatSub(LeftAfter(version, left, offered, k - 1), Charge(version, offered[k - 1].0, offered[k - 1].1))
  }

  /** The transactions charged for were each let through by what those before it left. */
  ghost predicate AllCharged(version: nat, left: U64, offered: seq<(Offered, seq<U64>)>, charged: seq<U64>) {
    && |charged| <= |offered|
    && forall i :: 0 <= i < |charged| ==>
         && charged[i] == Charge(version, offered[i].0, offered[i].1)
         && Admits(version, LeftAfter(version, left, offered, i), UserCount(offered, i), offered[i].0)
  }

  lemma OneMoreCharged(version: nat, left: U64, offered: seq<(Offered, seq<U64>)>, charged: seq<U64>, next: U64)
    requires AllCharged(version, left, offered, charged) && |charged| < |offered|
    requires
      var i := |charged|;
      && next == Charge(version, offered[i].0, offered[i].1)
      && Admits(version, LeftAfter(version, left, offered, i), UserCount(offered, i), offered[i].0)
    ensures AllCharged(version, left, offered, charged + [next])
  {
    hide Charge, Admits, LeftAfter, UserCount;
  }

  class Budget {
    const version: nat
    const perBlockLimit: U64
    var blockGasLeft: U64
    var userTxsProcessed: nat
    /** User transactions committed so far. */
    ghost var committedUsers: nat
    /** Compute charged to EVM-executed user transactions after the first user transaction. */
    ghost var laterCompute: nat

    constructor (version: nat, perBlockLimit: U64)
      ensures Valid() && blockGasLeft == perBlockLimit && this.perBlockLimit == perBlockLimit && this.version == version
      ensures userTxsProcessed == committedUsers == laterCompute == 0
    {
      this.version, this.perBlockLimit := version, perBlockLimit;
      blockGasLeft, userTxsProcessed := perBlockLimit, 0;
      committedUsers, laterCompute := 0, 0;
    }

    ghost predicate Valid()
      reads this
    {
      && blockGasLeft + TX_GAS * committedUsers <= perBlockLimit
      && committedUsers <= userTxsProcessed
      && (version < ARBOS_VERSION_50 ==> blockGasLeft + laterCompute <= perBlockLimit)
    }

    /** Whether the budget lets a transaction through. */
    method Admit(o: Offered) returns (admitted: bool)
      ensures admitted <==> Admits(version, blockGasLeft, userTxsProcessed, o)
    {
      if IsUser(o) && blockGasLeft < TX_GAS {
        return false;
      }
      if IsUser(o) && version < ARBOS_VERSION_50 && userTxsProcessed > 0 {
        var computeGas := Max(SatSub(GasLimitOf(o), PosterOf(o)), TX_GAS);
        if computeGas > blockGasLeft {
          return false;
        }
      }
      return true;
    }

    /** Gas used less what was handed on to scheduled retries, which are charged when they run. */
    static method AdjustedGasUsed(version: nat, gasUsed: U64, scheduled: seq<U64>) returns (adjusted: U64)
      ensures adjusted <= gasUsed
      ensures version < ARBOS_VERSION_FIX_REDEEM_GAS ==> adjusted == gasUsed
      ensures version >= ARBOS_VERSION_FIX_REDEEM_GAS ==> adjusted == SatSub(gasUsed, Sum(scheduled))
    {
      adjusted := gasUsed;
      if version >= ARBOS_VERSION_FIX_REDEEM_GAS {
        for i := 0 to |scheduled|
          invariant adjusted == SatSub(gasUsed, Sum(scheduled[..i]))
        {
          assert scheduled[..i + 1][..i] == scheduled[..i];
          adjusted := SatSub(adjusted, scheduled[i]);
        }
        assert scheduled[..|scheduled|] == scheduled;
      }
    }

    /** Deducts the compute of a committed transaction, at least the gas of a plain transfer. */
    method Commit(o: Offered, scheduled: seq<U64>) returns (computeUsed: U64)
      requires Valid() && Lawful(o) && Admits(version, blockGasLeft, userTxsProcessed, o)
      modifies this
      ensures Valid()
      ensures computeUsed == Charge(version, o, scheduled)
      ensures blockGasLeft == SatSub(old(blockGasLeft), computeUsed)
      ensures o.EvmUser? && version < ARBOS_VERSION_50 && old(userTxsProcessed) > 0 ==>
                blockGasLeft == old(blockGasLeft) - computeUsed
      ensures laterCompute == old(laterCompute) + (if o.EvmUser? && old(userTxsProcessed) > 0 then computeUsed else 0)
      ensures userTxsProcessed == old(userTxsProcessed) + (if IsUser(o) then 1 else 0)
      ensures committedUsers == old(committedUsers) + (if IsUser(o) then 1 else 0)
    {
      if o.EvmUser? {
        ReceiptWithinLimit(o.tx, o.run, o.floor);
      }
      var adjusted := AdjustedGasUsed(version, GasUsedBy(o), scheduled);
      var dataGas := PosterOf(o);
      if adjusted < dataGas {
        computeUsed := TX_GAS;
      } else {
        var compute := adjusted - dataGas;
        computeUsed := if compute < TX_GAS then TX_GAS else compute;
      }
      if o.EvmUser? && userTxsProcessed > 0 {
        laterCompute := laterCompute + computeUsed;
      }
      blockGasLeft := SatSub(blockGasLeft, computeUsed);
      if IsUser(o) {
        userTxsProcessed := userTxsProcessed + 1;
        committedUsers := committedUsers + 1;
      }
    }

    /** Charges a user transaction that failed. */
    method DeductFailedTxGas(isUser: bool)
      requires Valid()
      modifies this
      ensures Valid()
      ensures blockGasLeft == SatSub(old(blockGasLeft), TX_GAS)
      ensures userTxsProcessed == old(userTxsProcessed) + (if isUser then 1 else 0)
      ensures committedUsers == old(committedUsers) && laterCompute == old(laterCompute)
    {
      blockGasLeft := SatSub(blockGasLeft, TX_GAS);
      if isUser {
        userTxsProcessed := userTxsProcessed + 1;
      }
    }

    /**
     * A whole block: each transaction in turn is let through and charged, until one is not, which ends the block.
     * The compute charged to EVM-executed user transactions after the first user one fits the limit below version
     * 50, and at every version the block has room for 21,000 gas per committed user transaction.
     */
    method RunBlock(offered: seq<(Offered, seq<U64>)>) returns (charged: seq<U64>)
      requires Valid() && forall i :: 0 <= i < |offered| ==> Lawful(offered[i].0)
      requires userTxsProcessed == committedUsers == laterCompute == 0
      modifies this
      ensures Valid()
      ensures AllCharged(version, old(blockGasLeft), offered, charged)
      ensures |charged| < |offered| ==> !Admits(version, blockGasLeft, UserCount(offered, |charged|), offered[|charged|].0)
      ensures blockGasLeft == LeftAfter(version, old(blockGasLeft), offered, |charged|)
      ensures blockGasLeft + TX_GAS * UserCount(offered, |charged|) <= perBlockLimit
      ensures version < ARBOS_VERSION_50 ==> blockGasLeft + LaterCompute(offered, charged, |charged|) <= perBlockLimit
    {
      hide Charge, Admits, Lawful, GasUsedBy, PosterOf, Valid, AllCharged, UserCount, LaterCompute, LeftAfter;
      charged := [];
      NothingCharged(version, blockGasLeft, offered);
      for i := 0 to |offered|
        invariant Valid()
        invariant |charged| == i && AllCharged(version, old(blockGasLeft), offered, charged)
        invariant blockGasLeft == LeftAfter(version, old(blockGasLeft), offered, i)
        invariant userTxsProcessed == committedUsers == UserCount(offered, i)
        invariant laterCompute == LaterCompute(offered, charged, i)
      {
        var admitted := Admit(offered[i].0);
        if !admitted {
          break;
        }
        var computeUsed := Commit(offered[i].0, offered[i].1);
        OneMoreSum(version, old(blockGasLeft), offered, charged, computeUsed);
        OneMoreCharged(version, old(blockGasLeft), offered, charged, computeUsed);
        charged := charged + [computeUsed];
      }
      WithinLimit();
    }

    lemma WithinLimit()
      requires Valid()
      ensures blockGasLeft + TX_GAS * committedUsers <= perBlockLimit
      ensures version < ARBOS_VERSION_50 ==> blockGasLeft + laterCompute <= perBlockLimit
    {
    }
  }

  /** The user transactions among the first `k`. */
  function UserCount(offered: seq<(Offered, seq<U64>)>, k: nat): nat
    requires k <= |offered|
  {
    if k == 0 then 0 else UserCount(offered, k - 1) + (if IsUser(offered[k - 1].0) then 1 else 0)
  }

  /** What was charged to the EVM-executed user transactions among the first `k` that have a user transaction before them. */
  function LaterCompute(offered: seq<(Offered, seq<U64>)>, charged: seq<U64>, k: nat): nat
    requires k <= |charged| <= |offered|
  {
    if k == 0 then 0
    else
      LaterCompute(offered, charged, k - 1)
      + (if offered[k - 1].0.EvmUser? && UserCount(offered, k - 1) > 0 then charged[k - 1] else 0)
  }

  lemma {:induction false} LaterComputePrefix(offered: seq<(Offered, seq<U64>)>, charged: seq<U64>, more: seq<U64>, k: nat)
    requires k <= |charged| <= |more| <= |offered| && charged <= more
    ensures LaterCompute(offered, more, k) == LaterCompute(offered, charged, k)
  {
    if k > 0 {
      LaterComputePrefix(offered, charged, more, k - 1);
    }
  }

  lemma NothingCharged(version: nat, left: U64, offered: seq<(Offered, seq<U64>)>)
    ensures AllCharged(version, left, offered, []) && LeftAfter(version, left, offered, 0) == left
    ensures UserCount(offered, 0) == LaterCompute(offered, [], 0) == 0
  {
  }

  /** What one more charge adds to the counts. */
  lemma OneMoreSum(version: nat, left: U64, offered: seq<(Offered, seq<U64>)>, charged: seq<U64>, next: U64)
    requires |charged| < |offered|
    ensures
      var i, o := |charged|, offered[|charged|].0;
      && UserCount(offered, i + 1) == UserCount(offered, i) + (if IsUser(o) then 1 else 0)
      && LaterCompute(offered, charged + [next], i + 1)
         == LaterCompute(offered, charged, i) + (if o.EvmUser? && UserCount(offered, i) > 0 then next else 0)
      && LeftAfter(version, left, offered, i + 1)
         == SatSub(LeftAfter(version, left, offered, i), Charge(version, o, offered[i].1))
  {
    LaterComputePrefix(offered, charged, charged + [next], |charged|);
  }

  function Sum(xs: seq<U64>): nat {
    if xs == [] then 0 else Sum(xs[..|xs| - 1]) + xs[|xs| - 1]
  }
}
