/** The loop that runs scheduled redeems until none is left (crates/arb-node/src/producer.rs). */
module ScheduledTxs {
  import opened Machine
  import opened Redeem

  /** What all redeems of a block share: the version and how many constraints there are. */
  datatype Shape = Shape(version: nat, constraints: nat)

  /** A redeem a transaction logged: the ticket and the pricing it met, the gas its call was given and had used when the
      handler began, what came of it, and whether its ticket could be opened to schedule the retry. */
  datatype RedeemLog = RedeemLog(ticket: Redeem.Ticket, pricing: Redeem.Pricing, gasLimit: U64, gasUsed: U64,
                                 outcome: Redeem.Outcome, opens: bool)

  /** The outcome is the one the precompile returns. */
  ghost predicate Genuine(log: RedeemLog, shape: Shape) {
    && log.pricing.version == shape.version && |log.pricing.constraintBacklogs| == shape.constraints
    && Coherent(log.ticket) && !log.ticket.current && log.ticket.found && log.gasUsed >= ENTRY_GAS
    && CostBeforeDonation(log.ticket, log.pricing, log.gasUsed) + TX_GAS <= log.gasLimit
    && log.outcome == RedeemedWith(log.ticket, log.pricing, log.gasLimit, log.gasUsed)
  }

  /** What running a retry comes to: it fails before or without logging, or it pays its intrinsic gas and logs redeems. */
  datatype TxRun = Failed | Ran(intrinsic: nat, redeems: seq<RedeemLog>)

  function ChargedFor(redeems: seq<RedeemLog>): nat {
    if redeems == [] then 0
    else ChargedFor(redeems[..|redeems| - 1])
         + (var last := redeems[|redeems| - 1].outcome; if last.Redeemed? then last.gasUsed else 0)
  }

  /** The facts about the EVM: a transaction that ran paid its intrinsic gas, and the gas each redeem was given came out of
      what was then left. */
  ghost predicate WithinLimit(run: TxRun, gas: nat, shape: Shape) {
    run.Ran? ==>
      && TX_GAS <= run.intrinsic <= gas
      && forall i :: 0 <= i < |run.redeems| ==>
           && Genuine(run.redeems[i], shape)
           && run.intrinsic + ChargedFor(run.redeems[..i]) + run.redeems[i].gasLimit <= gas
  }

  /** A redeem is charged for its donation and its event, within the gas it was given. */
  lemma GenuinePays(log: RedeemLog, shape: Shape)
    requires Genuine(log, shape)
    ensures PaysForDonation(log.outcome, 0) && log.outcome.gasUsed <= log.gasLimit
  {
    hide GasBeforeReservation, CountRead, Overhead;
    DrainedAtMostAll(UpdatedBacklogs(log.pricing), log.outcome.donation);
  }

  /** The gas limits of the retries a run schedules. */
  function Schedules(run: TxRun): seq<nat> {
    if run.Failed? then [] else Donations(run.redeems)
  }

  function Donations(redeems: seq<RedeemLog>): seq<nat> {
    if redeems == [] then []
    else
      var last := redeems[|redeems| - 1];
      Donations(redeems[..|redeems| - 1])
      + (if last.opens && last.outcome.Redeemed? then [last.outcome.donation] else [])
  }

  /** Every redeem that succeeded and whose ticket opens schedules its donation, in order, and no other does. */
  lemma {:induction false} ScheduledInOrder(redeems: seq<RedeemLog>, i: nat)
    requires i < |redeems|
    ensures
      var before, log := Donations(redeems[..i]), redeems[i];
      before + (if log.opens && log.outcome.Redeemed? then [log.outcome.donation] else []) <= Donations(redeems)
    ensures Donations(redeems[..0]) == []
    decreases |redeems|
  {
    if i == |redeems| - 1 {
      assert redeems[..i + 1] == redeems;
    } else {
      ScheduledInOrder(redeems[..|redeems| - 1], i);
      assert redeems[..|redeems| - 1][..i] == redeems[..i];
    }
  }

  function TotalGas(gases: seq<nat>): nat {
    if gases == [] then 0 else TotalGas(gases[..|gases| - 1]) + gases[|gases| - 1]
  }

  /** What a run schedules carries strictly less gas than it was given: the donations come out of its own gas. */
  lemma {:induction false} DonationsArePaidFor(redeems: seq<RedeemLog>)
    requires forall i :: 0 <= i < |redeems| ==> PaysForDonation(redeems[i].outcome, 0)
    ensures TotalGas(Donations(redeems)) <= ChargedFor(redeems)
  {
    if redeems != [] {
      var front := redeems[..|redeems| - 1];
      DonationsArePaidFor(front);
      assert (Donations(front) + [redeems[|redeems| - 1].outcome.donation])[..|Donations(front)|] == Donations(front);
      assert Donations(front) + [] == Donations(front);
    }
  }

  lemma RunPays(run: TxRun, gas: nat, shape: Shape)
    requires WithinLimit(run, gas, shape)
    ensures run.Ran? ==> TX_GAS + TotalGas(Schedules(run)) <= gas
    ensures run.Failed? ==> Schedules(run) == []
  {
    hide Genuine;
    if run.Ran? {
      forall i | 0 <= i < |run.redeems|
        ensures PaysForDonation(run.redeems[i].outcome, 0) && run.redeems[i].outcome.gasUsed <= run.redeems[i].gasLimit
      {
        GenuinePays(run.redeems[i], shape);
      }
      DonationsArePaidFor(run.redeems);
    }
  }

  /** How many runs got as far as paying their intrinsic gas. */
  function RanIn(runs: seq<TxRun>): nat {
    if runs == [] then 0 else RanIn(runs[..|runs| - 1]) + (if runs[|runs| - 1].Ran? then 1 else 0)
  }

  /** One round: every queued retry was run, in order, and the next queue is what the last of them scheduled. */
  ghost predicate Round(queue: seq<nat>, evm: (nat, nat) -> TxRun, clock: nat, runs: seq<TxRun>, next: seq<nat>) {
    && queue != []
    && |runs| == |queue|
    && (forall i :: 0 <= i < |queue| ==> runs[i] == evm(clock + i, queue[i]))
    && next == Schedules(runs[|runs| - 1])
  }

  lemma OneMoreRun(runs: seq<TxRun>, run: TxRun)
    ensures RanIn(runs + [run]) == RanIn(runs) + (if run.Ran? then 1 else 0)
  {
    assert (runs + [run])[..|runs|] == runs;
  }

  /**
   * Runs one drained batch. Every execution clears the buffer of scheduled transactions first, so what the batch
   * leaves in it is what its last transaction scheduled.
   */
  method RunBatch(batch: seq<nat>, evm: (nat, nat) -> TxRun, clock: nat, ghost shape: Shape)
    returns (buffer: seq<nat>, ran: nat, runs: seq<TxRun>)
    requires forall k: nat, gas: nat :: WithinLimit(evm(k, gas), gas, shape)
    requires batch != []
    ensures Round(batch, evm, clock, runs, buffer)
    ensures ran == RanIn(runs)
    ensures ran * TX_GAS + TotalGas(buffer) <= TotalGas(batch)
    ensures buffer != [] ==> TotalGas(buffer) + TX_GAS <= TotalGas(batch)
  {
    hide WithinLimit, Schedules, RanIn;
    assert RanIn([]) == 0 by {
      NoRuns();
    }
    buffer, ran, runs := [], 0, [];
    for i := 0 to |batch|
      invariant |runs| == i && forall j :: 0 <= j < i ==> runs[j] == evm(clock + j, batch[j])
      invariant buffer == if i == 0 then [] else Schedules(runs[i - 1])
      invariant ran == RanIn(runs)
      invariant ran * TX_GAS + TotalGas(buffer) <= TotalGas(batch[..i])
      invariant buffer != [] ==> TotalGas(buffer) + TX_GAS <= TotalGas(batch[..i])
    {
      var run := evm(clock + i, batch[i]);
      RunPays(run, batch[i], shape);
      assert batch[..i + 1][..i] == batch[..i];
      OneMoreRun(runs, run);
      runs := runs + [run];
      buffer := Schedules(run);
      if run.Ran? {
        ran := ran + 1;
      }
    }
    assert batch[..|batch|] == batch;
  }

  /** How many transactions some queues hold. */
  ghost function Queued(queues: seq<seq<nat>>): nat {
    if queues == [] then 0 else Queued(queues[..|queues| - 1]) + |queues[|queues| - 1]|
  }

  /** How many of the runs of all rounds got as far as paying their intrinsic gas. */
  ghost function RanInAll(rounds: seq<seq<TxRun>>): nat {
    if rounds == [] then 0 else RanInAll(rounds[..|rounds| - 1]) + RanIn(rounds[|rounds| - 1])
  }

  ghost predicate Rounds(queues: seq<seq<nat>>, evm: (nat, nat) -> TxRun, trace: seq<seq<TxRun>>) {
    && |queues| == |trace| + 1
    && forall k :: 0 <= k < |trace| ==> Round(queues[k], evm, Queued(queues[..k]), trace[k], queues[k + 1])
  }

  lemma OneMoreRound(queues: seq<seq<nat>>, evm: (nat, nat) -> TxRun, trace: seq<seq<TxRun>>, runs: seq<TxRun>,
                     next: seq<nat>)
    requires Rounds(queues, evm, trace) && Round(queues[|trace|], evm, Queued(queues[..|trace|]), runs, next)
    ensures Rounds(queues + [next], evm, trace + [runs])
    ensures RanInAll(trace + [runs]) == RanInAll(trace) + RanIn(runs)
    ensures Queued((queues + [next])[..|trace| + 1]) == Queued(queues[..|trace|]) + |queues[|trace|]|
  {
    hide Round, RanIn;
    var qs, ts := queues + [next], trace + [runs];
    assert ts[..|trace|] == trace && qs[..|trace| + 1] == queues;
    forall k | 0 <= k < |ts|
      ensures Round(qs[k], evm, Queued(qs[..k]), ts[k], qs[k + 1])
    {
      assert qs[..k] == queues[..k];
    }
  }

  lemma NoRuns()
    ensures RanIn([]) == 0
  {
  }

  /**
   * The rounds run every queued retry until a round schedules nothing. The loop ends, because the gas in the queue shrinks
   * every round, and it never runs more retries than the initial gas pays for at 21,000 each.
   */
  method DrainScheduled(initial: seq<nat>, evm: (nat, nat) -> TxRun, ghost shape: Shape)
    returns (ran: nat, rounds: nat, ghost queues: seq<seq<nat>>, ghost trace: seq<seq<TxRun>>)
    requires forall k: nat, gas: nat :: WithinLimit(evm(k, gas), gas, shape)
    ensures Rounds(queues, evm, trace) && |trace| == rounds
    ensures queues[0] == initial && queues[rounds] == []
    ensures ran == RanInAll(trace)
    ensures ran * TX_GAS <= TotalGas(initial)
    ensures rounds * TX_GAS <= TotalGas(initial) + TX_GAS
  {
    var scheduled := initial;
    var clock: nat := 0;
    ran, rounds := 0, 0;
    queues, trace := [initial], [];
    assert queues[..0] == [];
    assert TotalGas([]) == 0;
    hide WithinLimit, Schedules, RanIn, RanInAll, Round, Queued, TotalGas;
    while scheduled != []
      invariant Rounds(queues, evm, trace) && |trace| == rounds
      invariant queues[0] == initial && queues[rounds] == scheduled
      invariant clock == Queued(queues[..rounds])
      invariant ran == RanInAll(trace)
      invariant ran * TX_GAS + TotalGas(scheduled) <= TotalGas(initial)
      invariant scheduled != [] ==> rounds * TX_GAS + TotalGas(scheduled) <= TotalGas(initial)
      invariant rounds * TX_GAS <= TotalGas(initial) + TX_GAS
      decreases if scheduled == [] then 0 else 1 + TotalGas(scheduled)
    {
      var buffer, batchRan, runs := RunBatch(scheduled, evm, clock, shape);
      OneMoreRound(queues, evm, trace, runs, buffer);
      queues, trace := queues + [buffer], trace + [runs];
      clock := clock + |scheduled|;
      ran := ran + batchRan;
      rounds := rounds + 1;
      scheduled := buffer;
    }
  }

  // ----- what a batch loses -----

  function AllSchedules(runs: seq<TxRun>): seq<nat> {
    if runs == [] then [] else AllSchedules(runs[..|runs| - 1]) + Schedules(runs[|runs| - 1])
  }

  lemma {:induction false} NothingScheduled(runs: seq<TxRun>)
    ensures AllSchedules(runs) == [] <==> forall i :: 0 <= i < |runs| ==> Schedules(runs[i]) == []
  {
    if runs != [] {
      NothingScheduled(runs[..|runs| - 1]);
      var front := runs[..|runs| - 1];
      assert forall i :: 0 <= i < |front| ==> front[i] == runs[i];
    }
  }

  /** A batch keeps every retry its transactions schedule exactly when none but its last schedules any. */
  lemma BatchKeepsAll(runs: seq<TxRun>)
    requires runs != []
    ensures Schedules(runs[|runs| - 1]) == AllSchedules(runs)
       <==> forall i :: 0 <= i < |runs| - 1 ==> Schedules(runs[i]) == []
  {
    var front := runs[..|runs| - 1];
    NothingScheduled(front);
    assert forall i :: 0 <= i < |front| ==> front[i] == runs[i];
    if AllSchedules(front) == [] {
      assert AllSchedules(front) + Schedules(runs[|runs| - 1]) == Schedules(runs[|runs| - 1]);
    } else {
      assert |AllSchedules(runs)| > |Schedules(runs[|runs| - 1])|;
    }
  }

  /** The runs a batch of retries with these gas limits and intrinsic costs may come to. */
  ghost predicate Possible(runs: seq<TxRun>, batch: seq<nat>, intrinsics: seq<nat>, shape: Shape)
    requires |batch| == |intrinsics|
  {
    && |runs| == |batch|
    && forall i :: 0 <= i < |runs| ==>
         WithinLimit(runs[i], batch[i], shape) && (runs[i].Ran? ==> runs[i].intrinsic == intrinsics[i])
  }

  /** A retry with this gas and intrinsic cost can pay for the cheapest redeem and its least donation. */
  predicate CanSchedule(gas: nat, intrinsic: nat, shape: Shape) {
    var call := LeastCost(shape.version, shape.constraints) + TX_GAS;
    call <= U64_MAX && intrinsic + call <= gas
  }

  lemma SchedulingNeedsGas(run: TxRun, gas: nat, shape: Shape)
    requires WithinLimit(run, gas, shape)
    ensures Schedules(run) != [] ==> CanSchedule(gas, run.intrinsic, shape)
  {
    hide CostBeforeDonation, LeastCost;
    if run.Ran? && run.redeems != [] {
      var log := run.redeems[0];
      assert Genuine(log, shape) && run.redeems[..0] == [];
      CheapestTicket(log.ticket, log.pricing, log.gasUsed);
    }
  }

  /** The cheapest redeem, given just enough gas. */
  function CheapestLog(shape: Shape): RedeemLog
    requires LeastCost(shape.version, shape.constraints) + TX_GAS <= U64_MAX
  {
    var p := Pricing(shape.version, seq(shape.constraints, _ => 0), 0);
    var gasLimit := LeastCost(shape.version, shape.constraints) + TX_GAS;
    RedeemLog(CHEAPEST, p, gasLimit, ENTRY_GAS, RedeemedWith(CHEAPEST, p, gasLimit, ENTRY_GAS), true)
  }

  lemma CheapestRunPossible(gas: nat, intrinsic: nat, shape: Shape)
    requires TX_GAS <= intrinsic && CanSchedule(gas, intrinsic, shape)
    ensures WithinLimit(Ran(intrinsic, [CheapestLog(shape)]), gas, shape)
    ensures Schedules(Ran(intrinsic, [CheapestLog(shape)])) != []
  {
    hide GasBeforeReservation, CountRead, Reservation;
    var redeems := [CheapestLog(shape)];
    assert redeems[..0] == [];
    assert Donations(redeems) == Donations([]) + [redeems[0].outcome.donation];
  }

  /** A batch is sure to keep every retry its transactions schedule exactly when none but its last has the gas for the
      cheapest redeem and its donation: a batch of one always is. */
  lemma BatchIsSureToKeepAll(batch: seq<nat>, intrinsics: seq<nat>, shape: Shape)
    requires batch != [] && |batch| == |intrinsics|
    requires forall i :: 0 <= i < |batch| ==> intrinsics[i] >= TX_GAS
    ensures (forall runs :: Possible(runs, batch, intrinsics, shape) ==> Schedules(runs[|runs| - 1]) == AllSchedules(runs))
       <==> forall i :: 0 <= i < |batch| - 1 ==> !CanSchedule(batch[i], intrinsics[i], shape)
  {
    hide WithinLimit, Schedules, AllSchedules, CanSchedule;
    if i :| 0 <= i < |batch| - 1 && CanSchedule(batch[i], intrinsics[i], shape) {
      CanMeansFits(batch[i], intrinsics[i], shape);
      var run := Ran(intrinsics[i], [CheapestLog(shape)]);
      var runs := seq(|batch|, k => if k == i then run else Failed);
      CheapestRunPossible(batch[i], intrinsics[i], shape);
      forall k | 0 <= k < |runs|
        ensures WithinLimit(runs[k], batch[k], shape)
      {
        FailedIsPossible(batch[k], shape);
      }
      assert runs[i] == run;
      BatchKeepsAll(runs);
      assert Possible(runs, batch, intrinsics, shape);
    } else {
      forall runs | Possible(runs, batch, intrinsics, shape)
        ensures Schedules(runs[|runs| - 1]) == AllSchedules(runs)
      {
        forall i | 0 <= i < |runs| - 1
          ensures Schedules(runs[i]) == []
        {
          FailedIsPossible(batch[i], shape);
          SchedulingNeedsGas(runs[i], batch[i], shape);
        }
        BatchKeepsAll(runs);
      }
    }
  }

  lemma CanMeansFits(gas: nat, intrinsic: nat, shape: Shape)
    requires CanSchedule(gas, intrinsic, shape)
    ensures LeastCost(shape.version, shape.constraints) + TX_GAS <= U64_MAX
  {
  }

  lemma FailedIsPossible(gas: nat, shape: Shape)
    ensures WithinLimit(Failed, gas, shape) && Schedules(Failed) == []
  {
  }

  /** Two retries in a batch, the first of which calls the precompile itself and schedules another: that one is lost. */
  method LostRetryExample() returns (buffer: seq<nat>, runs: seq<TxRun>)
    ensures |runs| == 2 && Schedules(runs[0]) != [] && buffer == []
  {
    hide WithinLimit, Schedules, GasBeforeReservation, Reservation, CountRead;
    ghost var shape := Shape(20, 0);
    LeastBeforeReservation(CHEAPEST, ENTRY_GAS);
    var pricing := Pricing(20, [], 0);
    assert seq(0, _ => 0) == pricing.constraintBacklogs;
    var gasLimit := LeastCost(20, 0) + TX_GAS;
    EarlyReservation(pricing);
    var outcome := HandleRedeem(CHEAPEST, pricing, gasLimit, ENTRY_GAS);
    var log := RedeemLog(CHEAPEST, pricing, gasLimit, ENTRY_GAS, outcome, true);
    assert log == CheapestLog(shape);
    var intrinsic := TX_GAS + 36 * 16;
    var evm := (k: nat, gas: nat) => if k == 0 && gas >= intrinsic + gasLimit then Ran(intrinsic, [log]) else Failed;
    forall k: nat, gas: nat
      ensures WithinLimit(evm(k, gas), gas, shape)
    {
      FailedIsPossible(gas, shape);
      if k == 0 && gas >= intrinsic + gasLimit {
        CheapestRunPossible(gas, intrinsic, shape);
      }
    }
    var b, _, rs := RunBatch([intrinsic + gasLimit, TX_GAS], evm, 0, shape);
    buffer, runs := b, rs;
    CheapestRunPossible(intrinsic + gasLimit, intrinsic, shape);
    FailedIsPossible(0, shape);
  }

  lemma EarlyReservation(p: Pricing)
    requires p.version < ARBOS_VERSION_50
    ensures Reservation(p) == SLOAD_GAS + SSTORE_GAS && CountRead(p) == 0
  {
  }
}
