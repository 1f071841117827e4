/** The gas of the redeem precompile (crates/arb-precompiles/src/arbretryabletx.rs). */
module Redeem {
  import opened Machine
  import opened Options

  const SLOAD_GAS: nat := 800
  const SSTORE_GAS: nat := 20_000
  const SSTORE_RESET_GAS: nat := 5_000
  const COPY_GAS: nat := 3
  const REDEEM_SCHEDULED_EVENT_COST: nat := 375 + 4 * 375 + 8 * 128
  const PARAMS_SLOAD_GAS: nat := 50
  const MULTI_CONSTRAINT_STATIC_BACKLOG_UPDATE_COST: nat := 20_800

  const ARBOS_VERSION_MULTI_CONSTRAINT_FIX: nat := 51
  const ARBOS_VERSION_MULTI_GAS_CONSTRAINTS: nat := 60

  /** What the pricing state holds: the backlogs of the gas constraints, and the single legacy backlog. */
  datatype Pricing = Pricing(version: nat, constraintBacklogs: seq<U64>, gasBacklog: U64)

  /** The backlogs a redeem updates: one per constraint, else the legacy one; none is looked at from version 60. */
  function UpdatedBacklogs(p: Pricing): seq<U64> {
    if p.version >= ARBOS_VERSION_MULTI_GAS_CONSTRAINTS then []
    else if p.version >= ARBOS_VERSION_MULTI_CONSTRAINT_FIX && |p.constraintBacklogs| > 0 then p.constraintBacklogs
    else [p.gasBacklog]
  }

  /** How many of them a donation drains to zero. */
  function DrainedCount(backlogs: seq<U64>, donation: nat): nat {
    if backlogs == [] then 0
    else DrainedCount(backlogs[..|backlogs| - 1], donation) + (if backlogs[|backlogs| - 1] <= donation then 1 else 0)
  }

  /** The cost of updating one backlog: resetting a slot to zero is cheaper than setting it. */
  function ActualBacklogCost(backlog: U64, donation: U64): nat {
    var newBacklog := SatSub(backlog, donation);
    SLOAD_GAS + (if newBacklog == 0 then SSTORE_RESET_GAS else SSTORE_GAS)
  }

  /** Gas reserved for the backlog updates, and the gas used after charging for reading the constraint count. */
  method ComputeBacklogUpdateCost(p: Pricing, gasUsed: U64) returns (reservation: nat, gasUsed': U64)
    ensures gasUsed' == SatAdd64(gasUsed, CountRead(p))
    ensures reservation == Reservation(p)
  {
    gasUsed' := gasUsed;
    if p.version >= ARBOS_VERSION_MULTI_GAS_CONSTRAINTS {
      return MULTI_CONSTRAINT_STATIC_BACKLOG_UPDATE_COST, gasUsed';
    }
    var result := 0;
    if p.version >= ARBOS_VERSION_50 {
      result := result + SLOAD_GAS;
    }
    if p.version >= ARBOS_VERSION_MULTI_CONSTRAINT_FIX {
      var len := |p.constraintBacklogs|;
      gasUsed' := SatAdd64(gasUsed, SLOAD_GAS);
      if len > 0 {
        result := result + SLOAD_GAS;
        result := result + Min(len * (SLOAD_GAS + SSTORE_GAS), U64_MAX);
        return result, gasUsed';
      }
    }
    result := result + SLOAD_GAS + SSTORE_GAS;
    return result, gasUsed';
  }

  /** What the reservation holds besides the updates themselves: reads of the constraint count, or the static charge. */
  function Overhead(p: Pricing): nat {
    if p.version >= ARBOS_VERSION_MULTI_GAS_CONSTRAINTS then MULTI_CONSTRAINT_STATIC_BACKLOG_UPDATE_COST
    else if p.version >= ARBOS_VERSION_MULTI_CONSTRAINT_FIX && |p.constraintBacklogs| > 0 then 2 * SLOAD_GAS
    else if p.version >= ARBOS_VERSION_50 then SLOAD_GAS
    else 0
  }

  function Reservation(p: Pricing): nat {
    Overhead(p) + Min(|UpdatedBacklogs(p)| * (SLOAD_GAS + SSTORE_GAS), U64_MAX)
  }

  /** Versions 51 to 59 pay for reading how many constraints there are. */
  function CountRead(p: Pricing): nat {
    if ARBOS_VERSION_MULTI_CONSTRAINT_FIX <= p.version < ARBOS_VERSION_MULTI_GAS_CONSTRAINTS then SLOAD_GAS else 0
  }

  /** What the backlog updates really cost: the reservation less 15,000 for every backlog drained to zero. */
  method ComputeActualBacklogCost(p: Pricing, donation: U64) returns (cost: nat)
    ensures cost == Overhead(p) + |UpdatedBacklogs(p)| * (SLOAD_GAS + SSTORE_GAS)
                    - (SSTORE_GAS - SSTORE_RESET_GAS) * DrainedCount(UpdatedBacklogs(p), donation)
  {
    if p.version >= ARBOS_VERSION_MULTI_GAS_CONSTRAINTS {
      return MULTI_CONSTRAINT_STATIC_BACKLOG_UPDATE_COST;
    }
    if p.version >= ARBOS_VERSION_MULTI_CONSTRAINT_FIX {
      var len := |p.constraintBacklogs|;
      if len > 0 {
        var total: nat := 2 * SLOAD_GAS;
        for i := 0 to len
          invariant total == 2 * SLOAD_GAS + i * (SLOAD_GAS + SSTORE_GAS)
                             - (SSTORE_GAS - SSTORE_RESET_GAS) * DrainedCount(p.constraintBacklogs[..i], donation)
        {
          assert p.constraintBacklogs[..i + 1][..i] == p.constraintBacklogs[..i];
          total := total + ActualBacklogCost(p.constraintBacklogs[i], donation);
        }
        assert p.constraintBacklogs[..len] == p.constraintBacklogs;
        return total;
      }
    }
    cost := ActualBacklogCost(p.gasBacklog, donation);
    if p.version >= ARBOS_VERSION_50 {
      cost := cost + SLOAD_GAS;
    }
    assert UpdatedBacklogs(p)[..0] == [];
  }

  lemma {:induction false} DrainedAtMostAll(backlogs: seq<U64>, donation: nat)
    ensures DrainedCount(backlogs, donation) <= |backlogs|
  {
    if backlogs != [] {
      DrainedAtMostAll(backlogs[..|backlogs| - 1], donation);
    }
  }

  datatype Outcome =
    | Reverted(gasUsed: U64)
    | NotFound
    | Redeemed(gasUsed: U64, donation: U64)

  /** A success donates at least the gas of a transaction, and is itself charged for the donation and its event. */
  predicate PaysForDonation(r: Outcome, gasUsedBefore: nat) {
    && r.Redeemed?
    && r.donation >= TX_GAS
    && gasUsedBefore + r.donation + REDEEM_SCHEDULED_EVENT_COST + COPY_GAS <= r.gasUsed
  }

  /** The ticket as the precompile meets it: how big its calldata is when it opens, and what its lookups cost. */
  datatype Ticket = Ticket(current: bool, calldataSize: Option<nat>, openExtra: U64, incrementExtra: U64, found: bool)

  function DivCeil(x: nat, y: nat): nat
    requires y > 0
  {
    (x + y - 1) / y
  }

  /** Everything charged before the backlog reservation is computed. */
  function GasBeforeReservation(t: Ticket, gasUsed: U64): U64 {
    var size := if t.calldataSize.Some? then t.calldataSize.value else 0;
    var afterOpen := SatAdd64(SatAdd64(gasUsed, SLOAD_GAS), t.openExtra);
    var sized := if t.calldataSize.Some? then SatAdd64(afterOpen, SLOAD_GAS) else afterOpen;
    var writeBytes := if t.calldataSize.Some? then DivCeil(6 * 32 + 32 + 32 * DivCeil(size, 32), 32) else 0;
    var read := SatAdd64(sized, Min(PARAMS_SLOAD_GAS * writeBytes, U64_MAX));
    var incremented := SatAdd64(SatAdd64(SatAdd64(read, t.incrementExtra), 2 * SLOAD_GAS), SSTORE_GAS);
    SatAdd64(incremented, Min((5 + size / 32) * SLOAD_GAS, U64_MAX))
  }

  /** What is charged for a ticket that opens, by the size of its calldata, and for one that does not. */
  function TicketCharge(size: Option<nat>): nat {
    match size
    case None => 26_400
    case Some(size) => 27_550 + 50 * DivCeil(size, 32) + 800 * (size / 32)
  }

  /** The charges come to what was used, what the lookups took and the charge by size, as far as a word goes. */
  lemma BeforeReservationAddsUp(t: Ticket, gasUsed: U64)
    ensures GasBeforeReservation(t, gasUsed)
         == Min(gasUsed + t.openExtra + t.incrementExtra + TicketCharge(t.calldataSize), U64_MAX)
  {
    if t.calldataSize.Some? {
      var words := DivCeil(t.calldataSize.value, 32);
      assert DivCeil(6 * 32 + 32 + 32 * words, 32) == 7 + words;
    }
  }

  /** The charge by size: a further word of calldata costs 850 gas, 50 with its first byte and 800 once it is full. */
  lemma CalldataCharge(size: nat)
    ensures TicketCharge(Some(0)) == 27_550
    ensures TicketCharge(Some(size + 32)) == TicketCharge(Some(size)) + 850
    ensures TicketCharge(Some(size + 1))
         == TicketCharge(Some(size)) + (if size % 32 == 0 then 50 else 0) + (if size % 32 == 31 then 800 else 0)
  {
    assert (size + 32 + 31) / 32 == (size + 31) / 32 + 1 && (size + 32) / 32 == size / 32 + 1;
    var w, j := size / 32, size % 32;
    assert size == 32 * w + j;
    assert (size + 31) / 32 == if j == 0 then w else w + 1;
    assert (size + 32) / 32 == w + 1;
    assert (size + 1) / 32 == if j == 31 then w + 1 else w;
  }

  /** What is reserved for the backlogs, version by version, and charged for reading how many there are. */
  lemma ReservationByVersion(p: Pricing)
    ensures CountRead(p) == if 51 <= p.version < 60 then 800 else 0
    ensures
      var updates := |p.constraintBacklogs|;
      20_800 * updates <= U64_MAX ==>
        Reservation(p)
        == (if p.version < 50 || p.version >= 60 then 20_800
            else if p.version == 50 || updates == 0 then 21_600
            else 1_600 + 20_800 * updates)
  {
  }

  /** What a call has to be given to redeem a ticket, besides what it donates. */
  function CostBeforeDonation(t: Ticket, p: Pricing, gasUsed: U64): nat {
    SatAdd64(GasBeforeReservation(t, gasUsed), CountRead(p)) + REDEEM_SCHEDULED_EVENT_COST + COPY_GAS + Reservation(p)
  }

  /** A call needs, beside its donation, the charges above, 2,902 for its event and result, and the reservation. */
  lemma CostAddsUp(t: Ticket, p: Pricing, gasUsed: U64)
    ensures
      var charged := gasUsed + t.openExtra + t.incrementExtra + TicketCharge(t.calldataSize);
      charged + CountRead(p) <= U64_MAX ==>
        CostBeforeDonation(t, p, gasUsed) == charged + CountRead(p) + 2_902 + Reservation(p)
  {
    hide GasBeforeReservation, TicketCharge, CountRead, Reservation;
    BeforeReservationAddsUp(t, gasUsed);
  }

  /** The outcome of redeeming a ticket that is there with enough gas: all that the costs leave is donated, and 15,000 is
      left unspent for every backlog that this drains to zero. */
  function RedeemedWith(t: Ticket, p: Pricing, gasLimit: U64, gasUsed: U64): Outcome
    requires CostBeforeDonation(t, p, gasUsed) + TX_GAS <= gasLimit
  {
    var donation := gasLimit - CostBeforeDonation(t, p, gasUsed);
    DrainedAtMostAll(UpdatedBacklogs(p), donation);
    Redeemed(gasLimit - (SSTORE_GAS - SSTORE_RESET_GAS) * DrainedCount(UpdatedBacklogs(p), donation), donation)
  }

  /** A call of redeem opens the state and reads one word of calldata before the handler runs. */
  const ENTRY_GAS: nat := 3 + 800

  /** A ticket opens for both lookups or for none. */
  predicate Coherent(t: Ticket) {
    t.found <==> t.calldataSize.Some?
  }

  const CHEAPEST := Ticket(false, Some(0), 0, 0, true)

  /** The least any redeem costs before its donation, for a version and a number of constraints. */
  function LeastCost(version: nat, constraints: nat): nat {
    CostBeforeDonation(CHEAPEST, Pricing(version, seq(constraints, _ => 0), 0), ENTRY_GAS)
  }

  /** Lookups, the ticket's own size and one raise of its count, at least. */
  lemma LeastBeforeReservation(t: Ticket, gasUsed: U64)
    requires t.calldataSize.Some? && gasUsed >= ENTRY_GAS
    ensures GasBeforeReservation(t, gasUsed) >= 28_353
    ensures GasBeforeReservation(CHEAPEST, ENTRY_GAS) == 28_353
  {
    var size := t.calldataSize.value;
    var words := DivCeil(size, 32);
    assert DivCeil(6 * 32 + 32 + 32 * words, 32) == 7 + words;
    assert 5 + size / 32 >= 5;
  }

  lemma SameReservation(p: Pricing)
    ensures
      var q := Pricing(p.version, seq(|p.constraintBacklogs|, _ => 0), 0);
      Reservation(p) == Reservation(q) && CountRead(p) == CountRead(q)
  {
    var q := Pricing(p.version, seq(|p.constraintBacklogs|, _ => 0), 0);
    assert |UpdatedBacklogs(p)| == |UpdatedBacklogs(q)|;
  }

  /** A ticket without calldata, opened without extra reads, is the cheapest to redeem. */
  lemma CheapestTicket(t: Ticket, p: Pricing, gasUsed: U64)
    requires Coherent(t) && t.found && gasUsed >= ENTRY_GAS
    ensures CostBeforeDonation(t, p, gasUsed) >= LeastCost(p.version, |p.constraintBacklogs|)
  {
    hide GasBeforeReservation, Reservation, CountRead;
    LeastBeforeReservation(t, gasUsed);
    SameReservation(p);
  }

  lemma OnlyAddsGas(t: Ticket, gasUsed: U64)
    ensures GasBeforeReservation(t, gasUsed) >= gasUsed
  {
  }

  /**
   * Redeems a ticket. A success donates at least the gas of a transaction, is charged for all of it, stays within
   * its limit, and leaves unspent exactly 15,000 for every backlog the donation drains to zero.
   */
  method HandleRedeem(t: Ticket, p: Pricing, gasLimit: U64, gasUsed: U64) returns (r: Outcome)
    ensures r.Redeemed? ==>
              && PaysForDonation(r, gasUsed)
              && r.gasUsed <= gasLimit
              && gasLimit - r.gasUsed
                 == (SSTORE_GAS - SSTORE_RESET_GAS) * DrainedCount(UpdatedBacklogs(p), r.donation)
    ensures r.Redeemed? && p.version >= ARBOS_VERSION_MULTI_GAS_CONSTRAINTS ==> r.gasUsed == gasLimit
    ensures r.Redeemed? <==> !t.current && t.found && CostBeforeDonation(t, p, gasUsed) + TX_GAS <= gasLimit
    ensures r.Redeemed? ==> r == RedeemedWith(t, p, gasLimit, gasUsed)
    ensures r.NotFound? <==> !t.current && !t.found
    ensures t.current ==> r == Reverted(gasUsed)
    ensures r.Reverted? && !t.current ==>
              r.gasUsed == if gasLimit < CostBeforeDonation(t, p, gasUsed) then gasLimit
                           else SatAdd64(GasBeforeReservation(t, gasUsed), CountRead(p))
  {
    hide GasBeforeReservation, CountRead, Overhead;
    OnlyAddsGas(t, gasUsed);
    if t.current {
      return Reverted(gasUsed);
    }
    if !t.found {
      return NotFound;
    }
    var used := GasBeforeReservation(t, gasUsed);
    var reservation;
    reservation, used := ComputeBacklogUpdateCost(p, used);
    var future := REDEEM_SCHEDULED_EVENT_COST + COPY_GAS + reservation;
    var remaining := SatSub(gasLimit, used);
    if remaining < future {
      return Reverted(gasLimit);
    }
    var donation: U64 := remaining - future;
    if donation < TX_GAS {
      return Reverted(used);
    }
    var actual := ComputeActualBacklogCost(p, donation);
    DrainedAtMostAll(UpdatedBacklogs(p), donation);
    used := SatAdd64(used, REDEEM_SCHEDULED_EVENT_COST);
    used := SatAdd64(used, donation);
    used := SatAdd64(used, Min(actual, U64_MAX));
    used := SatAdd64(used, COPY_GAS);
    return Redeemed(Min(used, gasLimit), donation);
  }
}
