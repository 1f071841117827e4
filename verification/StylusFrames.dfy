/** The bracketing of page counters, active actors, frame depth and journal checkpoints over trees of Stylus and EVM
    calls, and what the journal keeps of them (crates/arb-evm/src/evm.rs, crates/arb-context/src/lib.rs,
    crates/arb-stylus/src/env.rs). */
module StylusFrames {
  import opened Machine
  import opened Accounts

  // ----- call trees: what every frame does, in order -----

  /** How a call is made. A static call is plain here, since what it forbids its callee is the callee's own doing; EVM
      code's CALLCODE reaches the trampoline as a plain call. */
  datatype Scheme = Plain | Delegate | CallCode

  /** Calls that run as their caller push no actor. */
  predicate PushesActor(scheme: Scheme) {
    scheme == Plain
  }

  /** What the journal records. */
  datatype Entry =
    | Changed(id: nat)
    | Transferred(value: nat)
    | NonceBumped
    | Created(address: Address)
    | CodeSet(address: Address)

  datatype Call =
    | Call(scheme: Scheme, target: Address, value: nat, transferOk: bool, callee: Callee)
    | Create(created: Address, creation: Creation)

  datatype Callee =
    | Precompile(entries: seq<Entry>, ok: bool)
    | DispatchFails(entries: seq<Entry>)
    | DispatchedProgram(program: Program)
    | CodeUnavailable
    | NoCode
    | Stylus(program: Program)
    | Evm(ops: seq<Op>, ok: bool)

  datatype Creation =
    | Underfunded
    | NonceStuck
    | Blocked
    | Init(ops: seq<Op>, ok: bool, deployment: Deployment)

  /** What becomes of the code that creation code returns. */
  datatype Deployment = Deployed | TooLarge | ReservedPrefix | CannotPay

  /** What EVM code does. */
  datatype Op = Write(entry: Entry) | Nested(call: Call)

  /** A Stylus program entered: refused before it gets pages, out of gas for its entry cost, failing while it is set up,
      or run through some steps to success or failure. */
  datatype Program =
    | Refused
    | OutOfGas(gas: U64)
    | SetupFails(footprint: U16)
    | Runs(footprint: U16, steps: seq<Step>, ok: bool)

  datatype Step = AddPages(pages: U16) | Store(entry: Entry) | Sub(call: Call)

  // ----- what is kept of a call -----

  predicate ProgramSucceeds(p: Program) {
    p.Runs? && p.ok
  }

  /** No value is to be moved, or it can be. */
  predicate Transfers(c: Call)
    requires c.Call?
  {
    c.scheme == Delegate || c.value == 0 || c.transferOk
  }

  predicate CallSucceeds(c: Call) {
    match c
    case Create(_, creation) => creation.Init? && creation.ok && creation.deployment == Deployed
    case Call(_, _, _, _, callee) =>
      Transfers(c) && CalleeSucceeds(callee)
  }

  predicate CalleeSucceeds(callee: Callee) {
    match callee
    case Precompile(_, ok) => ok
    case DispatchedProgram(program) => ProgramSucceeds(program)
    case NoCode => true
    case Stylus(program) => ProgramSucceeds(program)
    case Evm(_, ok) => ok
    case _ => false
  }

  /** Nothing of a failed call is kept, and everything a successful one did or kept of its own calls. Only the creator's
      nonce survives a failed creation. */
  function CallKept(c: Call): seq<Entry>
    decreases c
  {
    match c
    case Create(created, creation) =>
      if creation.Underfunded? || creation.NonceStuck? then []
      else [NonceBumped] + if CallSucceeds(c) then [Created(created)] + OpsKept(creation.ops) + [CodeSet(created)] else []
    case Call(scheme, _, value, _, callee) =>
      if !CallSucceeds(c) then []
      else (if scheme != Delegate && value != 0 then [Transferred(value)] else []) + CalleeKept(callee)
  }

  function CalleeKept(callee: Callee): seq<Entry>
    decreases callee
  {
    match callee
    case Precompile(entries, _) => entries
    case DispatchedProgram(program) => ProgramKept(program)
    case Stylus(program) => ProgramKept(program)
    case Evm(ops, _) => OpsKept(ops)
    case _ => []
  }

  function OpsKept(ops: seq<Op>): seq<Entry>
    decreases ops
  {
    if ops == [] then [] else OpKept(ops[0]) + OpsKept(ops[1..])
  }

  function OpKept(op: Op): seq<Entry>
    decreases op
  {
    if op.Write? then [op.entry] else CallKept(op.call)
  }

  /** What a program leaves in the journal, for its caller to keep or take back. */
  function ProgramKept(p: Program): seq<Entry>
    decreases p
  {
    if p.Runs? then StepsKept(p.steps) else []
  }

  function StepsKept(steps: seq<Step>): seq<Entry>
    decreases steps
  {
    if steps == [] then [] else StepKept(steps[0]) + StepsKept(steps[1..])
  }

  function StepKept(s: Step): seq<Entry>
    decreases s
  {
    match s
    case AddPages(_) => []
    case Store(entry) => [entry]
    case Sub(call) => CallKept(call)
  }

  /** What fails leaves nothing behind but the nonce of a creator. */
  lemma FailedKeepsNothing(c: Call)
    requires !CallSucceeds(c)
    ensures CallKept(c) == [] || (c.Create? && CallKept(c) == [NonceBumped])
  {
  }

  /** What steps leave is what each of them leaves, in order. */
  lemma {:induction false} KeptInOrder(steps: seq<Step>, i: nat)
    requires i < |steps|
    ensures StepsKept(steps) == StepsKept(steps[..i]) + StepKept(steps[i]) + StepsKept(steps[i + 1..])
    decreases i
  {
    if i == 0 {
      assert steps[..0] == [];
    } else {
      KeptInOrder(steps[1..], i - 1);
      assert steps[1..][..i - 1] == steps[..i][1..] && steps[1..][i..] == steps[i + 1..];
    }
  }

  /** And so for what EVM code does. */
  lemma {:induction false} OpsKeptInOrder(ops: seq<Op>, i: nat)
    requires i < |ops|
    ensures OpsKept(ops) == OpsKept(ops[..i]) + OpKept(ops[i]) + OpsKept(ops[i + 1..])
    decreases i
  {
    if i == 0 {
      assert ops[..0] == [];
    } else {
      OpsKeptInOrder(ops[1..], i - 1);
      assert ops[1..][..i - 1] == ops[..i][1..] && ops[1..][i..] == ops[i + 1..];
    }
  }

  // ----- the most pages open at once -----

  function SatAdd16(x: U16, y: U16): U16 {
    if x + y <= U16_MAX then x + y else U16_MAX
  }

  function ProgramPeak(p: Program, open: U16): (peak: U16)
    ensures peak >= open
    decreases p
  {
    match p
    case Refused => open
    case OutOfGas(_) => open
    case SetupFails(footprint) => SatAdd16(open, footprint)
    case Runs(footprint, steps, _) => StepsPeak(steps, SatAdd16(open, footprint))
  }

  function StepsPeak(steps: seq<Step>, open: U16): (peak: U16)
    ensures peak >= open
    decreases steps
  {
    if steps == [] then open
    else Max(StepPeak(steps[0], open), StepsPeak(steps[1..], OpenAfter(steps[0], open)))
  }

  function OpenAfter(s: Step, open: U16): U16 {
    if s.AddPages? then SatAdd16(open, s.pages) else open
  }

  function StepPeak(s: Step, open: U16): (peak: U16)
    ensures peak >= open
    decreases s
  {
    match s
    case AddPages(pages) => SatAdd16(open, pages)
    case Store(_) => open
    case Sub(call) => CallPeak(call, open)
  }

  function CallPeak(c: Call, open: U16): (peak: U16)
    ensures peak >= open
    decreases c
  {
    match c
    case Call(_, _, _, _, callee) =>
      if Transfers(c) then CalleePeak(callee, open) else open
    case Create(_, Init(ops, _, _)) => OpsPeak(ops, open)
    case _ => open
  }

  function CalleePeak(callee: Callee, open: U16): (peak: U16)
    ensures peak >= open
    decreases callee
  {
    match callee
    case DispatchedProgram(program) => ProgramPeak(program, open)
    case Stylus(program) => ProgramPeak(program, open)
    case Evm(ops, _) => OpsPeak(ops, open)
    case _ => open
  }

  function OpsPeak(ops: seq<Op>, open: U16): (peak: U16)
    ensures peak >= open
    decreases ops
  {
    if ops == [] then open else Max(OpPeak(ops[0], open), OpsPeak(ops[1..], open))
  }

  function OpPeak(op: Op, open: U16): (peak: U16)
    ensures peak >= open
    decreases op
  {
    if op.Write? then open else CallPeak(op.call, open)
  }

  /** The pages that steps ask for, whatever their calls do. */
  function PagesAsked(steps: seq<Step>): nat {
    if steps == [] then 0
    else PagesAsked(steps[..|steps| - 1]) + (var s := steps[|steps| - 1]; if s.AddPages? then s.pages else 0)
  }

  /** The pages open before step `i`, or after the last one. */
  function OpenAt(steps: seq<Step>, open: U16, i: nat): U16
    requires i <= |steps|
  {
    Min(open + PagesAsked(steps[..i]), U16_MAX)
  }

  lemma {:induction false} PagesAskedFirst(steps: seq<Step>)
    requires steps != []
    ensures PagesAsked(steps) == PagesAsked(steps[1..]) + (if steps[0].AddPages? then steps[0].pages else 0)
  {
    if |steps| > 1 {
      var init := steps[..|steps| - 1];
      PagesAskedFirst(init);
      assert steps[1..][..|steps| - 2] == init[1..];
    } else {
      assert steps[..0] == [] == steps[1..];
    }
  }

  lemma OpenAtNext(steps: seq<Step>, open: U16, i: nat)
    requires 0 < i <= |steps|
    ensures OpenAt(steps, open, i) == OpenAt(steps[1..], OpenAfter(steps[0], open), i - 1)
  {
    PagesAskedFirst(steps[..i]);
    assert steps[..i][1..] == steps[1..][..i - 1];
  }

  /** The call that step `i` makes, from the pages open before it. */
  function CallPeakAt(steps: seq<Step>, open: U16, i: nat): U16
    requires i < |steps| && steps[i].Sub?
  {
    CallPeak(steps[i].call, OpenAt(steps, open, i))
  }

  /** Requested pages stay open: the peak of some steps is at least that of every call they make, each on top of what was
      asked for before it, and at least what is open in the end. */
  lemma {:induction false} StepsPeakCovers(steps: seq<Step>, open: U16)
    ensures StepsPeak(steps, open) >= OpenAt(steps, open, |steps|)
    ensures forall i :: 0 <= i < |steps| && steps[i].Sub? ==> StepsPeak(steps, open) >= CallPeakAt(steps, open, i)
    decreases |steps|
  {
    assert steps[..0] == [];
    if steps != [] {
      var rest, next := steps[1..], OpenAfter(steps[0], open);
      StepsPeakCovers(rest, next);
      OpenAtNext(steps, open, |steps|);
      forall i | 0 <= i < |steps| && steps[i].Sub?
        ensures StepsPeak(steps, open) >= CallPeakAt(steps, open, i)
      {
        if i > 0 {
          OpenAtNext(steps, open, i);
          assert rest[i - 1] == steps[i];
          assert CallPeakAt(rest, next, i - 1) == CallPeakAt(steps, open, i);
        }
      }
    }
  }

  /** And it is one of those. */
  lemma {:induction false} StepsPeakReached(steps: seq<Step>, open: U16)
    ensures
      || StepsPeak(steps, open) == OpenAt(steps, open, |steps|)
      || exists i :: 0 <= i < |steps| && steps[i].Sub? && StepsPeak(steps, open) == CallPeakAt(steps, open, i)
    decreases |steps|
  {
    assert steps[..0] == [];
    if steps != [] {
      var rest, next := steps[1..], OpenAfter(steps[0], open);
      StepsPeakReached(rest, next);
      OpenAtNext(steps, open, |steps|);
      if StepsPeak(steps, open) == StepsPeak(rest, next) {
        if StepsPeak(rest, next) != OpenAt(rest, next, |rest|) {
          var i :| 0 <= i < |rest| && rest[i].Sub? && StepsPeak(rest, next) == CallPeakAt(rest, next, i);
          OpenAtNext(steps, open, i + 1);
          assert steps[i + 1] == rest[i];
          assert CallPeakAt(steps, open, i + 1) == CallPeakAt(rest, next, i);
        }
      } else if steps[0].Sub? {
        assert CallPeakAt(steps, open, 0) == CallPeak(steps[0].call, open);
      }
    }
  }

  /** Without calls the peak is what was open and everything asked for, as far as the counter goes. */
  lemma StepsPeakOfRequests(steps: seq<Step>, open: U16)
    requires forall i :: 0 <= i < |steps| ==> !steps[i].Sub?
    ensures StepsPeak(steps, open) == Min(open + PagesAsked(steps), U16_MAX)
  {
    StepsPeakReached(steps, open);
    assert steps[..|steps|] == steps;
  }

  /** A program that is called stacks its own pages on those of its caller. */
  lemma CalleeStacks(scheme: Scheme, target: Address, value: nat, footprint: U16, steps: seq<Step>, ok: bool, open: U16)
    ensures
      var entered := Min(open + footprint, U16_MAX);
      && CallPeak(Call(scheme, target, value, true, Stylus(Runs(footprint, steps, ok))), open) == StepsPeak(steps, entered)
      && StepsPeak(steps, entered) >= Min(open + footprint + PagesAsked(steps), U16_MAX)
  {
    var program, entered := Runs(footprint, steps, ok), Min(open + footprint, U16_MAX);
    assert CalleePeak(Stylus(program), open) == ProgramPeak(program, open) == StepsPeak(steps, entered);
    StepsPeakCovers(steps, entered);
    assert steps[..|steps|] == steps;
  }

  /** Calls made from EVM code all start from the pages open on entry, which is where each leaves them. */
  lemma {:induction false} OpsPeakCovers(ops: seq<Op>, open: U16)
    ensures forall i :: 0 <= i < |ops| && ops[i].Nested? ==> OpsPeak(ops, open) >= CallPeak(ops[i].call, open)
    ensures
      || OpsPeak(ops, open) == open
      || exists i :: 0 <= i < |ops| && ops[i].Nested? && OpsPeak(ops, open) == CallPeak(ops[i].call, open)
    decreases |ops|
  {
    if ops != [] {
      var rest := ops[1..];
      OpsPeakCovers(rest, open);
      forall i | 0 <= i < |ops| && ops[i].Nested?
        ensures OpsPeak(ops, open) >= CallPeak(ops[i].call, open)
      {
        assert i > 0 ==> rest[i - 1] == ops[i];
      }
      if OpsPeak(ops, open) == OpsPeak(rest, open) {
        if OpsPeak(rest, open) != open {
          var i :| 0 <= i < |rest| && rest[i].Nested? && OpsPeak(rest, open) == CallPeak(rest[i].call, open);
          assert ops[i + 1] == rest[i];
        }
      } else {
        assert OpsPeak(ops, open) == OpPeak(ops[0], open) > open;
      }
    }
  }

  /** More pages open on entry never make for a lower peak. */
  lemma {:induction false} ProgramPeakMonotone(p: Program, lower: U16, higher: U16)
    requires lower <= higher
    ensures ProgramPeak(p, lower) <= ProgramPeak(p, higher)
    decreases p
  {
    if p.Runs? {
      StepsPeakMonotone(p.steps, SatAdd16(lower, p.footprint), SatAdd16(higher, p.footprint));
    }
  }

  lemma {:induction false} StepsPeakMonotone(steps: seq<Step>, lower: U16, higher: U16)
    requires lower <= higher
    ensures StepsPeak(steps, lower) <= StepsPeak(steps, higher)
    decreases steps
  {
    if steps != [] {
      StepPeakMonotone(steps[0], lower, higher);
      StepsPeakMonotone(steps[1..], OpenAfter(steps[0], lower), OpenAfter(steps[0], higher));
    }
  }

  lemma {:induction false} StepPeakMonotone(s: Step, lower: U16, higher: U16)
    requires lower <= higher
    ensures StepPeak(s, lower) <= StepPeak(s, higher)
    decreases s
  {
    if s.Sub? {
      CallPeakMonotone(s.call, lower, higher);
    }
  }

  lemma {:induction false} CallPeakMonotone(c: Call, lower: U16, higher: U16)
    requires lower <= higher
    ensures CallPeak(c, lower) <= CallPeak(c, higher)
    decreases c
  {
    match c
    case Call(_, _, _, _, DispatchedProgram(program)) => ProgramPeakMonotone(program, lower, higher);
    case Call(_, _, _, _, Stylus(program)) => ProgramPeakMonotone(program, lower, higher);
    case Call(_, _, _, _, Evm(ops, _)) => OpsPeakMonotone(ops, lower, higher);
    case Create(_, Init(ops, _, _)) => OpsPeakMonotone(ops, lower, higher);
    case _ =>
  }

  lemma {:induction false} OpsPeakMonotone(ops: seq<Op>, lower: U16, higher: U16)
    requires lower <= higher
    ensures OpsPeak(ops, lower) <= OpsPeak(ops, higher)
    decreases ops
  {
    if ops != [] {
      OpPeakMonotone(ops[0], lower, higher);
      OpsPeakMonotone(ops[1..], lower, higher);
    }
  }

  lemma {:induction false} OpPeakMonotone(op: Op, lower: U16, higher: U16)
    requires lower <= higher
    ensures OpPeak(op, lower) <= OpPeak(op, higher)
    decreases op
  {
    if op.Nested? {
      CallPeakMonotone(op.call, lower, higher);
    }
  }

  // ----- who is re-entered -----

  /** The actors inside a call. */
  ghost function Inside(c: Call, active: multiset<Address>): multiset<Address> {
    match c
    case Call(scheme, target, _, _, _) => if PushesActor(scheme) then active + multiset{target} else active
    case Create(created, _) => active + multiset{created}
  }

  /** The re-entrance flags of all programs entered, in order: set exactly when the target is active twice. */
  ghost function ProgramFlags(p: Program, target: Address, active: multiset<Address>): seq<bool>
    decreases p
  {
    match p
    case Refused => []
    case OutOfGas(_) => []
    case SetupFails(_) => [active[target] >= 2]
    case Runs(_, steps, _) => [active[target] >= 2] + StepsFlags(steps, active)
  }

  ghost function StepsFlags(steps: seq<Step>, active: multiset<Address>): seq<bool>
    decreases steps
  {
    if steps == [] then [] else StepFlags(steps[0], active) + StepsFlags(steps[1..], active)
  }

  ghost function StepFlags(s: Step, active: multiset<Address>): seq<bool>
    decreases s
  {
    if s.Sub? then CallFlags(s.call, active) else []
  }

  ghost function CallFlags(c: Call, active: multiset<Address>): seq<bool>
    decreases c
  {
    match c
    case Call(_, target, _, _, callee) =>
      if Transfers(c) then CalleeFlags(callee, target, Inside(c, active)) else []
    case Create(_, Init(ops, _, _)) => OpsFlags(ops, Inside(c, active))
    case _ => []
  }

  ghost function CalleeFlags(callee: Callee, target: Address, active: multiset<Address>): seq<bool>
    decreases callee
  {
    match callee
    case DispatchedProgram(program) => ProgramFlags(program, target, active)
    case Stylus(program) => ProgramFlags(program, target, active)
    case Evm(ops, _) => OpsFlags(ops, active)
    case _ => []
  }

  ghost function OpsFlags(ops: seq<Op>, active: multiset<Address>): seq<bool>
    decreases ops
  {
    if ops == [] then [] else OpFlags(ops[0], active) + OpsFlags(ops[1..], active)
  }

  ghost function OpFlags(op: Op, active: multiset<Address>): seq<bool>
    decreases op
  {
    if op.Write? then [] else CallFlags(op.call, active)
  }

  /** A program that is called is told of re-entrance exactly when its address was active before a plain call, or twice
      when it runs as its caller. */
  lemma ReentryFlag(c: Call, program: Program, active: multiset<Address>)
    requires c.Call? && Transfers(c) && (c.callee == Stylus(program) || c.callee == DispatchedProgram(program))
    requires program.SetupFails? || program.Runs?
    ensures
      var flags := CallFlags(c, active);
      flags != [] && (flags[0] <==> if c.scheme == Plain then c.target in active else active[c.target] >= 2)
  {
    assert CallFlags(c, active) == ProgramFlags(program, c.target, Inside(c, active));
  }

  // ----- the transaction context -----

  datatype Pages = Pages(open: U16, ever: U16)

  /** `counts` holds exactly the multiplicities of the active actors. */
  ghost predicate Counts(counts: map<Address, nat>, active: multiset<Address>) {
    && (forall a: Address :: a in counts <==> a in active)
    && (forall a: Address :: a in counts ==> counts[a] == active[a])
  }

  lemma CountsAreUnique(x: map<Address, nat>, y: map<Address, nat>, active: multiset<Address>)
    requires Counts(x, active) && Counts(y, active)
    ensures x == y
  {
  }

  class TxCtx {
    var pagesOpen: U16
    var pagesEver: U16
    var counts: map<Address, nat>
    var frameDepth: nat
    var upfrontOogGas: U64
    /** The journal and how many checkpoints of it are open. */
    var journal: seq<Entry>
    var depth: nat
    /** What the programs entered so far were told about re-entrance. */
    ghost var flags: seq<bool>

    constructor ()
      ensures pagesOpen == 0 && pagesEver == 0 && counts == map[] && frameDepth == 0 && upfrontOogGas == 0
      ensures journal == [] && depth == 0 && flags == [] && Counts(counts, multiset{})
    {
      pagesOpen, pagesEver, counts, frameDepth, upfrontOogGas := 0, 0, map[], 0, 0;
      journal, depth, flags := [], 0, [];
    }

    /** Adds an actor; true when it was active already. */
    method PushProgram(a: Address, ghost active: multiset<Address>) returns (reentrant: bool)
      requires Counts(counts, active)
      modifies this`counts
      ensures Counts(counts, active + multiset{a})
      ensures reentrant <==> a in active
    {
      counts := counts[a := (if a in counts then counts[a] else 0) + 1];
      return counts[a] > 1;
    }

    method PopProgram(a: Address, ghost active: multiset<Address>)
      requires Counts(counts, active + multiset{a})
      modifies this`counts
      ensures Counts(counts, active)
    {
      if a in counts {
        counts := counts[a := if counts[a] > 0 then counts[a] - 1 else 0];
        if counts[a] == 0 {
          counts := counts - {a};
        }
      }
    }

    function ProgramCount(a: Address): nat
      reads this`counts
    {
      if a in counts then counts[a] else 0
    }

    function ReadPages(): Pages
      reads this`pagesOpen, this`pagesEver
    {
      Pages(pagesOpen, pagesEver)
    }

    method WritePages(p: Pages)
      modifies this`pagesOpen, this`pagesEver
      ensures ReadPages() == p
    {
      pagesOpen, pagesEver := p.open, p.ever;
    }

    /** Opens a checkpoint at the journal's present length. */
    method Checkpoint() returns (at: nat)
      modifies this`depth
      ensures depth == old(depth) + 1 && at == |journal|
    {
      depth := depth + 1;
      return |journal|;
    }

    method CheckpointCommit()
      requires depth > 0
      modifies this`depth
      ensures depth == old(depth) - 1
    {
      depth := depth - 1;
    }

    /** Takes back everything recorded since the checkpoint. */
    method CheckpointRevert(at: nat)
      requires depth > 0 && at <= |journal|
      modifies this`depth, this`journal
      ensures depth == old(depth) - 1 && journal == old(journal)[..at]
    {
      depth := depth - 1;
      journal := journal[..at];
    }

    method CheckpointClose(ok: bool, at: nat)
      requires depth > 0 && at <= |journal|
      modifies this`depth, this`journal
      ensures depth == old(depth) - 1 && journal == if ok then old(journal) else old(journal)[..at]
    {
      if ok {
        CheckpointCommit();
      } else {
        CheckpointRevert(at);
      }
    }

    /** Runs one Stylus program to whatever end. Open pages, actors, frame depth and checkpoints are as before, the
        high-water mark is the most pages that were open at once, and the program is told that it is re-entered
        exactly when its address is active twice. */
    method ExecuteProgram(p: Program, target: Address, ghost active: multiset<Address>) returns (ok: bool)
      requires Counts(counts, active) && pagesOpen <= pagesEver
      modifies this
      ensures ok == ProgramSucceeds(p)
      ensures pagesOpen == old(pagesOpen)
      ensures pagesEver == Max(old(pagesEver), ProgramPeak(p, old(pagesOpen)))
      ensures counts == old(counts) && frameDepth == old(frameDepth) && depth == old(depth)
      ensures upfrontOogGas ==
        if p.OutOfGas? && old(frameDepth) == 0 then SatAdd64(old(upfrontOogGas), p.gas) else old(upfrontOogGas)
      ensures flags == old(flags) + ProgramFlags(p, target, active)
      ensures journal == old(journal) + ProgramKept(p)
      decreases p
    {
      frameDepth := frameDepth + 1;
      var parent := ReadPages();
      if p.Refused? {
        frameDepth := frameDepth - 1;
        return false;
      }
      if p.OutOfGas? {
        if frameDepth == 1 {
          upfrontOogGas := SatAdd64(upfrontOogGas, p.gas);
        }
        frameDepth := frameDepth - 1;
        return false;
      }
      var reentrant := ProgramCount(target) > 1;
      flags := flags + [reentrant];
      var startOpen := SatAdd16(parent.open, p.footprint);
      var startEver := Max(parent.ever, startOpen);
      if p.SetupFails? {
        WritePages(Pages(parent.open, startEver));
        frameDepth := frameDepth - 1;
        return false;
      }
      WritePages(Pages(startOpen, startEver));
      var env := RunMain(p.steps, Pages(startOpen, startEver), active);
      WritePages(Pages(parent.open, Max(env.ever, startEver)));
      frameDepth := frameDepth - 1;
      return p.ok;
    }

    /** The program's own steps. It counts pages for itself and hands them to each call it makes and back. */
    method RunMain(steps: seq<Step>, start: Pages, ghost active: multiset<Address>) returns (env: Pages)
      requires Counts(counts, active) && start.open <= start.ever && frameDepth > 0
      modifies this
      ensures env.ever == Max(start.ever, StepsPeak(steps, start.open))
      ensures counts == old(counts) && frameDepth == old(frameDepth) && depth == old(depth)
      ensures upfrontOogGas == old(upfrontOogGas)
      ensures flags == old(flags) + StepsFlags(steps, active)
      ensures journal == old(journal) + StepsKept(steps)
      decreases steps
    {
      hide StepFlags, StepKept, Counts;
      env := start;
      for i := 0 to |steps|
        invariant env.open <= env.ever
        invariant Max(env.ever, StepsPeak(steps[i..], env.open)) == Max(start.ever, StepsPeak(steps, start.open))
        invariant counts == old(counts) && frameDepth == old(frameDepth) && depth == old(depth)
        invariant upfrontOogGas == old(upfrontOogGas)
        invariant flags + StepsFlags(steps[i..], active) == old(flags) + StepsFlags(steps, active)
        invariant journal + StepsKept(steps[i..]) == old(journal) + StepsKept(steps)
      {
        assert steps[i..][0] == steps[i] && steps[i..][1..] == steps[i + 1..];
        env := RunStep(steps[i], env, active);
      }
    }

    method RunStep(s: Step, env: Pages, ghost active: multiset<Address>) returns (after: Pages)
      requires Counts(counts, active) && env.open <= env.ever && frameDepth > 0
      modifies this
      ensures after == Pages(OpenAfter(s, env.open), Max(env.ever, StepPeak(s, env.open)))
      ensures counts == old(counts) && frameDepth == old(frameDepth) && depth == old(depth)
      ensures upfrontOogGas == old(upfrontOogGas)
      ensures flags == old(flags) + StepFlags(s, active)
      ensures journal == old(journal) + StepKept(s)
      decreases s
    {
      match s {
        case AddPages(pages) =>
          var open := SatAdd16(env.open, pages);
          after := Pages(open, Max(env.ever, open));
        case Store(entry) =>
          journal := journal + [entry];
          after := env;
        case Sub(call) =>
          var _, pages := Trampoline(call, env, active);
          after := pages;
      }
    }

    /** A call or creation made by a program or by EVM code it called. */
    method Trampoline(c: Call, parent: Pages, ghost active: multiset<Address>) returns (ok: bool, pages: Pages)
      requires Counts(counts, active) && parent.open <= parent.ever && frameDepth > 0
      modifies this
      ensures ok == CallSucceeds(c)
      ensures pages == ReadPages() == Pages(parent.open, Max(parent.ever, CallPeak(c, parent.open)))
      ensures counts == old(counts) && frameDepth == old(frameDepth) && depth == old(depth)
      ensures upfrontOogGas == old(upfrontOogGas)
      ensures flags == old(flags) + CallFlags(c, active)
      ensures journal == old(journal) + CallKept(c)
      decreases c, 2
    {
      if c.Call? {
        ok, pages := CallTrampoline(c, parent, active);
      } else {
        ok, pages := CreateTrampoline(c, parent, active);
      }
    }

    method CallTrampoline(c: Call, parent: Pages, ghost active: multiset<Address>) returns (ok: bool, pages: Pages)
      requires c.Call?
      requires Counts(counts, active) && parent.open <= parent.ever && frameDepth > 0
      modifies this
      ensures ok == CallSucceeds(c)
      ensures pages == ReadPages() == Pages(parent.open, Max(parent.ever, CallPeak(c, parent.open)))
      ensures counts == old(counts) && frameDepth == old(frameDepth) && depth == old(depth)
      ensures upfrontOogGas == old(upfrontOogGas)
      ensures flags == old(flags) + CallFlags(c, active)
      ensures journal == old(journal) + CallKept(c)
      decreases c, 1
    {
      WritePages(parent);
      var pushed := PushesActor(c.scheme);
      ghost var inside := if pushed then active + multiset{c.target} else active;
      if pushed {
        var _ := PushProgram(c.target, active);
      }
      ok, pages := CallInside(c, inside);
      if pushed {
        PopProgram(c.target, active);
        CountsAreUnique(counts, old(counts), active);
      }
    }

    /** The call proper, with its target among the actors: opens a checkpoint and moves the value. */
    method CallInside(c: Call, ghost inside: multiset<Address>) returns (ok: bool, pages: Pages)
      requires c.Call?
      requires Counts(counts, inside) && pagesOpen <= pagesEver && frameDepth > 0
      modifies this
      ensures ok == CallSucceeds(c)
      ensures pages == ReadPages() == Pages(old(pagesOpen), Max(old(pagesEver), CallPeak(c, old(pagesOpen))))
      ensures counts == old(counts) && frameDepth == old(frameDepth) && depth == old(depth)
      ensures upfrontOogGas == old(upfrontOogGas)
      ensures flags == old(flags) + if Transfers(c) then CalleeFlags(c.callee, c.target, inside) else []
      ensures journal == old(journal) + CallKept(c)
      decreases c, 0
    {
      hide Counts, CalleePeak, CalleeKept, CalleeFlags, CalleeSucceeds;
      var checkpoint := Checkpoint();
      if c.scheme != Delegate && c.value != 0 {
        if !c.transferOk {
          CheckpointRevert(checkpoint);
          return false, ReadPages();
        }
        journal := journal + [Transferred(c.value)];
      }
      ok := RunCallee(c.callee, c.target, checkpoint, inside);
      pages := ReadPages();
    }

    /** Whatever the callee turns out to be, the checkpoint is closed on the way out. */
    method RunCallee(callee: Callee, target: Address, checkpoint: nat, ghost inside: multiset<Address>)
        returns (ok: bool)
      requires Counts(counts, inside) && pagesOpen <= pagesEver && frameDepth > 0
      requires depth > 0 && checkpoint <= |journal|
      modifies this
      ensures ok == CalleeSucceeds(callee)
      ensures ReadPages() == Pages(old(pagesOpen), Max(old(pagesEver), CalleePeak(callee, old(pagesOpen))))
      ensures counts == old(counts) && frameDepth == old(frameDepth) && depth == old(depth) - 1
      ensures upfrontOogGas == old(upfrontOogGas)
      ensures flags == old(flags) + CalleeFlags(callee, target, inside)
      ensures journal ==
        if CalleeSucceeds(callee) then old(journal) + CalleeKept(callee) else old(journal)[..checkpoint]
      decreases callee
    {
      hide Counts, ProgramPeak, OpsPeak, ProgramKept, OpsKept, ProgramFlags, OpsFlags, ProgramSucceeds;
      ok := false;
      match callee {
        case Precompile(entries, succeeds) =>
          journal := journal + entries;
          ok := succeeds;
          CheckpointClose(ok, checkpoint);
        case DispatchFails(entries) =>
          journal := journal + entries;
          CheckpointRevert(checkpoint);
        case DispatchedProgram(program) =>
          ok := ExecuteProgram(program, target, inside);
          CheckpointClose(ok, checkpoint);
        case CodeUnavailable =>
          CheckpointRevert(checkpoint);
        case NoCode =>
          ok := true;
          CheckpointCommit();
        case Stylus(program) =>
          ok := ExecuteProgram(program, target, inside);
          CheckpointClose(ok, checkpoint);
        case Evm(ops, succeeds) =>
          RunEvm(ops, inside);
          ok := succeeds;
          CheckpointClose(ok, checkpoint);
      }
    }

    method CreateTrampoline(c: Call, parent: Pages, ghost active: multiset<Address>) returns (ok: bool, pages: Pages)
      requires c.Create?
      requires Counts(counts, active) && parent.open <= parent.ever && frameDepth > 0
      modifies this
      ensures ok == CallSucceeds(c)
      ensures pages == ReadPages() == Pages(parent.open, Max(parent.ever, CallPeak(c, parent.open)))
      ensures counts == old(counts) && frameDepth == old(frameDepth) && depth == old(depth)
      ensures upfrontOogGas == old(upfrontOogGas)
      ensures flags == old(flags) + CallFlags(c, active)
      ensures journal == old(journal) + CallKept(c)
      decreases c, 1
    {
      WritePages(parent);
      if c.creation.Underfunded? {
        return false, ReadPages();
      }
      var _ := PushProgram(c.created, active);
      ok, pages := CreateInside(c, active + multiset{c.created});
      PopProgram(c.created, active);
      CountsAreUnique(counts, old(counts), active);
    }

    /** The creation proper, with the new account among the actors. Its checkpoint is opened after the creator's nonce
        has been bumped. */
    method CreateInside(c: Call, ghost inside: multiset<Address>) returns (ok: bool, pages: Pages)
      requires c.Create? && !c.creation.Underfunded?
      requires Counts(counts, inside) && pagesOpen <= pagesEver && frameDepth > 0
      modifies this
      ensures ok == CallSucceeds(c)
      ensures pages == ReadPages() == Pages(old(pagesOpen), Max(old(pagesEver), CallPeak(c, old(pagesOpen))))
      ensures counts == old(counts) && frameDepth == old(frameDepth) && depth == old(depth)
      ensures upfrontOogGas == old(upfrontOogGas)
      ensures flags == old(flags) + if c.creation.Init? then OpsFlags(c.creation.ops, inside) else []
      ensures journal == old(journal) + CallKept(c)
      decreases c, 0
    {
      hide Counts, OpsPeak, OpsKept;
      if c.creation.NonceStuck? {
        return false, ReadPages();
      }
      journal := journal + [NonceBumped];
      if c.creation.Blocked? {
        return false, ReadPages();
      }
      var checkpoint := Checkpoint();
      journal := journal + [Created(c.created)];
      RunEvm(c.creation.ops, inside);
      ok, pages := false, ReadPages();
      if c.creation.ok {
        match c.creation.deployment {
          case TooLarge => CheckpointRevert(checkpoint);
          case ReservedPrefix => CheckpointRevert(checkpoint);
          case CannotPay => CheckpointRevert(checkpoint);
          case Deployed =>
            journal := journal + [CodeSet(c.created)];
            CheckpointCommit();
            ok := true;
        }
      } else {
        CheckpointRevert(checkpoint);
      }
    }

    /** EVM code called by a program: its own calls and creations go through the trampolines. */
    method RunEvm(ops: seq<Op>, ghost active: multiset<Address>)
      requires Counts(counts, active) && pagesOpen <= pagesEver && frameDepth > 0
      modifies this
      ensures ReadPages() == Pages(old(pagesOpen), Max(old(pagesEver), OpsPeak(ops, old(pagesOpen))))
      ensures counts == old(counts) && frameDepth == old(frameDepth) && depth == old(depth)
      ensures upfrontOogGas == old(upfrontOogGas)
      ensures flags == old(flags) + OpsFlags(ops, active)
      ensures journal == old(journal) + OpsKept(ops)
      decreases ops
    {
      hide OpPeak, OpFlags, OpKept, Counts;
      for i := 0 to |ops|
        invariant pagesOpen == old(pagesOpen) <= pagesEver
        invariant Max(pagesEver, OpsPeak(ops[i..], pagesOpen)) == Max(old(pagesEver), OpsPeak(ops, old(pagesOpen)))
        invariant counts == old(counts) && frameDepth == old(frameDepth) && depth == old(depth)
        invariant upfrontOogGas == old(upfrontOogGas)
        invariant flags + OpsFlags(ops[i..], active) == old(flags) + OpsFlags(ops, active)
        invariant journal + OpsKept(ops[i..]) == old(journal) + OpsKept(ops)
      {
        assert ops[i..][0] == ops[i] && ops[i..][1..] == ops[i + 1..];
        RunOp(ops[i], active);
      }
    }

    method RunOp(op: Op, ghost active: multiset<Address>)
      requires Counts(counts, active) && pagesOpen <= pagesEver && frameDepth > 0
      modifies this
      ensures ReadPages() == Pages(old(pagesOpen), Max(old(pagesEver), OpPeak(op, old(pagesOpen))))
      ensures counts == old(counts) && frameDepth == old(frameDepth) && depth == old(depth)
      ensures upfrontOogGas == old(upfrontOogGas)
      ensures flags == old(flags) + OpFlags(op, active)
      ensures journal == old(journal) + OpKept(op)
      decreases op
    {
      hide CallPeak, CallFlags, CallKept, Counts;
      match op {
        case Write(entry) =>
          journal := journal + [entry];
        case Nested(call) =>
          var parent := ReadPages();
          var _, pages := Trampoline(call, parent, active);
          WritePages(pages);
      }
    }
  }
}
