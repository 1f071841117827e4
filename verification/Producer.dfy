/** The block producer's in-memory chain, its background flushes and its caches
    (crates/arb-node/src/producer.rs and the persistence thread of crates/arb-node/src/launcher.rs). */
module Producer {
  import opened Machine
  import opened Options
  import opened Coalesced

  /** What one block hands on: its storage bundle, its hashed post-state and its trie node updates. */
  datatype Content = Content(hash: nat, bundle: Bundle, state: map<nat, nat>, nodes: map<nat, nat>)

  datatype Block = Block(number: nat, content: Content)

  // ----- trie inputs: newer entries win -----

  datatype TrieInput = TrieInput(state: map<nat, nat>, nodes: map<nat, nat>)

  const NO_INPUT := TrieInput(map[], map[])

  function Extended(older: TrieInput, newer: TrieInput): TrieInput {
    TrieInput(older.state + newer.state, older.nodes + newer.nodes)
  }

  function InputOf(c: Content): TrieInput {
    TrieInput(c.state, c.nodes)
  }

  /** The state and trie nodes left by a chain, oldest block first. */
  function Merged(blocks: seq<Block>): TrieInput {
    if blocks == [] then NO_INPUT
    else Extended(Merged(blocks[..|blocks| - 1]), InputOf(blocks[|blocks| - 1].content))
  }

  /** The value of a key after all of `maps`, in order: that of the newest that has it. */
  ghost predicate NewestWins(merged: map<nat, nat>, maps: seq<map<nat, nat>>, key: nat) {
    if key in merged then
      exists i :: 0 <= i < |maps| && key in maps[i] && merged[key] == maps[i][key]
                  && forall j :: i < j < |maps| ==> key !in maps[j]
    else forall i :: 0 <= i < |maps| ==> key !in maps[i]
  }

  lemma NewestOverlays(merged: map<nat, nat>, maps: seq<map<nat, nat>>, newest: map<nat, nat>, key: nat)
    requires NewestWins(merged, maps, key)
    ensures NewestWins(merged + newest, maps + [newest], key)
  {
    var all := maps + [newest];
    if key in newest {
      assert key in all[|maps|];
    } else if key in merged {
      var i :| 0 <= i < |maps| && key in maps[i] && merged[key] == maps[i][key]
               && forall j :: i < j < |maps| ==> key !in maps[j];
      assert all[i] == maps[i];
    }
  }

  function StatesOf(blocks: seq<Block>): seq<map<nat, nat>> {
    seq(|blocks|, i requires 0 <= i < |blocks| => blocks[i].content.state)
  }

  function NodesOf(blocks: seq<Block>): seq<map<nat, nat>> {
    seq(|blocks|, i requires 0 <= i < |blocks| => blocks[i].content.nodes)
  }

  /** Every account and every trie node is the one of the newest block that changed it. */
  lemma {:induction false} MergedNewestWins(blocks: seq<Block>, key: nat)
    ensures NewestWins(Merged(blocks).state, StatesOf(blocks), key)
    ensures NewestWins(Merged(blocks).nodes, NodesOf(blocks), key)
  {
    hide NewestWins;
    if blocks == [] {
      NothingMerged(key);
      assert StatesOf(blocks) == [] == NodesOf(blocks);
    } else {
      var init, last := blocks[..|blocks| - 1], blocks[|blocks| - 1].content;
      MergedNewestWins(init, key);
      NewestOverlays(Merged(init).state, StatesOf(init), last.state, key);
      NewestOverlays(Merged(init).nodes, NodesOf(init), last.nodes, key);
      assert StatesOf(blocks) == StatesOf(init) + [last.state];
      assert NodesOf(blocks) == NodesOf(init) + [last.nodes];
    }
  }

  lemma NothingMerged(key: nat)
    ensures NewestWins(map[], [], key)
  {
  }

  lemma MapsAssociative(x: map<nat, nat>, y: map<nat, nat>, z: map<nat, nat>)
    ensures (x + y) + z == x + (y + z)
  {
  }

  lemma ExtendedAssociative(x: TrieInput, y: TrieInput, z: TrieInput)
    ensures Extended(Extended(x, y), z) == Extended(x, Extended(y, z))
  {
    MapsAssociative(x.state, y.state, z.state);
    MapsAssociative(x.nodes, y.nodes, z.nodes);
  }

  lemma ExtendedRepeats(x: TrieInput, y: TrieInput)
    ensures Extended(Extended(x, y), y) == Extended(x, y)
    ensures Extended(x, NO_INPUT) == x
  {
    assert (x.state + y.state) + y.state == x.state + y.state;
    assert (x.nodes + y.nodes) + y.nodes == x.nodes + y.nodes;
    assert x.state + map[] == x.state;
    assert x.nodes + map[] == x.nodes;
  }

  lemma MergedNothing(blocks: seq<Block>)
    ensures Merged(blocks[|blocks|..]) == NO_INPUT
  {
  }

  lemma MergedOneMore(blocks: seq<Block>, b: Block)
    ensures Merged(blocks + [b]) == Extended(Merged(blocks), InputOf(b.content))
  {
    assert (blocks + [b])[..|blocks|] == blocks;
  }

  lemma MergedOne(b: Block)
    ensures Merged([b]) == InputOf(b.content)
  {
    assert [b][..0] == [];
    assert map[] + b.content.state == b.content.state && map[] + b.content.nodes == b.content.nodes;
  }

  lemma {:induction false} MergedConcat(xs: seq<Block>, ys: seq<Block>)
    ensures Merged(xs + ys) == Extended(Merged(xs), Merged(ys))
  {
    hide Extended;
    if ys == [] {
      assert xs + ys == xs;
      ExtendedRepeats(Merged(xs), NO_INPUT);
    } else {
      var init := ys[..|ys| - 1];
      MergedConcat(xs, init);
      assert (xs + ys)[..|xs + ys| - 1] == xs + init;
      ExtendedAssociative(Merged(xs), Merged(init), InputOf(ys[|ys| - 1].content));
    }
  }

  /** Laying a suffix over any prefix that reaches it gives the whole, however much the two overlap. */
  lemma OverlapMerges(blocks: seq<Block>, stored: nat, from: nat)
    requires from <= stored <= |blocks|
    ensures Extended(Merged(blocks[..stored]), Merged(blocks[from..])) == Merged(blocks)
  {
    hide Extended, Merged;
    var below, twice, rest := blocks[..from], blocks[from..stored], blocks[stored..];
    assert blocks[..stored] == below + twice;
    assert blocks[from..] == twice + rest;
    assert blocks == blocks[..stored] + rest;
    MergedConcat(below, twice);
    MergedConcat(twice, rest);
    MergedConcat(blocks[..stored], rest);
    ExtendedAssociative(Merged(blocks[..stored]), Merged(twice), Merged(rest));
    ExtendedRepeats(Merged(below), Merged(twice));
  }

  // ----- the persistence thread -----

  datatype NumHash = NumHash(number: nat, hash: nat)

  function IdOf(b: Block): NumHash {
    NumHash(b.number, b.content.hash)
  }

  datatype Request = Flush(blocks: seq<Block>) | Unwind(target: nat)

  datatype FlushResult = FlushResult(last: NumHash, count: nat)

  /** Blocks are numbered from one, without holes. */
  ghost predicate Numbered(blocks: seq<Block>) {
    forall i :: 0 <= i < |blocks| ==> blocks[i].number == i + 1
  }

  /** Blocks are written at their numbers. */
  function Saved(disk: seq<Block>, blocks: seq<Block>): seq<Block> {
    if blocks == [] then disk
    else
      var below := if blocks[0].number == 0 then 0 else blocks[0].number - 1;
      (if below <= |disk| then disk[..below] else disk) + blocks
      + (if below + |blocks| <= |disk| then disk[below + |blocks|..] else [])
  }

  function Unwound(disk: seq<Block>, target: nat): seq<Block> {
    if target <= |disk| then disk[..target] else disk
  }

  class Persistence {
    var disk: seq<Block>
    var requests: seq<Request>
    var result: Option<FlushResult>

    constructor (blocks: seq<Block>)
      ensures disk == blocks && requests == [] && result == None
    {
      disk, requests, result := blocks, [], None;
    }

    /** Serves the oldest request. The result channel holds one entry, so it must be free when a flush ends. */
    method Serve(ok: bool)
      requires requests != []
      requires requests[0].Flush? ==> requests[0].blocks != [] && result.None?
      modifies this
      ensures requests == old(requests)[1..]
      ensures !ok ==> disk == old(disk)
      ensures old(requests)[0].Flush? ==> var blocks := old(requests)[0].blocks;
        && result == Some(FlushResult(IdOf(blocks[|blocks| - 1]), if ok then |blocks| else 0))
        && (ok ==> disk == Saved(old(disk), blocks))
      ensures old(requests)[0].Unwind? ==>
        result == old(result) && (ok ==> disk == Unwound(old(disk), old(requests)[0].target))
    {
      match requests[0] {
        case Flush(blocks) =>
          if ok {
            disk := Saved(disk, blocks);
          }
          result := Some(FlushResult(IdOf(blocks[|blocks| - 1]), if ok then |blocks| else 0));
        case Unwind(target) =>
          if ok {
            disk := Unwound(disk, target);
          }
      }
      requests := requests[1..];
    }
  }

  // ----- the in-memory chain -----

  predicate Holds(chain: seq<Block>, id: NumHash) {
    exists i :: 0 <= i < |chain| && chain[i].content.hash == id.hash
  }

  /** Drops every block up to the persisted one, or nothing when that block is not in memory. */
  function WithoutPersisted(chain: seq<Block>, id: NumHash): seq<Block> {
    if Holds(chain, id) then Above(chain, id.number) else chain
  }

  function Above(chain: seq<Block>, number: nat): (r: seq<Block>)
    ensures |r| <= |chain| && r == chain[|chain| - |r|..]
  {
    if chain != [] && chain[0].number <= number then Above(chain[1..], number) else chain
  }

  function UpTo(chain: seq<Block>, number: nat): (r: seq<Block>)
    ensures r <= chain
  {
    if chain != [] && chain[|chain| - 1].number > number then UpTo(chain[..|chain| - 1], number) else chain
  }

  ghost predicate Consecutive(chain: seq<Block>) {
    forall i :: 0 <= i < |chain| ==> chain[i].number == chain[0].number + i
  }

  lemma {:induction false} AboveIsSuffix(chain: seq<Block>, k: nat)
    requires Consecutive(chain) && 1 <= k <= |chain|
    ensures Above(chain, chain[k - 1].number) == chain[k..]
  {
    if k > 1 {
      AboveIsSuffix(chain[1..], k - 1);
      assert chain[1..][k - 1..] == chain[k..];
    } else {
      assert |chain| > 1 ==> chain[1..][0].number > chain[0].number;
    }
  }

  lemma {:induction false} UpToIsPrefix(chain: seq<Block>, target: nat)
    requires Consecutive(chain) && chain != []
    ensures |UpTo(chain, target)|
         == if target < chain[0].number then 0 else Min(target - chain[0].number + 1, |chain|)
    decreases |chain|
  {
    if chain[|chain| - 1].number > target && |chain| > 1 {
      UpToIsPrefix(chain[..|chain| - 1], target);
    }
  }

  function Bundles(chain: seq<Block>): seq<Bundle> {
    seq(|chain|, i requires 0 <= i < |chain| => chain[i].content.bundle)
  }

  lemma {:induction false} WalkConcat(xs: seq<Bundle>, ys: seq<Bundle>, a: nat, slot: nat)
    ensures Walk(xs + ys, a, slot) == OrElse(Walk(ys, a, slot), Walk(xs, a, slot))
  {
    if ys == [] {
      assert xs + ys == xs;
    } else {
      var init := ys[..|ys| - 1];
      WalkConcat(xs, init, a, slot);
      assert (xs + ys)[..|xs + ys| - 1] == xs + init;
    }
  }

  /** Reading the in-memory chain and then the disk reads the whole history, however much the two overlap. */
  lemma ReadsCanonical(blocks: seq<Block>, stored: nat, from: nat, a: nat, slot: nat)
    requires from <= stored <= |blocks|
    ensures OrElse(Walk(Bundles(blocks[from..]), a, slot), Walk(Bundles(blocks[..stored]), a, slot))
         == Walk(Bundles(blocks), a, slot)
  {
    var below, twice, rest := Bundles(blocks[..from]), Bundles(blocks[from..stored]), Bundles(blocks[stored..]);
    assert Bundles(blocks[from..]) == twice + rest;
    assert Bundles(blocks[..stored]) == below + twice;
    assert Bundles(blocks) == below + twice + rest;
    WalkConcat(twice, rest, a, slot);
    WalkConcat(below, twice, a, slot);
    WalkConcat(below + twice, rest, a, slot);
  }

  // ----- the producer -----

  ghost predicate DistinctHashes(blocks: seq<Block>) {
    forall i, j :: 0 <= i < j < |blocks| ==> blocks[i].content.hash != blocks[j].content.hash
  }

  ghost predicate IsSuffix(chain: seq<Block>, blocks: seq<Block>) {
    |chain| <= |blocks| && chain == blocks[|blocks| - |chain|..]
  }

  /** Saving blocks of the history keeps the disk a prefix of it. */
  lemma SavedIsPrefix(blocks: seq<Block>, stored: nat, from: nat, to: nat)
    requires Numbered(blocks)
    requires from < to <= |blocks| && from <= stored <= |blocks|
    ensures Saved(blocks[..stored], blocks[from..to]) == blocks[..if stored < to then to else stored]
  {
    var saved := Saved(blocks[..stored], blocks[from..to]);
    assert blocks[from..to][0].number == from + 1;
    assert blocks[..stored][..from] == blocks[..from];
    assert to <= stored ==> blocks[..stored][to..] == blocks[to..stored];
  }

  /** After a flush and an unwind the disk is a prefix of the history that stops at the target. */
  lemma FlushedAndUnwound(blocks: seq<Block>, stored: nat, from: nat, to: nat, target: nat)
    requires Numbered(blocks)
    requires from <= to <= |blocks| && from <= stored <= |blocks| && target <= |blocks|
    ensures Unwound(blocks[..stored], target) == blocks[..target][..if stored < target then stored else target]
    ensures from < to ==>
        (var reach := if stored < to then to else stored;
         Unwound(Saved(blocks[..stored], blocks[from..to]), target)
         == blocks[..target][..if reach < target then reach else target])
  {
    if from < to {
      SavedIsPrefix(blocks, stored, from, to);
    }
  }

  /** Removing the persisted blocks removes exactly the flushed ones, and none when their last was rolled back. */
  lemma FlushedGo(blocks: seq<Block>, chain: seq<Block>, k: nat, last: NumHash)
    requires Numbered(blocks) && IsSuffix(chain, blocks)
    requires k <= |chain|
    requires if k > 0 then last == IdOf(chain[k - 1]) else !Holds(chain, last)
    ensures WithoutPersisted(chain, last) == chain[k..] && IsSuffix(chain[k..], blocks)
  {
    if k > 0 {
      assert chain[k - 1].content.hash == last.hash;
      AboveIsSuffix(chain, k);
    }
  }

  lemma Appended(blocks: seq<Block>, chain: seq<Block>, b: Block)
    requires Numbered(blocks) && DistinctHashes(blocks) && IsSuffix(chain, blocks)
    requires b.number == |blocks| + 1 && forall x :: x in blocks ==> x.content.hash != b.content.hash
    ensures Numbered(blocks + [b]) && DistinctHashes(blocks + [b]) && IsSuffix(chain + [b], blocks + [b])
  {
  }

  lemma AppendedSlices(blocks: seq<Block>, b: Block, i: nat, j: nat)
    requires i <= j <= |blocks|
    ensures (blocks + [b])[i..j] == blocks[i..j]
    ensures (blocks + [b])[i..] == blocks[i..] + [b]
    ensures (blocks + [b])[..j] == blocks[..j]
  {
  }

  /** Rolling the chain back keeps its blocks up to the target; no later block's hash is left in memory. */
  lemma RolledBack(blocks: seq<Block>, chain: seq<Block>, target: nat)
    requires Numbered(blocks) && DistinctHashes(blocks) && IsSuffix(chain, blocks) && target < |blocks|
    ensures Numbered(blocks[..target]) && DistinctHashes(blocks[..target])
    ensures IsSuffix(UpTo(chain, target), blocks[..target])
    ensures |UpTo(chain, target)| == if |blocks| - |chain| <= target then target - (|blocks| - |chain|) else 0
    ensures forall i :: target <= i < |blocks| ==> !Holds(UpTo(chain, target), IdOf(blocks[i]))
  {
    if chain != [] {
      assert chain[0].number == |blocks| - |chain| + 1;
      UpToIsPrefix(chain, target);
    }
  }

  /** A disk's history overlaid by an input is the state after `blocks` and the nodes after `parents`. */
  ghost predicate RootInputRight(input: TrieInput, disk: seq<Block>, blocks: seq<Block>, parents: seq<Block>) {
    && Merged(disk).state + input.state == Merged(blocks).state
    && Merged(disk).nodes + input.nodes == Merged(parents).nodes
  }

  /** Storage read through an overlay and then the disk is the storage after `parents`. */
  ghost predicate ReadsRight(overlay: Overlay, disk: seq<Block>, parents: seq<Block>) {
    forall a: nat, slot: nat ::
      OrElse(Lookup(overlay, a, slot), Walk(Bundles(disk), a, slot)) == Walk(Bundles(parents), a, slot)
  }

  /** Every key of `x` is overwritten by the next block or already has that value; every node already has its value. */
  ghost predicate Absorbed(x: TrieInput, next: Content, history: TrieInput) {
    && (forall k :: k in x.state ==>
          k in next.state || (k in history.state && history.state[k] == x.state[k]))
    && (forall k :: k in x.nodes ==> k in history.nodes && history.nodes[k] == x.nodes[k])
  }

  lemma AbsorbedExactly(x: TrieInput, next: Content, history: TrieInput)
    ensures Absorbed(x, next, history) <==>
      && (history.state + x.state) + next.state == history.state + next.state
      && history.nodes + x.nodes == history.nodes
  {
    var state, nodes := (history.state + x.state) + next.state, history.nodes + x.nodes;
    if state == history.state + next.state && nodes == history.nodes {
      forall k | k in x.state && k !in next.state
        ensures k in history.state && history.state[k] == x.state[k]
      {
        assert state[k] == x.state[k];
      }
      forall k | k in x.nodes
        ensures k in history.nodes && history.nodes[k] == x.nodes[k]
      {
        assert nodes[k] == x.nodes[k];
      }
    }
  }

  /** With `x` too many in the unflushed input, the root input of the next block is right exactly when it is absorbed. */
  lemma RootWithStrays(disk: seq<Block>, blocks: seq<Block>, unflushed: TrieInput, x: TrieInput, b: Block)
    requires Extended(Merged(disk), unflushed) == Extended(Merged(blocks), x)
    ensures RootInputRight(TrieInput(unflushed.state + b.content.state, unflushed.nodes), disk, blocks + [b], blocks)
       <==> Absorbed(x, b.content, Merged(blocks))
  {
    hide Merged, Absorbed;
    MergedOneMore(blocks, b);
    MapsAssociative(Merged(disk).state, unflushed.state, b.content.state);
    AbsorbedExactly(x, b.content, Merged(blocks));
  }

  datatype CachedOverlay = CachedOverlay(parentHash: nat, overlay: Overlay)

  datatype ProduceResult = Produced | Unexpected | Abandoned

  datatype ResetResult = Done | TargetAhead | TargetUnknown | UnwindFailed

  class BlockProducer {
    const worker: Persistence
    const maxInflight: nat
    var chain: seq<Block>
    var head: nat
    var blocksSinceFlush: nat
    var accumulated: TrieInput
    var flushing: Option<TrieInput>
    var pending: bool
    var cached: Option<CachedOverlay>

    /** The canonical history, block one first. */
    ghost var produced: seq<Block>
    /** How many of the oldest in-memory blocks the outstanding flush carries. */
    ghost var inFlight: nat
    /** Where in the history the two trie inputs begin. */
    ghost var flushFrom: nat
    ghost var accFrom: nat
    /** Whether an input holds the state of a block that was abandoned once that had been accumulated. */
    ghost var accPolluted: bool
    ghost var flushPolluted: bool

    ghost function Base(): int
      reads this`produced, this`chain
    {
      |produced| - |chain|
    }

    ghost function End(): int
      reads this`produced, this`chain, this`inFlight
    {
      Base() + inFlight
    }

    ghost predicate ChainOk()
      reads this`produced, this`chain, this`inFlight, this`head
    {
      && Numbered(produced) && DistinctHashes(produced)
      && IsSuffix(chain, produced)
      && head == |produced|
      && inFlight <= |chain| <= maxInflight + 1
    }

    /** At most one flush is outstanding, either queued or with its result in the one-place channel. */
    ghost predicate QueueOk()
      requires inFlight <= |chain|
      reads this`chain, this`inFlight, this`pending, this`flushing, worker`requests, worker`result
    {
      if !pending then
        worker.requests == [] && worker.result.None? && flushing.None? && inFlight == 0
      else
        && flushing.Some?
        && if worker.result.None? then inFlight > 0 && worker.requests == [Flush(chain[..inFlight])]
           else
             && worker.requests == []
             && if inFlight > 0 then worker.result.value.last == IdOf(chain[inFlight - 1])
                else !Holds(chain, worker.result.value.last) && |chain| <= maxInflight
    }

    ghost predicate CacheOk()
      reads this`chain, this`cached
    {
      cached.Some? ==>
        && chain != []
        && cached.value.parentHash == chain[|chain| - 1].content.hash
        && Represents(cached.value.overlay, Bundles(chain))
    }

    /** Where the trie inputs lie in the history. */
    ghost predicate InputsPlaced()
      reads this`produced, this`chain, this`inFlight, this`flushFrom, this`accFrom
    {
      && End() <= accFrom <= |produced|
      && (inFlight > 0 ==> Base() <= flushFrom <= End())
    }

    /** What the flushing input holds. */
    ghost predicate FlushingOk()
      requires 0 <= Base() && InputsPlaced()
      requires inFlight > 0 ==> flushing.Some?
      reads this`produced, this`chain, this`inFlight, this`flushing, this`flushFrom, this`accFrom, this`flushPolluted
    {
      inFlight > 0 && !flushPolluted ==> flushing.value == Merged(produced[flushFrom..End()])
    }

    ghost predicate InputsOk()
      requires inFlight <= |chain| <= |produced|
      requires inFlight > 0 ==> flushing.Some?
      reads this`produced, this`chain, this`inFlight, this`flushing, this`flushFrom, this`accFrom, this`accumulated,
            this`accPolluted, this`flushPolluted
    {
      InputsPlaced() && FlushingOk() && (!accPolluted ==> accumulated == Merged(produced[accFrom..]))
    }

    /** The inputs in use hold nothing but blocks of the history. */
    ghost predicate Clean()
      reads this`inFlight, this`accPolluted, this`flushPolluted
    {
      !accPolluted && (inFlight > 0 ==> !flushPolluted)
    }

    /** Valid but for `c`, which is in the accumulator and not yet on the chain. */
    ghost predicate Holding(c: Content)
      reads this, worker
    {
      && ChainOk() && QueueOk() && CacheOk() && InputsPlaced() && FlushingOk()
      && (!accPolluted ==> accumulated == Merged(produced[accFrom..] + [Block(head + 1, c)]))
    }

    ghost predicate Valid()
      reads this, worker
    {
      ChainOk() && QueueOk() && CacheOk() && InputsOk()
    }

    /** Every block is on disk or in memory, and the disk holds a prefix of the history. */
    ghost predicate Durable()
      reads this`produced, this`chain, this`inFlight, worker`disk, worker`result
    {
      && Base() <= |worker.disk| <= |produced|
      && worker.disk == produced[..|worker.disk|]
      && (inFlight > 0 ==> |worker.disk| <= End())
      && (inFlight > 0 && worker.result.Some? && worker.result.value.count != 0 ==> End() <= |worker.disk|)
    }

    /** Disk and trie inputs leave no hole in the history. */
    ghost predicate Covered()
      reads this`produced, this`chain, this`inFlight, this`flushFrom, this`accFrom, worker`disk
    {
      if inFlight > 0 then accFrom == End() && flushFrom <= |worker.disk| else accFrom <= |worker.disk|
    }

    ghost predicate Failed()
      reads worker`result
    {
      worker.result.Some? && worker.result.value.count == 0
    }

    constructor (persistence: Persistence, limit: nat)
      requires Numbered(persistence.disk) && DistinctHashes(persistence.disk)
      requires persistence.requests == [] && persistence.result.None?
      ensures Valid() && Durable() && Covered() && Clean() && !Failed()
      ensures chain == [] && !pending && accumulated == NO_INPUT && head == |persistence.disk|
      ensures worker == persistence && maxInflight == limit && produced == persistence.disk
    {
      worker, maxInflight := persistence, limit;
      chain, head, blocksSinceFlush := [], |persistence.disk|, 0;
      accumulated, flushing, pending, cached := NO_INPUT, None, false, None;
      produced, inFlight, flushFrom, accFrom := persistence.disk, 0, 0, |persistence.disk|;
      accPolluted, flushPolluted := false, false;
    }

    /** Takes a finished flush out of memory; a failed one is taken out just the same. */
    method DrainCompletedFlush() returns (drained: bool)
      requires Valid()
      modifies this`chain, this`flushing, this`pending, this`cached, this`inFlight, worker`result
      ensures Valid()
      ensures drained <==> old(worker.result.Some?)
      ensures if drained then !pending && |chain| <= maxInflight && worker.requests == []
              else pending ==> worker.requests != []
      ensures worker.result.None? && (pending ==> inFlight > 0) && (drained ==> inFlight == 0)
      ensures drained && !accPolluted ==> Clean()
      ensures chain == if drained then old(chain)[old(inFlight)..] else old(chain)
      ensures !drained ==> unchanged(this) && unchanged(worker)
      ensures old(Durable()) ==> (Durable() <==> !drained || old(End()) <= |worker.disk|)
      ensures old(Durable()) && !old(Failed()) ==> Durable()
      ensures Durable() && old(Covered()) ==> Covered()
      ensures old(Durable() && !Failed()) ==> Reach() == old(Reach())
    {
      hide Merged, Represents, Numbered, DistinctHashes, Holds, WithoutPersisted, IsSuffix;
      if !pending || worker.result.None? {
        return false;
      }
      var last := worker.result.value.last;
      worker.result := None;
      FlushedGo(produced, chain, inFlight, last);
      chain := WithoutPersisted(chain, last);
      flushing, pending, cached := None, false, None;
      inFlight := 0;
      return true;
    }

    /** One step of the persistence thread; its send into the result channel finds room. */
    method WorkerStep(ok: bool)
      requires Valid() && worker.requests != []
      modifies worker
      ensures Valid()
      ensures worker.requests == [] && worker.result.Some? && pending
      ensures !ok ==> worker.disk == old(worker.disk)
      ensures Failed() <==> !ok
      ensures old(Durable()) ==> Durable() && |worker.disk| >= old(|worker.disk|)
      ensures old(Durable() && Covered()) ==> Covered()
      ensures old(Durable()) && ok && accFrom == End() ==> Covered()
    {
      hide Merged, Represents, DistinctHashes, Saved, Holds;
      if Durable() {
        SavedIsPrefix(produced, |worker.disk|, Base(), End());
        assert chain[..inFlight] == produced[Base()..End()];
      }
      worker.Serve(ok);
    }

    /** Hands the chain to the persistence thread and the accumulator to the flushing slot. */
    method SendChain()
      requires Valid() && !pending && chain != []
      modifies this`accumulated, this`flushing, this`blocksSinceFlush, this`pending, this`inFlight, this`flushFrom,
               this`accFrom, this`accPolluted, this`flushPolluted, worker`requests
      ensures Valid()
      ensures pending && blocksSinceFlush == 0 && inFlight == |chain| && worker.requests == [Flush(chain)]
      ensures flushing == Some(old(accumulated)) && accumulated == NO_INPUT && worker.result.None?
      ensures accFrom == |produced| && flushFrom == old(accFrom) && !accPolluted && flushPolluted == old(accPolluted)
    {
      hide Merged, CacheOk, IsSuffix, DistinctHashes, Numbered, Holds;
      assert produced[accFrom..] == produced[accFrom..|produced|];
      blocksSinceFlush, pending := 0, true;
      worker.requests := worker.requests + [Flush(chain)];
      flushing, flushPolluted, flushFrom := Some(accumulated), accPolluted, accFrom;
      accumulated, accPolluted, accFrom := NO_INPUT, false, |produced|;
      inFlight := |chain|;
      assert chain[..inFlight] == chain;
      MergedNothing(produced);
    }

    /** Flushes the whole in-memory chain, if there is any. */
    method StartAsyncFlush()
      requires Valid() && !pending
      modifies this`accumulated, this`flushing, this`blocksSinceFlush, this`pending, this`inFlight, this`flushFrom,
               this`accFrom, this`accPolluted, this`flushPolluted, worker`requests
      ensures Valid()
      ensures old(Clean()) ==> Clean()
      ensures chain == [] ==> unchanged(this) && unchanged(worker)
      ensures chain != [] ==>
        && pending && blocksSinceFlush == 0 && inFlight == |chain| && worker.requests == [Flush(chain)]
        && flushing == Some(old(accumulated)) && accumulated == NO_INPUT
        && accFrom == |produced| && flushFrom == old(accFrom) && !accPolluted
      ensures old(Durable()) ==> Durable()
      ensures old(Covered()) ==> Covered()
    {
      hide CacheOk, InputsOk, Numbered, DistinctHashes, IsSuffix;
      if chain != [] {
        SendChain();
      }
    }

    /** Waits, when too many blocks are in memory, until a flush has been taken out; the wait ends. */
    method ApplyBackpressure(ok: bool)
      requires Valid()
      modifies this`chain, this`accumulated, this`flushing, this`blocksSinceFlush, this`pending, this`cached,
               this`inFlight, this`flushFrom, this`accFrom, this`accPolluted, this`flushPolluted, worker
      ensures Valid()
      ensures old(Clean()) ==> Clean()
      ensures |chain| <= maxInflight
      ensures old(|chain|) <= maxInflight ==> unchanged(this) && unchanged(worker)
      ensures old(|chain|) > maxInflight ==> worker.requests == []
      ensures ok && old(Durable() && !Failed()) ==> Durable() && !Failed()
      ensures ok && old(Durable() && !Failed() && Covered()) ==> Covered()
    {
      hide ChainOk, QueueOk, CacheOk, InputsOk, Durable, Covered;
      if |chain| <= maxInflight {
        return;
      }
      if !pending {
        StartAsyncFlush();
      }
      var drained := DrainCompletedFlush();
      while !drained
        invariant Valid()
        invariant old(Clean()) ==> Clean()
        invariant if drained then |chain| <= maxInflight && worker.requests == [] else pending && worker.requests != []
        invariant ok && old(Durable() && !Failed()) ==> Durable() && !Failed()
        invariant ok && old(Durable() && !Failed() && Covered()) ==> Covered()
        decreases !drained
      {
        WorkerStep(ok);
        drained := DrainCompletedFlush();
      }
    }

    /** The overlay the next block executes over: the cached one, or built from the chain and cached. */
    method GetOrBuildOverlay() returns (overlay: Overlay)
      requires Valid() && chain != []
      modifies this`cached
      ensures Valid() && cached.Some?
      ensures Represents(overlay, Bundles(chain))
    {
      hide QueueOk, InputsOk, Represents, Merged;
      var parentHash := chain[|chain| - 1].content.hash;
      if cached.Some? && cached.value.parentHash == parentHash {
        return cached.value.overlay;
      }
      var built := new CoalescedOverlay.FromChain(Bundles(chain));
      cached := Some(CachedOverlay(parentHash, built.Value()));
      return built.Value();
    }

    /** Extends whatever overlay is cached, or an empty one, by a new block. */
    method ExtendCachedOverlay(c: Content)
      requires CacheOk() && (chain != [] ==> cached.Some?)
      modifies this`cached
      ensures cached.Some? && cached.value.parentHash == c.hash
      ensures Represents(cached.value.overlay, Bundles(chain) + [c.bundle])
    {
      var before := if cached.Some? then cached.value.overlay else EMPTY_OVERLAY;
      assert Represents(before, Bundles(chain));
      var overlay := new CoalescedOverlay.Clone(before);
      overlay.ExtendWithBlock(c.bundle);
      WalkOneMore(Bundles(chain), c.bundle, before, overlay.Value());
      cached := Some(CachedOverlay(c.hash, overlay.Value()));
    }

    /** What the two trie inputs add to the disk. */
    ghost function Unflushed(): TrieInput
      reads this`flushing, this`accumulated
    {
      if flushing.Some? then Extended(flushing.value, accumulated) else accumulated
    }

    /** Adds a block to the accumulator and returns the input its state root is computed from: all unflushed
        state including the block's own, all unflushed nodes without its own. */
    method Accumulate(c: Content) returns (input: TrieInput)
      requires Valid()
      modifies this`accumulated
      ensures Holding(c)
      ensures input == TrieInput(old(Unflushed()).state + c.state, old(Unflushed()).nodes)
      ensures forall xs :: old(Strays(xs)) ==> Strays(xs + [Block(head + 1, c)])
    {
      hide QueueOk, CacheOk, Merged;
      var accState := accumulated.state + c.state;
      if flushing.Some? {
        input := TrieInput(flushing.value.state + accState, flushing.value.nodes + accumulated.nodes);
        MapsAssociative(flushing.value.state, accumulated.state, c.state);
      } else {
        input := TrieInput(accState, accumulated.nodes);
      }
      MergedOneMore(produced[accFrom..], Block(head + 1, c));
      forall xs | Strays(xs)
        ensures Merged(produced[accFrom..] + (xs + [Block(head + 1, c)])) == Extended(accumulated, InputOf(c))
      {
        MergedOneMore(produced[accFrom..] + xs, Block(head + 1, c));
        assert produced[accFrom..] + xs + [Block(head + 1, c)] == produced[accFrom..] + (xs + [Block(head + 1, c)]);
      }
      accumulated := TrieInput(accState, accumulated.nodes + c.nodes);
    }

    /** Puts a block whose state has been accumulated on the in-memory chain. */
    method Insert(c: Content)
      requires Holding(c) && |chain| <= maxInflight && (chain != [] ==> cached.Some?)
      requires pending ==> inFlight > 0
      requires forall b :: b in produced ==> b.content.hash != c.hash
      modifies this`chain, this`head, this`cached, this`produced
      ensures Valid()
      ensures produced == old(produced) + [Block(old(head) + 1, c)]
      ensures chain == old(chain) + [Block(old(head) + 1, c)]
      ensures head == old(head) + 1
      ensures old(Durable()) ==> Durable()
      ensures old(Covered()) ==> Covered()
    {
      hide ChainOk, QueueOk, InputsOk, InputsPlaced, Represents, Durable, Covered, Merged;
      ExtendCachedOverlay(c);
      Append(Block(head + 1, c));
      assert Bundles(chain) == Bundles(old(chain)) + [c.bundle];
    }

    /** Chain and history grow by a block; an outstanding flush and the disk are unaffected. */
    method Append(b: Block)
      requires ChainOk() && QueueOk() && |chain| <= maxInflight && b.number == head + 1
      requires pending ==> inFlight > 0
      requires forall x :: x in produced ==> x.content.hash != b.content.hash
      requires InputsPlaced() && FlushingOk() && (!accPolluted ==> accumulated == Merged(produced[accFrom..] + [b]))
      modifies this`chain, this`head, this`produced
      ensures ChainOk() && QueueOk() && InputsOk()
      ensures produced == old(produced) + [b] && chain == old(chain) + [b] && head == old(head) + 1
      ensures old(Durable()) ==> Durable()
      ensures old(Covered()) ==> Covered()
    {
      hide Merged, Holds, IsSuffix, Numbered, DistinctHashes;
      Appended(produced, chain, b);
      AppendedSlices(chain, b, 0, inFlight);
      AppendedSlices(produced, b, accFrom, |produced|);
      if inFlight > 0 {
        AppendedSlices(produced, b, flushFrom, End());
      }
      if Durable() {
        AppendedSlices(produced, b, 0, |worker.disk|);
      }
      chain := chain + [b];
      head := head + 1;
      produced := produced + [b];
    }

    lemma ReadsHistory(overlay: Overlay)
      requires ChainOk() && Durable() && Represents(overlay, Bundles(chain))
      ensures ReadsRight(overlay, worker.disk, produced)
    {
      forall a: nat, slot: nat
        ensures OrElse(Lookup(overlay, a, slot), Walk(Bundles(worker.disk), a, slot)) == Walk(Bundles(produced), a, slot)
      {
        ReadsCanonical(produced, |worker.disk|, Base(), a, slot);
      }
    }

    /** The input built from the trie inputs as they stand is right for `c` as the next block. */
    ghost predicate NextRootRight(c: Content)
      reads this`flushing, this`accumulated, this`produced, this`head, worker`disk
    {
      RootInputRight(TrieInput(Unflushed().state + c.state, Unflushed().nodes), worker.disk,
                     produced + [Block(head + 1, c)], produced)
    }

    /** The accumulator ends with the abandoned blocks `xs`; no input holds another block that is not in the history. */
    ghost predicate Strays(xs: seq<Block>)
      reads this`produced, this`accFrom, this`accumulated, this`inFlight, this`flushPolluted
    {
      && accFrom <= |produced|
      && accumulated == Merged(produced[accFrom..] + xs)
      && (inFlight > 0 ==> !flushPolluted)
    }

    lemma CleanHasNoStrays()
      requires Valid() && Clean()
      ensures Strays([])
    {
      hide Merged, QueueOk, CacheOk, Numbered, DistinctHashes;
      assert produced[accFrom..] + [] == produced[accFrom..];
    }

    /** Disk and unflushed inputs together are the whole history followed by the abandoned blocks, whether or not a
        running flush has committed. */
    lemma UnflushedCompletesDisk(xs: seq<Block>)
      requires Valid() && Strays(xs) && Durable() && Covered()
      requires pending ==> inFlight > 0
      ensures Extended(Merged(worker.disk), Unflushed()) == Extended(Merged(produced), Merged(xs))
    {
      hide Extended, Merged, Numbered, DistinctHashes, CacheOk, Holds;
      MergedConcat(produced[accFrom..], xs);
      ghost var from := if inFlight > 0 then flushFrom else accFrom;
      if inFlight > 0 {
        MergedConcat(produced[flushFrom..End()], produced[End()..]);
        assert produced[flushFrom..] == produced[flushFrom..End()] + produced[End()..];
        ExtendedAssociative(flushing.value, Merged(produced[accFrom..]), Merged(xs));
      }
      OverlapMerges(produced, |worker.disk|, from);
      ExtendedAssociative(Merged(worker.disk), Merged(produced[from..]), Merged(xs));
    }

    /** The next root input is right exactly when the abandoned blocks are absorbed, and always when there are none. */
    lemma RootInputFor(xs: seq<Block>, c: Content)
      requires Valid() && Strays(xs) && Durable() && Covered()
      requires pending ==> inFlight > 0
      ensures NextRootRight(c) <==> Absorbed(Merged(xs), c, Merged(produced))
      ensures xs == [] ==> NextRootRight(c)
    {
      hide ChainOk, QueueOk, CacheOk, InputsOk, Durable, Covered, Unflushed;
      UnflushedCompletesDisk(xs);
      RootWithStrays(worker.disk, produced, Unflushed(), Merged(xs), Block(head + 1, c));
    }

    lemma RootInputsFor(c: Content)
      requires Valid()
      requires pending ==> inFlight > 0
      ensures Clean() && Durable() && Covered() ==> NextRootRight(c)
      ensures Durable() && Covered() ==>
        forall xs :: Strays(xs) ==> (NextRootRight(c) <==> Absorbed(Merged(xs), c, Merged(produced)))
    {
      hide ChainOk, QueueOk, CacheOk, InputsOk, Durable, Covered, NextRootRight, Merged, Strays, Absorbed;
      if Durable() && Covered() {
        forall xs | Strays(xs)
          ensures NextRootRight(c) <==> Absorbed(Merged(xs), c, Merged(produced))
        {
          RootInputFor(xs, c);
        }
        if Clean() {
          CleanHasNoStrays();
          RootInputFor([], c);
        }
      }
    }

    /** With nothing accumulated and no flush running, the next root input is right for every next block exactly when
        the blocks above the disk change nothing. */
    lemma NextRootsRightIff()
      requires accumulated == NO_INPUT && flushing.None?
      ensures (forall c :: NextRootRight(c)) <==> Merged(worker.disk) == Merged(produced)
    {
      hide Merged;
      var before, after := Merged(worker.disk), Merged(produced);
      assert before.state + map[] == before.state && after.state + map[] == after.state;
      assert before.nodes + map[] == before.nodes && forall c: Content :: map[] + c.state == c.state;
      forall c: Content
        ensures Merged(produced + [Block(head + 1, c)]).state == after.state + c.state
      {
        MergedOneMore(produced, Block(head + 1, c));
      }
      if forall c :: NextRootRight(c) {
        assert NextRootRight(Content(0, map[], map[], map[]));
      }
    }

    /** The storage overlay to execute over, empty when no block is in memory. */
    method OpenState() returns (overlay: Overlay)
      requires Valid()
      modifies this`cached
      ensures Valid() && (chain != [] ==> cached.Some?)
      ensures Represents(overlay, Bundles(chain))
    {
      if chain == [] {
        return EMPTY_OVERLAY;
      }
      overlay := GetOrBuildOverlay();
    }

    /** Nothing to wait for or to take out of memory. */
    ghost predicate Quiet()
      reads this`chain, worker`result
    {
      |chain| <= maxInflight && worker.result.None?
    }

    /** Everything up to execution: room in memory, finished flushes taken out, the parent state opened. */
    method Prepare(awaitOk: bool) returns (overlay: Overlay)
      requires Valid()
      modifies this`chain, this`accumulated, this`flushing, this`blocksSinceFlush, this`pending, this`cached,
               this`inFlight, this`flushFrom, this`accFrom, this`accPolluted, this`flushPolluted, worker
      ensures Valid()
      ensures old(Clean()) ==> Clean()
      ensures (chain != [] ==> cached.Some?) && (pending ==> inFlight > 0)
      ensures if old(|chain|) > maxInflight then worker.requests == []
              else worker.requests == old(worker.requests) && blocksSinceFlush == old(blocksSinceFlush)
      ensures old(|chain|) <= maxInflight ==> forall xs :: old(Strays(xs)) ==> Strays(xs)
      ensures Quiet()
      ensures old(Quiet()) ==>
        unchanged(worker) && chain == old(chain) && pending == old(pending) && Unflushed() == old(Unflushed())
      ensures awaitOk && old(Durable() && !Failed()) ==>
        Durable() && !Failed() && ReadsRight(overlay, worker.disk, produced)
      ensures awaitOk && old(Durable() && !Failed() && Covered()) ==> Covered()
    {
      hide ChainOk, QueueOk, CacheOk, InputsOk, Durable, Covered, Represents, ReadsRight;
      ApplyBackpressure(awaitOk);
      var _ := DrainCompletedFlush();
      overlay := OpenState();
      if Durable() {
        ReadsHistory(overlay);
      }
    }

    /** Executes a block over the opened parent state, accumulates what it leaves, and returns the overlay it read
        through and the input of its state root. */
    method Execute(c: Content, awaitOk: bool) returns (overlay: Overlay, input: TrieInput)
      requires Valid()
      modifies this`chain, this`accumulated, this`flushing, this`blocksSinceFlush, this`pending, this`cached,
               this`inFlight, this`flushFrom, this`accFrom, this`accPolluted, this`flushPolluted, worker
      ensures Holding(c) && Quiet() && (chain != [] ==> cached.Some?) && (pending ==> inFlight > 0)
      ensures old(Clean()) ==> Clean()
      ensures if old(|chain|) > maxInflight then worker.requests == []
              else worker.requests == old(worker.requests) && blocksSinceFlush == old(blocksSinceFlush)
      ensures old(Quiet()) ==>
        && unchanged(worker) && chain == old(chain) && pending == old(pending)
        && input == TrieInput(old(Unflushed()).state + c.state, old(Unflushed()).nodes)
      ensures awaitOk && old(Durable() && !Failed()) ==>
        Durable() && !Failed() && ReadsRight(overlay, worker.disk, produced)
      ensures awaitOk && old(Durable() && !Failed() && Covered()) ==> Covered()
      ensures awaitOk && old(Clean() && Durable() && !Failed() && Covered()) ==>
        RootInputRight(input, worker.disk, produced + [Block(head + 1, c)], produced)
      ensures awaitOk && old(|chain| <= maxInflight && Durable() && !Failed() && Covered()) ==>
        forall xs :: old(Strays(xs)) ==>
          (RootInputRight(input, worker.disk, produced + [Block(head + 1, c)], produced)
           <==> Absorbed(Merged(xs), c, Merged(produced)))
      ensures old(|chain|) <= maxInflight ==> forall xs :: old(Strays(xs)) ==> Strays(xs + [Block(head + 1, c)])
      ensures old(Clean()) ==> Strays([Block(head + 1, c)])
    {
      hide ChainOk, QueueOk, CacheOk, InputsOk, InputsPlaced, Durable, Covered, Strays;
      hide Merged, Represents, Bundles, RootInputRight, ReadsRight, Holding, Absorbed;
      overlay := Prepare(awaitOk);
      RootInputsFor(c);
      if Clean() {
        CleanHasNoStrays();
        assert [] + [Block(head + 1, c)] == [Block(head + 1, c)];
      }
      input := Accumulate(c);
    }

    /** Leaves a block that could not be sealed in the accumulator. */
    method Abandon(c: Content)
      requires Holding(c)
      modifies this`accPolluted
      ensures Valid()
    {
      hide ChainOk, QueueOk, CacheOk, Merged, FlushingOk;
      accPolluted := true;
    }

    /** Puts a sealed block on the chain and flushes when asked to and no flush is outstanding. */
    method Seal(c: Content, shouldFlush: bool)
      requires Holding(c) && |chain| <= maxInflight && (chain != [] ==> cached.Some?)
      requires pending ==> inFlight > 0
      requires forall b :: b in produced ==> b.content.hash != c.hash
      modifies this, worker`requests
      ensures Valid()
      ensures produced == old(produced) + [Block(old(head) + 1, c)] && chain == old(chain) + [Block(old(head) + 1, c)]
      ensures head == old(head) + 1
      ensures old(Clean()) ==> Clean()
      ensures old(Durable()) ==> Durable()
      ensures old(Covered()) ==> Covered()
      ensures shouldFlush ==> pending
      ensures !shouldFlush ==> unchanged(worker) && pending == old(pending) && blocksSinceFlush == old(blocksSinceFlush) + 1
    {
      hide ChainOk, QueueOk, CacheOk, InputsOk, InputsPlaced, Durable, Covered, Merged, Holding;
      Insert(c);
      blocksSinceFlush := blocksSinceFlush + 1;
      if shouldFlush && !pending {
        StartAsyncFlush();
      }
    }

    /** Produces the next block. `awaitOk` is the outcome of a flush it waits for, `sealed` whether the header could
        be derived once the state root was known, `shouldFlush` the scheduler's answer. */
    method Produce(msgIdx: nat, c: Content, awaitOk: bool, sealed: bool, shouldFlush: bool)
        returns (r: ProduceResult, overlay: Overlay, input: TrieInput)
      requires Valid()
      requires msgIdx == head + 1 ==> forall b :: b in produced ==> b.content.hash != c.hash
      modifies this, worker
      ensures Valid()
      ensures r == if msgIdx != old(head) + 1 then Unexpected else if sealed then Produced else Abandoned
      ensures r == Unexpected ==> unchanged(this) && unchanged(worker)
      ensures produced == if r == Produced then old(produced) + [Block(msgIdx, c)] else old(produced)
      ensures head == if r == Produced then msgIdx else old(head)
      ensures r != Abandoned && old(Clean()) ==> Clean()
      ensures r == Produced && shouldFlush ==> pending
      ensures r == Produced && !shouldFlush ==>
        if old(|chain|) > maxInflight then worker.requests == []
        else worker.requests == old(worker.requests) && blocksSinceFlush == old(blocksSinceFlush) + 1
      ensures r != Unexpected && old(Quiet()) ==>
        && worker.disk == old(worker.disk)
        && input == TrieInput(old(Unflushed()).state + c.state, old(Unflushed()).nodes)
        && chain == (if r == Produced then old(chain) + [Block(msgIdx, c)] else old(chain))
        && (!(r == Produced && shouldFlush) ==> unchanged(worker) && pending == old(pending))
      ensures r == Abandoned ==> Quiet()
      ensures awaitOk && old(Durable() && !Failed()) ==> Durable() && !Failed()
      ensures awaitOk && old(Durable() && !Failed() && Covered()) ==> Covered()
      ensures r != Unexpected && awaitOk && old(Durable() && !Failed()) ==>
        ReadsRight(overlay, worker.disk, old(produced))
      ensures r != Unexpected && awaitOk && old(Clean() && Durable() && !Failed() && Covered()) ==>
        RootInputRight(input, worker.disk, old(produced) + [Block(msgIdx, c)], old(produced))
      ensures r != Unexpected && awaitOk && old(|chain| <= maxInflight && Durable() && !Failed() && Covered()) ==>
        forall xs :: old(Strays(xs)) ==>
          (RootInputRight(input, worker.disk, old(produced) + [Block(msgIdx, c)], old(produced))
           <==> Absorbed(Merged(xs), c, Merged(old(produced))))
      ensures r == Abandoned && old(|chain|) <= maxInflight ==>
        forall xs :: old(Strays(xs)) ==> Strays(xs + [Block(msgIdx, c)])
      ensures r == Abandoned && old(Clean()) ==> Strays([Block(msgIdx, c)])
    {
      hide ChainOk, QueueOk, CacheOk, InputsOk, InputsPlaced, Durable, Covered, Strays;
      hide Merged, Represents, Bundles, RootInputRight, ReadsRight, Holding, Absorbed;
      overlay, input := EMPTY_OVERLAY, NO_INPUT;
      if msgIdx != head + 1 {
        return Unexpected, overlay, input;
      }
      overlay, input := Execute(c, awaitOk);
      if !sealed {
        Abandon(c);
        return Abandoned, overlay, input;
      }
      Seal(c, shouldFlush);
      return Produced, overlay, input;
    }

    lemma NothingIsFlushing()
      requires Valid() && !pending
      ensures flushing.None? && worker.requests == [] && worker.result.None? && inFlight == 0
    {
    }

    /** Waits for the persistence thread to serve the flush still queued, if any, and then the unwind; the result
        channel has room for the flush. */
    method ServeUnwind(target: nat, flushOk: bool, unwindOk: bool, ghost queued: seq<Block>)
      requires if queued == [] then worker.requests == []
               else worker.requests == [Flush(queued)] && worker.result.None?
      modifies worker
      ensures worker.requests == []
      ensures worker.result == if queued == [] then old(worker.result)
                               else Some(FlushResult(IdOf(queued[|queued| - 1]), if flushOk then |queued| else 0))
      ensures var saved := if flushOk && queued != [] then Saved(old(worker.disk), queued) else old(worker.disk);
        worker.disk == if unwindOk then Unwound(saved, target) else saved
    {
      hide Saved, Unwound;
      worker.requests := worker.requests + [Unwind(target)];
      if worker.requests[0].Flush? {
        worker.Serve(flushOk);
      }
      worker.Serve(unwindOk);
    }

    /** How far the disk will reach once an outstanding flush has committed. */
    ghost function Reach(): int
      reads this`produced, this`chain, this`inFlight, worker`disk
    {
      if inFlight > 0 && |worker.disk| < End() then End() else |worker.disk|
    }

    lemma TargetIsKnown(target: nat)
      requires ChainOk() && Durable() && 0 < target < head
      ensures target <= |worker.disk| || (chain != [] && chain[0].number <= target)
    {
    }

    /** Rolls the chain back. */
    method ResetToBlock(target: nat, flushOk: bool, unwindOk: bool) returns (r: ResetResult)
      requires Valid()
      modifies this, worker
      ensures Valid()
      ensures r == TargetAhead <==> target > old(head)
      ensures r == TargetUnknown ==> !old(Durable())
      ensures r == UnwindFailed ==> !unwindOk
      ensures r in {TargetAhead, TargetUnknown} || target == old(head) ==> unchanged(this) && unchanged(worker)
      ensures r in {Done, UnwindFailed} ==> head == target && produced == old(produced)[..target]
      ensures r == Done && target < old(head) ==> cached.None? && accumulated == NO_INPUT && |chain| <= maxInflight
      ensures pending ==> old(pending)
      ensures r == Done && target < old(head) && pending ==> worker.result.Some?
      ensures r == Done && target < old(head) && old(Durable() && !Failed()) ==>
        worker.disk == old(produced)[..Min(if flushOk then old(Reach()) else old(|worker.disk|), target)]
      ensures r == Done && old(Clean()) ==> Clean()
      ensures flushOk && !old(Failed()) ==> !Failed()
      ensures r == Done && old(Durable() && !Failed()) ==> Durable()
      ensures r == Done && target < old(head) && flushOk && old(Durable() && !Failed()) ==>
        (Covered() <==> target <= old(Reach()))
    {
      hide QueueOk, CacheOk, InputsOk, Durable, Covered, Reach, Numbered, DistinctHashes;
      if target > head {
        return TargetAhead;
      }
      if target == head {
        return Done;
      }
      if target != 0 && target > |worker.disk| && !(chain != [] && chain[0].number <= target) {
        if Durable() {
          TargetIsKnown(target);
        }
        return TargetUnknown;
      }
      var _ := DrainCompletedFlush();
      r := RollBack(target, flushOk, unwindOk);
    }

    /** Takes the blocks above the target out of memory. An outstanding flush of blocks that all stay is unaffected;
        otherwise its last block is no longer in memory. */
    method Truncate(target: nat)
      requires ChainOk() && target < head
      modifies this`chain, this`cached, this`head, this`produced, this`inFlight
      ensures ChainOk() && CacheOk()
      ensures cached.None? && head == target && produced == old(produced)[..target]
      ensures Base() == if old(Base()) <= target then old(Base()) else target
      ensures |chain| <= maxInflight
      ensures old(End()) <= target ==> inFlight == old(inFlight) && chain[..inFlight] == old(chain)[..inFlight]
      ensures old(End()) > target ==> inFlight == 0
      ensures old(inFlight > 0 && End() > target) ==> !Holds(chain, IdOf(old(chain)[old(inFlight) - 1]))
    {
      hide Numbered, DistinctHashes, Holds;
      RolledBack(produced, chain, target);
      ghost var intact := End() <= target;
      assert inFlight > 0 ==> chain[inFlight - 1] == produced[End() - 1];
      chain := UpTo(chain, target);
      cached := None;
      head := target;
      produced := produced[..target];
      inFlight := if intact then inFlight else 0;
    }

    lemma InFlightIsFlushing()
      requires Valid()
      ensures inFlight > 0 ==> flushing.Some?
    {
    }

    /** Rolls memory back at once and the disk once the persistence thread has come to it. */
    method TruncateAndUnwind(target: nat, flushOk: bool, unwindOk: bool)
      requires ChainOk() && QueueOk() && worker.result.None? && target < head
      modifies this`chain, this`cached, this`head, this`produced, this`inFlight, worker
      ensures ChainOk() && QueueOk() && CacheOk()
      ensures cached.None? && head == target && produced == old(produced)[..target]
      ensures Base() == if old(Base()) <= target then old(Base()) else target
      ensures inFlight == if old(End()) <= target then old(inFlight) else 0
      ensures pending ==> worker.result.Some? && (worker.result.value.count != 0 <==> flushOk)
      ensures !pending ==> worker.result.None?
      ensures inFlight > 0 ==> flushing.Some?
      ensures old(Durable()) && unwindOk ==>
        (var reach := if flushOk then old(Reach()) else old(|worker.disk|);
         |worker.disk| == Min(reach, target) && worker.disk == old(produced)[..Min(reach, target)])
      ensures old(Durable()) && unwindOk ==> Durable()
      ensures old(Durable()) && inFlight > 0 ==> old(Reach()) == old(End())
    {
      hide Saved, Unwound, Holds, Numbered, DistinctHashes, CacheOk;
      ghost var queued := if pending then chain[..inFlight] else [];
      if Durable() {
        FlushedAndUnwound(produced, |worker.disk|, Base(), End(), target);
        assert chain[..inFlight] == produced[Base()..End()];
      }
      Truncate(target);
      ServeUnwind(target, flushOk, unwindOk, queued);
    }

    method RollBack(target: nat, flushOk: bool, unwindOk: bool) returns (r: ResetResult)
      requires Valid() && worker.result.None? && target < head
      modifies this, worker
      ensures Valid()
      ensures r == if unwindOk then Done else UnwindFailed
      ensures head == target && produced == old(produced)[..target]
      ensures r == Done ==> cached.None? && accumulated == NO_INPUT && |chain| <= maxInflight
      ensures pending == old(pending) && (pending ==> worker.result.Some?)
      ensures r == Done && old(Durable()) ==>
        worker.disk == old(produced)[..Min(if flushOk then old(Reach()) else old(|worker.disk|), target)]
      ensures r == Done && old(Clean()) ==> Clean()
      ensures flushOk ==> !Failed()
      ensures r == Done && old(Durable()) ==> Durable()
      ensures r == Done && flushOk && old(Durable()) ==> (Covered() <==> target <= old(Reach()))
    {
      hide Merged, CacheOk, QueueOk, Numbered, DistinctHashes, IsSuffix, Durable, Reach;
      assert inFlight > 0 ==> flushing.Some? by {
        InFlightIsFlushing();
      }
      assert inFlight > 0 && End() <= target ==>
          produced[flushFrom..End()] == produced[..target][flushFrom..End()];
      TruncateAndUnwind(target, flushOk, unwindOk);
      accFrom, accPolluted := target, !unwindOk;
      if !unwindOk {
        return UnwindFailed;
      }
      accumulated := NO_INPUT;
      MergedNothing(produced);
      return Done;
    }
  }

  // ----- where the next state root goes wrong -----

  /** Rolls back and lets the next drain take out what the reset left of a flush. After that the next root input is
      right for every next block exactly when the blocks that neither disk nor flush had change nothing. */
  method ResetAndDrain(p: BlockProducer, target: nat, flushOk: bool, unwindOk: bool) returns (r: ResetResult)
    requires p.Valid() && target < p.head
    modifies p, p.worker
    ensures p.Valid()
    ensures r == Done && old(p.Durable() && !p.Failed()) ==>
      var reach := Min(if flushOk then old(p.Reach()) else old(|p.worker.disk|), target);
      (forall c :: p.NextRootRight(c)) <==> Merged(old(p.produced)[..reach]) == Merged(old(p.produced)[..target])
  {
    hide BlockProducer.ChainOk, BlockProducer.QueueOk, BlockProducer.CacheOk, BlockProducer.InputsOk;
    hide BlockProducer.Durable, BlockProducer.Covered, BlockProducer.Reach, BlockProducer.NextRootRight, Merged;
    r := p.ResetToBlock(target, flushOk, unwindOk);
    var _ := p.DrainCompletedFlush();
    if r == Done {
      p.NothingIsFlushing();
      p.NextRootsRightIff();
    }
  }

  /** The content of a block that sets one key of the state to one. */
  function SetsKey(hash: nat, key: nat): Content {
    Content(hash, map[], map[key := 1], map[])
  }

  lemma MissingKey(input: TrieInput)
    requires input == TrieInput(map[] + map[6 := 1], map[])
    ensures var kept, next := Block(1, SetsKey(11, 5)), Block(2, SetsKey(13, 6));
      !RootInputRight(input, [], [kept] + [next], [kept])
  {
    var kept, next := Block(1, SetsKey(11, 5)), Block(2, SetsKey(13, 6));
    MergedOne(kept);
    MergedOneMore([kept], next);
    assert 5 in Merged([kept] + [next]).state;
  }

  /** Two blocks in memory, nothing flushed, a reset to the first: the second's replacement gets a wrong root. */
  method ResetForgetsUnflushed(limit: nat) returns (disk: seq<Block>, input: TrieInput)
    requires limit >= 2
    ensures var kept, next := Block(1, SetsKey(11, 5)), Block(2, SetsKey(13, 6));
      !RootInputRight(input, disk, [kept] + [next], [kept])
  {
    hide BlockProducer.ChainOk, BlockProducer.QueueOk, BlockProducer.CacheOk, BlockProducer.InputsOk;
    hide BlockProducer.Durable, BlockProducer.Covered, BlockProducer.Strays, Merged;
    hide ReadsRight, RootInputRight, Absorbed;
    var worker := new Persistence([]);
    var p := new BlockProducer(worker, limit);
    var _, _, _ := p.Produce(1, SetsKey(11, 5), true, true, false);
    var _, _, _ := p.Produce(2, SetsKey(12, 6), true, true, false);
    p.NothingIsFlushing();
    var _ := p.ResetToBlock(1, true, true);
    p.NothingIsFlushing();
    var _, _, root := p.Produce(2, SetsKey(13, 6), true, true, false);
    input, disk := root, worker.disk;
    MissingKey(input);
  }

  /** Whether or not a flush commits in between, the root input of the block after an abandoned one is right
      exactly when the abandoned block is absorbed. */
  method AbandonThenProduce(p: BlockProducer, c: Content, next: Content, work: Option<bool>)
      returns (overlay: Overlay, input: TrieInput)
    requires p.Valid() && p.Clean() && p.Durable() && p.Covered() && !p.Failed()
    requires forall b :: b in p.produced ==> b.content.hash != c.hash && b.content.hash != next.hash
    requires work != Some(false)
    modifies p, p.worker
    ensures p.Valid() && p.produced == old(p.produced) + [Block(old(p.head) + 1, next)]
    ensures ReadsRight(overlay, p.worker.disk, old(p.produced))
    ensures RootInputRight(input, p.worker.disk, p.produced, old(p.produced))
       <==> Absorbed(InputOf(c), next, Merged(old(p.produced)))
  {
    hide BlockProducer.ChainOk, BlockProducer.QueueOk, BlockProducer.CacheOk, BlockProducer.InputsOk;
    hide BlockProducer.Durable, BlockProducer.Covered, BlockProducer.Strays, Merged, RootInputRight, ReadsRight, Absorbed;
    ghost var stray := Block(p.head + 1, c);
    var _, _, _ := p.Produce(p.head + 1, c, true, false, false);
    if work.Some? && p.worker.requests != [] {
      p.WorkerStep(work.value);
    }
    assert p.Strays([stray]);
    var _, o, i := p.Produce(p.head + 1, next, true, true, false);
    overlay, input := o, i;
    MergedOne(stray);
  }

  /** A block that could not be sealed, then one that does not touch its key: the root input is wrong. */
  method AbandonedBlockExample(limit: nat) returns (disk: seq<Block>, input: TrieInput)
    ensures !RootInputRight(input, disk, [Block(1, SetsKey(12, 6))], [])
  {
    hide BlockProducer.ChainOk, BlockProducer.QueueOk, BlockProducer.CacheOk, BlockProducer.InputsOk;
    hide BlockProducer.Durable, BlockProducer.Covered, BlockProducer.Strays, Merged, RootInputRight, ReadsRight;
    var worker := new Persistence([]);
    var p := new BlockProducer(worker, limit);
    var _, root := AbandonThenProduce(p, SetsKey(11, 5), SetsKey(12, 6), None);
    assert 5 in InputOf(SetsKey(11, 5)).state;
    ghost var none: seq<Block> := [];
    MergedNothing(none);
    assert none[|none|..] == none;
    assert p.produced == [Block(1, SetsKey(12, 6))];
    input, disk := root, worker.disk;
  }

  /** A flush that commits and is taken out of memory restores what an abandoned block or a reset broke. */
  method FlushHeals(p: BlockProducer)
    requires p.Valid() && p.Durable() && !p.pending && p.chain != []
    modifies p, p.worker
    ensures p.Valid() && p.Clean() && p.Durable() && p.Covered() && !p.Failed()
    ensures p.produced == old(p.produced)
  {
    hide BlockProducer.ChainOk, BlockProducer.QueueOk, BlockProducer.CacheOk, BlockProducer.InputsOk;
    hide BlockProducer.Durable, BlockProducer.Covered, BlockProducer.Reach;
    p.StartAsyncFlush();
    p.WorkerStep(true);
    var _ := p.DrainCompletedFlush();
  }

  // ----- whole runs -----

  /** A message to produce a block from, a step of the persistence thread, or a reset. */
  datatype Event =
    | Message(msgIdx: nat, content: Content, awaitOk: bool, sealed: bool, shouldFlush: bool)
    | Work(ok: bool)
    | Reset(target: nat, flushOk: bool, unwindOk: bool)

  /** No flush or unwind fails and no block is abandoned half way. */
  predicate Sound(e: Event) {
    match e
    case Message(_, _, awaitOk, sealed, _) => awaitOk && sealed
    case Work(ok) => ok
    case Reset(_, flushOk, unwindOk) => flushOk && unwindOk
  }

  /** A block's hash determines its number. */
  ghost predicate HashesFix(numberOf: nat -> nat, blocks: seq<Block>) {
    forall b :: b in blocks ==> numberOf(b.content.hash) == b.number
  }

  /** Where a producer stands: its head, and how far the disk will reach. */
  datatype Standing = Standing(head: nat, reach: int)

  ghost function StandingOf(p: BlockProducer): Standing
    reads p, p.worker
  {
    Standing(p.head, p.Reach())
  }

  /** Nothing fails, and a reset keeps no block that neither disk nor outstanding flush has. */
  predicate Harmless(s: Standing, e: Event) {
    Sound(e) && (e.Reset? && e.target < s.head ==> e.target <= s.reach)
  }

  /** The head after an event, when every block is on disk or in memory. */
  function HeadAfter(head: nat, e: Event): nat {
    match e
    case Message(msgIdx, _, _, sealed, _) => if msgIdx == head + 1 && sealed then msgIdx else head
    case Work(_) => head
    case Reset(target, _, _) => if target <= head then target else head
  }

  function HeadBefore(head: nat, events: seq<Event>, i: nat): nat
    requires i <= |events|
  {
    if i == 0 then head else HeadAfter(HeadBefore(head, events, i - 1), events[i - 1])
  }

  lemma ChainBounded(p: BlockProducer)
    requires p.Valid()
    ensures |p.chain| <= p.maxInflight + 1
  {
  }

  /** One executed block: the history it builds on, the disk below it, the overlay it read through and the input of its
      state root. */
  datatype Observation =
    Observation(parents: seq<Block>, block: Block, disk: seq<Block>, overlay: Overlay, input: TrieInput)

  ghost predicate Right(o: Observation) {
    && ReadsRight(o.overlay, o.disk, o.parents)
    && RootInputRight(o.input, o.disk, o.parents + [o.block], o.parents)
  }

  ghost predicate ExecutedOn(parents: seq<Block>, b: Block, seen: seq<Observation>) {
    exists o :: o in seen && o.block == b && o.parents == parents
  }

  /** Every block of a history was there at the start or was executed on the blocks before it. */
  ghost predicate Accounted(blocks: seq<Block>, start: seq<Block>, seen: seq<Observation>) {
    forall i :: 0 <= i < |blocks| ==>
      (i < |start| && blocks[i] == start[i]) || ExecutedOn(blocks[..i], blocks[i], seen)
  }

  lemma AccountedAfter(blocks: seq<Block>, start: seq<Block>, seen: seq<Observation>, more: seq<Observation>)
    requires Accounted(blocks, start, seen)
    ensures Accounted(blocks, start, seen + more)
    ensures forall n: nat :: n <= |blocks| ==> Accounted(blocks[..n], start, seen + more)
    ensures forall o :: o in more && o.parents == blocks ==> Accounted(blocks + [o.block], start, seen + more)
  {
    forall parents, b | ExecutedOn(parents, b, seen)
      ensures ExecutedOn(parents, b, seen + more)
    {
      var o :| o in seen && o.block == b && o.parents == parents;
      assert o in seen + more;
    }
    forall n: nat | n <= |blocks|
      ensures Accounted(blocks[..n], start, seen + more)
    {
      assert forall i :: 0 <= i < n ==> blocks[..n][..i] == blocks[..i];
    }
    forall o | o in more && o.parents == blocks
      ensures Accounted(blocks + [o.block], start, seen + more)
    {
      assert forall i :: 0 <= i <= |blocks| ==> (blocks + [o.block])[..i] == blocks[..i];
      assert o in seen + more && blocks[..|blocks|] == blocks;
    }
  }

  method Step(p: BlockProducer, e: Event, ghost numberOf: nat -> nat) returns (ghost seen: seq<Observation>)
    requires p.Valid()
    requires HashesFix(numberOf, p.produced)
    requires e.Message? ==> numberOf(e.content.hash) == e.msgIdx
    modifies p, p.worker
    ensures p.Valid()
    ensures HashesFix(numberOf, p.produced)
    ensures |seen| == if e.Message? && e.msgIdx == old(p.head) + 1 then 1 else 0
    ensures forall o :: o in seen ==>
      o.parents == old(p.produced) && o.block == Block(e.msgIdx, e.content) && o.disk == p.worker.disk
    ensures p.produced <= old(p.produced) || (seen != [] && p.produced == old(p.produced) + [seen[0].block])
    ensures old(p.Durable()) ==> p.head == HeadAfter(old(p.head), e)
    ensures old(Harmless(StandingOf(p), e) && p.Clean() && p.Durable() && p.Covered() && !p.Failed()) ==>
      && p.Clean() && p.Durable() && p.Covered() && !p.Failed()
      && forall o :: o in seen ==> Right(o)
  {
    hide BlockProducer.QueueOk, BlockProducer.CacheOk, BlockProducer.InputsOk, BlockProducer.Durable;
    hide BlockProducer.Covered, ReadsRight, RootInputRight, Merged, IsSuffix, BlockProducer.Strays, Absorbed;
    seen := [];
    match e {
      case Message(msgIdx, content, awaitOk, sealed, shouldFlush) =>
        ghost var parents := p.produced;
        var r, overlay, input := p.Produce(msgIdx, content, awaitOk, sealed, shouldFlush);
        if r != Unexpected {
          seen := [Observation(parents, Block(msgIdx, content), p.worker.disk, overlay, input)];
        }
      case Work(ok) =>
        if p.worker.requests != [] {
          p.WorkerStep(ok);
        }
      case Reset(target, flushOk, unwindOk) =>
        var _ := p.ResetToBlock(target, flushOk, unwindOk);
    }
  }

  /** Any run keeps the pipeline valid, and every block of the history was executed on the blocks before it. Unless
      something failed or a reset cut below blocks that neither disk nor flush had, the head is what the events make it,
      no block is lost, disk and trie inputs keep covering the history, and every block read the state after its parents
      and had its root computed from the right state. */
  method Run(p: BlockProducer, events: seq<Event>, ghost numberOf: nat -> nat)
      returns (ghost harmless: bool, ghost seen: seq<Observation>, ghost trace: seq<Standing>)
    requires p.Valid()
    requires HashesFix(numberOf, p.produced)
    requires forall e :: e in events && e.Message? ==> numberOf(e.content.hash) == e.msgIdx
    modifies p, p.worker
    ensures p.Valid()
    ensures |p.chain| <= p.maxInflight + 1
    ensures Accounted(p.produced, old(p.produced), seen)
    ensures |trace| == |events| + 1 && trace[0] == old(StandingOf(p)) && trace[|events|] == StandingOf(p)
    ensures harmless <==> forall i :: 0 <= i < |events| ==> Harmless(trace[i], events[i])
    ensures (forall e :: e in events ==> Sound(e) && !e.Reset?) ==> harmless
    ensures harmless && old(p.Clean() && p.Durable() && p.Covered() && !p.Failed()) ==>
      && p.Clean() && p.Durable() && p.Covered() && !p.Failed()
      && (forall o :: o in seen ==> Right(o))
      && (forall i :: 0 <= i <= |events| ==> trace[i].head == HeadBefore(old(p.head), events, i))
  {
    hide BlockProducer.ChainOk, BlockProducer.QueueOk, BlockProducer.CacheOk, BlockProducer.InputsOk;
    hide BlockProducer.Durable, BlockProducer.Covered, BlockProducer.Reach, Right, Merged, Accounted, Harmless, HeadAfter;
    harmless, seen, trace := true, [], [StandingOf(p)];
    StartIsAccounted(p.produced);
    for i := 0 to |events|
      invariant p.Valid()
      invariant HashesFix(numberOf, p.produced)
      invariant Accounted(p.produced, old(p.produced), seen)
      invariant |trace| == i + 1 && trace[0] == old(StandingOf(p)) && trace[i] == StandingOf(p)
      invariant harmless <==> forall j :: 0 <= j < i ==> Harmless(trace[j], events[j])
      invariant harmless && old(p.Clean() && p.Durable() && p.Covered() && !p.Failed()) ==>
        && p.Clean() && p.Durable() && p.Covered() && !p.Failed()
        && (forall o :: o in seen ==> Right(o))
        && (forall j :: 0 <= j <= i ==> trace[j].head == HeadBefore(old(p.head), events, j))
    {
      harmless := harmless && Harmless(trace[i], events[i]);
      ghost var before := p.produced;
      ghost var more := Step(p, events[i], numberOf);
      AccountedAfter(before, old(p.produced), seen, more);
      assert p.produced <= before ==> p.produced == before[..|p.produced|];
      seen := seen + more;
      trace := trace + [StandingOf(p)];
    }
    ChainBounded(p);
    if forall e :: e in events ==> Sound(e) && !e.Reset? {
      SoundIsHarmless(events, trace);
    }
  }

  /** Without failures and resets every run is harmless. */
  lemma SoundIsHarmless(events: seq<Event>, trace: seq<Standing>)
    requires |trace| > |events| && forall e :: e in events ==> Sound(e) && !e.Reset?
    ensures forall i :: 0 <= i < |events| ==> Harmless(trace[i], events[i])
  {
  }

  lemma StartIsAccounted(start: seq<Block>)
    ensures Accounted(start, start, [])
  {
  }

  /** Whatever is in memory when a flush starts is lost when the flush fails and is taken out of memory. */
  method FailedFlushLosesBlocks(p: BlockProducer)
    requires p.Valid() && p.Durable() && !p.pending && p.chain != []
    requires |p.worker.disk| + |p.chain| == |p.produced|
    modifies p, p.worker
    ensures p.Valid() && !p.Durable()
    ensures p.chain == [] && p.worker.disk == old(p.worker.disk) && p.produced == old(p.produced)
  {
    hide BlockProducer.ChainOk, BlockProducer.QueueOk, BlockProducer.CacheOk, BlockProducer.InputsOk;
    hide BlockProducer.Durable, BlockProducer.Covered, BlockProducer.Reach;
    p.StartAsyncFlush();
    p.WorkerStep(false);
    var _ := p.DrainCompletedFlush();
  }
}
