/** The cache of the last 256 L2 block hashes, shared by all blocks (crates/arb-context/src/lib.rs,
    crates/arb-evm/src/build.rs, crates/arb-node/src/producer.rs). */
module BlockHashes {
  import opened Options
  import opened Machine

  const WINDOW: nat := 256

  datatype Header = Header(hash: nat, parentHash: nat)

  /** Every cached height below `height` holds the canonical hash. */
  ghost predicate Canonical(cache: map<nat, nat>, chain: seq<nat>, height: nat)
    requires height <= |chain|
  {
    forall n :: n in cache && n < height ==> cache[n] == chain[n]
  }

  /** The heights that a block at height `current` may ask for. */
  predicate InWindow(n: nat, current: nat) {
    n < current <= n + WINDOW
  }

  ghost predicate WindowFull(cache: map<nat, nat>, current: nat) {
    forall n: nat :: InWindow(n, current) ==> n in cache
  }

  /** Every height from `n` up to the grandparent is cached or known to the provider. */
  ghost predicate NoGap(cache: map<nat, nat>, lookup: nat -> Option<nat>, n: nat, current: nat) {
    forall m: nat :: n <= m && m + 1 < current ==> m in cache || lookup(m).Some?
  }

  /** The provider answers with canonical hashes or not at all. */
  ghost predicate Truthful(lookup: nat -> Option<nat>, chain: seq<nat>) {
    forall n: nat :: n < |chain| && lookup(n).Some? ==> lookup(n).value == chain[n]
  }

  ghost predicate TruthfulHeaders(headers: nat -> Option<Header>, chain: seq<nat>) {
    forall n: nat :: 0 < n < |chain| && headers(n).Some? ==> headers(n).value == Header(chain[n], chain[n - 1])
  }

  class ChainCaches {
    var hashes: map<nat, nat>

    constructor ()
      ensures hashes == map[]
    {
      hashes := map[];
    }

    /** Records a hash and forgets the heights more than 256 below it. */
    method CacheHash(n: nat, hash: nat)
      modifies this
      ensures n in hashes && hashes[n] == hash
      ensures forall k :: k != n ==> (k in hashes <==> k in old(hashes) && n <= k + WINDOW)
      ensures forall k :: k != n && k in hashes ==> hashes[k] == old(hashes)[k]
    {
      hashes := hashes[n := hash];
      if n > WINDOW {
        hashes := map k | k in hashes && k >= n - WINDOW :: hashes[k];
      }
    }

    /** Fills the window below `current`: the parent, then older heights from `lookup` until it has no answer. */
    method PopulateWindow(current: nat, parentHash: nat, lookup: nat -> Option<nat>, ghost chain: seq<nat>)
      requires current <= |chain| && Canonical(hashes, chain, SatSub(current, 1))
      requires current > 0 ==> parentHash == chain[current - 1]
      requires Truthful(lookup, chain)
      modifies this
      ensures Canonical(hashes, chain, current)
      ensures forall n: nat :: InWindow(n, current) && n in old(hashes) ==> n in hashes
      ensures forall n: nat :: InWindow(n, current) && n in old(hashes) && n + 1 < current ==> hashes[n] == old(hashes)[n]
      ensures forall n: nat :: InWindow(n, current) && NoGap(old(hashes), lookup, n, current) ==> n in hashes
      ensures current == 0 ==> hashes == old(hashes)
    {
      if current == 0 {
        return;
      }
      CacheHash(current - 1, parentHash);
      var offset := 2;
      while offset <= WINDOW && offset <= current
        invariant 2 <= offset <= WINDOW + 1
        invariant Canonical(hashes, chain, current)
        invariant current - 1 in hashes
        invariant forall n: nat :: InWindow(n, current) && n in old(hashes) ==> n in hashes
        invariant forall n: nat :: InWindow(n, current) && n in hashes && n + offset <= current ==> n in old(hashes)
        invariant forall n: nat :: InWindow(n, current) && n in old(hashes) && n + 1 < current ==> hashes[n] == old(hashes)[n]
        invariant forall n: nat :: InWindow(n, current) && n + offset > current ==> n in hashes
      {
        var n := current - offset;
        if n !in hashes {
          var found := lookup(n);
          if found.None? {
            break;
          }
          CacheHash(n, found.value);
        }
        offset := offset + 1;
      }
    }

    /** The hashes the producer adds: the parent's and, when the grandparent's is missing, those found by following the
        headers back until one is missing. */
    method AncestorHashes(chain: seq<nat>, headers: nat -> Option<Header>) returns (entries: seq<(nat, nat)>)
      requires chain != []
      requires TruthfulHeaders(headers, chain)
      ensures forall e :: e in entries ==> InWindow(e.0, |chain|) && e.1 == chain[e.0]
      ensures (|chain| - 1, chain[|chain| - 1]) in entries
      ensures |chain| > 2 && |chain| - 2 !in hashes && (forall n: nat :: InWindow(n, |chain|) ==> headers(n).Some?) ==>
        forall n: nat :: InWindow(n, |chain|) ==> (n, chain[n]) in entries
    {
      var current := |chain|;
      var parent := current - 1;
      entries := [(parent, chain[parent])];
      if parent > 1 && parent - 1 !in hashes {
        var hash := chain[parent - 1];
        var i := 2;
        while i <= WINDOW && i <= current
          invariant 2 <= i
          invariant i <= current ==> hash == chain[current - i]
          invariant forall e :: e in entries ==> InWindow(e.0, current) && e.1 == chain[e.0]
          invariant (parent, chain[parent]) in entries
          invariant forall n: nat :: InWindow(n, current) && n + i > current ==> (n, chain[n]) in entries
        {
          var n := current - i;
          entries := entries + [(n, hash)];
          var header := headers(n);
          if header.None? || n == 0 {
            break;
          }
          hash := header.value.parentHash;
          i := i + 1;
        }
      }
    }

    /** Everything the start of a block does to the cache, for a block on top of `chain`. */
    method BeginBlock(chain: seq<nat>, lookup: nat -> Option<nat>, headers: nat -> Option<Header>)
      requires chain != [] && Canonical(hashes, chain, |chain| - 1)
      requires Truthful(lookup, chain) && TruthfulHeaders(headers, chain)
      modifies this
      ensures Canonical(hashes, chain, |chain|)
      ensures forall n: nat :: InWindow(n, |chain|) && n in old(hashes) ==> n in hashes
      ensures |chain| - 1 in hashes
      ensures (forall n: nat :: InWindow(n, |chain|) ==> lookup(n).Some?) ==> WindowFull(hashes, |chain|)
      ensures |chain| > 2 && |chain| - 2 !in old(hashes) && (forall n: nat :: InWindow(n, |chain|) ==> headers(n).Some?) ==>
        WindowFull(hashes, |chain|)
    {
      hide Truthful, TruthfulHeaders, Canonical;
      var entries := AncestorHashes(chain, headers);
      PopulateWindow(|chain|, chain[|chain| - 1], lookup, chain);
      CacheAll(entries, chain);
    }

    method CacheAll(entries: seq<(nat, nat)>, ghost chain: seq<nat>)
      requires Canonical(hashes, chain, |chain|)
      requires forall e :: e in entries ==> InWindow(e.0, |chain|) && e.1 == chain[e.0]
      modifies this
      ensures Canonical(hashes, chain, |chain|)
      ensures forall n: nat :: InWindow(n, |chain|) && n in old(hashes) ==> n in hashes
      ensures forall e :: e in entries ==> e.0 in hashes
    {
      for i := 0 to |entries|
        invariant Canonical(hashes, chain, |chain|)
        invariant forall n: nat :: InWindow(n, |chain|) && n in old(hashes) ==> n in hashes
        invariant forall e :: e in entries[..i] ==> e.0 in hashes
      {
        assert entries[i] in entries;
        CacheHash(entries[i].0, entries[i].1);
      }
      assert entries[..|entries|] == entries;
    }
  }

  /** A block added on top, or the chain cut back to a height. */
  datatype Event =
    | Produce(hash: nat, lookup: nat -> Option<nat>, headers: nat -> Option<Header>)
    | Reset(target: nat)

  ghost function After(chain: seq<nat>, e: Event): seq<nat> {
    match e
    case Produce(hash, _, _) => chain + [hash]
    case Reset(target) => if target < |chain| then chain[..target + 1] else chain
  }

  /** The chain after some events. */
  ghost function ChainAfter(chain: seq<nat>, events: seq<Event>): seq<nat> {
    if events == [] then chain
    else After(ChainAfter(chain, events[..|events| - 1]), events[|events| - 1])
  }

  ghost predicate ProvidedAt(chain: seq<nat>, e: Event) {
    e.Produce? ==> Truthful(e.lookup, chain) && TruthfulHeaders(e.headers, chain)
  }

  /** Whenever a block is produced its provider knows only the chain it builds on. */
  ghost predicate Provided(chain: seq<nat>, events: seq<Event>) {
    forall i :: 0 <= i < |events| ==> ProvidedAt(ChainAfter(chain, events[..i]), events[i])
  }

  method Step(caches: ChainCaches, chain: seq<nat>, e: Event) returns (next: seq<nat>)
    requires chain != [] && Canonical(caches.hashes, chain, |chain| - 1)
    requires ProvidedAt(chain, e)
    modifies caches
    ensures next == After(chain, e) && next != []
    ensures Canonical(caches.hashes, next, |next| - 1)
    ensures e.Produce? && old(WindowFull(caches.hashes, |chain| - 1)) ==> WindowFull(caches.hashes, |next| - 1)
  {
    hide Truthful, TruthfulHeaders;
    next := chain;
    match e {
      case Produce(hash, lookup, headers) =>
        caches.BeginBlock(chain, lookup, headers);
        next := chain + [hash];
      case Reset(target) =>
        if target < |chain| {
          next := chain[..target + 1];
        }
    }
  }

  /** Over any run that shares one cache, the hashes below the head stay canonical, and without resets a full window
      stays full whatever the providers answer. */
  method Run(caches: ChainCaches, chain: seq<nat>, events: seq<Event>) returns (end: seq<nat>)
    requires chain != [] && Canonical(caches.hashes, chain, |chain| - 1)
    requires Provided(chain, events)
    modifies caches
    ensures end == ChainAfter(chain, events) && end != []
    ensures Canonical(caches.hashes, end, |end| - 1)
    ensures (forall e :: e in events ==> e.Produce?) && old(WindowFull(caches.hashes, |chain| - 1)) ==>
      WindowFull(caches.hashes, |end| - 1)
  {
    hide Canonical, WindowFull, ProvidedAt, After;
    end := chain;
    for i := 0 to |events|
      invariant end == ChainAfter(chain, events[..i]) && end != []
      invariant Canonical(caches.hashes, end, |end| - 1)
      invariant (forall e :: e in events[..i] ==> e.Produce?) && old(WindowFull(caches.hashes, |chain| - 1)) ==>
        WindowFull(caches.hashes, |end| - 1)
    {
      assert events[..i + 1][..i] == events[..i];
      assert events[..i + 1] == events[..i] + [events[i]];
      end := Step(caches, end, events[i]);
    }
    assert events[..|events|] == events;
  }
}
