/** The per-transaction overlay of pre-mutation snapshots (crates/arb-evm/src/state_overlay.rs). */
module Overlay {
  import opened Options
  import opened Accounts

  datatype Entry = Entry(previousInfo: Option<AccountInfo>, previousStatus: Status)

  // ----- the decision taken for one recorded account -----

  /** The status an emitted transition must succeed: the bundle's, or the recorded one. */
  function BaseStatus(entry: Entry, held: Option<BundleInfo>): Status {
    if held.Some? then held.value.status else entry.previousStatus
  }

  predicate WasNonExisting(entry: Entry, held: Option<BundleInfo>) {
    && !(held.Some? && held.value.info.Some?)
    && (entry.previousInfo.None? || BaseStatus(entry, held) in {LoadedNotExisting, LoadedEmptyEIP161})
  }

  function SuccessorStatus(base: Status, nowVacant: bool): Option<Status> {
    if nowVacant then
      match base
      case LoadedNotExisting => None
      case DestroyedAgain | DestroyedChanged => Some(DestroyedAgain)
      case _ => Some(Destroyed)
    else
      match base
      case Loaded => Some(Changed)
      case LoadedNotExisting | LoadedEmptyEIP161 => Some(InMemoryChange)
      case DestroyedAgain | Destroyed | DestroyedChanged => Some(DestroyedChanged)
      case other => Some(other)
  }

  /** The transition emitted for one drained account, if any. */
  function Decide(addr: Address, entry: Entry, current: Option<AccountInfo>,
                  held: Option<BundleInfo>, zombie: bool): Option<Transition>
  {
    var preVacant := Vacant(entry.previousInfo);
    var curVacant := Vacant(current);
    if current == entry.previousInfo then
      None
    else if preVacant && curVacant then
      if zombie && current.Some? then
        var previousStatus :=
          if entry.previousInfo.None? then LoadedNotExisting else entry.previousStatus;
        Some(Transition(addr, current, InMemoryChange, entry.previousInfo, previousStatus, false))
      else
        None
    else if WasNonExisting(entry, held) && !curVacant then
      Some(Transition(addr, current, InMemoryChange, entry.previousInfo, entry.previousStatus, false))
    else
      match SuccessorStatus(BaseStatus(entry, held), curVacant)
      case None => None
      case Some(status) =>
        var goesDestroyed := status in {Destroyed, DestroyedAgain};
        Some(Transition(addr, if goesDestroyed then None else current, status,
                        entry.previousInfo, entry.previousStatus, goesDestroyed && !preVacant))
  }

  /** The cached account after the decision. */
  function AccountAfter(t: Option<Transition>, current: CacheAccount): CacheAccount {
    match t
    case None => current
    case Some(t) =>
      CacheAccount(if t.status in {Destroyed, DestroyedAgain} then None else current.account, t.status)
  }

  /** The cache ends up holding what the emitted transition says. */
  lemma CacheFollows(addr: Address, entry: Entry, current: CacheAccount, held: Option<BundleInfo>, zombie: bool)
    ensures
      var t := Decide(addr, entry, current.account, held, zombie);
      AccountAfter(t, current) == if t.Some? then CacheAccount(t.value.info, t.value.status) else current
  {
  }

  /** An account emptied over a base status that says it never existed: its deletion is not emitted. */
  ghost predicate DeletionDropped(entry: Entry, current: Option<AccountInfo>, held: Option<BundleInfo>) {
    && !Vacant(entry.previousInfo)
    && Vacant(current)
    && BaseStatus(entry, held) == LoadedNotExisting
  }

  /** A zombie that was present-empty before the transaction and is gone at its end. */
  ghost predicate ZombieVanished(entry: Entry, current: Option<AccountInfo>, zombie: bool) {
    zombie && entry.previousInfo.Some? && Vacant(entry.previousInfo) && current.None?
  }

  /** Forward, the decision reproduces the cache up to EIP-161 pruning, except in exactly two situations. */
  lemma DecideForward(addr: Address, entry: Entry, current: CacheAccount, held: Option<BundleInfo>, zombie: bool)
    ensures
      var t := Decide(addr, entry, current.account, held, zombie);
      var replayed := if t.Some? then t.value.info else entry.previousInfo;
      (Pruned(replayed, zombie) == Pruned(AccountAfter(t, current).account, zombie))
      <==> !DeletionDropped(entry, current.account, held) && !ZombieVanished(entry, current.account, zombie)
  {
  }

  /** A live account recorded as never having existed and then emptied: nothing is emitted, it replays as live. */
  lemma DeletionDroppedExample()
    ensures
      var entry := Entry(Some(AccountInfo(5, 0, KECCAK_EMPTY)), LoadedNotExisting);
      Decide(1, entry, None, None, false) == None && Pruned(entry.previousInfo, false) != None
  {
  }

  /** A present-empty zombie that is gone at the end replays as present. */
  lemma ZombieVanishedExample()
    ensures
      var entry := Entry(Some(DEFAULT_INFO), Loaded);
      Decide(1, entry, None, None, true) == None && Pruned(entry.previousInfo, true) != None
  {
  }

  /**
   * What an emitted transition looks like: it reverts to the snapshot, it carries the current account
   * or a deletion, and a deletion is exactly what leaves no account behind.
   */
  lemma DecideShape(addr: Address, entry: Entry, current: Option<AccountInfo>, held: Option<BundleInfo>, zombie: bool)
    ensures
      var t := Decide(addr, entry, current, held, zombie);
      t.Some? ==>
        && t.value.addr == addr
        && t.value.previousInfo == entry.previousInfo
        && t.value.previousStatus
           == (if Vacant(current) && zombie && entry.previousInfo.None? then LoadedNotExisting else entry.previousStatus)
        && t.value.info == (if Vacant(current) && !Vacant(entry.previousInfo) then None else current)
        && (t.value.info.None? <==> t.value.status in {Destroyed, DestroyedAgain})
        && (t.value.storageWasDestroyed <==> t.value.info.None? && !Vacant(entry.previousInfo))
        && t.value.status !in {Loaded, LoadedNotExisting, LoadedEmptyEIP161}
  {
  }

  /** Nothing is emitted exactly when nothing changed, when nothing was there and only a zombie could matter, and when a
      deletion is dropped. */
  lemma DecideEmits(addr: Address, entry: Entry, current: Option<AccountInfo>, held: Option<BundleInfo>, zombie: bool)
    ensures
      Decide(addr, entry, current, held, zombie).None? <==>
        || current == entry.previousInfo
        || (Vacant(entry.previousInfo) && Vacant(current) && !(zombie && current.Some?))
        || DeletionDropped(entry, current, held)
  {
  }

  /** A non-empty result is always emitted unless nothing changed, and never as a deletion. */
  lemma DecideKeepsLive(addr: Address, entry: Entry, current: Option<AccountInfo>, held: Option<BundleInfo>, zombie: bool)
    requires !Vacant(current) && current != entry.previousInfo
    ensures
      var t := Decide(addr, entry, current, held, zombie);
      t.Some? && t.value.info == current
  {
  }

  /** A zombie resurrected from absence persists as present-empty and reverts to absent, whatever its stale status. */
  lemma ResurrectionRevertsToAbsent(addr: Address, entry: Entry, current: Option<AccountInfo>, held: Option<BundleInfo>)
    requires entry.previousInfo.None? && current.Some? && IsEmpty(current.value)
    ensures Decide(addr, entry, current, held, true)
         == Some(Transition(addr, current, InMemoryChange, None, LoadedNotExisting, false))
    ensures Decide(addr, entry, current, held, false) == None
  {
  }

  /** The statuses revm moves to from the status a bundle holds. */
  predicate Succeeds(status: Status, held: Status) {
    match status
    case Changed => held in {Loaded, Changed}
    case InMemoryChange => held in {LoadedNotExisting, LoadedEmptyEIP161, InMemoryChange}
    case DestroyedChanged => held in {Destroyed, DestroyedChanged, DestroyedAgain}
    case DestroyedAgain => held in {DestroyedChanged, DestroyedAgain}
    case Destroyed => held !in {LoadedNotExisting, DestroyedChanged, DestroyedAgain}
    case _ => false
  }

  /** The account is emitted as created: a zombie resurrected, or one that neither bundle nor snapshot has. */
  ghost predicate EmittedAsCreated(entry: Entry, current: Option<AccountInfo>, held: BundleInfo, zombie: bool) {
    || (Vacant(entry.previousInfo) && Vacant(current) && zombie)
    || (!Vacant(current) && held.info.None? && entry.previousInfo.None?)
  }

  /** The emitted status is a successor of the one the bundle holds, unless an account is emitted as created over a status
      that says it existed. */
  lemma DecideSucceedsBundle(addr: Address, entry: Entry, current: Option<AccountInfo>, held: BundleInfo, zombie: bool)
    ensures
      var t := Decide(addr, entry, current, Some(held), zombie);
      t.Some? ==>
        (Succeeds(t.value.status, held.status)
         <==> !(EmittedAsCreated(entry, current, held, zombie)
                && held.status !in {LoadedNotExisting, LoadedEmptyEIP161, InMemoryChange}))
  {
  }

  /** Without a bundle entry the emitted status is a successor of the recorded one, with the same exception. */
  lemma DecideSucceedsRecorded(addr: Address, entry: Entry, current: Option<AccountInfo>, zombie: bool)
    ensures
      var t := Decide(addr, entry, current, None, zombie);
      t.Some? ==>
        (Succeeds(t.value.status, entry.previousStatus)
         <==> !(EmittedAsCreated(entry, current, BundleInfo(None, entry.previousStatus), zombie)
                && entry.previousStatus !in {LoadedNotExisting, LoadedEmptyEIP161, InMemoryChange}))
  {
  }

  /**
   * An account live before and after keeps its storage: the emitted status wipes what lies below exactly when the status it
   * follows does, for in-memory readers unless that one calls the account loaded as empty, and for the hashed diff always.
   */
  lemma DecideKeepsStorage(addr: Address, entry: Entry, current: Option<AccountInfo>, held: Option<BundleInfo>, zombie: bool)
    requires !Vacant(entry.previousInfo) && !Vacant(current)
    ensures
      var t, base := Decide(addr, entry, current, held, zombie), BaseStatus(entry, held);
      t.Some? ==>
        && ((IsStorageKnown(t.value.status) <==> IsStorageKnown(base)) <==> base != LoadedEmptyEIP161)
        && (WasDestroyed(t.value.status) <==> WasDestroyed(base))
  {
  }

  /** An account the bundle destroyed is re-created over its status, and so is a zombie. */
  lemma CreatedOverDestroyedExample()
    ensures
      var live := Some(AccountInfo(5, 0, KECCAK_EMPTY));
      var t := Decide(1, Entry(None, Destroyed), live, Some(BundleInfo(None, Destroyed)), false);
      var z := Decide(1, Entry(None, Destroyed), Some(DEFAULT_INFO), Some(BundleInfo(None, DestroyedChanged)), true);
      && t.Some? && t.value.status == InMemoryChange && !Succeeds(t.value.status, Destroyed)
      && z.Some? && z.value.status == InMemoryChange && !Succeeds(z.value.status, DestroyedChanged)
  {
  }

  // ----- replaying transitions -----

  /** The account at `a` after replaying `info` forward over `x`. */
  ghost function ReplayAt(x: Option<AccountInfo>, ts: seq<Transition>, a: Address): Option<AccountInfo> {
    if ts == [] then x
    else
      var t := ts[|ts| - 1];
      if t.addr == a then t.info else ReplayAt(x, ts[..|ts| - 1], a)
  }

  /** The account at `a` after replaying `previousInfo` backward over `x`, newest transition first. */
  ghost function RevertAt(x: Option<AccountInfo>, ts: seq<Transition>, a: Address): Option<AccountInfo> {
    if ts == [] then x
    else if ts[0].addr == a then ts[0].previousInfo
    else RevertAt(x, ts[1..], a)
  }

  ghost predicate Mentions(ts: seq<Transition>, a: Address) {
    exists i :: 0 <= i < |ts| && ts[i].addr == a
  }

  ghost predicate OnePerAccount(ts: seq<Transition>) {
    forall i, j :: 0 <= i < j < |ts| ==> ts[i].addr != ts[j].addr
  }

  lemma {:induction false} ReplayUnmentioned(x: Option<AccountInfo>, ts: seq<Transition>, a: Address)
    requires !Mentions(ts, a)
    ensures ReplayAt(x, ts, a) == x
  {
    if ts != [] {
      ReplayUnmentioned(x, ts[..|ts| - 1], a);
    }
  }

  lemma {:induction false} RevertUnmentioned(x: Option<AccountInfo>, ts: seq<Transition>, a: Address)
    requires !Mentions(ts, a)
    ensures RevertAt(x, ts, a) == x
  {
    if ts != [] {
      RevertUnmentioned(x, ts[1..], a);
    }
  }

  lemma {:induction false} ReplaySole(x: Option<AccountInfo>, ts: seq<Transition>, i: nat)
    requires i < |ts| && OnePerAccount(ts)
    ensures ReplayAt(x, ts, ts[i].addr) == ts[i].info
  {
    if i < |ts| - 1 {
      ReplaySole(x, ts[..|ts| - 1], i);
    }
  }

  lemma {:induction false} RevertFirst(x: Option<AccountInfo>, ts: seq<Transition>, i: nat)
    requires i < |ts| && forall j :: 0 <= j < i ==> ts[j].addr != ts[i].addr
    ensures RevertAt(x, ts, ts[i].addr) == ts[i].previousInfo
  {
    if i > 0 {
      RevertFirst(x, ts[1..], i - 1);
    }
  }

  lemma {:induction false} ReplayAppend(x: Option<AccountInfo>, ts: seq<Transition>, us: seq<Transition>, a: Address)
    ensures ReplayAt(x, ts + us, a) == ReplayAt(ReplayAt(x, ts, a), us, a)
  {
    if us == [] {
      assert ts + us == ts;
    } else {
      assert (ts + us)[..|ts + us| - 1] == ts + us[..|us| - 1];
      ReplayAppend(x, ts, us[..|us| - 1], a);
    }
  }

  lemma {:induction false} RevertAppend(x: Option<AccountInfo>, ts: seq<Transition>, us: seq<Transition>, a: Address)
    ensures RevertAt(x, ts + us, a) == RevertAt(RevertAt(x, us, a), ts, a)
  {
    if ts == [] {
      assert ts + us == us;
    } else {
      assert (ts + us)[1..] == ts[1..] + us;
      RevertAppend(x, ts[1..], us, a);
    }
  }

  // ----- draining a whole overlay -----

  function Held(bundle: map<Address, BundleInfo>, a: Address): Option<BundleInfo> {
    if a in bundle then Some(bundle[a]) else None
  }

  /** The decision for recorded account `a`. */
  function DecideAt(entries: map<Address, Entry>, cache: map<Address, CacheAccount>,
                    bundle: map<Address, BundleInfo>, zombies: set<Address>, a: Address): Option<Transition>
    requires a in entries && a in cache
  {
    Decide(a, entries[a], cache[a].account, Held(bundle, a), a in zombies)
  }

  /** `emitted` and `after` are what draining `entries` over `before` produces, in whatever order it iterates. */
  ghost predicate Drained(entries: map<Address, Entry>, before: map<Address, CacheAccount>,
                          bundle: map<Address, BundleInfo>, zombies: set<Address>,
                          done: set<Address>, after: map<Address, CacheAccount>, emitted: seq<Transition>)
    requires entries.Keys <= before.Keys && done <= entries.Keys
  {
    && after.Keys == before.Keys
    && OnePerAccount(emitted)
    && (forall a :: a in before.Keys - done ==> after[a] == before[a])
    && (forall a :: a in done ==> after[a] == AccountAfter(DecideAt(entries, before, bundle, zombies, a), before[a]))
    && (forall a :: a in done && DecideAt(entries, before, bundle, zombies, a).Some? ==> Mentions(emitted, a))
    && (forall i :: 0 <= i < |emitted| ==>
          && emitted[i].addr in done
          && DecideAt(entries, before, bundle, zombies, emitted[i].addr) == Some(emitted[i]))
  }

  lemma DrainStart(entries: map<Address, Entry>, cache: map<Address, CacheAccount>,
                   bundle: map<Address, BundleInfo>, zombies: set<Address>)
    requires entries.Keys <= cache.Keys
    ensures Drained(entries, cache, bundle, zombies, {}, cache, [])
  {
  }

  lemma UndrainedCurrent(entries: map<Address, Entry>, before: map<Address, CacheAccount>,
                         bundle: map<Address, BundleInfo>, zombies: set<Address>,
                         done: set<Address>, after: map<Address, CacheAccount>, emitted: seq<Transition>, a: Address)
    requires entries.Keys <= before.Keys && done <= entries.Keys && a in entries.Keys - done
    requires Drained(entries, before, bundle, zombies, done, after, emitted)
    ensures a in after && after[a] == before[a]
  {
  }

  /** Draining one more account extends the drained part by it. */
  lemma DrainOne(entries: map<Address, Entry>, before: map<Address, CacheAccount>,
                 bundle: map<Address, BundleInfo>, zombies: set<Address>,
                 done: set<Address>, after: map<Address, CacheAccount>, emitted: seq<Transition>, a: Address)
    requires entries.Keys <= before.Keys && done <= entries.Keys && a in entries.Keys - done
    requires Drained(entries, before, bundle, zombies, done, after, emitted)
    ensures
      var t := DecideAt(entries, before, bundle, zombies, a);
      Drained(entries, before, bundle, zombies, done + {a}, after[a := AccountAfter(t, after[a])],
              if t.Some? then emitted + [t.value] else emitted)
  {
    var t := DecideAt(entries, before, bundle, zombies, a);
    DecideShape(a, entries[a], before[a].account, Held(bundle, a), a in zombies);
    if t.Some? {
      var emitted' := emitted + [t.value];
      assert emitted'[|emitted|] == t.value;
      forall x | Mentions(emitted, x)
        ensures Mentions(emitted', x)
      {
        var i :| 0 <= i < |emitted| && emitted[i].addr == x;
        assert emitted'[i].addr == x;
      }
    }
  }

  /** The account before the first recorded write. */
  ghost function Baseline(entries: map<Address, Entry>, db: map<Address, AccountInfo>,
                          cache: map<Address, CacheAccount>, a: Address): Option<AccountInfo>
  {
    if a in entries then entries[a].previousInfo else Seen(db, cache, a).account
  }

  /**
   * Replaying the drained transitions over the baseline of `a` gives its cached account up to EIP-161 pruning,
   * exactly when neither failing situation arises, and reverting them always gives the baseline back.
   */
  ghost predicate ReplaysBothWays(entries: map<Address, Entry>, db: map<Address, AccountInfo>,
                                  before: map<Address, CacheAccount>, bundle: map<Address, BundleInfo>,
                                  zombies: set<Address>, after: map<Address, CacheAccount>,
                                  emitted: seq<Transition>, a: Address)
    requires entries.Keys <= before.Keys
  {
    var baseline := Baseline(entries, db, before, a);
    var replayed := ReplayAt(baseline, emitted, a);
    && (Pruned(replayed, a in zombies) == Pruned(Seen(db, after, a).account, a in zombies)
        <==> (a in entries ==>
                && !DeletionDropped(entries[a], before[a].account, Held(bundle, a))
                && !ZombieVanished(entries[a], before[a].account, a in zombies)))
    && RevertAt(replayed, emitted, a) == baseline
  }

  lemma DrainReplays(entries: map<Address, Entry>, db: map<Address, AccountInfo>, before: map<Address, CacheAccount>,
                     bundle: map<Address, BundleInfo>, zombies: set<Address>,
                     after: map<Address, CacheAccount>, emitted: seq<Transition>, a: Address)
    requires entries.Keys <= before.Keys
    requires Drained(entries, before, bundle, zombies, entries.Keys, after, emitted)
    ensures ReplaysBothWays(entries, db, before, bundle, zombies, after, emitted, a)
  {
    var baseline := Baseline(entries, db, before, a);
    var replayed := ReplayAt(baseline, emitted, a);
    if Mentions(emitted, a) {
      var i :| 0 <= i < |emitted| && emitted[i].addr == a;
      ReplaySole(baseline, emitted, i);
      RevertFirst(replayed, emitted, i);
    } else {
      ReplayUnmentioned(baseline, emitted, a);
      RevertUnmentioned(replayed, emitted, a);
    }
    if a in entries {
      DecideForward(a, entries[a], before[a], Held(bundle, a), a in zombies);
    }
  }

  class StateOverlay {
    var entries: map<Address, Entry>

    constructor ()
      ensures entries == map[]
    {
      entries := map[];
    }

    /** Forgets every snapshot; what was written since stays written. */
    method ResetTx()
      modifies this`entries
      ensures entries == map[]
    {
      entries := map[];
    }

    /** Snapshots an account before its first write: no read changes, and neither does any baseline. */
    method RecordPreTouch(state: State, addr: Address)
      requires entries.Keys <= state.cache.Keys
      modifies this`entries, state`cache
      ensures addr in entries && entries.Keys == old(entries.Keys) + {addr}
      ensures entries.Keys <= state.cache.Keys == old(state.cache.Keys) + {addr}
      ensures forall a :: a in old(entries) ==> entries[a] == old(entries)[a]
      ensures addr !in old(entries) ==>
                var was := old(Seen(state.db, state.cache, addr));
                entries[addr] == Entry(was.account, was.status)
      ensures forall a :: Seen(state.db, state.cache, a) == old(Seen(state.db, state.cache, a))
      ensures forall a :: Baseline(entries, state.db, state.cache, a)
                       == old(Baseline(entries, state.db, state.cache, a))
    {
      if addr in entries {
        return;
      }
      state.LoadCacheAccount(addr);
      var cached := state.cache[addr];
      entries := entries[addr := Entry(cached.account, cached.status)];
    }

    /** Emits the recorded accounts as transitions, at most one each, and empties the overlay. */
    method DrainAndApply(state: State, zombies: set<Address>) returns (ghost emitted: seq<Transition>)
      requires entries.Keys <= state.cache.Keys
      modifies this`entries, state`cache, state`transitions
      ensures entries == map[]
      ensures state.transitions == old(state.transitions) + emitted
      ensures Drained(old(entries), old(state.cache), state.bundle, zombies,
                      old(entries.Keys), state.cache, emitted)
      ensures forall a :: ReplaysBothWays(old(entries), state.db, old(state.cache), state.bundle, zombies,
                                          state.cache, emitted, a)
    {
      hide Drained, ReplaysBothWays;
      var recorded := entries;
      entries := map[];
      var todo := recorded.Keys;
      var transitions: seq<Transition> := [];
      DrainStart(recorded, state.cache, state.bundle, zombies);
      assert recorded.Keys - todo == {};
      while todo != {}
        invariant todo <= recorded.Keys
        invariant Drained(recorded, old(state.cache), state.bundle, zombies,
                          recorded.Keys - todo, state.cache, transitions)
        modifies state`cache
        decreases todo
      {
        var a :| a in todo;
        ghost var before := state.cache;
        UndrainedCurrent(recorded, old(state.cache), state.bundle, zombies, recorded.Keys - todo, before, transitions, a);
        var current := state.cache[a];
        var t := Decide(a, recorded[a], current.account, Held(state.bundle, a), a in zombies);
        state.cache := state.cache[a := AccountAfter(t, current)];
        DrainOne(recorded, old(state.cache), state.bundle, zombies, recorded.Keys - todo, before, transitions, a);
        if t.Some? {
          transitions := transitions + [t.value];
        }
        assert recorded.Keys - (todo - {a}) == (recorded.Keys - todo) + {a};
        todo := todo - {a};
      }
      assert recorded.Keys - todo == recorded.Keys;
      state.ApplyTransition(transitions);
      emitted := transitions;
      forall a
        ensures ReplaysBothWays(recorded, state.db, old(state.cache), state.bundle, zombies, state.cache, emitted, a)
      {
        DrainReplays(recorded, state.db, old(state.cache), state.bundle, zombies, state.cache, emitted, a);
      }
    }
  }
}
