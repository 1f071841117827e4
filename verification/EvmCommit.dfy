/**
 * What happens to the block's bookkeeping when the EVM commits its own changes, when the overlay is drained in the
 * middle of a transaction, and when its snapshots are forgotten (crates/arb-evm/src/build.rs).
 */
module EvmCommit {
  import opened Machine
  import opened Options
  import opened Accounts
  import opened Overlay
  import opened Executor

  // ----- the EVM's own commit -----

  /** What the EVM leaves of an account it touched: a live account, or an empty one that state clearing removes. */
  datatype EvmWrite = Written(info: AccountInfo, status: Status) | Cleared

  predicate Lawful(w: EvmWrite) {
    w.Written? ==> w.info.codeHash != 0 && !IsEmpty(w.info) && w.status in {Changed, InMemoryChange, DestroyedChanged}
  }

  function WrittenInfo(w: EvmWrite): Option<AccountInfo> {
    if w.Written? then Some(w.info) else None
  }

  /** revm's status of a touched empty account. */
  function ClearedStatus(s: Status): Status {
    match s
    case LoadedNotExisting => LoadedNotExisting
    case DestroyedAgain | DestroyedChanged => DestroyedAgain
    case _ => Destroyed
  }

  function AccountWritten(w: EvmWrite, c: CacheAccount): CacheAccount {
    if w.Written? then CacheAccount(Some(w.info), w.status) else CacheAccount(None, ClearedStatus(c.status))
  }

  /** revm's transition for a touched account; clearing one that its status calls gone emits none. */
  function EvmTransition(a: Address, w: EvmWrite, c: CacheAccount): Option<Transition> {
    if w.Cleared? && IsGone(c.status) then None
    else Some(Transition(a, WrittenInfo(w), AccountWritten(w, c).status, c.account, c.status, w.Cleared?))
  }

  /** Clearing an account moves it to a status that succeeds its own, or leaves one that is already gone as it is. */
  lemma ClearedSucceeds(a: Address, c: CacheAccount)
    ensures
      var t, after := EvmTransition(a, Cleared, c), AccountWritten(Cleared, c);
      && (t.Some? ==> Succeeds(t.value.status, c.status) && t.value.status == after.status && t.value.info.None?)
      && (t.None? ==> after.status == c.status && c.status in {LoadedNotExisting, Destroyed, DestroyedAgain})
  {
  }

  function AsSeq(t: Option<Transition>): (r: seq<Transition>)
    ensures OnePerAccount(r)
  {
    if t.Some? then [t.value] else []
  }

  /** The EVM's write of an account keeps its bookkeeping and, when it is emitted, brings it back in step. */
  lemma EvmKeepsConsistent(o: Option<AccountInfo>, ts: seq<Transition>, a: Address, c: CacheAccount, w: EvmWrite,
                           zombie: bool, drifted: bool, unmoored: bool)
    requires Consistent(o, ts, a, None, c, zombie, drifted, unmoored) && Lawful(w)
    ensures
      var t := EvmTransition(a, w, c);
      Consistent(o, ts + AsSeq(t), a, None, AccountWritten(w, c), zombie,
                 t.None? && Pruned(ReplayAt(o, ts, a), false) != None, unmoored)
  {
    var t := EvmTransition(a, w, c);
    if t.Some? {
      assert AsSeq(t)[0] == t.value;
    } else {
      assert ts + AsSeq(t) == ts;
    }
    AppendOne(o, ts, AsSeq(t), a, t);
    if !Mentions(ts, a) {
      ReplayUnmentioned(o, ts, a);
    }
  }

  /** An account in step that its status calls gone is not there, nor do its transitions replay to anything. */
  lemma ClearedInStep(o: Option<AccountInfo>, ts: seq<Transition>, a: Address, c: CacheAccount,
                      zombie: bool, drifted: bool, unmoored: bool)
    requires Consistent(o, ts, a, None, c, zombie, drifted, unmoored)
    ensures IsGone(c.status) && !drifted && !unmoored ==> c.account.None? && Pruned(ReplayAt(o, ts, a), false) == None
  {
  }

  lemma OthersKeepConsistent(o: Option<AccountInfo>, ts: seq<Transition>, us: seq<Transition>, a: Address,
                             e: Option<Entry>, c: CacheAccount, zombie: bool, drifted: bool, unmoored: bool)
    requires Consistent(o, ts, a, e, c, zombie, drifted, unmoored)
    requires OnePerAccount(us) && !Mentions(us, a)
    ensures Consistent(o, ts + us, a, e, c, zombie, drifted, unmoored)
  {
    AppendOne(o, ts, us, a, None);
  }

  /** One account of the EVM's commit. */
  method WriteByEvm(x: ArbBlockExecutor, a: Address, w: EvmWrite)
    requires x.Valid() && a !in x.overlay.entries && Lawful(w)
    modifies x`drifted, x.state
    ensures x.Valid()
    ensures x.state.View(a) == WrittenInfo(w)
    ensures forall b: Address :: b != a ==> x.state.View(b) == old(x.state.View(b))
    ensures x.drifted <= old(x.drifted) + x.unmoored && (w.Written? ==> a !in x.drifted)
    ensures forall b: Address :: b != a ==> (b in x.drifted <==> b in old(x.drifted))
  {
    hide Consistent;
    x.state.LoadCacheAccount(a);
    var c := x.state.cache[a];
    var t := EvmTransition(a, w, c);
    x.state.cache := x.state.cache[a := AccountWritten(w, c)];
    x.state.ApplyTransition(AsSeq(t));
    ghost var ts := old(x.state.transitions);
    ghost var strays := t.None? && Pruned(ReplayAt(x.Original(a), ts, a), false) != None;
    x.drifted := if strays then x.drifted + {a} else x.drifted - {a};
    assert old(x.ConsistentAt(a));
    assert strays ==> a in old(x.drifted) + x.unmoored by {
      ClearedInStep(x.Original(a), ts, a, c, a in x.zombies, a in old(x.drifted), a in x.unmoored);
    }
    forall b: Address
      ensures x.ConsistentAt(b)
    {
      assert old(x.ConsistentAt(b));
      if b == a {
        EvmKeepsConsistent(x.Original(a), ts, a, c, w, a in x.zombies, a in old(x.drifted), a in x.unmoored);
      } else {
        OthersKeepConsistent(x.Original(b), ts, AsSeq(t), b, EntryAt(x.overlay.entries, b),
                             Seen(x.state.db, old(x.state.cache), b), b in x.zombies, b in old(x.drifted), b in x.unmoored);
      }
    }
  }

  /** The EVM's commit of everything it touched, in any order; Finalise will look at all of it. */
  method CommitEvm(x: ArbBlockExecutor, writes: map<Address, EvmWrite>)
    requires x.Valid() && x.AllTouched()
    requires writes.Keys !! x.overlay.entries.Keys
    requires forall a :: a in writes ==> Lawful(writes[a])
    modifies x`touched, x`drifted, x.state
    ensures x.Valid() && x.AllTouched()
    ensures x.touched == old(x.touched) + writes.Keys
    ensures forall a: Address :: x.state.View(a) == if a in writes then WrittenInfo(writes[a]) else old(x.state.View(a))
    ensures x.drifted <= old(x.drifted) + x.unmoored
  {
    hide ArbBlockExecutor.Valid;
    x.touched := x.touched + writes.Keys;
    var todo := writes.Keys;
    while todo != {}
      invariant todo <= writes.Keys
      invariant x.Valid()
      invariant forall a: Address :: x.state.View(a)
                  == if a in writes && a !in todo then WrittenInfo(writes[a]) else old(x.state.View(a))
      invariant x.drifted <= old(x.drifted) + x.unmoored
      modifies x`drifted, x.state
      decreases todo
    {
      var a :| a in todo;
      WriteByEvm(x, a, writes[a]);
      todo := todo - {a};
    }
    forall a: Address | x.Dirty(a)
      ensures a in x.touched
    {
      assert old(x.Dirty(a));
    }
  }

  // ----- a drain in the middle of a transaction -----

  /** An account that a drain takes out: it was live and has been emptied. */
  ghost predicate Drops(e: Option<Entry>, c: CacheAccount) {
    e.Some? && !Vacant(e.value.previousInfo) && c.account.Some? && IsEmpty(c.account.value)
  }

  /** An account that came to be present and empty without being a zombie: only Finalise may see it. */
  ghost predicate Phantom(e: Option<Entry>, c: CacheAccount, zombie: bool) {
    e.Some? && e.value.previousInfo.None? && c.account.Some? && IsEmpty(c.account.value) && !zombie
  }

  /** A drain without Finalise keeps the bookkeeping of any account but a phantom. */
  lemma DrainKeepsConsistent(o: Option<AccountInfo>, ts: seq<Transition>, us: seq<Transition>, a: Address,
                             e: Option<Entry>, c: CacheAccount, held: Option<BundleInfo>,
                             zombie: bool, drifted: bool, unmoored: bool)
    requires Consistent(o, ts, a, e, c, zombie, drifted, unmoored) && !Phantom(e, c, zombie)
    requires held.Some? ==> held.value.status != LoadedNotExisting
    requires OnePerAccount(us)
    requires
      var t := if e.None? then None else Decide(a, e.value, c.account, held, zombie);
      && (t.Some? ==> t.value in us)
      && (t.None? ==> !Mentions(us, a))
    ensures
      var t := if e.None? then None else Decide(a, e.value, c.account, held, zombie);
      var c' := AccountAfter(t, c);
      && Consistent(o, ts + us, a, None, c', zombie, drifted && !Mentions(us, a), unmoored)
      && c'.account == (if Drops(e, c) then None else c.account)
      && (Drops(e, c) ==> c'.status != LoadedNotExisting && ReplayAt(o, ts + us, a) == None)
      && (e.Some? && Pruned(e.value.previousInfo, false) != Pruned(c.account, false) ==> Mentions(us, a))
      && (Mentions(us, a) ==> e.Some? && e.value.previousInfo != c.account)
  {
    var t := if e.None? then None else Decide(a, e.value, c.account, held, zombie);
    if e.Some? {
      DecideShape(a, e.value, c.account, held, zombie);
    }
    AppendOne(o, ts, us, a, t);
    if t.Some? {
      var i :| 0 <= i < |us| && us[i] == t.value;
      assert us[i].addr == a;
    }
  }

  /** The overlay drained before the EVM runs. */
  method DrainEarly(x: ArbBlockExecutor) returns (ghost emitted: seq<Transition>)
    requires x.Valid()
    requires forall a: Address :: !Phantom(EntryAt(x.overlay.entries, a), Seen(x.state.db, x.state.cache, a), a in x.zombies)
    modifies x`drifted, x.state, x.overlay`entries
    ensures x.Valid() && x.Idle()
    ensures x.Emits(old(x.state.transitions), old(x.drifted), emitted)
    ensures forall a: Address :: DrainedEarly(x, old(x.overlay.entries), old(x.state.cache), emitted, a)
  {
    hide Consistent, Drained, ReplaysBothWays, Decide, Mentions, OnePerAccount;
    ghost var entries, cache, ts := x.overlay.entries, x.state.cache, x.state.transitions;
    emitted := x.overlay.DrainAndApply(x.state, x.zombies);
    x.drifted := set a | a in x.drifted && !Mentions(emitted, a);
    forall a: Address
      ensures x.ConsistentAt(a)
      ensures DrainedEarly(x, entries, cache, emitted, a)
    {
      assert old(x.ConsistentAt(a));
      DrainedAt(entries, x.state.db, cache, x.state.bundle, x.zombies, x.state.cache, emitted, a);
      DrainKeepsConsistent(x.Original(a), ts, emitted, a, EntryAt(entries, a), Seen(x.state.db, cache, a),
                           Held(x.state.bundle, a), a in x.zombies, a in old(x.drifted), a in x.unmoored);
    }
  }

  /** What an early drain does to one account. */
  ghost predicate DrainedEarly(x: ArbBlockExecutor, entries: map<Address, Entry>, cache: map<Address, CacheAccount>,
                               emitted: seq<Transition>, a: Address)
    reads x.state
  {
    var e, c := EntryAt(entries, a), Seen(x.state.db, cache, a);
    && x.state.View(a) == (if Drops(e, c) then None else c.account)
    && (Drops(e, c) ==> x.StatusOf(a) != LoadedNotExisting && ReplayAt(x.Original(a), x.state.transitions, a) == None)
    && (e.Some? && Pruned(e.value.previousInfo, false) != Pruned(c.account, false) ==> Mentions(emitted, a))
    && (Mentions(emitted, a) ==> e.Some? && e.value.previousInfo != c.account)
  }

  // ----- snapshots forgotten -----

  /** A snapshot that can be forgotten without confusing later transactions about what is there. */
  ghost predicate Forgettable(x: ArbBlockExecutor, a: Address)
    reads x`zombies, x.state
  {
    var seen, replayed := x.state.View(a), ReplayAt(x.Original(a), x.state.transitions, a);
    && a !in x.zombies
    && (Vacant(replayed) ==> replayed.None?)
    && (!Vacant(seen) ==> x.StatusOf(a) != LoadedNotExisting)
  }

  /** A forgotten change that leaves its account unmoored. */
  ghost predicate Unmoors(x: ArbBlockExecutor, a: Address)
    reads x.state
  {
    var seen, replayed := x.state.View(a), ReplayAt(x.Original(a), x.state.transitions, a);
    || (!Mentions(x.state.transitions, a) && !SameOriginal(seen, x.Original(a)))
    || (seen.Some? && Pruned(replayed, false) == Pruned(seen, false) && IsGone(x.StatusOf(a)))
  }

  /** The next transaction clears the overlay: writes that no transition records stay written. */
  method Forget(x: ArbBlockExecutor)
    requires x.Valid()
    requires forall a :: a in x.overlay.entries ==> Forgettable(x, a)
    modifies x`drifted, x`unmoored, x.overlay`entries
    ensures x.Valid() && x.Idle()
    ensures forall a: Address :: a in x.drifted <==>
              if a in old(x.overlay.entries)
              then Pruned(ReplayAt(x.Original(a), x.state.transitions, a), false) != Pruned(x.state.View(a), false)
              else a in old(x.drifted)
    ensures forall a: Address :: a in x.unmoored <==>
              a in old(x.unmoored) || (a in old(x.overlay.entries) && Unmoors(x, a))
  {
    ghost var gone := x.overlay.entries.Keys;
    x.overlay.ResetTx();
    x.drifted := (x.drifted - gone)
      + set a | a in gone && Pruned(ReplayAt(x.Original(a), x.state.transitions, a), false) != Pruned(x.state.View(a), false);
    x.unmoored := x.unmoored
      + set a | a in gone && Unmoors(x, a);
    forall a: Address
      ensures x.ConsistentAt(a)
    {
      assert old(x.ConsistentAt(a));
      if a in gone {
        assert old(Forgettable(x, a));
      }
    }
  }
}
