/**
 * Balance operations that write the state cache behind revm's back, and the per-transaction Finalise
 * (crates/arb-evm/src/build.rs).
 */
module Executor {
  import opened Machine
  import opened Options
  import opened Accounts
  import opened Overlay
  import opened Ledger

  const ARBOS_VERSION_STYLUS: nat := 30

  datatype BalanceResult =
    | Moved
    | InsufficientBalance(account: Address, available: nat, requested: nat)

  // ----- what holds of one account at any point of a block -----

  ghost function EntryAt(entries: map<Address, Entry>, a: Address): Option<Entry> {
    if a in entries then Some(entries[a]) else None
  }

  /** The entry a first touch records. */
  ghost function Recorded(e: Option<Entry>, c: CacheAccount): Entry {
    if e.Some? then e.value else Entry(c.account, c.status)
  }

  /** Reverting may turn a present-empty original into an absent account, and nothing else. */
  ghost predicate SameOriginal(x: Option<AccountInfo>, original: Option<AccountInfo>) {
    x == original || (x.None? && Vacant(original))
  }

  /** The statuses of an account that is not there. */
  predicate IsGone(s: Status) {
    s in {LoadedNotExisting, Destroyed, DestroyedAgain}
  }

  /**
   * The bookkeeping of one account, where `o` is its block-start state, `ts` the transitions so far, `e` its overlay
   * entry and `c` its cached form. A drifted account is one whose transitions replay to something else than its
   * baseline. Of an unmoored one less is known: it was changed without any transition that reverts it, or came back
   * in step under a status that calls it gone.
   */
  ghost predicate Consistent(o: Option<AccountInfo>, ts: seq<Transition>, a: Address, e: Option<Entry>, c: CacheAccount,
                             zombie: bool, drifted: bool, unmoored: bool)
  {
    var replayed := ReplayAt(o, ts, a);
    var baseline := if e.Some? then e.value.previousInfo else c.account;
    var base := if e.Some? then e.value.previousStatus else c.status;
    // forward and backward replay
    && (drifted <==> Pruned(replayed, false) != Pruned(baseline, false))
    && (drifted && Vacant(replayed) ==> replayed.None?)
    && (zombie && !drifted && !unmoored ==> replayed == baseline || (e.Some? && baseline.None? && c.account.Some?))
    && (!unmoored ==> SameOriginal(RevertAt(replayed, ts, a), o))
    && (!unmoored && !Mentions(ts, a) ==> SameOriginal(baseline, o))
    // within a transaction nothing disappears, and statuses stay believable
    && (baseline.Some? ==> c.account.Some?)
    && (!Vacant(baseline) ==> base != LoadedNotExisting)
    && (baseline.Some? && !drifted && !unmoored ==> !IsGone(base))
    && (e.Some? ==> c.status == e.value.previousStatus || c.status == InMemoryChange)
    && (c.account.Some? ==> c.account.value.codeHash != 0)
    && (baseline.Some? ==> baseline.value.codeHash != 0)
  }

  /** Any write of a present account, recorded first, keeps the bookkeeping. */
  lemma WriteKeepsConsistent(o: Option<AccountInfo>, ts: seq<Transition>, a: Address, e: Option<Entry>,
                             c: CacheAccount, c': CacheAccount, zombie: bool, drifted: bool, unmoored: bool)
    requires Consistent(o, ts, a, e, c, zombie, drifted, unmoored)
    requires c'.account == c.account || (c'.account.Some? && c'.account.value.codeHash != 0)
    requires c'.status == c.status || c'.status == InMemoryChange
    ensures Consistent(o, ts, a, Some(Recorded(e, c)), c', zombie, drifted, unmoored)
  {
  }

  /** Fewer zombies need less. */
  lemma NoZombieNeeded(o: Option<AccountInfo>, ts: seq<Transition>, a: Address, e: Option<Entry>, c: CacheAccount,
                       zombie: bool, drifted: bool, unmoored: bool)
    requires Consistent(o, ts, a, e, c, zombie, drifted, unmoored)
    ensures Consistent(o, ts, a, e, c, false, drifted, unmoored)
  {
  }

  /** Within a transaction, an account present before it is still present. */
  lemma BaselinePresent(o: Option<AccountInfo>, ts: seq<Transition>, a: Address, e: Option<Entry>, c: CacheAccount,
                        zombie: bool, drifted: bool, unmoored: bool)
    requires Consistent(o, ts, a, e, c, zombie, drifted, unmoored)
    ensures e.Some? && e.value.previousInfo.Some? ==> c.account.Some?
  {
  }

  // ----- Finalise and drain, for one account -----

  /** Finalise removes a touched, blank account that is not a zombie. */
  predicate Removes(c: CacheAccount, touched: bool, zombie: bool) {
    touched && !zombie && c.account.Some? && IsBlank(c.account.value)
  }

  /** What Finalise removes. */
  ghost function Removed(cache: map<Address, CacheAccount>, touched: set<Address>, zombies: set<Address>): set<Address> {
    set a | a in touched && a in cache && Removes(cache[a], true, a in zombies)
  }

  ghost function FinalisedEntry(e: Option<Entry>, c: CacheAccount, touched: bool, zombie: bool): Option<Entry> {
    if Removes(c, touched, zombie) then Some(Recorded(e, c)) else e
  }

  const ABSENT := CacheAccount(None, LoadedNotExisting)

  function FinalisedAccount(c: CacheAccount, touched: bool, zombie: bool): CacheAccount {
    if Removes(c, touched, zombie) then ABSENT else c
  }

  /** The transition the commit of a transaction emits for one account, and the account it leaves. */
  ghost function Committed(a: Address, e: Option<Entry>, c: CacheAccount, held: Option<BundleInfo>,
                           touched: bool, zombie: bool): (Option<Transition>, CacheAccount)
  {
    var e' := FinalisedEntry(e, c, touched, zombie);
    var c' := FinalisedAccount(c, touched, zombie);
    if e'.None? then (None, c')
    else
      var t := Decide(a, e'.value, c'.account, held, zombie);
      (t, AccountAfter(t, c'))
  }

  /** What Finalise removes ends the transaction gone: as a deletion that is emitted, or as never having existed. */
  lemma RemovedIsGone(a: Address, e: Option<Entry>, c: CacheAccount, held: Option<BundleInfo>, touched: bool, zombie: bool)
    requires Removes(c, touched, zombie)
    ensures
      var (t, c') := Committed(a, e, c, held, touched, zombie);
      && c'.account.None?
      && (t.None? ==> c'.status == LoadedNotExisting)
      && (t.Some? ==> t.value.info.None? && c'.status == t.value.status && t.value.status in {Destroyed, DestroyedAgain})
  {
  }

  lemma RevertIgnoresStart(x: Option<AccountInfo>, y: Option<AccountInfo>, ts: seq<Transition>, a: Address)
    requires Mentions(ts, a)
    ensures RevertAt(x, ts, a) == RevertAt(y, ts, a)
  {
    var i :| 0 <= i < |ts| && ts[i].addr == a;
    if ts[0].addr != a {
      assert ts[1..][i - 1].addr == a;
      RevertIgnoresStart(x, y, ts[1..], a);
    }
  }

  lemma MentionsAppend(ts: seq<Transition>, us: seq<Transition>, a: Address)
    ensures Mentions(ts + us, a) <==> Mentions(ts, a) || Mentions(us, a)
  {
    if Mentions(ts, a) {
      var i :| 0 <= i < |ts| && ts[i].addr == a;
      assert (ts + us)[i].addr == a;
    }
    if Mentions(us, a) {
      var i :| 0 <= i < |us| && us[i].addr == a;
      assert (ts + us)[|ts| + i].addr == a;
    }
  }

  /** How replay and revert of one account change when a commit appends its transitions. */
  lemma AppendOne(o: Option<AccountInfo>, ts: seq<Transition>, us: seq<Transition>, a: Address, t: Option<Transition>)
    requires OnePerAccount(us)
    requires t.Some? ==> t.value in us && t.value.addr == a
    requires t.None? ==> !Mentions(us, a)
    ensures
      var replayed := ReplayAt(o, ts + us, a);
      && replayed == (if t.Some? then t.value.info else ReplayAt(o, ts, a))
      && (Mentions(ts + us, a) <==> Mentions(ts, a) || t.Some?)
      && RevertAt(replayed, ts + us, a)
         == (if Mentions(ts, a) then RevertAt(ReplayAt(o, ts, a), ts, a)
             else if t.Some? then t.value.previousInfo else o)
  {
    var before := ReplayAt(o, ts, a);
    var replayed := ReplayAt(o, ts + us, a);
    ReplayAppend(o, ts, us, a);
    RevertAppend(replayed, ts, us, a);
    MentionsAppend(ts, us, a);
    if t.Some? {
      var i :| 0 <= i < |us| && us[i] == t.value;
      ReplaySole(before, us, i);
      RevertFirst(replayed, us, i);
    } else {
      ReplayUnmentioned(before, us, a);
      RevertUnmentioned(replayed, us, a);
    }
    if Mentions(ts, a) {
      RevertIgnoresStart(RevertAt(replayed, us, a), before, ts, a);
    } else {
      ReplayUnmentioned(o, ts, a);
      RevertUnmentioned(RevertAt(replayed, us, a), ts, a);
    }
  }

  /** The account before its first recorded write. */
  ghost function Baseline(e: Option<Entry>, c: CacheAccount): Option<AccountInfo> {
    if e.Some? then e.value.previousInfo else c.account
  }

  ghost predicate Emptied(before: Option<AccountInfo>, after: Option<AccountInfo>) {
    !Vacant(before) && Vacant(after)
  }

  /** Committing a transaction keeps the bookkeeping of every account whose changes were all touched, and brings the
      accounts it emits back in step. */
  lemma CommitKeepsConsistent(o: Option<AccountInfo>, ts: seq<Transition>, us: seq<Transition>, a: Address,
                              e: Option<Entry>, c: CacheAccount, held: Option<BundleInfo>, touched: bool,
                              zombie: bool, drifted: bool, unmoored: bool)
    requires Consistent(o, ts, a, e, c, zombie, drifted, unmoored)
    requires e.Some? && c.account != e.value.previousInfo ==> touched
    requires held.Some? ==> held.value.status != LoadedNotExisting
    requires OnePerAccount(us)
    requires
      var t := Committed(a, e, c, held, touched, zombie).0;
      && (t.Some? ==> t.value in us)
      && (t.None? ==> !Mentions(us, a))
    ensures
      var (t, c') := Committed(a, e, c, held, touched, zombie);
      && Consistent(o, ts + us, a, None, c', zombie, drifted && !Mentions(us, a), unmoored)
      && (Removes(c, touched, zombie) ==> c'.account.None?)
      && (!zombie && touched ==> !(c'.account.Some? && IsEmpty(c'.account.value)))
      && (!zombie ==> c'.account == if Removes(c, touched, zombie) then None else c.account)
      && (zombie ==> c'.account == if Emptied(Baseline(e, c), c.account) then None else c.account)
      && Pruned(c'.account, false) == Pruned(c.account, false)
  {
    var (t, c') := Committed(a, e, c, held, touched, zombie);
    var e' := FinalisedEntry(e, c, touched, zombie);
    if e'.Some? {
      DecideShape(a, e'.value, FinalisedAccount(c, touched, zombie).account, held, zombie);
    }
    AppendOne(o, ts, us, a, t);
    if t.Some? {
      var i :| 0 <= i < |us| && us[i] == t.value;
      assert us[i].addr == a;
    }
  }

  /** What a drain does to one account. */
  lemma DrainedAt(entries: map<Address, Entry>, db: map<Address, AccountInfo>, before: map<Address, CacheAccount>,
                  bundle: map<Address, BundleInfo>, zombies: set<Address>,
                  after: map<Address, CacheAccount>, emitted: seq<Transition>, a: Address)
    requires entries.Keys <= before.Keys
    requires Drained(entries, before, bundle, zombies, entries.Keys, after, emitted)
    ensures OnePerAccount(emitted) && after.Keys == before.Keys
    ensures
      var e, c := EntryAt(entries, a), Seen(db, before, a);
      var t := if e.None? then None else Decide(a, e.value, c.account, Held(bundle, a), a in zombies);
      && Seen(db, after, a) == AccountAfter(t, c)
      && (t.Some? ==> t.value in emitted)
      && (t.None? ==> !Mentions(emitted, a))
  {
    if a in entries {
      var t := DecideAt(entries, before, bundle, zombies, a);
      if t.Some? {
        var i :| 0 <= i < |emitted| && emitted[i].addr == a;
        assert emitted[i] == t.value;
      }
    }
  }

  /** How the end of a transaction leaves an account that was `was`, and `before` to start with: only the touched, blank
      non-zombies and the zombies that were emptied are gone. */
  ghost predicate SettledBy(before: Option<AccountInfo>, was: CacheAccount, now: CacheAccount, touched: bool,
                            zombie: bool)
  {
    && Pruned(now.account, false) == Pruned(was.account, false)
    && (!zombie && touched ==> !(now.account.Some? && IsEmpty(now.account.value)))
    && (!zombie ==> now.account == if Removes(was, touched, zombie) then None else was.account)
    && (zombie ==> now.account == if Emptied(before, was.account) then None else was.account)
  }

  /** Finalise and drain, seen from one account. */
  lemma CommittedAt(db: map<Address, AccountInfo>, entries: map<Address, Entry>, before: map<Address, CacheAccount>,
                    bundle: map<Address, BundleInfo>, zombies: set<Address>, after: map<Address, CacheAccount>,
                    emitted: seq<Transition>, a: Address, o: Option<AccountInfo>, ts: seq<Transition>,
                    e: Option<Entry>, c: CacheAccount, touched: bool, drifted: bool, unmoored: bool)
    requires entries.Keys <= before.Keys
    requires Drained(entries, before, bundle, zombies, entries.Keys, after, emitted)
    requires a in bundle ==> bundle[a].status != LoadedNotExisting
    requires EntryAt(entries, a) == FinalisedEntry(e, c, touched, a in zombies)
    requires Seen(db, before, a) == FinalisedAccount(c, touched, a in zombies)
    requires Consistent(o, ts, a, e, c, a in zombies, drifted, unmoored)
    requires e.Some? && c.account != e.value.previousInfo ==> touched
    ensures Consistent(o, ts + emitted, a, None, Seen(db, after, a), a in zombies, drifted && !Mentions(emitted, a), unmoored)
    ensures SettledBy(Baseline(e, c), c, Seen(db, after, a), touched, a in zombies)
  {
    hide Consistent, Drained, Removes, Mentions, OnePerAccount, Decide;
    DrainedAt(entries, db, before, bundle, zombies, after, emitted, a);
    CommitKeepsConsistent(o, ts, emitted, a, e, c, Held(bundle, a), touched, a in zombies, drifted, unmoored);
  }

  // ----- totals -----

  /** What is seen of every account. */
  type Views = Address -> Option<AccountInfo>

  ghost function ViewsIn(db: map<Address, AccountInfo>, cache: map<Address, CacheAccount>): Views {
    (a: Address) => Seen(db, cache, a).account
  }

  ghost function BalanceIn(db: map<Address, AccountInfo>, cache: map<Address, CacheAccount>, a: Address): nat {
    Funds(Seen(db, cache, a).account)
  }

  /** The sum of the balances of all addresses below `n`. */
  ghost function SumOf(v: Views, n: nat): nat {
    if n == 0 then 0 else SumOf(v, n - 1) + Funds(v(n - 1))
  }

  ghost function Total(db: map<Address, AccountInfo>, cache: map<Address, CacheAccount>, n: nat): nat {
    SumOf(ViewsIn(db, cache), n)
  }

  /** A move changes the sum by nothing, and a credit from outside by exactly its amount. */
  lemma {:induction false} SumAfterMove(v: Views, w: Views, n: nat, m: Move)
    requires forall a: Address :: Funds(w(a)) == Funds(v(a)) + Gain(m, a)
    ensures SumOf(w, n) == SumOf(v, n) + GainBelow(m, n)
  {
    if n > 0 {
      SumAfterMove(v, w, n - 1, m);
    }
  }

  lemma {:induction false} SumAfterCredit(v: Views, w: Views, n: nat, a: Address, amount: int)
    requires forall b: Address :: Funds(w(b)) == Funds(v(b)) + (if b == a then amount else 0)
    ensures SumOf(w, n) == SumOf(v, n) + (if a < n then amount else 0)
  {
    if n > 0 {
      SumAfterCredit(v, w, n - 1, a, amount);
    }
  }

  lemma {:induction false} WithinSum(v: Views, n: nat, a: Address, b: Address)
    requires a < n && b < n
    ensures Funds(v(a)) + (if a == b then 0 else Funds(v(b))) <= SumOf(v, n)
  {
    if a < n - 1 && b < n - 1 {
      WithinSum(v, n - 1, a, b);
    } else if a < n - 1 {
      WithinSum(v, n - 1, a, a);
    } else if b < n - 1 {
      WithinSum(v, n - 1, b, b);
    }
  }

  lemma TotalAfterCredit(db: map<Address, AccountInfo>, before: map<Address, CacheAccount>,
                         after: map<Address, CacheAccount>, n: nat, a: Address, amount: int)
    requires forall x: Address :: BalanceIn(db, after, x) == BalanceIn(db, before, x) + (if x == a then amount else 0)
    ensures Total(db, after, n) == Total(db, before, n) + (if a < n then amount else 0)
  {
    var v, w := ViewsIn(db, before), ViewsIn(db, after);
    forall x: Address
      ensures Funds(w(x)) == Funds(v(x)) + (if x == a then amount else 0)
    {
      assert BalanceIn(db, after, x) == Funds(w(x)) && BalanceIn(db, before, x) == Funds(v(x));
    }
    SumAfterCredit(v, w, n, a, amount);
  }

  lemma WithinTotal(db: map<Address, AccountInfo>, cache: map<Address, CacheAccount>, n: nat, a: Address, b: Address)
    requires a < n && b < n
    ensures BalanceIn(db, cache, a) + (if a == b then 0 else BalanceIn(db, cache, b)) <= Total(db, cache, n)
  {
    WithinSum(ViewsIn(db, cache), n, a, b);
  }

  lemma SameTotals(db: map<Address, AccountInfo>, before: map<Address, CacheAccount>, after: map<Address, CacheAccount>)
    requires forall x: Address :: BalanceIn(db, after, x) == BalanceIn(db, before, x)
    ensures forall n: nat :: Total(db, after, n) == Total(db, before, n)
  {
    forall n: nat
      ensures Total(db, after, n) == Total(db, before, n)
    {
      TotalAfterCredit(db, before, after, n, 0, 0);
    }
  }

  /** A transfer that goes through moves exactly its amount, when all the money there is fits a word. */
  lemma TransferMoves(db: map<Address, AccountInfo>, before: map<Address, CacheAccount>,
                      after: map<Address, CacheAccount>, n: nat, from: Address, to: Address, amount: U256)
    requires from < n && to < n && Total(db, before, n) <= U256_MAX
    requires amount <= BalanceIn(db, before, from)
    requires forall x: Address ::
               Seen(db, after, x).account == (if amount == 0 then Seen(db, before, x).account
                                              else ViewAfter(Seen(db, before, x).account, x == from, x == to, amount))
    ensures forall x: Address :: BalanceIn(db, after, x) == BalanceIn(db, before, x) + Gain(Move(from, to, amount), x)
    ensures Total(db, after, n) == Total(db, before, n)
  {
    WithinTotal(db, before, n, from, to);
    SumAfterMove(ViewsIn(db, before), ViewsIn(db, after), n, Move(from, to, amount));
    GainSum(Move(from, to, amount), n);
  }

  // ----- the executor -----

  function Credited(x: Option<AccountInfo>, amount: U256): AccountInfo {
    match x
    case Some(i) => i.(balance := SatAdd256(i.balance, amount))
    case None => DEFAULT_INFO.(balance := amount)
  }

  function Debited(x: Option<AccountInfo>, amount: U256): Option<AccountInfo> {
    match x
    case Some(i) => Some(i.(balance := SatSub(i.balance, amount)))
    case None => None
  }

  /** An account after a transfer, burn or mint of a non-zero amount that went through. */
  function ViewAfter(x: Option<AccountInfo>, isFrom: bool, isTo: bool, amount: U256): Option<AccountInfo> {
    var burned := if isFrom then Debited(x, amount) else x;
    if isTo then Some(Credited(burned, amount)) else burned
  }

  // ----- zombie-aware transfers -----

  /** An account after a zombie-aware transfer: of nothing, its absent source may wake; otherwise it is a transfer. */
  function AwareView(x: Option<AccountInfo>, covered: bool, isFrom: bool, isTo: bool, amount: U256, canWake: bool)
    : Option<AccountInfo>
  {
    if amount == 0 then if isFrom && canWake && x.None? then Some(DEFAULT_INFO) else x
    else if covered then ViewAfter(x, isFrom, isTo, amount)
    else x
  }

  /** Who is a zombie after a zombie-aware transfer. */
  lemma ZombiesAfter(zombies: set<Address>, wakes: bool, from: Address, to: Address, amount: U256, a: Address)
    ensures a in AwareZombies(zombies, wakes, from, to, amount)
       <==> a != to && (if a == from then amount == 0 && (a in zombies || wakes) else a in zombies)
  {
  }

  /** A source that wakes becomes a zombie; a recipient, and the source of any other amount, is none any more. */
  function AwareZombies(zombies: set<Address>, wakes: bool, from: Address, to: Address, amount: U256): set<Address> {
    (if amount == 0 && wakes then zombies + {from} else zombies) - (if amount != 0 then {from, to} else {to})
  }

  function Parties(from: Option<Address>, to: Option<Address>): set<Address> {
    (if from.Some? then {from.value} else {}) + (if to.Some? then {to.value} else {})
  }

  class ArbBlockExecutor {
    const state: State
    const overlay: StateOverlay
    const arbosVersion: nat
    var touched: set<Address>
    var zombies: set<Address>
    var finaliseDeleted: set<Address>
    var expectedBalanceDelta: int
    /** The accounts whose transitions replay to something else than what is seen. */
    ghost var drifted: set<Address>
    /** The accounts whose forgotten changes overflowed a balance, of which only the forward replay is tracked. */
    ghost var unmoored: set<Address>

    constructor (db: map<Address, AccountInfo>, bundle: map<Address, BundleInfo>, arbosVersion: nat)
      requires forall a :: a in db ==> db[a].codeHash != 0
      requires forall a :: a in bundle ==> bundle[a].status != LoadedNotExisting
      ensures Valid() && Idle()
      ensures fresh(state) && fresh(overlay) && state.db == db && state.bundle == bundle
      ensures state.cache == map[] && state.transitions == [] && this.arbosVersion == arbosVersion
      ensures zombies == {} && finaliseDeleted == {} && expectedBalanceDelta == 0
      ensures drifted == {} && unmoored == {}
    {
      state := new State(db, bundle);
      overlay := new StateOverlay();
      this.arbosVersion := arbosVersion;
      touched, zombies, finaliseDeleted := {}, {}, {};
      expectedBalanceDelta := 0;
      drifted, unmoored := {}, {};
    }

    /** The account as it was when the block started. */
    ghost function Original(a: Address): Option<AccountInfo> {
      LoadedFrom(state.db, a).account
    }

    ghost predicate ConsistentAt(a: Address)
      reads this`zombies, this`drifted, this`unmoored, state, overlay
    {
      Consistent(Original(a), state.transitions, a, EntryAt(overlay.entries, a),
                 Seen(state.db, state.cache, a), a in zombies, a in drifted, a in unmoored)
    }

    ghost predicate Valid()
      reads this`zombies, this`drifted, this`unmoored, state, overlay
    {
      && overlay.entries.Keys <= state.cache.Keys
      && (forall a :: a in state.bundle ==> state.bundle[a].status != LoadedNotExisting)
      && (forall a :: ConsistentAt(a))
    }

    /** Nothing recorded, as between transactions. */
    ghost predicate Idle()
      reads overlay
    {
      overlay.entries == map[]
    }

    /** Written in this transaction, and not back at its snapshot. */
    ghost predicate Dirty(a: Address)
      reads state, overlay
    {
      a in overlay.entries && state.View(a) != overlay.entries[a].previousInfo
    }

    /** The account before its first recorded write. */
    ghost function BaselineOf(a: Address): Option<AccountInfo>
      reads state, overlay
    {
      if a in overlay.entries then overlay.entries[a].previousInfo else state.View(a)
    }

    ghost function StatusOf(a: Address): Status
      reads state
    {
      Seen(state.db, state.cache, a).status
    }

    /** The accounts a zero-value transfer may resurrect. */
    ghost function Wakeable(): set<Address>
      reads this`finaliseDeleted
    {
      if arbosVersion < ARBOS_VERSION_STYLUS then finaliseDeleted else {}
    }

    /** A zero-value transfer from `a` resurrects it. */
    ghost predicate Wakes(a: Address)
      reads this`finaliseDeleted, state
    {
      state.View(a).None? && a in Wakeable()
    }

    /** Every account a bypass operation changed will be looked at by Finalise. */
    ghost predicate AllTouched()
      reads this`touched, state, overlay
    {
      forall a :: Dirty(a) ==> a in touched
    }

    ghost function TotalBalance(n: nat): nat
      reads state
    {
      Total(state.db, state.cache, n)
    }

    lemma SameBalances(before: map<Address, CacheAccount>)
      requires forall x: Address :: state.BalanceOf(x) == BalanceIn(state.db, before, x)
      ensures forall n: nat :: TotalBalance(n) == Total(state.db, before, n)
    {
      forall x: Address
        ensures BalanceIn(state.db, state.cache, x) == BalanceIn(state.db, before, x)
      {
        assert state.BalanceOf(x) == BalanceIn(state.db, state.cache, x);
      }
      SameTotals(state.db, before, state.cache);
    }

    /** Records an account; nothing that is seen changes. */
    method Touch(addr: Address)
      requires Valid()
      modifies state`cache, overlay`entries
      ensures Valid()
      ensures overlay.entries.Keys == old(overlay.entries.Keys) + {addr}
      ensures overlay.entries[addr].previousInfo.Some? ==> state.View(addr).Some?
      ensures forall x: Address :: state.View(x) == old(state.View(x)) && StatusOf(x) == old(StatusOf(x))
      ensures forall x: Address :: BaselineOf(x) == old(BaselineOf(x))
      ensures forall x: Address :: Dirty(x) ==> old(Dirty(x))
    {
      hide Consistent;
      overlay.RecordPreTouch(state, addr);
      forall x: Address
        ensures ConsistentAt(x)
      {
        assert old(ConsistentAt(x));
        if x == addr {
          WriteKeepsConsistent(Original(x), state.transitions, x, old(EntryAt(overlay.entries, x)),
                               old(Seen(state.db, state.cache, x)), state.cache[x], x in zombies, x in drifted, x in unmoored);
        }
      }
      assert ConsistentAt(addr);
      BaselinePresent(Original(addr), state.transitions, addr, EntryAt(overlay.entries, addr),
                      Seen(state.db, state.cache, addr), addr in zombies, addr in drifted, addr in unmoored);
    }

    /** Writes a present account that has been recorded: the one way a bypass operation changes the cache. */
    method Write(addr: Address, account: AccountInfo, status: Status)
      requires Valid() && addr in overlay.entries
      requires account.codeHash != 0
      requires status == state.cache[addr].status || status == InMemoryChange
      modifies state`cache
      ensures Valid()
      ensures state.View(addr) == Some(account) && StatusOf(addr) == status
      ensures forall x: Address :: x != addr ==> state.View(x) == old(state.View(x)) && StatusOf(x) == old(StatusOf(x))
      ensures forall x: Address :: BaselineOf(x) == old(BaselineOf(x))
      ensures forall x: Address :: Dirty(x) ==> old(Dirty(x)) || x == addr
    {
      hide Consistent;
      assert ConsistentAt(addr);
      state.cache := state.cache[addr := CacheAccount(Some(account), status)];
      forall x: Address
        ensures ConsistentAt(x)
      {
        if x == addr {
          WriteKeepsConsistent(Original(x), state.transitions, x, old(EntryAt(overlay.entries, x)),
                               old(Seen(state.db, state.cache, x)), state.cache[x], x in zombies, x in drifted, x in unmoored);
        } else {
          assert old(ConsistentAt(x));
        }
      }
    }

    /** Reads a balance; reading may load the account but changes nothing that is seen. */
    method GetBalance(a: Address) returns (balance: nat)
      requires Valid()
      modifies state`cache
      ensures Valid()
      ensures old(AllTouched()) ==> AllTouched()
      ensures balance == old(state.BalanceOf(a)) <= U256_MAX
      ensures forall x: Address :: state.View(x) == old(state.View(x)) && StatusOf(x) == old(StatusOf(x))
      ensures forall x: Address :: BaselineOf(x) == old(BaselineOf(x))
      ensures forall x: Address :: Dirty(x) ==> old(Dirty(x))
      ensures forall n: nat :: TotalBalance(n) == old(TotalBalance(n))
    {
      hide Consistent;
      state.LoadCacheAccount(a);
      balance := state.BalanceOf(a);
      forall x: Address
        ensures ConsistentAt(x)
      {
        assert old(ConsistentAt(x));
      }
      SameBalances(old(state.cache));
    }

    method ApplyMint(a: Address, amount: U256)
      requires Valid()
      modifies state`cache, overlay`entries
      ensures Valid()
      ensures state.View(a) == if amount == 0 then old(state.View(a)) else Some(Credited(old(state.View(a)), amount))
      ensures forall x: Address :: x != a ==> state.View(x) == old(state.View(x))
      ensures forall x: Address :: StatusOf(x) == old(StatusOf(x)) && BaselineOf(x) == old(BaselineOf(x))
      ensures overlay.entries.Keys == old(overlay.entries.Keys) + (if amount == 0 then {} else {a})
      ensures forall x: Address :: Dirty(x) ==> old(Dirty(x)) || (x == a && amount != 0)
    {
      if amount == 0 {
        return;
      }
      Touch(a);
      assert ConsistentAt(a);
      Write(a, Credited(state.View(a), amount), state.cache[a].status);
    }

    method ApplyBurn(a: Address, amount: U256)
      requires Valid()
      modifies state`cache, overlay`entries
      ensures Valid()
      ensures state.View(a) == if amount == 0 then old(state.View(a)) else Debited(old(state.View(a)), amount)
      ensures forall x: Address :: x != a ==> state.View(x) == old(state.View(x))
      ensures forall x: Address :: StatusOf(x) == old(StatusOf(x)) && BaselineOf(x) == old(BaselineOf(x))
      ensures overlay.entries.Keys == old(overlay.entries.Keys) + (if amount == 0 then {} else {a})
      ensures forall x: Address :: Dirty(x) ==> old(Dirty(x)) || (x == a && amount != 0)
    {
      if amount == 0 {
        return;
      }
      Touch(a);
      assert ConsistentAt(a);
      var seen := state.View(a);
      if seen.Some? {
        Write(a, Debited(seen, amount).value, state.cache[a].status);
      }
    }

    /** A checked transfer, an unconditional burn or an unconditional mint. */
    method ApplyBalanceOp(from: Option<Address>, to: Option<Address>, amount: U256) returns (r: BalanceResult)
      requires Valid()
      modifies state`cache, overlay`entries
      ensures Valid()
      ensures r.InsufficientBalance?
         <==> amount != 0 && from.Some? && to.Some? && old(state.BalanceOf(from.value)) < amount
      ensures r.InsufficientBalance? ==> r == InsufficientBalance(from.value, old(state.BalanceOf(from.value)), amount)
      ensures r.InsufficientBalance? || amount == 0 ==>
                forall x: Address :: state.View(x) == old(state.View(x)) && (Dirty(x) ==> old(Dirty(x)))
      ensures forall x: Address :: StatusOf(x) == old(StatusOf(x)) && BaselineOf(x) == old(BaselineOf(x))
      ensures overlay.entries.Keys
           == old(overlay.entries.Keys) + (if r.Moved? && amount != 0 then Parties(from, to) else {})
      ensures r.Moved? && amount != 0 ==>
                forall x: Address ::
                  && state.View(x) == ViewAfter(old(state.View(x)), from == Some(x), to == Some(x), amount)
                  && (Dirty(x) ==> old(Dirty(x)) || from == Some(x) || to == Some(x))
    {
      if amount == 0 {
        return Moved;
      }
      match (from, to) {
        case (Some(f), Some(t)) =>
          var available := GetBalance(f);
          if available < amount {
            return InsufficientBalance(f, available, amount);
          }
          ApplyBurn(f, amount);
          ApplyMint(t, amount);
        case (Some(f), None) =>
          ApplyBurn(f, amount);
        case (None, Some(t)) =>
          ApplyMint(t, amount);
        case (None, None) =>
      }
      return Moved;
    }

    /** `transfer_balance` between two accounts. */
    method Transfer(from: Address, to: Address, amount: U256) returns (r: BalanceResult)
      requires Valid()
      modifies state`cache, overlay`entries
      ensures Valid()
      ensures r.InsufficientBalance? <==> old(state.BalanceOf(from)) < amount
      ensures amount == 0 ==> forall x: Address :: state.View(x) == old(state.View(x))
      ensures forall x: Address :: Dirty(x) ==> old(Dirty(x)) || x == from || x == to
      ensures forall x: Address :: state.View(x)
                == if r.Moved? && amount != 0 then ViewAfter(old(state.View(x)), x == from, x == to, amount)
                   else old(state.View(x))
      ensures forall n: nat :: from < n && to < n && old(TotalBalance(n)) <= U256_MAX ==>
                && TotalBalance(n) == old(TotalBalance(n))
                && forall x: Address :: state.BalanceOf(x)
                     == old(state.BalanceOf(x)) + (if r.Moved? then Gain(Move(from, to, amount), x) else 0)
    {
      r := ApplyBalanceOp(Some(from), Some(to), amount);
      ghost var moved := if r.Moved? then amount else 0;
      forall x: Address
        ensures Seen(state.db, state.cache, x).account
             == (if moved == 0 then old(Seen(state.db, state.cache, x).account)
                 else ViewAfter(old(Seen(state.db, state.cache, x).account), x == from, x == to, moved))
      {
        assert state.View(x) == if moved == 0 then old(state.View(x))
                                else ViewAfter(old(state.View(x)), x == from, x == to, moved);
      }
      forall n: nat | from < n && to < n && old(TotalBalance(n)) <= U256_MAX
        ensures TotalBalance(n) == old(TotalBalance(n))
        ensures forall x: Address :: state.BalanceOf(x)
                  == old(state.BalanceOf(x)) + (if r.Moved? then Gain(Move(from, to, amount), x) else 0)
      {
        TransferMoves(state.db, old(state.cache), state.cache, n, from, to, moved);
        forall x: Address
          ensures state.BalanceOf(x) == old(state.BalanceOf(x)) + (if r.Moved? then Gain(Move(from, to, amount), x) else 0)
        {
          assert BalanceIn(state.db, state.cache, x) == old(BalanceIn(state.db, state.cache, x)) + Gain(Move(from, to, moved), x);
        }
      }
    }

    /** `mint_balance`. */
    method Mint(to: Address, amount: U256)
      requires Valid()
      modifies state`cache, overlay`entries
      ensures Valid()
      ensures forall x: Address :: Dirty(x) ==> old(Dirty(x)) || x == to
      ensures forall x: Address :: state.View(x)
                == if x == to && amount != 0 then Some(Credited(old(state.View(x)), amount)) else old(state.View(x))
      ensures state.BalanceOf(to) == SatAdd256(old(state.BalanceOf(to)), amount)
      ensures forall x: Address :: x != to ==> state.BalanceOf(x) == old(state.BalanceOf(x))
      ensures forall n: nat :: to < n && old(TotalBalance(n)) + amount <= U256_MAX ==>
                TotalBalance(n) == old(TotalBalance(n)) + amount && state.BalanceOf(to) == old(state.BalanceOf(to)) + amount
    {
      var _ := ApplyBalanceOp(None, Some(to), amount);
      forall n: nat | to < n && old(TotalBalance(n)) + amount <= U256_MAX
        ensures TotalBalance(n) == old(TotalBalance(n)) + amount && state.BalanceOf(to) == old(state.BalanceOf(to)) + amount
      {
        WithinTotal(state.db, old(state.cache), n, to, to);
        forall x: Address
          ensures BalanceIn(state.db, state.cache, x)
               == old(BalanceIn(state.db, state.cache, x)) + (if x == to then amount else 0)
        {
          assert state.BalanceOf(x) == BalanceIn(state.db, state.cache, x);
          assert old(state.BalanceOf(x)) == old(BalanceIn(state.db, state.cache, x));
        }
        TotalAfterCredit(state.db, old(state.cache), state.cache, n, to, amount);
      }
    }

    /** Materialises an absent account as present-empty, for Finalise to destruct. */
    method MaterialiseEmpty(a: Address)
      requires Valid()
      modifies this`touched, state`cache, overlay`entries
      ensures Valid()
      ensures old(AllTouched()) ==> AllTouched()
      ensures touched == old(touched) + {a}
      ensures state.View(a) == Some(if old(state.View(a)).None? then DEFAULT_INFO else old(state.View(a)).value)
      ensures forall x: Address :: state.BalanceOf(x) == old(state.BalanceOf(x))
      ensures forall n: nat :: TotalBalance(n) == old(TotalBalance(n))
      ensures forall x: Address :: x != a ==> state.View(x) == old(state.View(x))
      ensures forall x: Address :: Dirty(x) ==> old(Dirty(x)) || x == a
    {
      Touch(a);
      if state.View(a).None? {
        Write(a, DEFAULT_INFO, InMemoryChange);
      }
      touched := touched + {a};
      SameBalances(old(state.cache));
    }

    /** Re-creates an account that an earlier Finalise of this block deleted. */
    method CreateZombieIfDeleted(a: Address)
      requires Valid()
      modifies this`touched, this`zombies, state`cache, overlay`entries
      ensures Valid()
      ensures var resurrected := old(state.View(a)).None? && a in finaliseDeleted;
              && state.View(a) == (if resurrected then Some(DEFAULT_INFO) else old(state.View(a)))
              && zombies == (if resurrected then old(zombies) + {a} else old(zombies))
              && touched == (if resurrected then old(touched) + {a} else old(touched))
      ensures overlay.entries.Keys == old(overlay.entries.Keys) + {a}
      ensures forall x: Address :: BaselineOf(x) == old(BaselineOf(x))
      ensures forall x: Address :: x != a ==> StatusOf(x) == old(StatusOf(x))
      ensures forall x: Address :: state.BalanceOf(x) == old(state.BalanceOf(x))
      ensures forall n: nat :: TotalBalance(n) == old(TotalBalance(n))
      ensures forall x: Address :: x != a ==> state.View(x) == old(state.View(x))
      ensures forall x: Address :: Dirty(x) ==> old(Dirty(x)) || (x == a && x in touched)
    {
      Touch(a);
      if state.View(a).None? && a in finaliseDeleted {
        Write(a, DEFAULT_INFO, InMemoryChange);
        label written:
        zombies := zombies + {a};
        touched := touched + {a};
        forall x: Address
          ensures ConsistentAt(x)
        {
          assert old@written(ConsistentAt(x));
        }
      }
      SameBalances(old(state.cache));
    }

    /** Before the Stylus version a zero-value transfer resurrects a source that an earlier Finalise deleted. */
    method WakeSource(from: Address, amount: U256)
      requires Valid()
      modifies this`touched, this`zombies, state`cache, overlay`entries
      ensures Valid()
      ensures var wakes := amount == 0 && from in Wakeable() && old(state.View(from)).None?;
        && state.View(from) == (if wakes then Some(DEFAULT_INFO) else old(state.View(from)))
        && zombies == (if wakes then old(zombies) + {from} else old(zombies))
        && touched == (if wakes then old(touched) + {from} else old(touched))
      ensures amount != 0 ==> overlay.entries == old(overlay.entries) && state.cache == old(state.cache)
      ensures overlay.entries.Keys <= old(overlay.entries.Keys) + {from}
      ensures forall x: Address :: BaselineOf(x) == old(BaselineOf(x))
      ensures forall x: Address :: x != from ==> state.View(x) == old(state.View(x)) && StatusOf(x) == old(StatusOf(x))
      ensures forall x: Address :: state.BalanceOf(x) == old(state.BalanceOf(x))
      ensures forall n: nat :: TotalBalance(n) == old(TotalBalance(n))
      ensures forall x: Address :: Dirty(x) ==> old(Dirty(x)) || x in touched
    {
      if amount == 0 && arbosVersion < ARBOS_VERSION_STYLUS {
        CreateZombieIfDeleted(from);
      }
    }

    /** Ends the zombies that a transfer's debit or credit ends, and touches both ends. */
    method EndZombies(from: Address, to: Address, amount: U256)
      requires Valid()
      modifies this`touched, this`zombies
      ensures Valid()
      ensures zombies == old(zombies) - (if amount != 0 then {from, to} else {to})
      ensures touched == old(touched) + {from, to}
    {
      hide Consistent;
      if amount != 0 {
        zombies := zombies - {from};
      }
      zombies := zombies - {to};
      touched := touched + {from, to};
      forall x: Address
        ensures ConsistentAt(x)
      {
        assert old(ConsistentAt(x));
        NoZombieNeeded(Original(x), state.transitions, x, EntryAt(overlay.entries, x), Seen(state.db, state.cache, x),
                       x in old(zombies), x in drifted, x in unmoored);
      }
    }

    /**
     * The transfer closure of internal transactions, escrow sweeps and retry refunds: a zero-value transfer
     * may resurrect its source as a zombie, any credit ends a zombie, and so does a non-zero debit.
     */
    method TransferZombieAware(from: Address, to: Address, amount: U256) returns (ghost r: BalanceResult)
      requires Valid() && AllTouched()
      modifies this`touched, this`zombies, state`cache, overlay`entries
      ensures Valid() && AllTouched()
      ensures touched == old(touched) + {from, to}
      ensures forall x: Address :: x in zombies <==>
                || (x in old(zombies) && x != to && !(x == from && amount != 0))
                || (x == from != to && amount == 0 && arbosVersion < ARBOS_VERSION_STYLUS
                    && old(state.View(from)).None? && from in finaliseDeleted)
      ensures zombies == AwareZombies(old(zombies), old(Wakes(from)), from, to, amount)
      ensures forall x: Address :: state.View(x)
                == AwareView(old(state.View(x)), r.Moved?, x == from, x == to, amount, from in Wakeable())
      ensures r.InsufficientBalance? <==> old(state.BalanceOf(from)) < amount
      ensures forall n: nat :: from < n && to < n && old(TotalBalance(n)) <= U256_MAX ==>
                && TotalBalance(n) == old(TotalBalance(n))
                && forall x: Address :: state.BalanceOf(x)
                     == old(state.BalanceOf(x)) + (if r.Moved? then Gain(Move(from, to, amount), x) else 0)
    {
      hide Consistent;
      WakeSource(from, amount);
      r := Transfer(from, to, amount);
      EndZombies(from, to, amount);
    }

    /** Deletes from the cache every touched account that is blank and not a zombie. */
    method Finalise()
      requires overlay.entries.Keys <= state.cache.Keys
      modifies this`touched, this`finaliseDeleted, state`cache, overlay`entries
      ensures touched == {}
      ensures overlay.entries.Keys <= state.cache.Keys == old(state.cache.Keys)
      ensures forall a: Address ::
                var seen := a in old(touched) && a in old(state.cache);
                && EntryAt(overlay.entries, a)
                   == FinalisedEntry(old(EntryAt(overlay.entries, a)), old(Seen(state.db, state.cache, a)), seen, a in zombies)
                && Seen(state.db, state.cache, a)
                   == FinalisedAccount(old(Seen(state.db, state.cache, a)), seen, a in zombies)
      ensures finaliseDeleted == old(finaliseDeleted) + Removed(old(state.cache), old(touched), zombies)
    {
      var toRemove := set a | a in touched && a in state.cache && Removes(state.cache[a], true, a in zombies);
      touched := {};
      var todo := toRemove;
      while todo != {}
        invariant todo <= toRemove
        invariant overlay.entries.Keys <= state.cache.Keys == old(state.cache.Keys)
        invariant forall a: Address :: a !in toRemove || a in todo ==>
                    && EntryAt(overlay.entries, a) == old(EntryAt(overlay.entries, a))
                    && Seen(state.db, state.cache, a) == old(Seen(state.db, state.cache, a))
        invariant forall a: Address :: a in toRemove - todo ==>
                    && EntryAt(overlay.entries, a)
                       == Some(Recorded(old(EntryAt(overlay.entries, a)), old(Seen(state.db, state.cache, a))))
                    && Seen(state.db, state.cache, a) == ABSENT
        modifies state`cache, overlay`entries
        decreases todo
      {
        var a :| a in todo;
        overlay.RecordPreTouch(state, a);
        state.cache := state.cache[a := ABSENT];
        todo := todo - {a};
      }
      finaliseDeleted := finaliseDeleted + toRemove;
    }

    /** The end of a transaction: Finalise, then drain the overlay into transitions. */
    method EndTransaction() returns (ghost emitted: seq<Transition>)
      requires Valid() && AllTouched()
      modifies this`touched, this`finaliseDeleted, this`drifted, state, overlay`entries
      ensures Valid() && Idle() && touched == {}
      ensures Emits(old(state.transitions), old(drifted), emitted)
      ensures forall x: Address :: state.BalanceOf(x) == old(state.BalanceOf(x))
      ensures forall n: nat :: TotalBalance(n) == old(TotalBalance(n))
      ensures forall a: Address :: Settled(old(BaselineOf(a)), old(state.cache), old(touched), a)
      ensures finaliseDeleted == old(finaliseDeleted) + Removed(old(state.cache), old(touched), zombies)
    {
      hide Consistent, Drained, ReplaysBothWays, Removes, SettledBy, Mentions, FinalisedEntry, FinalisedAccount;
      ghost var entries0, cache0, ts0 := overlay.entries, state.cache, state.transitions;
      ghost var touched0 := touched;
      Finalise();
      ghost var entries1, cache1 := overlay.entries, state.cache;
      emitted := overlay.DrainAndApply(state, zombies);
      drifted := set a | a in drifted && !Mentions(emitted, a);
      forall a: Address
        ensures ConsistentAt(a)
        ensures Settled(old(BaselineOf(a)), cache0, touched0, a)
      {
        assert old(ConsistentAt(a));
        assert old(Dirty(a)) ==> a in touched0;
        CommittedAt(state.db, entries1, cache1, state.bundle, zombies, state.cache, emitted, a, Original(a), ts0,
                    EntryAt(entries0, a), Seen(state.db, cache0, a), a in touched0 && a in cache0,
                    a in old(drifted), a in unmoored);
      }
      SettledBalances((a: Address) => old(BaselineOf(a)), cache0, touched0);
    }

    lemma SettledBalances(before: Views, cache0: map<Address, CacheAccount>, touched0: set<Address>)
      requires forall a: Address :: Settled(before(a), cache0, touched0, a)
      ensures forall x: Address :: state.BalanceOf(x) == BalanceIn(state.db, cache0, x)
      ensures forall n: nat :: TotalBalance(n) == Total(state.db, cache0, n)
    {
      forall x: Address
        ensures state.BalanceOf(x) == BalanceIn(state.db, cache0, x)
      {
        assert Settled(before(x), cache0, touched0, x);
      }
      SameBalances(cache0);
    }

    /** `emitted` was appended to `before`, and the drifted accounts it mentions are back in step. */
    ghost predicate Emits(before: seq<Transition>, wasDrifted: set<Address>, emitted: seq<Transition>)
      reads this`drifted, state`transitions
    {
      && state.transitions == before + emitted
      && drifted == set a | a in wasDrifted && !Mentions(emitted, a)
    }

    /**
     * Between transactions, replaying the block's transitions over its starting state gives an account as it is seen,
     * up to EIP-161 pruning, exactly when it has not drifted, and reverting them gives the starting state back unless it
     * is unmoored; only an account that started present-empty may come back absent.
     */
    lemma BlockReplays(a: Address)
      requires Valid() && Idle()
      ensures
        var replayed := ReplayAt(Original(a), state.transitions, a);
        && (Pruned(replayed, false) == Pruned(state.View(a), false) <==> a !in drifted)
        && (a !in drifted + unmoored ==> Pruned(replayed, a in zombies) == Pruned(state.View(a), a in zombies))
        && (a !in unmoored ==> SameOriginal(RevertAt(replayed, state.transitions, a), Original(a)))
    {
      assert ConsistentAt(a);
    }

    /** How the end of a transaction leaves one account, given its baseline and the cache and touched set before. */
    ghost predicate Settled(before: Option<AccountInfo>, cache0: map<Address, CacheAccount>, touched0: set<Address>,
                            a: Address)
      reads this`zombies, state
    {
      SettledBy(before, Seen(state.db, cache0, a), Seen(state.db, state.cache, a), a in touched0 && a in cache0, a in zombies)
    }
  }
}
