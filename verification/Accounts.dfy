/** Accounts as revm's state cache and bundle hold them. */
module Accounts {
  import opened Machine
  import opened Options

  type Address = nat

  /** Hash of the empty code. */
  const KECCAK_EMPTY: nat := 0xc5d2460186f7233c927e7db2dcc703c0e500b653ca82273b7bfad8045d85a470

  datatype AccountInfo = AccountInfo(balance: U256, nonce: nat, codeHash: nat)

  const DEFAULT_INFO := AccountInfo(0, 0, KECCAK_EMPTY)

  /** revm's notion of an empty account: an all-zero code hash also stands for no code. */
  predicate IsEmpty(i: AccountInfo) {
    (i.codeHash == KECCAK_EMPTY || i.codeHash == 0) && i.balance == 0 && i.nonce == 0
  }

  /** The emptiness test of Finalise and of the producer, which knows only the hash of the empty code. */
  predicate IsBlank(i: AccountInfo) {
    i.nonce == 0 && i.balance == 0 && i.codeHash == KECCAK_EMPTY
  }

  function Funds(x: Option<AccountInfo>): U256 {
    if x.Some? then x.value.balance else 0
  }

  /** Absent or empty. */
  predicate Vacant(x: Option<AccountInfo>) {
    x.None? || IsEmpty(x.value)
  }

  /** What EIP-161 keeps of an account: a present-empty one counts as absent, unless it is a zombie. */
  function Pruned(x: Option<AccountInfo>, zombie: bool): Option<AccountInfo> {
    if Vacant(x) && !zombie then None else x
  }

  datatype Status =
    | Loaded
    | LoadedNotExisting
    | LoadedEmptyEIP161
    | InMemoryChange
    | Changed
    | Destroyed
    | DestroyedChanged
    | DestroyedAgain

  /** Newly created or destroyed: every slot not written is zero. */
  predicate IsStorageKnown(s: Status) {
    s in {LoadedNotExisting, InMemoryChange, Destroyed, DestroyedChanged, DestroyedAgain}
  }

  /** Destroyed at some point: the hashed diff wipes the storage below it. */
  predicate WasDestroyed(s: Status) {
    s in {Destroyed, DestroyedChanged, DestroyedAgain}
  }

  datatype CacheAccount = CacheAccount(account: Option<AccountInfo>, status: Status)

  datatype BundleInfo = BundleInfo(info: Option<AccountInfo>, status: Status)

  datatype Transition = Transition(
    addr: Address,
    info: Option<AccountInfo>,
    status: Status,
    previousInfo: Option<AccountInfo>,
    previousStatus: Status,
    storageWasDestroyed: bool)

  /** What a first access brings into the cache from the database below it. */
  function LoadedFrom(db: map<Address, AccountInfo>, a: Address): CacheAccount {
    if a !in db then
      CacheAccount(None, LoadedNotExisting)
    else if IsEmpty(db[a]) then
      CacheAccount(Some(DEFAULT_INFO), LoadedEmptyEIP161)
    else
      CacheAccount(Some(db[a]), Loaded)
  }

  /** The account every read sees: the cached one, or what loading it would bring. */
  function Seen(db: map<Address, AccountInfo>, cache: map<Address, CacheAccount>, a: Address): CacheAccount {
    if a in cache then cache[a] else LoadedFrom(db, a)
  }

  /** revm's `State`: a database, the cache above it, the bundle of earlier blocks and the transitions of this one. */
  class State {
    const db: map<Address, AccountInfo>
    const bundle: map<Address, BundleInfo>
    var cache: map<Address, CacheAccount>
    var transitions: seq<Transition>

    constructor (db: map<Address, AccountInfo>, bundle: map<Address, BundleInfo>)
      ensures this.db == db && this.bundle == bundle
      ensures cache == map[] && transitions == []
    {
      this.db, this.bundle := db, bundle;
      cache, transitions := map[], [];
    }

    function View(a: Address): Option<AccountInfo>
      reads this
    {
      Seen(db, cache, a).account
    }

    function BalanceOf(a: Address): nat
      reads this
    {
      match View(a)
      case Some(i) => i.balance
      case None => 0
    }

    method LoadCacheAccount(a: Address)
      modifies this`cache
      ensures a in cache && cache == old(cache)[a := Seen(db, old(cache), a)]
      ensures forall x :: Seen(db, cache, x) == old(Seen(db, cache, x))
    {
      if a !in cache {
        cache := cache[a := LoadedFrom(db, a)];
      }
    }

    method ApplyTransition(ts: seq<Transition>)
      modifies this`transitions
      ensures transitions == old(transitions) + ts
    {
      transitions := transitions + ts;
    }
  }
}
