/** From the executed block's cache to the state diff that is hashed (crates/arb-node/src/producer.rs). */
module BundleDiff {
  import opened Options
  import opened Accounts

  datatype Slot = Slot(original: nat, present: nat)

  datatype BundleAccount = BundleAccount(
    info: Option<AccountInfo>,
    originalInfo: Option<AccountInfo>,
    storage: map<nat, Slot>,
    status: Status)

  /** A live cached account. */
  datatype PlainAccount = PlainAccount(info: AccountInfo, storage: map<nat, nat>)

  /** The parent block's state. */
  datatype Parent = Parent(accounts: map<Address, AccountInfo>, storage: map<(Address, nat), nat>)

  type Bundle = map<Address, BundleAccount>
  type Cache = map<Address, Option<PlainAccount>>

  function Entry<T>(m: map<Address, T>, a: Address): Option<T> {
    if a in m then Some(m[a]) else None
  }

  function ParentSlot(p: Parent, a: Address, k: nat): nat {
    if (a, k) in p.storage then p.storage[(a, k)] else 0
  }

  function InfoOf(c: Option<PlainAccount>): Option<AccountInfo> {
    if c.Some? then Some(c.value.info) else None
  }

  function StorageOf(c: Option<PlainAccount>): map<nat, nat> {
    if c.Some? then c.value.storage else map[]
  }

  predicate BlankOrAbsent(i: Option<AccountInfo>) {
    i.None? || IsBlank(i.value)
  }

  // ----- reading through the bundle -----

  function ReadInfo(e: Option<BundleAccount>, p: Parent, a: Address): Option<AccountInfo> {
    if e.Some? then e.value.info else Entry(p.accounts, a)
  }

  /** A slot read through the diff: an account whose status wipes what is below it reads zero where nothing was written.
      Blocks kept in memory wipe by `IsStorageKnown`, the hashed diff by `WasDestroyed`. */
  function ReadSlot(e: Option<BundleAccount>, p: Parent, a: Address, k: nat, wipes: Status -> bool): nat {
    if e.Some? && k in e.value.storage then e.value.storage[k].present
    else if e.Some? && wipes(e.value.status) then 0
    else ParentSlot(p, a, k)
  }

  /** The header derivation's own read, which goes by the recorded slots alone. */
  function HeaderSlot(e: Option<BundleAccount>, p: Parent, a: Address, k: nat): nat {
    if e.Some? && k in e.value.storage then e.value.storage[k].present else ParentSlot(p, a, k)
  }

  // ----- what each stage does to one account -----

  /** The cached slots that differ from the parent's, and the recorded ones brought up to date. */
  function MergedStorage(storage: map<nat, Slot>, cached: map<nat, nat>, p: Parent, a: Address): map<nat, Slot> {
    map k | k in storage.Keys + cached.Keys && (k in storage || cached[k] != ParentSlot(p, a, k)) ::
      if k !in storage then Slot(ParentSlot(p, a, k), cached[k])
      else if k in cached then Slot(storage[k].original, cached[k])
      else storage[k]
  }

  function Augmented(e: Option<BundleAccount>, c: Option<PlainAccount>, p: Parent, a: Address): Option<BundleAccount> {
    var original := Entry(p.accounts, a);
    if e.Some? then
      Some(e.value.(info := InfoOf(c), storage := MergedStorage(e.value.storage, StorageOf(c), p, a)))
    else
      var changes := MergedStorage(map[], StorageOf(c), p, a);
      if original != InfoOf(c) || changes != map[] then
        Some(BundleAccount(InfoOf(c), original, changes, if original.Some? then Changed else InMemoryChange))
      else None
  }

  function Marked(e: Option<BundleAccount>, p: Parent, a: Address): Option<BundleAccount> {
    var original := Entry(p.accounts, a);
    if e.Some? then
      if !BlankOrAbsent(e.value.info) then e
      else if original.Some? then Some(e.value.(info := None))
      else None
    else if BlankOrAbsent(original) then None
    else Some(BundleAccount(None, None, map[], Changed))
  }

  function Filtered(e: Option<BundleAccount>): Option<BundleAccount> {
    if e.None? then None
    else Some(e.value.(storage := map k | k in e.value.storage && e.value.storage[k].present != e.value.storage[k].original
                                    :: e.value.storage[k]))
  }

  function Swept(e: Option<BundleAccount>, zombie: bool, p: Parent, a: Address): Option<BundleAccount> {
    if e.Some? && e.value.info.Some? && IsBlank(e.value.info.value) && !zombie then
      if a in p.accounts then Some(e.value.(info := None)) else None
    else e
  }

  /** All four stages on one account. */
  function Final(e: Option<BundleAccount>, c: Option<Option<PlainAccount>>, deleted: bool, zombie: bool,
                 p: Parent, a: Address): Option<BundleAccount> {
    var augmented := if c.Some? then Augmented(e, c.value, p, a) else e;
    var marked := if deleted && !zombie then Marked(augmented, p, a) else augmented;
    Swept(Filtered(marked), zombie, p, a)
  }

  // ----- what the result means -----

  /** A finalise-deleted account that a later transaction restored to exactly its parent state is not in the bundle,
      and the deletion is recorded over it. */
  predicate Overwritten(e: Option<BundleAccount>, c: Option<PlainAccount>, deleted: bool, zombie: bool,
                        p: Parent, a: Address) {
    deleted && !zombie && e.None? && InfoOf(c) == Entry(p.accounts, a)
    && MergedStorage(map[], StorageOf(c), p, a) == map[]
  }

  /** A live cached account is read back exactly unless it was overwritten. */
  lemma LiveInfoReadBack(e: Option<BundleAccount>, c: PlainAccount, deleted: bool, zombie: bool, p: Parent, a: Address)
    requires !IsBlank(c.info)
    ensures ReadInfo(Final(e, Some(Some(c)), deleted, zombie, p, a), p, a) == Some(c.info)
       <==> !Overwritten(e, Some(c), deleted, zombie, p, a)
  {
    hide MergedStorage;
  }

  /** An absent or blank cached account never reads back as live, and a zombie reads back as it is. */
  lemma GoneInfoReadBack(e: Option<BundleAccount>, c: Option<PlainAccount>, deleted: bool, zombie: bool,
                         p: Parent, a: Address)
    ensures BlankOrAbsent(InfoOf(c)) ==>
      BlankOrAbsent(ReadInfo(Final(e, Some(c), deleted, zombie, p, a), p, a))
    ensures zombie ==> ReadInfo(Final(e, Some(c), deleted, zombie, p, a), p, a) == InfoOf(c)
  {
    hide MergedStorage;
  }

  /** The slot is not in the diff: it ends at its recorded original, or at the parent's value without a record. */
  predicate Unrecorded(e: Option<BundleAccount>, v: nat, p: Parent, a: Address, k: nat) {
    v == if e.Some? && k in e.value.storage then e.value.storage[k].original else ParentSlot(p, a, k)
  }

  /** The status an account ends up under in the diff. */
  function EndStatus(e: Option<BundleAccount>, p: Parent, a: Address): Status {
    if e.Some? then e.value.status else if a in p.accounts then Changed else InMemoryChange
  }

  /** A live account's cached slot is lost when it is not in the diff and what lies below reads otherwise: zero under a
      status that wipes, the parent's value under any other. */
  predicate SlotLost(e: Option<BundleAccount>, v: nat, p: Parent, a: Address, k: nat, wipes: Status -> bool) {
    Unrecorded(e, v, p, a, k) && v != if wipes(EndStatus(e, p, a)) then 0 else ParentSlot(p, a, k)
  }

  lemma SlotReadBack(e: Option<BundleAccount>, c: PlainAccount, deleted: bool, zombie: bool, p: Parent, a: Address,
                     k: nat, wipes: Status -> bool)
    requires !IsBlank(c.info)
    requires k in c.storage
    requires !wipes(Changed)
    ensures ReadSlot(Final(e, Some(Some(c)), deleted, zombie, p, a), p, a, k, wipes) == c.storage[k]
       <==> !SlotLost(e, c.storage[k], p, a, k, wipes)
  {
    SettledSlot(e, c, deleted, zombie, p, a, k);
  }

  /** The header derivation reads a live account's cached slot back unless the bundle had recorded the value as that slot's
      original while the parent has another. */
  lemma HeaderReadBack(e: Option<BundleAccount>, c: PlainAccount, deleted: bool, zombie: bool, p: Parent, a: Address, k: nat)
    requires !IsBlank(c.info)
    requires k in c.storage
    ensures HeaderSlot(Final(e, Some(Some(c)), deleted, zombie, p, a), p, a, k) == c.storage[k]
       <==> !(e.Some? && k in e.value.storage && e.value.storage[k].original == c.storage[k] != ParentSlot(p, a, k))
  {
    SettledSlot(e, c, deleted, zombie, p, a, k);
  }

  /** Where a live account's cached slot ends up in the diff. */
  lemma SettledSlot(e: Option<BundleAccount>, c: PlainAccount, deleted: bool, zombie: bool, p: Parent, a: Address, k: nat)
    requires !IsBlank(c.info)
    requires k in c.storage
    ensures
      var r := Final(e, Some(Some(c)), deleted, zombie, p, a);
      && (r.Some? && k in r.value.storage <==> !Unrecorded(e, c.storage[k], p, a, k))
      && (r.Some? && k in r.value.storage ==>
            && r.value.storage[k].present == c.storage[k]
            && r.value.storage[k].original
               == if e.Some? && k in e.value.storage then e.value.storage[k].original else ParentSlot(p, a, k))
      && (r.Some? ==> r.value.status == EndStatus(e, p, a))
      && (r.None? ==> EndStatus(e, p, a) == Changed)
  {
    var augmented := Augmented(e, Some(c), p, a);
    var marked := if deleted && !zombie then Marked(augmented, p, a) else augmented;
    if augmented.None? {
      assert k !in MergedStorage(map[], c.storage, p, a);
    } else {
      assert marked == augmented;
      assert Swept(Filtered(marked), zombie, p, a) == Filtered(marked);
    }
  }

  /** A recorded slot that is not cached stays in the diff as it is when it is a change, and nothing else gets into it. */
  lemma UncachedSlotKept(e: BundleAccount, c: PlainAccount, deleted: bool, zombie: bool, p: Parent, a: Address, k: nat)
    requires !IsBlank(c.info) && k !in c.storage
    ensures
      var r := Final(Some(e), Some(Some(c)), deleted, zombie, p, a);
      && r.Some?
      && (k in r.value.storage <==> k in e.storage && e.storage[k].present != e.storage[k].original)
      && (k in r.value.storage ==> r.value.storage[k] == e.storage[k])
  {
  }

  /** What becomes of an account that is gone and no zombie: recorded before, it is recorded as deleted, or dropped when the
      parent never had it and it was deleted or left blank; first recorded here, it is a deletion of the parent's. */
  lemma GoneEntry(e: Option<BundleAccount>, c: Option<PlainAccount>, deleted: bool, p: Parent, a: Address)
    requires BlankOrAbsent(InfoOf(c))
    ensures
      var r := Final(e, Some(c), deleted, false, p, a);
      && (r.Some? ==> r.value.info.None?)
      && (e.Some? ==> (r.None? <==> a !in p.accounts && (deleted || c.Some?)))
      && (e.Some? && r.Some? ==> r.value.originalInfo == e.value.originalInfo && r.value.status == e.value.status)
      && (e.None? && r.Some? ==>
            a in p.accounts && r.value.originalInfo == Entry(p.accounts, a) && r.value.status == Changed)
      && (e.None? && r.None? ==> BlankOrAbsent(Entry(p.accounts, a)))
  {
    assert MergedStorage(map[], map[], p, a) == map[];
    hide MergedStorage;
  }

  /** A deletion that neither bundle nor cache shows is recorded bare, exactly when the parent has a live account. */
  lemma BareDeletion(p: Parent, a: Address)
    ensures Final(None, None, true, false, p, a)
         == if BlankOrAbsent(Entry(p.accounts, a)) then None else Some(BundleAccount(None, None, map[], Changed))
  {
  }

  /** An account deleted by one transaction and restored by a later one to its parent state ends up deleted. */
  lemma RestoredAccountIsDeleted()
    ensures
      var info := AccountInfo(5, 0, KECCAK_EMPTY);
      var p := Parent(map[1 := info], map[]);
      ReadInfo(Final(None, Some(Some(PlainAccount(info, map[]))), true, false, p, 1), p, 1) == None
  {
    var info := AccountInfo(5, 0, KECCAK_EMPTY);
    assert MergedStorage(map[], map[], Parent(map[1 := info], map[]), 1) == map[];
  }

  // ----- which bundles and caches the transitions produce -----

  /** What a read below an account's own writes sees, by its status. */
  function Below(status: Status, p: Parent, a: Address, k: nat): nat {
    if IsStorageKnown(status) then 0 else ParentSlot(p, a, k)
  }

  /** One account in the EVM's hands: its bundle entry, its cached form and its status. */
  datatype Held = Held(e: Option<BundleAccount>, c: Option<PlainAccount>, status: Status)

  /** What the EVM does to an account's storage. */
  datatype StorageOp = Load(k: nat) | Write(k: nat, v: nat) | Destroy | Create(info: AccountInfo)

  function Loading(p: Parent, a: Address): Held {
    if a in p.accounts then Held(None, Some(PlainAccount(p.accounts[a], map[])), Loaded)
    else Held(None, None, LoadedNotExisting)
  }

  function Written(status: Status): Status {
    match status
    case Loaded => Changed
    case LoadedNotExisting => InMemoryChange
    case Destroyed | DestroyedAgain => DestroyedChanged
    case _ => status
  }

  function Cleared(status: Status): Status {
    match status
    case LoadedNotExisting => LoadedNotExisting
    case DestroyedChanged | DestroyedAgain => DestroyedAgain
    case _ => Destroyed
  }

  function Present(c: PlainAccount, status: Status, p: Parent, a: Address, k: nat): nat {
    if k in c.storage then c.storage[k] else Below(status, p, a, k)
  }

  /** A write records the slot with the value it had when first written since the account was last set up. */
  function WriteSlot(h: Held, p: Parent, a: Address, k: nat, v: nat): Held
    requires h.c.Some?
  {
    var c, was := h.c.value, Present(h.c.value, h.status, p, a, k);
    var storage := if h.e.Some? then h.e.value.storage else map[];
    var slot := if k in storage then Slot(storage[k].original, v) else Slot(was, v);
    Held(Some(BundleAccount(Some(c.info), Entry(p.accounts, a), storage[k := slot], Written(h.status))),
         Some(c.(storage := c.storage[k := v])), Written(h.status))
  }

  function Apply(h: Held, op: StorageOp, p: Parent, a: Address): Held {
    match op
    case Load(k) =>
      if h.c.None? then h
      else h.(c := Some(h.c.value.(storage := h.c.value.storage[k := Present(h.c.value, h.status, p, a, k)])))
    case Write(k, v) => if h.c.None? then h else WriteSlot(h, p, a, k, v)
    case Destroy =>
      if h.c.None? then h
      else Held(Some(BundleAccount(None, Entry(p.accounts, a), map[], Cleared(h.status))), None, Cleared(h.status))
    case Create(info) =>
      if h.c.Some? then h
      else
        Held(Some(BundleAccount(Some(info), Entry(p.accounts, a), map[], Written(h.status))),
             Some(PlainAccount(info, map[])), Written(h.status))
  }

  function ApplyAll(ops: seq<StorageOp>, p: Parent, a: Address): Held {
    if ops == [] then Loading(p, a) else Apply(ApplyAll(ops[..|ops| - 1], p, a), ops[|ops| - 1], p, a)
  }

  /** Recorded slots begin at what lies below and end at the cached value; unrecorded ones are what lies below. */
  ghost predicate Produced(h: Held, p: Parent, a: Address) {
    && (h.e.Some? ==> h.e.value.status == h.status)
    && (h.e.None? ==> h.status == (if a in p.accounts then Loaded else LoadedNotExisting))
    && (h.status in {LoadedNotExisting, InMemoryChange} ==> a !in p.accounts)
    && (h.c.Some? ==> h.status in {Loaded, Changed, InMemoryChange, DestroyedChanged})
    && (h.c.None? ==> h.status in {LoadedNotExisting, Destroyed, DestroyedAgain} && (h.e.Some? ==> h.e.value.storage == map[]))
    && (h.c.Some? && h.e.Some? ==> forall k :: k in h.e.value.storage ==>
          && k in h.c.value.storage && h.e.value.storage[k].present == h.c.value.storage[k]
          && h.e.value.storage[k].original == Below(h.status, p, a, k))
    && (h.c.Some? ==> forall k :: k in h.c.value.storage && !(h.e.Some? && k in h.e.value.storage) ==>
          h.c.value.storage[k] == Below(h.status, p, a, k))
  }

  /** The parent keeps no storage of accounts it does not have. */
  ghost predicate Tidy(p: Parent, a: Address) {
    a !in p.accounts ==> forall k :: ParentSlot(p, a, k) == 0
  }

  lemma ApplyKeepsProduced(h: Held, op: StorageOp, p: Parent, a: Address)
    requires Produced(h, p, a) && Tidy(p, a)
    ensures Produced(Apply(h, op, p, a), p, a)
  {
  }

  lemma {:induction false} ProducedByAll(ops: seq<StorageOp>, p: Parent, a: Address)
    requires Tidy(p, a)
    ensures Produced(ApplyAll(ops, p, a), p, a)
  {
    if ops != [] {
      ProducedByAll(ops[..|ops| - 1], p, a);
      ApplyKeepsProduced(ApplyAll(ops[..|ops| - 1], p, a), ops[|ops| - 1], p, a);
    }
  }

  /** Whatever the EVM did to an account, every cached slot of it reads back, in memory and hashed. */
  lemma ProducedSlotsReadBack(ops: seq<StorageOp>, deleted: bool, zombie: bool, p: Parent, a: Address, k: nat)
    requires Tidy(p, a)
    ensures
      var h := ApplyAll(ops, p, a);
      h.c.Some? && !IsBlank(h.c.value.info) && k in h.c.value.storage ==>
        var r := Final(h.e, Some(h.c), deleted, zombie, p, a);
        ReadSlot(r, p, a, k, IsStorageKnown) == ReadSlot(r, p, a, k, WasDestroyed) == h.c.value.storage[k]
  {
    hide Final, ApplyAll;
    var h := ApplyAll(ops, p, a);
    ProducedByAll(ops, p, a);
    if h.c.Some? && !IsBlank(h.c.value.info) && k in h.c.value.storage {
      SlotReadBack(h.e, h.c.value, deleted, zombie, p, a, k, IsStorageKnown);
      SlotReadBack(h.e, h.c.value, deleted, zombie, p, a, k, WasDestroyed);
    }
  }

  /** The header derivation misses exactly the slots that a re-created account wrote and set back to zero over a parent's
      value. */
  lemma ProducedHeaderReadBack(ops: seq<StorageOp>, deleted: bool, zombie: bool, p: Parent, a: Address, k: nat)
    requires Tidy(p, a)
    ensures
      var h := ApplyAll(ops, p, a);
      h.c.Some? && !IsBlank(h.c.value.info) && k in h.c.value.storage ==>
        (HeaderSlot(Final(h.e, Some(h.c), deleted, zombie, p, a), p, a, k) == h.c.value.storage[k]
         <==> !(h.status == DestroyedChanged && h.e.Some? && k in h.e.value.storage
                && h.c.value.storage[k] == 0 != ParentSlot(p, a, k)))
  {
    hide Final, ApplyAll;
    var h := ApplyAll(ops, p, a);
    ProducedByAll(ops, p, a);
    if h.c.Some? && !IsBlank(h.c.value.info) && k in h.c.value.storage {
      HeaderReadBack(h.e, h.c.value, deleted, zombie, p, a, k);
    }
  }

  /** An account destroyed, re-created, and with a slot of the parent's written and cleared: the header derivation reads the
      parent's value. */
  lemma HeaderMissesClearedSlot()
    ensures
      var info := AccountInfo(5, 1, KECCAK_EMPTY);
      var p := Parent(map[1 := info], map[(1, 3) := 9]);
      var h := ApplyAll([Destroy, Create(info), Write(3, 7), Write(3, 0)], p, 1);
      h.c.Some? && 3 in h.c.value.storage && h.c.value.storage[3] == 0
      && HeaderSlot(Final(h.e, Some(h.c), false, false, p, 1), p, 1, 3) == 9
  {
    var info := AccountInfo(5, 1, KECCAK_EMPTY);
    var p := Parent(map[1 := info], map[(1, 3) := 9]);
    ApplyOne([], Destroy, p, 1);
    ApplyOne([Destroy], Create(info), p, 1);
    ApplyOne([Destroy, Create(info)], Write(3, 7), p, 1);
    ApplyOne([Destroy, Create(info), Write(3, 7)], Write(3, 0), p, 1);
    assert [] + [Destroy] == [Destroy] && [Destroy] + [Create(info)] == [Destroy, Create(info)];
    assert [Destroy, Create(info)] + [Write(3, 7)] == [Destroy, Create(info), Write(3, 7)];
    assert [Destroy, Create(info), Write(3, 7)] + [Write(3, 0)] == [Destroy, Create(info), Write(3, 7), Write(3, 0)];
    var h := Apply(Apply(Apply(Apply(Loading(p, 1), Destroy, p, 1), Create(info), p, 1), Write(3, 7), p, 1),
                   Write(3, 0), p, 1);
    SettledSlot(h.e, h.c.value, false, false, p, 1, 3);
  }

  lemma ApplyOne(ops: seq<StorageOp>, op: StorageOp, p: Parent, a: Address)
    ensures ApplyAll(ops + [op], p, a) == Apply(ApplyAll(ops, p, a), op, p, a)
    ensures ApplyAll([], p, a) == Loading(p, a)
  {
    assert (ops + [op])[..|ops|] == ops;
  }

  /** A combination that no account reaches: a cached write over a wiped slot that the bundle does not record would read
      zero. */
  lemma UnrecordedWriteIsLost()
    ensures
      var info := AccountInfo(5, 1, KECCAK_EMPTY);
      var p := Parent(map[1 := info], map[(1, 3) := 9]);
      var e := Some(BundleAccount(Some(info), Some(info), map[], DestroyedChanged));
      var r := Final(e, Some(Some(PlainAccount(info, map[3 := 9]))), false, false, p, 1);
      && ReadSlot(r, p, 1, 3, IsStorageKnown) == ReadSlot(r, p, 1, 3, WasDestroyed) == 0
      && !Produced(Held(e, Some(PlainAccount(info, map[3 := 9])), DestroyedChanged), p, 1)
  {
    var info := AccountInfo(5, 1, KECCAK_EMPTY);
    var p := Parent(map[1 := info], map[(1, 3) := 9]);
    var c := PlainAccount(info, map[3 := 9]);
    var e := Some(BundleAccount(Some(info), Some(info), map[], DestroyedChanged));
    SettledSlot(e, c, false, false, p, 1, 3);
    assert 3 in c.storage;
  }

  /** Every slot left in the diff is a change, and no account in it is present and blank unless a zombie. */
  lemma DiffIsMinimal(e: Option<BundleAccount>, c: Option<Option<PlainAccount>>, deleted: bool, zombie: bool,
                      p: Parent, a: Address)
    ensures var r := Final(e, c, deleted, zombie, p, a);
      r.Some? ==>
        && (forall k :: k in r.value.storage ==> r.value.storage[k].present != r.value.storage[k].original)
        && (r.value.info.Some? && IsBlank(r.value.info.value) ==> zombie)
  {
    hide MergedStorage;
  }

  /** A live account keeps its recorded origin; one first recorded here has the parent's, and counts as created
      exactly when the parent has none. Its slots begin at the parent's values. */
  lemma OriginRecorded(e: Option<BundleAccount>, c: PlainAccount, deleted: bool, zombie: bool, p: Parent, a: Address)
    requires !IsBlank(c.info) && !Overwritten(e, Some(c), deleted, zombie, p, a)
    ensures var r := Final(e, Some(Some(c)), deleted, zombie, p, a);
      r.Some? ==>
        if e.Some? then r.value.originalInfo == e.value.originalInfo && r.value.status == e.value.status
        else
          && r.value.originalInfo == Entry(p.accounts, a)
          && r.value.status == (if a in p.accounts then Changed else InMemoryChange)
          && forall k :: k in r.value.storage ==> r.value.storage[k] == Slot(ParentSlot(p, a, k), c.storage[k])
  {
  }

  /** What is not cached, and live, a zombie or not deleted, stays in the diff as it was, but for unchanged slots. */
  lemma UncachedKept(e: BundleAccount, deleted: bool, zombie: bool, p: Parent, a: Address)
    requires zombie || !BlankOrAbsent(e.info) || (e.info.None? && !deleted)
    ensures var r := Final(Some(e), None, deleted, zombie, p, a);
      && r.Some? && r.value == e.(storage := r.value.storage)
      && forall k :: k in e.storage ==>
           (if e.storage[k].present == e.storage[k].original then k !in r.value.storage
            else k in r.value.storage && r.value.storage[k] == e.storage[k])
  {
  }

  /** All else that is not cached is recorded as deleted, or dropped when the parent never had it. */
  lemma UncachedGone(e: BundleAccount, deleted: bool, p: Parent, a: Address)
    requires BlankOrAbsent(e.info) && (e.info.None? ==> deleted)
    ensures var r := Final(Some(e), None, deleted, false, p, a);
      && (r.None? <==> a !in p.accounts)
      && (r.Some? ==> r.value == e.(info := None, storage := r.value.storage))
  {
  }

  // ----- the bundle, stage by stage -----

  /** Brings recorded slots up to date and adds the cached ones that differ from the parent's, one by one. */
  method MergeStorage(storage: map<nat, Slot>, cached: map<nat, nat>, p: Parent, a: Address)
      returns (r: map<nat, Slot>)
    ensures r == MergedStorage(storage, cached, p, a)
  {
    r := storage;
    var todo := cached.Keys;
    assert MergedStorage(storage, cached - todo, p, a) == storage;
    while todo != {}
      invariant todo <= cached.Keys
      invariant r == MergedStorage(storage, cached - todo, p, a)
      decreases todo
    {
      var k :| k in todo;
      if k in r {
        r := r[k := r[k].(present := cached[k])];
      } else if cached[k] != ParentSlot(p, a, k) {
        r := r[k := Slot(ParentSlot(p, a, k), cached[k])];
      }
      todo := todo - {k};
    }
    assert cached - todo == cached;
  }

  class BundleState {
    var state: Bundle

    constructor (state: Bundle)
      ensures this.state == state
    {
      this.state := state;
    }

    /** Takes over what direct cache writes changed. */
    method AugmentFromCache(cache: Cache, p: Parent)
      modifies this
      ensures forall a: Address :: Entry(state, a)
                == if a in cache then Augmented(old(Entry(state, a)), cache[a], p, a) else old(Entry(state, a))
    {
      hide MergedStorage;
      var todo := cache.Keys;
      while todo != {}
        invariant todo <= cache.Keys
        invariant forall a: Address :: Entry(state, a)
                    == if a in cache && a !in todo then Augmented(old(Entry(state, a)), cache[a], p, a)
                       else old(Entry(state, a))
        decreases todo
      {
        var a :| a in todo;
        var info, storage := InfoOf(cache[a]), StorageOf(cache[a]);
        if a in state {
          var merged := MergeStorage(state[a].storage, storage, p, a);
          state := state[a := state[a].(info := info, storage := merged)];
        } else {
          var original := Entry(p.accounts, a);
          var changes := MergeStorage(map[], storage, p, a);
          if original != info || changes != map[] {
            var status := if original.Some? then Changed else InMemoryChange;
            state := state[a := BundleAccount(info, original, changes, status)];
          }
        }
        todo := todo - {a};
      }
    }

    /** Records the deletions that the per-transaction finalisation made, zombies excepted. */
    method MarkFinaliseDeletions(finaliseDeleted: set<Address>, zombies: set<Address>, p: Parent)
      modifies this
      ensures forall a: Address :: Entry(state, a)
                == if a in finaliseDeleted - zombies then Marked(old(Entry(state, a)), p, a) else old(Entry(state, a))
    {
      var todo := finaliseDeleted;
      while todo != {}
        invariant todo <= finaliseDeleted
        invariant forall a: Address :: Entry(state, a)
                    == if a in finaliseDeleted - zombies - todo then Marked(old(Entry(state, a)), p, a)
                       else old(Entry(state, a))
        decreases todo
      {
        var a :| a in todo;
        todo := todo - {a};
        if a in zombies {
          continue;
        }
        if a in state {
          if BlankOrAbsent(state[a].info) {
            if a in p.accounts {
              state := state[a := state[a].(info := None)];
            } else {
              state := state - {a};
            }
          }
          continue;
        }
        if a in p.accounts && !IsBlank(p.accounts[a]) {
          state := state[a := BundleAccount(None, None, map[], Changed)];
        }
      }
    }

    /** Drops the storage slots that end where they began. */
    method FilterUnchangedStorage()
      modifies this
      ensures forall a: Address :: Entry(state, a) == Filtered(old(Entry(state, a)))
    {
      var todo := state.Keys;
      while todo != {}
        invariant todo <= state.Keys
        invariant forall a: Address :: Entry(state, a)
                    == if a in todo then old(Entry(state, a)) else Filtered(old(Entry(state, a)))
        decreases todo
      {
        var a :| a in todo;
        var storage := state[a].storage;
        state := state[a := state[a].(storage := map k | k in storage && storage[k].present != storage[k].original
                                                 :: storage[k])];
        todo := todo - {a};
      }
    }

    /** EIP-161: deletes the blank accounts that are no zombies; those the parent never had are dropped afterwards. */
    method DeleteEmptyAccounts(zombies: set<Address>, p: Parent)
      modifies this
      ensures forall a: Address :: Entry(state, a) == Swept(old(Entry(state, a)), a in zombies, p, a)
    {
      var todo := state.Keys;
      var toRemove: set<Address> := {};
      while todo != {}
        invariant todo <= state.Keys && toRemove <= state.Keys
        invariant forall a: Address :: Entry(state, a)
                    == if a in todo || a in toRemove then old(Entry(state, a))
                       else Swept(old(Entry(state, a)), a in zombies, p, a)
        invariant forall a: Address :: a in toRemove ==> a !in todo && Swept(old(Entry(state, a)), a in zombies, p, a) == None
        decreases todo
      {
        var a :| a in todo;
        var info := state[a].info;
        if info.Some? && IsBlank(info.value) && a !in zombies {
          if a in p.accounts {
            state := state[a := state[a].(info := None)];
          } else {
            toRemove := toRemove + {a};
          }
        }
        todo := todo - {a};
      }
      state := state - toRemove;
    }

    /** The four stages in order. */
    method Settle(cache: Cache, finaliseDeleted: set<Address>, zombies: set<Address>, p: Parent)
      modifies this
      ensures forall a: Address :: Entry(state, a)
                == Final(old(Entry(state, a)), Entry(cache, a), a in finaliseDeleted, a in zombies, p, a)
    {
      hide Augmented, Marked, Filtered, Swept;
      AugmentFromCache(cache, p);
      MarkFinaliseDeletions(finaliseDeleted, zombies, p);
      FilterUnchangedStorage();
      DeleteEmptyAccounts(zombies, p);
    }
  }
}
