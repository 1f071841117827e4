/** One lookup table over the storage of all unflushed blocks (crates/arb-node/src/coalesced_state.rs). */
module Coalesced {
  import opened Options
  import opened Accounts

  /** A block's changes to one account's storage. */
  datatype StoredAccount = StoredAccount(status: Status, storage: map<nat, nat>)

  type Bundle = map<Address, StoredAccount>

  // ----- the reference: walk the blocks, newest first -----

  function SlotInBlock(bundle: Bundle, a: Address, slot: nat): Option<nat> {
    if a !in bundle then None
    else if slot in bundle[a].storage then Some(bundle[a].storage[slot])
    else if IsStorageKnown(bundle[a].status) then Some(0)
    else None
  }

  function OrElse(first: Option<nat>, second: Option<nat>): Option<nat> {
    if first.Some? then first else second
  }

  /** The first answer when walking `blocks` (oldest first in the sequence) from the newest. */
  function Walk(blocks: seq<Bundle>, a: Address, slot: nat): Option<nat> {
    if blocks == [] then None
    else OrElse(SlotInBlock(blocks[|blocks| - 1], a, slot), Walk(blocks[..|blocks| - 1], a, slot))
  }

  // ----- the overlay -----

  datatype Overlay = Overlay(slots: map<(Address, nat), nat>, wiped: set<Address>)

  const EMPTY_OVERLAY := Overlay(map[], {})

  function Lookup(o: Overlay, a: Address, slot: nat): Option<nat> {
    if (a, slot) in o.slots then Some(o.slots[(a, slot)])
    else if a in o.wiped then Some(0)
    else None
  }

  /** One lookup in `o` answers as the walk over `blocks` does, for every account and slot. */
  ghost predicate Represents(o: Overlay, blocks: seq<Bundle>) {
    forall a: Address, slot: nat :: Lookup(o, a, slot) == Walk(blocks, a, slot)
  }

  /** `after` answers from `bundle` first and otherwise as `before` did. */
  ghost predicate Shadows(after: Overlay, bundle: Bundle, before: Overlay) {
    forall a: Address, slot: nat ::
      Lookup(after, a, slot) == OrElse(SlotInBlock(bundle, a, slot), Lookup(before, a, slot))
  }

  lemma WalkOneMore(blocks: seq<Bundle>, bundle: Bundle, before: Overlay, after: Overlay)
    requires Represents(before, blocks)
    requires Shadows(after, bundle, before)
    ensures Represents(after, blocks + [bundle])
  {
    assert (blocks + [bundle])[..|blocks|] == blocks;
  }

  class CoalescedOverlay {
    var slots: map<(Address, nat), nat>
    var wiped: set<Address>

    constructor Clone(o: Overlay)
      ensures Value() == o
    {
      slots, wiped := o.slots, o.wiped;
    }

    function Value(): Overlay
      reads this
    {
      Overlay(slots, wiped)
    }

    predicate IsEmpty()
      reads this
    {
      slots == map[] && wiped == {}
    }

    /** Folds one account of a block into the overlay: the wipe first, then its writes. */
    method ExtendWithAccount(a: Address, acct: StoredAccount)
      modifies this
      ensures Shadows(Value(), map[a := acct], old(Value()))
    {
      if IsStorageKnown(acct.status) {
        wiped := wiped + {a};
        slots := map p | p in slots && p.0 != a :: slots[p];
      }
      label Wiped:
      var todo := acct.storage.Keys;
      while todo != {}
        invariant todo <= acct.storage.Keys
        invariant wiped == old@Wiped(wiped)
        invariant forall p: (Address, nat) ::
            p in slots <==> p in old@Wiped(slots) || (p.0 == a && p.1 in acct.storage.Keys - todo)
        invariant forall p: (Address, nat) :: p in slots ==>
            slots[p] == if p.0 == a && p.1 in acct.storage.Keys - todo then acct.storage[p.1] else old@Wiped(slots)[p]
        decreases todo
      {
        var slot :| slot in todo;
        slots := slots[(a, slot) := acct.storage[slot]];
        todo := todo - {slot};
      }
    }

    /** Folds one block's bundle into the overlay, account by account in any order. */
    method ExtendWithBlock(bundle: Bundle)
      modifies this
      ensures Shadows(Value(), bundle, old(Value()))
    {
      var todo := bundle.Keys;
      while todo != {}
        invariant todo <= bundle.Keys
        invariant Shadows(Value(), bundle - todo, old(Value()))
        decreases todo
      {
        var a :| a in todo;
        ExtendWithAccount(a, bundle[a]);
        todo := todo - {a};
      }
    }

    /** Builds the overlay of a chain from scratch, oldest block first. */
    constructor FromChain(blocks: seq<Bundle>)
      ensures Represents(Value(), blocks)
    {
      slots, wiped := map[], {};
      new;
      for i := 0 to |blocks|
        invariant Represents(Value(), blocks[..i])
      {
        ghost var before := Value();
        ExtendWithBlock(blocks[i]);
        WalkOneMore(blocks[..i], blocks[i], before, Value());
        assert blocks[..i + 1] == blocks[..i] + [blocks[i]];
      }
      assert blocks[..|blocks|] == blocks;
    }

    /** A storage read: from the overlay when it knows, else from the provider below. */
    method Storage(below: (Address, nat) -> Option<nat>, a: Address, slot: nat, ghost blocks: seq<Bundle>)
        returns (r: Option<nat>)
      requires Represents(Value(), blocks)
      ensures r == OrElse(Walk(blocks, a, slot), below(a, slot))
      ensures IsEmpty() ==> r == below(a, slot)
    {
      var found := Lookup(Value(), a, slot);
      return if found.Some? then found else below(a, slot);
    }
  }

  /** The newest block to know a slot decides it, and a wiped account reads zero where nothing newer wrote. */
  lemma {:induction false} WalkNewestWins(blocks: seq<Bundle>, a: Address, slot: nat, i: nat)
    requires i < |blocks|
    requires SlotInBlock(blocks[i], a, slot).Some?
    requires forall j :: i < j < |blocks| ==> SlotInBlock(blocks[j], a, slot).None?
    ensures Walk(blocks, a, slot) == SlotInBlock(blocks[i], a, slot)
  {
    if i < |blocks| - 1 {
      WalkNewestWins(blocks[..|blocks| - 1], a, slot, i);
    }
  }
}
