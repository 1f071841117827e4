/**
 * The books of a transaction: the list of what it does to accounts, and from that list every account and every zombie
 * after it (crates/arb-evm/src/build.rs).
 */
module Books {
  import opened Machine
  import opened Options
  import opened Accounts
  import opened Ledger
  import opened Executor
  import opened EvmCommit

  /** A transfer that is skipped when its source cannot cover it, one that also minds zombies, a zombie-aware transfer of
      everything there is, a burn of up to an amount, a mint, an absent account made present and empty, a nonce raised,
      what the EVM wrote, and accounts that an early drain dropped. */
  datatype Posting =
    | MoveIfCovered(from: Address, to: Address, amount: U256)
    | AwareMove(from: Address, to: Address, amount: U256)
    | Sweep(from: Address, to: Address)
    | BurnUpTo(addr: Address, amount: U256)
    | MintTo(addr: Address, amount: U256)
    | Materialise(addr: Address)
    | BumpNonce(addr: Address)
    | WriteAll(writes: map<Address, EvmWrite>)
    | Drop(gone: set<Address>)

  /** An account after one posting, when everything was seen as `v`. */
  ghost function Post(v: Views, p: Posting, wakeable: set<Address>, a: Address): Option<AccountInfo> {
    match p
    case MoveIfCovered(from, to, amount) =>
      if amount == 0 || Funds(v(from)) < amount then v(a) else ViewAfter(v(a), a == from, a == to, amount)
    case AwareMove(from, to, amount) =>
      AwareView(v(a), amount <= Funds(v(from)), a == from, a == to, amount, from in wakeable)
    case Sweep(from, to) =>
      AwareView(v(a), true, a == from, a == to, Funds(v(from)), from in wakeable)
    case BurnUpTo(addr, amount) => if a == addr && amount != 0 then Debited(v(a), amount) else v(a)
    case MintTo(addr, amount) => if a == addr && amount != 0 then Some(Credited(v(a), amount)) else v(a)
    case Materialise(addr) => if a == addr && v(a).None? then Some(DEFAULT_INFO) else v(a)
    case BumpNonce(addr) =>
      if a == addr && v(a).Some? then Some(v(a).value.(nonce := v(a).value.nonce + 1)) else v(a)
    case WriteAll(writes) => if a in writes then WrittenInfo(writes[a]) else v(a)
    case Drop(gone) => if a in gone then None else v(a)
  }

  ghost function PostZombies(v: Views, zombies: set<Address>, p: Posting, wakeable: set<Address>): set<Address> {
    match p
    case AwareMove(from, to, amount) =>
      AwareZombies(zombies, v(from).None? && from in wakeable, from, to, amount)
    case Sweep(from, to) =>
      AwareZombies(zombies, v(from).None? && from in wakeable, from, to, Funds(v(from)))
    case _ => zombies
  }

  ghost function Posted(v: Views, ps: seq<Posting>, wakeable: set<Address>): Views {
    if ps == [] then v
    else
      var before := Posted(v, ps[..|ps| - 1], wakeable);
      (a: Address) => Post(before, ps[|ps| - 1], wakeable, a)
  }

  ghost function PostedZombies(v: Views, zombies: set<Address>, ps: seq<Posting>, wakeable: set<Address>): set<Address> {
    if ps == [] then zombies
    else
      var init := ps[..|ps| - 1];
      PostZombies(Posted(v, init, wakeable), PostedZombies(v, zombies, init, wakeable), ps[|ps| - 1], wakeable)
  }

  /** The accounts a posting speaks of. */
  predicate Names(p: Posting, a: Address) {
    match p
    case MoveIfCovered(from, to, _) => a == from || a == to
    case AwareMove(from, to, _) => a == from || a == to
    case Sweep(from, to) => a == from || a == to
    case BurnUpTo(addr, _) => a == addr
    case MintTo(addr, _) => a == addr
    case Materialise(addr) => a == addr
    case BumpNonce(addr) => a == addr
    case WriteAll(writes) => a in writes
    case Drop(gone) => a in gone
  }

  /** What no posting names stays as it is. */
  lemma {:induction false} UnnamedStays(v: Views, zombies: set<Address>, ps: seq<Posting>, wakeable: set<Address>, a: Address)
    requires forall i :: 0 <= i < |ps| ==> !Names(ps[i], a)
    ensures Posted(v, ps, wakeable)(a) == v(a)
    ensures a in PostedZombies(v, zombies, ps, wakeable) <==> a in zombies
  {
    if ps != [] {
      UnnamedStays(v, zombies, ps[..|ps| - 1], wakeable, a);
      assert !Names(ps[|ps| - 1], a);
    }
  }

  /** Only zombie-aware transfers edit the zombies. */
  lemma {:induction false} OthersKeepZombies(v: Views, zombies: set<Address>, ps: seq<Posting>, wakeable: set<Address>)
    requires forall i :: 0 <= i < |ps| ==> !ps[i].AwareMove? && !ps[i].Sweep?
    ensures PostedZombies(v, zombies, ps, wakeable) == zombies
  {
    if ps != [] {
      OthersKeepZombies(v, zombies, ps[..|ps| - 1], wakeable);
    }
  }

  /** Zombies only ever come from deleted accounts. */
  lemma {:induction false} ZombiesAreDeleted(v: Views, zombies: set<Address>, ps: seq<Posting>, wakeable: set<Address>)
    ensures PostedZombies(v, zombies, ps, wakeable) <= zombies + wakeable
  {
    if ps != [] {
      ZombiesAreDeleted(v, zombies, ps[..|ps| - 1], wakeable);
    }
  }

  /** A posting that makes an absent account present. */
  ghost predicate Makes(v: Views, p: Posting, wakeable: set<Address>, a: Address) {
    match p
    case MoveIfCovered(from, to, amount) => a == to && 0 < amount <= Funds(v(from))
    case AwareMove(from, to, amount) =>
      (a == to && 0 < amount <= Funds(v(from))) || (a == from && amount == 0 && a in wakeable)
    case Sweep(from, to) =>
      (a == to && 0 < Funds(v(from))) || (a == from && Funds(v(from)) == 0 && a in wakeable)
    case MintTo(addr, amount) => a == addr && 0 < amount
    case Materialise(addr) => a == addr
    case _ => false
  }

  /** A posting that neither sets accounts anew nor raises a nonce. */
  predicate OnlyFunds(p: Posting) {
    !p.WriteAll? && !p.Drop? && !p.BumpNonce?
  }

  ghost predicate MadeBy(v: Views, ps: seq<Posting>, wakeable: set<Address>, a: Address) {
    exists i :: 0 <= i < |ps| && Makes(Posted(v, ps[..i], wakeable), ps[i], wakeable, a)
  }

  /** Such postings leave an account present exactly when it was or one of them made it so, with the nonce and code it
      had or none. */
  lemma {:induction false} PresentIffMade(v: Views, ps: seq<Posting>, wakeable: set<Address>, a: Address)
    requires forall i :: 0 <= i < |ps| ==> OnlyFunds(ps[i])
    ensures Posted(v, ps, wakeable)(a).Some? <==> v(a).Some? || MadeBy(v, ps, wakeable, a)
    ensures var w := Posted(v, ps, wakeable)(a);
      w.Some? ==> var i := if v(a).Some? then v(a).value else DEFAULT_INFO;
        w.value.nonce == i.nonce && w.value.codeHash == i.codeHash
  {
    if ps != [] {
      var init, p := ps[..|ps| - 1], ps[|ps| - 1];
      PresentIffMade(v, init, wakeable, a);
      PostMakes(Posted(v, init, wakeable), p, wakeable, a);
      if MadeBy(v, init, wakeable, a) {
        var i :| 0 <= i < |init| && Makes(Posted(v, init[..i], wakeable), init[i], wakeable, a);
        assert ps[..i] == init[..i];
        assert Makes(Posted(v, ps[..i], wakeable), ps[i], wakeable, a);
      }
      if MadeBy(v, ps, wakeable, a) {
        var i :| 0 <= i < |ps| && Makes(Posted(v, ps[..i], wakeable), ps[i], wakeable, a);
        if i < |init| {
          assert ps[..i] == init[..i];
          assert Makes(Posted(v, init[..i], wakeable), init[i], wakeable, a);
        }
      }
    }
  }

  lemma PostMakes(v: Views, p: Posting, wakeable: set<Address>, a: Address)
    requires OnlyFunds(p)
    ensures Post(v, p, wakeable, a).Some? <==> v(a).Some? || Makes(v, p, wakeable, a)
    ensures var w := Post(v, p, wakeable, a);
      w.Some? ==> var i := if v(a).Some? then v(a).value else DEFAULT_INFO;
        w.value.nonce == i.nonce && w.value.codeHash == i.codeHash
  {
  }

  lemma {:induction false} PostedConcat(v: Views, zombies: set<Address>, ps: seq<Posting>, qs: seq<Posting>,
                                        wakeable: set<Address>)
    ensures Posted(Posted(v, ps, wakeable), qs, wakeable) == Posted(v, ps + qs, wakeable)
    ensures PostedZombies(Posted(v, ps, wakeable), PostedZombies(v, zombies, ps, wakeable), qs, wakeable)
         == PostedZombies(v, zombies, ps + qs, wakeable)
  {
    hide Post, PostZombies;
    if qs == [] {
      assert ps + qs == ps;
    } else {
      PostedConcat(v, zombies, ps, qs[..|qs| - 1], wakeable);
      assert (ps + qs)[..|ps + qs| - 1] == ps + qs[..|qs| - 1];
    }
  }

  // ----- books kept of an executor -----

  /** What was there at the start of a transaction and what has been posted since. */
  datatype Book = Book(start: Views, zombies: set<Address>, wakeable: set<Address>, entries: seq<Posting>)

  ghost function ViewsOf(k: Book): Views {
    Posted(k.start, k.entries, k.wakeable)
  }

  ghost function ZombiesOf(k: Book): set<Address> {
    PostedZombies(k.start, k.zombies, k.entries, k.wakeable)
  }

  ghost function Plus(k: Book, ps: seq<Posting>): Book {
    k.(entries := k.entries + ps)
  }

  lemma PostedOne(v: Views, zombies: set<Address>, ps: seq<Posting>, p: Posting, wakeable: set<Address>, a: Address)
    ensures Posted(v, ps + [p], wakeable)(a) == Post(Posted(v, ps, wakeable), p, wakeable, a)
    ensures PostedZombies(v, zombies, ps + [p], wakeable)
         == PostZombies(Posted(v, ps, wakeable), PostedZombies(v, zombies, ps, wakeable), p, wakeable)
  {
    hide Post, PostZombies;
    assert (ps + [p])[..|ps|] == ps;
  }

  lemma PlusOne(k: Book, p: Posting)
    ensures Plus(k, [p]).start == k.start && Plus(k, [p]).wakeable == k.wakeable
    ensures forall a: Address :: ViewsOf(Plus(k, [p]))(a) == Post(ViewsOf(k), p, k.wakeable, a)
    ensures ZombiesOf(Plus(k, [p])) == PostZombies(ViewsOf(k), ZombiesOf(k), p, k.wakeable)
  {
    assert (k.entries + [p])[..|k.entries|] == k.entries;
  }

  lemma PlusTwice(k: Book, ps: seq<Posting>, qs: seq<Posting>)
    ensures Plus(Plus(k, ps), qs) == Plus(k, ps + qs)
    ensures Plus(k, []) == k
  {
    assert k.entries + ps + qs == k.entries + (ps + qs);
    assert k.entries + [] == k.entries;
  }

  /** Everything seen, every zombie, and that Finalise will look at all that changed. */
  ghost predicate Matches(x: ArbBlockExecutor, k: Book)
    reads x`touched, x`zombies, x`finaliseDeleted, x.state
  {
    && x.Wakeable() == k.wakeable
    && x.zombies == ZombiesOf(k)
    && (forall a: Address :: x.state.View(a) == ViewsOf(k)(a))
    && (forall a: Address :: ViewsOf(k)(a) != k.start(a) ==> a in x.touched)
  }

  ghost function Opened(x: ArbBlockExecutor): Book
    reads x`zombies, x`finaliseDeleted, x.state
  {
    Book(ViewsIn(x.state.db, x.state.cache), x.zombies, x.Wakeable(), [])
  }

  lemma OpenedMatches(x: ArbBlockExecutor)
    ensures Matches(x, Opened(x))
  {
    forall a: Address
      ensures x.state.View(a) == ViewsOf(Opened(x))(a) == Opened(x).start(a)
    {
    }
  }

  // ----- what the postings add up to -----

  ghost predicate Within(p: Posting, n: nat) {
    forall a: Address :: Names(p, a) ==> a < n
  }

  /** A posting that only moves what is there. */
  predicate OnlyMoves(p: Posting) {
    p.MoveIfCovered? || p.AwareMove? || p.Sweep? || p.Materialise? || p.BumpNonce?
  }

  ghost function After(v: Views, p: Posting, wakeable: set<Address>): Views {
    (a: Address) => Post(v, p, wakeable, a)
  }

  /** What a posting moves, as one move. */
  ghost function MoveOf(v: Views, p: Posting): Move {
    match p
    case MoveIfCovered(from, to, amount) => Move(from, to, if amount <= Funds(v(from)) then amount else 0)
    case AwareMove(from, to, amount) => Move(from, to, if amount <= Funds(v(from)) then amount else 0)
    case Sweep(from, to) => Move(from, to, Funds(v(from)))
    case _ => Move(0, 0, 0)
  }

  /** Such a posting is that one move, when all the money there is fits a word. */
  lemma MovesThat(v: Views, p: Posting, wakeable: set<Address>, n: nat)
    requires OnlyMoves(p) && Within(p, n) && SumOf(v, n) <= U256_MAX
    ensures forall a: Address :: Funds(Post(v, p, wakeable, a)) == Funds(v(a)) + Gain(MoveOf(v, p), a)
  {
    var m := MoveOf(v, p);
    if p.MoveIfCovered? || p.AwareMove? || p.Sweep? {
      assert Names(p, m.from) && Names(p, m.to);
      WithinSum(v, n, m.from, m.to);
    }
  }

  /** So it keeps the sum. */
  lemma MovingKeepsSum(v: Views, p: Posting, wakeable: set<Address>, n: nat)
    requires OnlyMoves(p) && Within(p, n) && SumOf(v, n) <= U256_MAX
    ensures SumOf(After(v, p, wakeable), n) == SumOf(v, n)
  {
    hide OnlyMoves, Within, Post, Gain, MoveOf;
    MovesThat(v, p, wakeable, n);
    SumAfterMove(v, After(v, p, wakeable), n, MoveOf(v, p));
    GainSum(MoveOf(v, p), n);
    MoveWithin(v, p, n);
  }

  lemma MoveWithin(v: Views, p: Posting, n: nat)
    requires OnlyMoves(p) && Within(p, n)
    ensures MoveOf(v, p) == Move(0, 0, 0) || (MoveOf(v, p).from < n && MoveOf(v, p).to < n)
  {
    var m := MoveOf(v, p);
    if p.MoveIfCovered? || p.AwareMove? || p.Sweep? {
      assert Names(p, m.from) && Names(p, m.to);
    }
  }

  /** So does a list of moves. */
  lemma {:induction false} MovesKeepSum(v: Views, ps: seq<Posting>, wakeable: set<Address>, n: nat)
    requires forall i :: 0 <= i < |ps| ==> OnlyMoves(ps[i]) && Within(ps[i], n)
    requires SumOf(v, n) <= U256_MAX
    ensures SumOf(Posted(v, ps, wakeable), n) == SumOf(v, n)
  {
    hide Post, Within, OnlyMoves;
    if ps != [] {
      var init := ps[..|ps| - 1];
      MovesKeepSum(v, init, wakeable, n);
      MovingKeepsSum(Posted(v, init, wakeable), ps[|ps| - 1], wakeable, n);
      SameSums(Posted(v, ps, wakeable), After(Posted(v, init, wakeable), ps[|ps| - 1], wakeable), n);
    }
  }

  lemma {:induction false} SameSums(v: Views, w: Views, n: nat)
    requires forall a: Address :: v(a) == w(a)
    ensures SumOf(v, n) == SumOf(w, n)
  {
    if n > 0 {
      SameSums(v, w, n - 1);
    }
  }

  lemma BurnLowersSum(v: Views, a: Address, amount: U256, wakeable: set<Address>, n: nat)
    requires a < n
    ensures SumOf(After(v, BurnUpTo(a, amount), wakeable), n) == SumOf(v, n) - Min(Funds(v(a)), amount)
  {
    SumAfterCredit(v, After(v, BurnUpTo(a, amount), wakeable), n, a, -Min(Funds(v(a)), amount));
  }

  lemma MintRaisesSum(v: Views, a: Address, amount: U256, wakeable: set<Address>, n: nat)
    requires a < n && SumOf(v, n) + amount <= U256_MAX
    ensures SumOf(After(v, MintTo(a, amount), wakeable), n) == SumOf(v, n) + amount
  {
    WithinSum(v, n, a, a);
    SumAfterCredit(v, After(v, MintTo(a, amount), wakeable), n, a, amount);
  }

  // ----- the end of a transaction -----

  predicate PresentBlank(v: Option<AccountInfo>) {
    v.Some? && IsBlank(v.value)
  }

  /**
   * The transaction booked as `k` is over: `removed` is what Finalise removed and listed. Those are blank accounts that
   * are no zombies, and every one that the transaction left so is among them, unless it was like that when the block
   * began. All others that are no zombies are as booked.
   */
  ghost predicate Finalised(x: ArbBlockExecutor, k: Book, listed: set<Address>, removed: set<Address>)
    reads x`zombies, x`finaliseDeleted, x.state
  {
    && x.zombies == ZombiesOf(k)
    && x.finaliseDeleted == listed + removed
    && (forall a :: a in removed ==> PresentBlank(ViewsOf(k)(a)) && a !in x.zombies)
    && (forall a: Address :: a !in x.zombies ==> x.state.View(a) == if a in removed then None else ViewsOf(k)(a))
    && (forall a: Address :: Pruned(x.state.View(a), false) == Pruned(ViewsOf(k)(a), false))
    && (forall a: Address ::
          PresentBlank(ViewsOf(k)(a)) && a !in x.zombies && ViewsOf(k)(a) != k.start(a) && !PresentBlank(x.Original(a))
          ==> a in removed)
  }

  /** Finalise and drain at the end of a transaction whose books are `k`. */
  method Close(x: ArbBlockExecutor, ghost k: Book) returns (ghost removed: set<Address>)
    requires x.Valid() && x.AllTouched() && Matches(x, k)
    modifies x`touched, x`finaliseDeleted, x`drifted, x.state, x.overlay`entries
    ensures x.Valid() && x.Idle() && x.touched == {}
    ensures x.drifted <= old(x.drifted)
    ensures Finalised(x, k, old(x.finaliseDeleted), removed)
    ensures forall a: Address :: a in x.zombies ==>
              x.state.View(a) == if Emptied(old(x.BaselineOf(a)), ViewsOf(k)(a)) then None else ViewsOf(k)(a)
    ensures forall a: Address :: x.state.BalanceOf(a) == Funds(ViewsOf(k)(a))
    ensures forall n: nat :: x.TotalBalance(n) == old(x.TotalBalance(n))
  {
    hide ArbBlockExecutor.Valid, ArbBlockExecutor.AllTouched, ViewsOf, ZombiesOf;
    ghost var cache, touched := x.state.cache, x.touched;
    removed := Removed(cache, touched, x.zombies);
    ghost var _ := x.EndTransaction();
    forall a: Address
      ensures a in removed ==> PresentBlank(ViewsOf(k)(a)) && a !in x.zombies
      ensures a !in x.zombies ==> x.state.View(a) == if a in removed then None else ViewsOf(k)(a)
      ensures a in x.zombies ==>
                x.state.View(a) == if Emptied(old(x.BaselineOf(a)), ViewsOf(k)(a)) then None else ViewsOf(k)(a)
      ensures Pruned(x.state.View(a), false) == Pruned(ViewsOf(k)(a), false)
      ensures PresentBlank(ViewsOf(k)(a)) && a !in x.zombies && ViewsOf(k)(a) != k.start(a) && !PresentBlank(x.Original(a))
          ==> a in removed
    {
      assert x.Settled(old(x.BaselineOf(a)), cache, touched, a);
      assert old(x.state.View(a)) == Seen(x.state.db, cache, a).account == ViewsOf(k)(a);
    }
  }
}
