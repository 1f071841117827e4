/** The recently used Stylus programs of a block (crates/arb-context/src/lib.rs). */
module RecentWasms {

  /** The hashes used since the last use of `x`. */
  function UsedSince(history: seq<nat>, x: nat): set<nat> {
    if history == [] then {}
    else
      var last := history[|history| - 1];
      if last == x then {} else UsedSince(history[..|history| - 1], x) + {last}
  }

  function Elements(s: seq<nat>): set<nat> {
    set x | x in s
  }

  ghost predicate NoDuplicates(s: seq<nat>) {
    forall i, j :: 0 <= i < j < |s| ==> s[i] != s[j]
  }

  /** `entries` are the most recently used hashes, at most `capacity` of them unless that is zero, in the order of
      their last use. */
  ghost predicate Tracks(entries: seq<nat>, capacity: nat, history: seq<nat>) {
    && NoDuplicates(entries)
    && (forall x :: x in entries ==> x in history)
    && (forall i :: 0 <= i < |entries| ==> UsedSince(history, entries[i]) == Elements(entries[i + 1..]))
    && (forall x :: x in history && x !in entries ==>
          0 < capacity == |entries| && Elements(entries) <= UsedSince(history, x))
    && (capacity > 0 ==> |entries| <= capacity)
  }

  lemma {:induction false} ElementCount(s: seq<nat>)
    requires NoDuplicates(s)
    ensures |Elements(s)| == |s|
  {
    if s != [] {
      ElementCount(s[1..]);
      assert Elements(s) == {s[0]} + Elements(s[1..]);
    }
  }

  /** A hash is kept exactly when fewer than `capacity` others have been used since. */
  lemma KeptIffRecent(entries: seq<nat>, capacity: nat, history: seq<nat>, x: nat)
    requires Tracks(entries, capacity, history)
    ensures x in entries <==> x in history && (capacity > 0 ==> |UsedSince(history, x)| < capacity)
  {
    if x in entries {
      var i :| 0 <= i < |entries| && entries[i] == x;
      ElementCount(entries[i + 1..]);
    } else if x in history {
      ElementCount(entries);
      SubsetCount(Elements(entries), UsedSince(history, x));
    }
  }

  lemma {:induction false} SubsetCount(x: set<nat>, y: set<nat>)
    requires x <= y
    ensures |x| <= |y|
  {
    if x != {} {
      var e :| e in x;
      SubsetCount(x - {e}, y - {e});
    }
  }

  function Without(s: seq<nat>, i: nat): seq<nat>
    requires i < |s|
  {
    s[..i] + s[i + 1..]
  }

  /** What stands behind the j-th entry once the i-th has moved to the end. */
  lemma MovedTail(entries: seq<nat>, i: nat, j: nat)
    requires i < |entries| && j < |entries| - 1
    ensures var k := if j < i then j else j + 1;
      && (Without(entries, i) + [entries[i]])[j] == entries[k]
      && Elements((Without(entries, i) + [entries[i]])[j + 1..]) == Elements(entries[k + 1..]) + {entries[i]}
  {
    var x, after := entries[i], Without(entries, i) + [entries[i]];
    if j < i {
      assert after[j + 1..] == entries[j + 1..i] + entries[i + 1..] + [x];
      assert entries[j + 1..] == entries[j + 1..i] + [x] + entries[i + 1..];
    } else {
      assert after[j + 1..] == entries[j + 2..] + [x];
    }
  }

  lemma MovedElements(entries: seq<nat>, i: nat)
    requires i < |entries| && NoDuplicates(entries)
    ensures NoDuplicates(Without(entries, i) + [entries[i]])
    ensures Elements(Without(entries, i) + [entries[i]]) == Elements(entries)
  {
    assert entries == entries[..i] + [entries[i]] + entries[i + 1..];
  }

  /** Moving a kept hash to the end records its use. */
  lemma Reused(entries: seq<nat>, capacity: nat, history: seq<nat>, i: nat)
    requires Tracks(entries, capacity, history) && i < |entries|
    ensures Tracks(Without(entries, i) + [entries[i]], capacity, history + [entries[i]])
  {
    var x := entries[i];
    var after, used := Without(entries, i) + [x], history + [x];
    assert used[..|history|] == history;
    MovedElements(entries, i);
    assert forall y :: y in after <==> y in Elements(after);
    assert forall y :: y in entries <==> y in Elements(entries);
    forall j | 0 <= j < |after| ensures UsedSince(used, after[j]) == Elements(after[j + 1..]) {
      if j < |entries| - 1 {
        MovedTail(entries, i, j);
      }
    }
  }

  /** Appending a hash that is not kept records its use, as long as there is room. */
  lemma Added(entries: seq<nat>, capacity: nat, history: seq<nat>, x: nat)
    requires Tracks(entries, capacity, history) && x !in entries
    requires capacity > 0 ==> |entries| < capacity
    ensures Tracks(entries + [x], capacity, history + [x])
  {
    var after, used := entries + [x], history + [x];
    assert used[..|history|] == history;
    forall j | 0 <= j < |after| ensures UsedSince(used, after[j]) == Elements(after[j + 1..]) {
      if j < |entries| {
        assert after[j + 1..] == entries[j + 1..] + [x];
      }
    }
  }

  /** Without room the least recently used hash goes. */
  lemma Evicted(entries: seq<nat>, capacity: nat, history: seq<nat>, x: nat)
    requires Tracks(entries, capacity, history) && x !in entries
    requires 0 < capacity == |entries|
    ensures Tracks((entries + [x])[1..], capacity, history + [x])
  {
    var after, used := entries[1..] + [x], history + [x];
    assert (entries + [x])[1..] == after;
    assert used[..|history|] == history;
    forall j | 0 <= j < |after| ensures UsedSince(used, after[j]) == Elements(after[j + 1..]) {
      if j < |entries| - 1 {
        assert after[j] == entries[j + 1];
        assert after[j + 1..] == entries[j + 2..] + [x];
      }
    }
    forall y | y in used && y !in after ensures Elements(after) <= UsedSince(used, y) {
      assert y != x;
      if y == entries[0] {
        assert UsedSince(history, y) == Elements(entries[1..]);
      }
    }
  }

  class RecentWasms {
    var entries: seq<nat>
    var capacity: nat
    ghost var history: seq<nat>

    ghost predicate Valid()
      reads this
    {
      Tracks(entries, capacity, history)
    }

    constructor (capacity: nat)
      ensures Valid() && this.capacity == capacity && history == []
    {
      this.capacity, entries, history := capacity, [], [];
    }

    method Reset(capacity: nat)
      modifies this
      ensures Valid() && this.capacity == capacity && history == []
    {
      this.capacity, entries, history := capacity, [], [];
    }

    /** Uses a hash; true exactly when it had been used with fewer than `capacity` other hashes since. */
    method Insert(hash: nat) returns (wasPresent: bool)
      requires Valid()
      modifies this`entries, this`history
      ensures Valid() && history == old(history) + [hash]
      ensures wasPresent <==> hash in old(history) && (capacity > 0 ==> |UsedSince(old(history), hash)| < capacity)
    {
      hide Tracks;
      KeptIffRecent(entries, capacity, history, hash);
      ghost var before := entries;
      var i := Position(hash);
      wasPresent := i < |entries|;
      if wasPresent {
        Reused(entries, capacity, history, i);
        entries := Without(entries, i);
      }
      entries := entries + [hash];
      assert capacity > 0 ==> |before| <= capacity by {
        EntriesBounded(before, capacity, history);
      }
      if capacity > 0 && |entries| > capacity {
        Evicted(before, capacity, history, hash);
        entries := entries[1..];
      } else if !wasPresent {
        Added(before, capacity, history, hash);
      }
      history := history + [hash];
    }

    method Position(hash: nat) returns (i: nat)
      ensures i <= |entries|
      ensures i < |entries| ==> entries[i] == hash
      ensures i == |entries| <==> hash !in entries
    {
      i := 0;
      while i < |entries| && entries[i] != hash
        invariant i <= |entries|
        invariant hash !in entries[..i]
      {
        i := i + 1;
      }
    }
  }

  lemma EntriesBounded(entries: seq<nat>, capacity: nat, history: seq<nat>)
    requires Tracks(entries, capacity, history)
    ensures capacity > 0 ==> |entries| <= capacity
  {
  }
}
