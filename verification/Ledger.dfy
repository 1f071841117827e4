/** Moves of value between accounts and what they add up to. */
module Ledger {
  import opened Accounts

  datatype Move = Move(from: Address, to: Address, amount: nat)

  /** What one move adds to the balance of `a`; nothing when it goes from an account to itself. */
  ghost function Gain(m: Move, a: Address): int {
    (if a == m.to then m.amount else 0) - (if a == m.from then m.amount else 0)
  }

  /** What a list of moves adds to the balance of `a`. */
  ghost function Net(moves: seq<Move>, a: Address): int {
    if moves == [] then 0
    else Net(moves[..|moves| - 1], a) + Gain(moves[|moves| - 1], a)
  }

  ghost function GainBelow(m: Move, n: nat): int {
    if n == 0 then 0 else GainBelow(m, n - 1) + Gain(m, n - 1)
  }

  /** Over all addresses a move adds nothing. */
  lemma {:induction false} GainSum(m: Move, n: nat)
    ensures GainBelow(m, n) == (if m.to < n then m.amount else 0) - (if m.from < n then m.amount else 0)
  {
    if n > 0 {
      GainSum(m, n - 1);
    }
  }

  lemma {:induction false} NetConcat(xs: seq<Move>, ys: seq<Move>, a: Address)
    ensures Net(xs + ys, a) == Net(xs, a) + Net(ys, a)
  {
    if ys == [] {
      assert xs + ys == xs;
    } else {
      NetConcat(xs, ys[..|ys| - 1], a);
      assert (xs + ys)[..|xs + ys| - 1] == xs + ys[..|ys| - 1];
    }
  }

  /** A list of up to three moves. */
  lemma NetFew(moves: seq<Move>, a: Address)
    ensures |moves| == 1 ==> Net(moves, a) == Gain(moves[0], a)
    ensures |moves| == 2 ==> Net(moves, a) == Gain(moves[0], a) + Gain(moves[1], a)
    ensures |moves| == 3 ==> Net(moves, a) == Gain(moves[0], a) + Gain(moves[1], a) + Gain(moves[2], a)
  {
    if 1 <= |moves| <= 3 {
      var one := [moves[0]];
      NetAppend([], moves[0], a);
      assert [] + one == one;
      if |moves| == 1 {
        assert moves == one;
      } else {
        NetAppend(one, moves[1], a);
        var two := one + [moves[1]];
        if |moves| == 2 {
          assert moves == two;
        } else {
          NetAppend(two, moves[2], a);
          assert moves == two + [moves[2]];
        }
      }
    }
  }

  lemma NetAppend(moves: seq<Move>, m: Move, a: Address)
    ensures Net(moves + [m], a) == Net(moves, a) + Gain(m, a)
  {
    assert (moves + [m])[..|moves|] == moves;
  }
}
