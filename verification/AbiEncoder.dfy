/** The ABI encoding of the multi-gas pricing constraints (crates/arb-precompiles/src/arbgasinfo.rs), and a decoder
    that follows the section "Formal Specification of the Encoding" of the Solidity Contract ABI Specification. */
module AbiEncoder {
  import opened Machine

  type Byte = x: nat | x < 256

  const KINDS: nat := 9

  type Weights = w: seq<U64> | |w| == KINDS witness [0, 0, 0, 0, 0, 0, 0, 0, 0]

  const NO_WEIGHTS: Weights := [0, 0, 0, 0, 0, 0, 0, 0, 0]

  datatype Constraint = Constraint(window: U64, target: U64, backlog: U64, weights: Weights)

  // ----- 32-byte big-endian words -----

  function BigEndian(x: nat, len: nat): (r: seq<Byte>)
    ensures |r| == len
  {
    if len == 0 then [] else BigEndian(x / 256, len - 1) + [x % 256]
  }

  function FromBigEndian(bytes: seq<Byte>): nat {
    if bytes == [] then 0 else FromBigEndian(bytes[..|bytes| - 1]) * 256 + bytes[|bytes| - 1]
  }

  ghost predicate FitsIn(x: nat, len: nat) {
    if len == 0 then x == 0 else FitsIn(x / 256, len - 1)
  }

  lemma {:induction false} BigEndianRoundTrip(x: nat, len: nat)
    requires FitsIn(x, len)
    ensures FromBigEndian(BigEndian(x, len)) == x
  {
    if len > 0 {
      BigEndianRoundTrip(x / 256, len - 1);
      assert BigEndian(x, len)[..len - 1] == BigEndian(x / 256, len - 1);
    }
  }

  lemma {:induction false} ZeroFits(len: nat)
    ensures FitsIn(0, len)
  {
    if len > 0 {
      ZeroFits(len - 1);
    }
  }

  lemma U64Fits(x: U64)
    ensures FitsIn(x, 32)
  {
    ZeroFits(24);
    var x1 := x / 256;
    var x2 := x1 / 256;
    var x3 := x2 / 256;
    var x4 := x3 / 256;
    var x5 := x4 / 256;
    var x6 := x5 / 256;
    var x7 := x6 / 256;
    assert x7 / 256 == 0;
    assert FitsIn(x7, 25);
    assert FitsIn(x6, 26);
    assert FitsIn(x5, 27);
    assert FitsIn(x4, 28);
    assert FitsIn(x3, 29);
    assert FitsIn(x2, 30);
    assert FitsIn(x1, 31);
  }

  function Word(x: nat): (r: seq<Byte>)
    ensures |r| == 32
  {
    BigEndian(x, 32)
  }

  function Flat(words: seq<nat>): (r: seq<Byte>)
    ensures |r| == 32 * |words|
  {
    if words == [] then [] else Flat(words[..|words| - 1]) + Word(words[|words| - 1])
  }

  lemma {:induction false} FlatAt(words: seq<nat>, k: nat)
    requires k < |words|
    ensures Flat(words)[32 * k..32 * k + 32] == Word(words[k])
  {
    var init := words[..|words| - 1];
    if k < |init| {
      FlatAt(init, k);
      assert Flat(words)[32 * k..32 * k + 32] == Flat(init)[32 * k..32 * k + 32];
    }
  }

  lemma {:induction false} FlatAppend(xs: seq<nat>, ys: seq<nat>)
    ensures Flat(xs + ys) == Flat(xs) + Flat(ys)
  {
    if ys == [] {
      assert xs + ys == xs;
    } else {
      var init := ys[..|ys| - 1];
      FlatAppend(xs, init);
      assert (xs + ys)[..|xs + ys| - 1] == xs + init;
    }
  }

  // ----- the layout, in words -----

  /** The kinds that have a weight, in order. */
  function Resources(weights: seq<U64>): (r: seq<(nat, U64)>)
    ensures |r| <= |weights|
    ensures forall p :: p in r ==> p.0 < |weights|
  {
    if weights == [] then []
    else
      var k := |weights| - 1;
      Resources(weights[..k]) + if weights[k] > 0 then [(k, weights[k])] else []
  }

  function PairWords(pairs: seq<(nat, U64)>): (r: seq<nat>)
    ensures |r| == 2 * |pairs|
  {
    if pairs == [] then [] else [pairs[0].0, pairs[0].1] + PairWords(pairs[1..])
  }

  function ElementWords(c: Constraint): (r: seq<nat>)
    ensures |r| == 5 + 2 * |Resources(c.weights)|
  {
    var resources := Resources(c.weights);
    [128, c.window, c.target, c.backlog, |resources|] + PairWords(resources)
  }

  function Heads(cs: seq<Constraint>, offset: nat): (r: seq<nat>)
    ensures |r| == |cs|
  {
    if cs == [] then [] else [offset] + Heads(cs[1..], offset + 32 * |ElementWords(cs[0])|)
  }

  function Tails(cs: seq<Constraint>): seq<nat> {
    if cs == [] then [] else ElementWords(cs[0]) + Tails(cs[1..])
  }

  function EncodedWords(cs: seq<Constraint>): seq<nat> {
    [32, |cs|] + Heads(cs, 32 * |cs|) + Tails(cs)
  }

  // ----- the decoder -----

  function ReadWord(bytes: seq<Byte>, at: nat): nat {
    if at + 32 <= |bytes| then FromBigEndian(bytes[at..at + 32]) else 0
  }

  /** Sets the weights of `count` (kind, weight) pairs. */
  function ReadWeights(bytes: seq<Byte>, at: nat, count: nat, weights: seq<nat>): (r: seq<nat>)
    ensures |r| == |weights|
    decreases count
  {
    if count == 0 then weights
    else
      var kind, weight := ReadWord(bytes, at), ReadWord(bytes, at + 32);
      ReadWeights(bytes, at + 64, count - 1, if kind < |weights| then weights[kind := weight] else weights)
  }

  datatype Decoded = Decoded(window: nat, target: nat, backlog: nat, weights: seq<nat>)

  /** An element: a static head of four words whose first is the offset of the resource array. */
  function ReadElement(bytes: seq<Byte>, base: nat): Decoded {
    var start := base + ReadWord(bytes, base);
    Decoded(ReadWord(bytes, base + 32), ReadWord(bytes, base + 64), ReadWord(bytes, base + 96),
            ReadWeights(bytes, start + 32, ReadWord(bytes, start), NO_WEIGHTS))
  }

  /** The array: found by the first word, its element offsets count from behind its length. */
  function Decode(bytes: seq<Byte>): seq<Decoded> {
    var start := ReadWord(bytes, 0);
    seq(ReadWord(bytes, start), i requires 0 <= i => ReadElement(bytes, start + 32 + ReadWord(bytes, start + 32 + 32 * i)))
  }

  function Plain(c: Constraint): Decoded {
    Decoded(c.window, c.target, c.backlog, c.weights)
  }

  // ----- decoding what was encoded -----

  ghost predicate SmallWords(words: seq<nat>) {
    forall w :: w in words ==> w <= U64_MAX
  }

  lemma WordAt(words: seq<nat>, k: nat)
    requires SmallWords(words) && k < |words|
    ensures ReadWord(Flat(words), 32 * k) == words[k]
  {
    FlatAt(words, k);
    assert words[k] in words;
    U64Fits(words[k]);
    BigEndianRoundTrip(words[k], 32);
  }

  function Applied(pairs: seq<(nat, U64)>, weights: seq<nat>): (r: seq<nat>)
    requires forall p :: p in pairs ==> p.0 < |weights|
    ensures |r| == |weights|
  {
    if pairs == [] then weights
    else
      assert pairs[0] in pairs;
      Applied(pairs[1..], weights[pairs[0].0 := pairs[0].1])
  }

  lemma {:induction false} AppliedLast(pairs: seq<(nat, U64)>, last: (nat, U64), weights: seq<nat>)
    requires last.0 < |weights| && forall p :: p in pairs ==> p.0 < |weights|
    ensures Applied(pairs + [last], weights) == Applied(pairs, weights)[last.0 := last.1]
  {
    if pairs != [] {
      assert pairs[0] in pairs;
      assert (pairs + [last])[1..] == pairs[1..] + [last];
      AppliedLast(pairs[1..], last, weights[pairs[0].0 := pairs[0].1]);
    }
  }

  lemma Overlaid(weights: seq<U64>, k: nat, zeros: seq<nat>)
    requires |weights| == k + 1 <= |zeros|
    ensures (weights[..k] + zeros[k..])[k := weights[k]] == weights + zeros[k + 1..]
    ensures weights[k] == zeros[k] ==> weights[..k] + zeros[k..] == weights + zeros[k + 1..]
  {
  }

  /** Dropping the zero weights loses nothing. */
  lemma {:induction false} WeightsRestored(weights: seq<U64>, zeros: seq<nat>)
    requires |weights| <= |zeros| && forall z :: z in zeros ==> z == 0
    ensures Applied(Resources(weights), zeros) == weights + zeros[|weights|..]
  {
    hide Applied;
    if weights == [] {
      AppliedNothing(zeros);
    } else {
      var k := |weights| - 1;
      var before := Resources(weights[..k]);
      WeightsRestored(weights[..k], zeros);
      assert zeros[k] in zeros;
      Overlaid(weights, k, zeros);
      if weights[k] > 0 {
        AppliedLast(before, (k, weights[k]), zeros);
      } else {
        assert Resources(weights) == before;
      }
    }
  }

  lemma AppliedNothing(weights: seq<nat>)
    ensures Applied([], weights) == weights == [] + weights[0..]
  {
  }

  lemma {:induction false} PairsRead(words: seq<nat>, k: nat, pairs: seq<(nat, U64)>, weights: seq<nat>)
    requires SmallWords(words) && k + 2 * |pairs| <= |words|
    requires words[k..k + 2 * |pairs|] == PairWords(pairs)
    requires forall p :: p in pairs ==> p.0 < |weights|
    ensures ReadWeights(Flat(words), 32 * k, |pairs|, weights) == Applied(pairs, weights)
    decreases |pairs|
  {
    if pairs != [] {
      var got := words[k..k + 2 * |pairs|];
      assert pairs[0] in pairs;
      assert got[0] == pairs[0].0 && got[1] == pairs[0].1 && got[2..] == PairWords(pairs[1..]);
      assert words[k] == got[0] && words[k + 1] == got[1];
      assert words[k + 2..k + 2 + 2 * |pairs[1..]|] == got[2..];
      WordAt(words, k);
      WordAt(words, k + 1);
      PairsRead(words, k + 2, pairs[1..], weights[pairs[0].0 := pairs[0].1]);
    }
  }

  /** The words of an element lie at `k`. */
  ghost predicate LiesAt(words: seq<nat>, k: nat, c: Constraint) {
    var n := |Resources(c.weights)|;
    && k + 5 + 2 * n <= |words|
    && words[k] == 128 && words[k + 1] == c.window && words[k + 2] == c.target && words[k + 3] == c.backlog
    && words[k + 4] == n && words[k + 5..k + 5 + 2 * n] == PairWords(Resources(c.weights))
  }

  lemma ElementLayout(words: seq<nat>, k: nat, c: Constraint)
    requires k + |ElementWords(c)| <= |words|
    requires words[k..k + |ElementWords(c)|] == ElementWords(c)
    ensures LiesAt(words, k, c)
  {
    hide Resources, PairWords;
    var got := words[k..k + |ElementWords(c)|];
    assert words[k] == got[0] && words[k + 1] == got[1] && words[k + 2] == got[2] && words[k + 3] == got[3];
    assert words[k + 4] == got[4] && words[k + 5..k + 5 + 2 * |Resources(c.weights)|] == got[5..];
  }

  lemma WeightsRead(words: seq<nat>, k: nat, c: Constraint)
    requires SmallWords(words) && LiesAt(words, k, c)
    ensures ReadWeights(Flat(words), 32 * (k + 5), |Resources(c.weights)|, NO_WEIGHTS) == c.weights
  {
    hide Flat, ReadWeights, Resources, PairWords, Applied;
    PairsRead(words, k + 5, Resources(c.weights), NO_WEIGHTS);
    WeightsRestored(c.weights, NO_WEIGHTS);
    assert NO_WEIGHTS[KINDS..] == [] && c.weights + [] == c.weights;
  }

  lemma ElementRead(words: seq<nat>, k: nat, c: Constraint)
    requires SmallWords(words) && LiesAt(words, k, c)
    ensures ReadElement(Flat(words), 32 * k) == Plain(c)
  {
    hide Flat, ReadWord, ReadWeights, Resources, PairWords, SmallWords;
    WordAt(words, k);
    WordAt(words, k + 1);
    WordAt(words, k + 2);
    WordAt(words, k + 3);
    WordAt(words, k + 4);
    WeightsRead(words, k, c);
  }

  // ----- where things lie -----

  lemma Regroup(w: seq<nat>, x: seq<nat>, y: seq<nat>, z: seq<nat>)
    ensures w + (x + y + z) == (w + x) + y + z
  {
  }

  lemma TailsFirst(cs: seq<Constraint>, i: nat)
    requires 0 < i <= |cs|
    ensures Tails(cs[..i]) == ElementWords(cs[0]) + Tails(cs[1..][..i - 1])
  {
    hide ElementWords;
    assert cs[..i][1..] == cs[1..][..i - 1];
  }

  lemma {:induction false} HeadAt(cs: seq<Constraint>, offset: nat, i: nat)
    requires i < |cs|
    ensures Heads(cs, offset)[i] == offset + 32 * |Tails(cs[..i])|
    decreases i
  {
    hide ElementWords;
    if i > 0 {
      HeadAt(cs[1..], offset + 32 * |ElementWords(cs[0])|, i - 1);
      TailsFirst(cs, i);
    }
  }

  lemma {:induction false} TailAt(cs: seq<Constraint>, i: nat)
    requires i < |cs|
    ensures exists rest :: Tails(cs) == Tails(cs[..i]) + ElementWords(cs[i]) + rest
    decreases i
  {
    hide ElementWords;
    if i == 0 {
      assert Tails(cs) == Tails(cs[..i]) + ElementWords(cs[i]) + Tails(cs[1..]);
    } else {
      TailAt(cs[1..], i - 1);
      TailsFirst(cs, i);
      var first, below, own := ElementWords(cs[0]), Tails(cs[1..][..i - 1]), ElementWords(cs[i]);
      var rest :| Tails(cs[1..]) == below + own + rest;
      Regroup(first, below, own, rest);
    }
  }

  /** Every head is the distance from the end of the length word to its element's tail. */
  lemma HeadPointsAtTail(cs: seq<Constraint>, offset: nat, i: nat)
    requires i < |cs|
    ensures Heads(cs, offset)[i] == offset + 32 * |Tails(cs[..i])|
    ensures |Tails(cs[..i])| + |ElementWords(cs[i])| <= |Tails(cs)|
    ensures Tails(cs)[|Tails(cs[..i])|..|Tails(cs[..i])| + |ElementWords(cs[i])|] == ElementWords(cs[i])
  {
    hide Heads, Tails, ElementWords;
    HeadAt(cs, offset, i);
    TailAt(cs, i);
  }

  lemma {:induction false} HeadsBounded(cs: seq<Constraint>, offset: nat)
    ensures forall w :: w in Heads(cs, offset) ==> w <= offset + 32 * |Tails(cs)|
  {
    if cs != [] {
      HeadsBounded(cs[1..], offset + 32 * |ElementWords(cs[0])|);
    }
  }

  lemma {:induction false} PairWordsSmall(pairs: seq<(nat, U64)>)
    requires forall p :: p in pairs ==> p.0 < KINDS
    ensures SmallWords(PairWords(pairs))
  {
    if pairs != [] {
      assert pairs[0] in pairs;
      PairWordsSmall(pairs[1..]);
    }
  }

  lemma {:induction false} TailsSmall(cs: seq<Constraint>)
    ensures SmallWords(Tails(cs))
  {
    hide ElementWords;
    if cs != [] {
      ElementWordsSmall(cs[0]);
      TailsSmall(cs[1..]);
    }
  }

  lemma ElementWordsSmall(c: Constraint)
    ensures SmallWords(ElementWords(c))
  {
    hide Resources, PairWords;
    PairWordsSmall(Resources(c.weights));
  }

  /** The encoding is addressable: its length in bytes is a `usize`. */
  predicate Addressable(cs: seq<Constraint>) {
    32 * |EncodedWords(cs)| <= U64_MAX
  }

  lemma EncodedWordsSmall(cs: seq<Constraint>)
    requires Addressable(cs)
    ensures SmallWords(EncodedWords(cs))
  {
    HeadsBounded(cs, 32 * |cs|);
    TailsSmall(cs);
  }

  lemma ElementDecoded(cs: seq<Constraint>, i: nat)
    requires Addressable(cs) && i < |cs|
    ensures var bytes := Flat(EncodedWords(cs));
      ReadElement(bytes, 64 + ReadWord(bytes, 64 + 32 * i)) == Plain(cs[i])
  {
    hide Flat, ReadWord, ReadElement, Heads, Tails, ElementWords, LiesAt;
    var words, n := EncodedWords(cs), |cs|;
    EncodedWordsSmall(cs);
    HeadPointsAtTail(cs, 32 * n, i);
    WordAt(words, 2 + i);
    assert words[2 + i] == Heads(cs, 32 * n)[i];
    var k, len := 2 + n + |Tails(cs[..i])|, |ElementWords(cs[i])|;
    assert words[2 + n..] == Tails(cs);
    assert words[k..k + len] == Tails(cs)[k - 2 - n..k - 2 - n + len];
    ElementLayout(words, k, cs[i]);
    ElementRead(words, k, cs[i]);
  }

  /** Decoding gives back every window, target, backlog and full weight vector. */
  lemma DecodesToInput(cs: seq<Constraint>)
    requires Addressable(cs)
    ensures Decode(Flat(EncodedWords(cs))) == seq(|cs|, i requires 0 <= i < |cs| => Plain(cs[i]))
  {
    hide Flat, ReadWord, ReadElement, Heads, Tails, ElementWords;
    var words := EncodedWords(cs);
    EncodedWordsSmall(cs);
    WordAt(words, 0);
    WordAt(words, 1);
    forall i | 0 <= i < |cs|
      ensures ReadElement(Flat(words), 64 + ReadWord(Flat(words), 64 + 32 * i)) == Plain(cs[i])
    {
      ElementDecoded(cs, i);
    }
  }

  // ----- the encoder -----

  /** Collects the kinds that have a weight. */
  method CollectResources(weights: Weights) returns (resources: seq<(nat, U64)>)
    ensures resources == Resources(weights)
  {
    resources := [];
    for k := 0 to KINDS
      invariant resources == Resources(weights[..k])
    {
      assert weights[..k + 1][..k] == weights[..k];
      if weights[k] > 0 {
        resources := resources + [(k, weights[k])];
      }
    }
    assert weights[..KINDS] == weights;
  }

  lemma FlatOne(words: seq<nat>, w: nat)
    ensures Flat(words + [w]) == Flat(words) + Word(w)
  {
    assert (words + [w])[..|words|] == words;
  }

  lemma {:induction false} PairWordsLast(pairs: seq<(nat, U64)>, last: (nat, U64))
    ensures PairWords(pairs + [last]) == PairWords(pairs) + [last.0, last.1]
  {
    if pairs != [] {
      assert (pairs + [last])[1..] == pairs[1..] + [last];
      PairWordsLast(pairs[1..], last);
    }
  }

  lemma {:induction false} TailsLast(cs: seq<Constraint>, c: Constraint)
    ensures Tails(cs + [c]) == Tails(cs) + ElementWords(c)
  {
    hide ElementWords;
    if cs == [] {
      assert Tails([c]) == ElementWords(c) + Tails([]);
    } else {
      assert (cs + [c])[1..] == cs[1..] + [c];
      TailsLast(cs[1..], c);
    }
  }

  /** One element's tail, appended word by word. */
  method EncodeElement(out: seq<Byte>, c: Constraint) returns (r: seq<Byte>)
    ensures r == out + Flat(ElementWords(c))
  {
    hide Flat, Word, Resources;
    var resources := CollectResources(c.weights);
    ghost var words := [128, c.window, c.target, c.backlog, |resources|];
    r := out + Word(128) + Word(c.window) + Word(c.target) + Word(c.backlog) + Word(|resources|);
    FlatFive(128, c.window, c.target, c.backlog, |resources|);
    assert words + PairWords(resources[..0]) == words;
    for i := 0 to |resources|
      invariant r == out + Flat(words + PairWords(resources[..i]))
    {
      var (kind, weight) := resources[i];
      PairWordsLast(resources[..i], resources[i]);
      assert resources[..i + 1] == resources[..i] + [resources[i]];
      ghost var before := words + PairWords(resources[..i]);
      FlatOne(before, kind);
      FlatOne(before + [kind], weight);
      assert before + [kind] + [weight] == words + PairWords(resources[..i + 1]);
      r := r + Word(kind) + Word(weight);
    }
    assert resources[..|resources|] == resources;
  }

  lemma FlatFive(a: nat, b: nat, c: nat, d: nat, e: nat)
    ensures Flat([a, b, c, d, e]) == Word(a) + Word(b) + Word(c) + Word(d) + Word(e)
  {
    hide Flat, Word;
    FlatNothing();
    FlatOne([], a);
    FlatOne([a], b);
    FlatOne([a, b], c);
    FlatOne([a, b, c], d);
    FlatOne([a, b, c, d], e);
    assert [] + [a] == [a] && [a] + [b] == [a, b] && [a, b] + [c] == [a, b, c];
    assert [a, b, c] + [d] == [a, b, c, d] && [a, b, c, d] + [e] == [a, b, c, d, e];
  }

  function Size(c: Constraint): nat {
    4 * 32 + 32 + |Resources(c.weights)| * 64
  }

  function TotalSize(cs: seq<Constraint>): nat {
    if cs == [] then 0 else TotalSize(cs[..|cs| - 1]) + Size(cs[|cs| - 1])
  }

  lemma {:induction false} TailsSize(cs: seq<Constraint>)
    ensures 32 * |Tails(cs)| == TotalSize(cs)
  {
    hide ElementWords;
    if cs != [] {
      var init := cs[..|cs| - 1];
      TailsSize(init);
      TailsLast(init, cs[|cs| - 1]);
      assert init + [cs[|cs| - 1]] == cs;
    }
  }

  /** The heads: element offsets from the sizes. */
  method EncodeHeads(out: seq<Byte>, cs: seq<Constraint>) returns (r: seq<Byte>)
    ensures r == out + Flat(Heads(cs, 32 * |cs|))
  {
    hide Flat, Word, Heads, Tails, Resources;
    var n, runningOffset := |cs|, |cs| * 32;
    ghost var heads := Heads(cs, 32 * n);
    r := out;
    assert Flat([]) == [] by {
      FlatNothing();
    }
    for i := 0 to n
      invariant runningOffset == 32 * n + TotalSize(cs[..i])
      invariant r == out + Flat(heads[..i])
    {
      HeadAt(cs, 32 * n, i);
      TailsSize(cs[..i]);
      FlatOne(heads[..i], heads[i]);
      assert heads[..i + 1] == heads[..i] + [heads[i]];
      assert cs[..i + 1][..i] == cs[..i];
      r := r + Word(runningOffset);
      var resources := CollectResources(cs[i].weights);
      runningOffset := runningOffset + (4 * 32 + 32 + |resources| * 64);
    }
    assert heads[..n] == heads;
  }

  lemma FlatNothing()
    ensures Flat([]) == []
  {
  }

  /** The whole encoding. It has the length that the sizes add up to, and it decodes to the constraints. */
  method Encode(cs: seq<Constraint>) returns (out: seq<Byte>)
    requires Addressable(cs)
    ensures out == Flat(EncodedWords(cs))
    ensures |out| == 64 + 32 * |cs| + TotalSize(cs)
    ensures Decode(out) == seq(|cs|, i requires 0 <= i < |cs| => Plain(cs[i]))
  {
    hide Flat, Word, Heads, Tails, ElementWords, Decode;
    ghost var first, heads := [32, |cs|], Heads(cs, 32 * |cs|);
    out := Word(32) + Word(|cs|);
    FlatNothing();
    FlatOne([], 32);
    FlatOne([32], |cs|);
    assert [] + [32] == [32] && [32] + [|cs|] == first;
    assert out == Flat(first);
    out := EncodeHeads(out, cs);
    FlatAppend(first, heads);
    assert out == Flat(first + heads);
    ghost var done := first + heads;
    TailsSize(cs[..0]);
    assert done + Tails(cs[..0]) == done;
    for i := 0 to |cs|
      invariant out == Flat(done + Tails(cs[..i]))
    {
      TailsLast(cs[..i], cs[i]);
      assert cs[..i + 1] == cs[..i] + [cs[i]];
      FlatAppend(done + Tails(cs[..i]), ElementWords(cs[i]));
      assert done + Tails(cs[..i]) + ElementWords(cs[i]) == done + Tails(cs[..i + 1]);
      out := EncodeElement(out, cs[i]);
    }
    assert cs[..|cs|] == cs;
    TailsSize(cs);
    DecodesToInput(cs);
  }
}
