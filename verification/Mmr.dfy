/**
 * The Merkle Mountain Range that commits to the event log (indexer/src/mmr.js).
 *
 * `hashPair` is a parameter `h`. Nothing is assumed about it except, in the binding
 * theorem, that it has no collision among the pairs that were actually hashed.
 */
module Mmr {
  import opened Wrappers
  import opened Bits

  const MAX_LEAVES: nat := 0xFFFF_FFFF

  datatype Report<D> = Report(root: D, leafCount: nat)

  // ---------- what the range commits to ----------

  /** The next level up: hash neighbours together, dropping an odd last node. */
  function PairUp<D>(h: (D, D) -> D, xs: seq<D>): (ys: seq<D>)
    ensures |ys| == |xs| / 2
  {
    seq(|xs| / 2, i requires 0 <= i < |xs| / 2 => h(xs[2 * i], xs[2 * i + 1]))
  }

  lemma PairUpEvenAppend<D>(h: (D, D) -> D, xs: seq<D>, c: D)
    requires |xs| % 2 == 0
    ensures PairUp(h, xs + [c]) == PairUp(h, xs)
  {
  }

  lemma PairUpOddAppend<D>(h: (D, D) -> D, xs: seq<D>, c: D)
    requires |xs| % 2 == 1
    ensures PairUp(h, xs + [c]) == PairUp(h, xs) + [h(xs[|xs| - 1], c)]
  {
  }

  function OddLast<D>(xs: seq<D>): Option<D> {
    if |xs| % 2 == 1 then Some(xs[|xs| - 1]) else None
  }

  /** The peaks over `xs`: on each level the odd node that has no neighbour. */
  function PeaksOf<D>(h: (D, D) -> D, xs: seq<D>): (peaks: seq<Option<D>>)
    decreases |xs|
  {
    if xs == [] then [] else
      [OddLast(xs)] + PeaksOf(h, PairUp(h, xs))
  }

  function BagPeak<D>(h: (D, D) -> D, peak: Option<D>, acc: Option<D>): Option<D> {
    if peak.None? then acc
    else if acc.None? then peak
    else Some(h(peak.value, acc.value))
  }

  function Bag<D>(h: (D, D) -> D, peaks: seq<Option<D>>, acc: Option<D>): Option<D> {
    if peaks == [] then acc else Bag(h, peaks[1..], BagPeak(h, peaks[0], acc))
  }

  function ReportOf<D>(h: (D, D) -> D, zero: D, leaves: seq<D>): Report<D> {
    var r := Bag(h, PeaksOf(h, leaves), None);
    Report(if r.Some? then r.value else zero, |leaves|)
  }

  /** The root of the perfect Merkle tree over the 2^k leaves that begin at `start`. */
  function Tree<D>(h: (D, D) -> D, xs: seq<D>, start: nat, k: nat): D
    requires start + Pow2(k) <= |xs|
    decreases k
  {
    if k == 0 then xs[start]
    else h(Tree(h, xs, start, k - 1), Tree(h, xs, start + Pow2(k - 1), k - 1))
  }

  // ---------- representation: peaks are perfect trees, one for each set bit ----------

  lemma {:induction false} TreeOfPairs<D>(h: (D, D) -> D, xs: seq<D>, start: nat, k: nat)
    requires start + Pow2(k) <= |xs| / 2
    ensures Tree(h, xs, 2 * start, k + 1) == Tree(h, PairUp(h, xs), start, k)
    decreases k
  {
    if k > 0 {
      TreeOfPairs(h, xs, start, k - 1);
      TreeOfPairs(h, xs, start + Pow2(k - 1), k - 1);
      hide PairUp;
    }
  }

  /** `peak` is the perfect tree over the 2^i leaves of bit `i`, which follow those of all higher bits. */
  predicate Covers<D(==)>(h: (D, D) -> D, xs: seq<D>, i: nat, peak: Option<D>) {
    var start := HighPart(|xs|, i + 1);
    start + Pow2(i) <= |xs| && peak == Some(Tree(h, xs, start, i))
  }

  lemma CoversUp<D>(h: (D, D) -> D, xs: seq<D>, i: nat, peak: Option<D>)
    ensures Covers(h, PairUp(h, xs), i, peak) ==> Covers(h, xs, i + 1, peak)
  {
    var t := HighPart(|xs| / 2, i + 1);
    assert HighPart(|xs|, i + 2) == 2 * t && Pow2(i + 1) == 2 * Pow2(i);
    if t + Pow2(i) <= |xs| / 2 {
      TreeOfPairs(h, xs, t, i);
      hide PairUp, Tree, Pow2, HighPart;
    }
  }

  lemma {:induction false} PeakIsPerfect<D>(h: (D, D) -> D, xs: seq<D>, i: nat)
    requires i < |PeaksOf(h, xs)|
    ensures PeaksOf(h, xs)[i].Some? <==> Bit(|xs|, i)
    ensures Bit(|xs|, i) ==> Covers(h, xs, i, PeaksOf(h, xs)[i])
    decreases i
  {
    hide Covers, PairUp, OddLast;
    if i == 0 {
      BottomPeak(h, xs);
    } else {
      var ys := PairUp(h, xs);
      assert PeaksOf(h, xs)[i] == PeaksOf(h, ys)[i - 1];
      PeakIsPerfect(h, ys, i - 1);
      CoversUp(h, xs, i - 1, PeaksOf(h, ys)[i - 1]);
    }
  }

  lemma FirstPeak<D>(h: (D, D) -> D, xs: seq<D>)
    requires xs != []
    ensures PeaksOf(h, xs)[0] == OddLast(xs)
  {
    hide PairUp;
  }

  lemma BottomPeak<D>(h: (D, D) -> D, xs: seq<D>)
    requires xs != []
    ensures PeaksOf(h, xs)[0].Some? <==> Bit(|xs|, 0)
    ensures Bit(|xs|, 0) ==> Covers(h, xs, 0, PeaksOf(h, xs)[0])
  {
    hide PeaksOf, HighPart;
    FirstPeak(h, xs);
    OddCount(|xs|);
  }

  lemma OddCount(n: nat)
    ensures HighPart(n, 1) == n - n % 2 && Pow2(0) == 1
  {
    assert HighPart(n / 2, 0) == n / 2;
  }

  lemma {:induction false} PeakCount<D>(h: (D, D) -> D, xs: seq<D>)
    ensures |xs| < Pow2(|PeaksOf(h, xs)|)
    ensures xs != [] ==> Pow2(|PeaksOf(h, xs)|) <= 2 * |xs|
    decreases |xs|
  {
    if xs != [] {
      PeakCount(h, PairUp(h, xs));
    }
  }

  // ---------- binding ----------

  ghost function LevelPairs<D>(xs: seq<D>): set<(D, D)> {
    set i | 0 <= i < |xs| / 2 :: (xs[2 * i], xs[2 * i + 1])
  }

  /** Every pair handed to `hashPair` while building the trees over `xs` and bagging them onto `acc`. */
  ghost function HashedPairs<D>(h: (D, D) -> D, xs: seq<D>, acc: Option<D>): set<(D, D)>
    decreases |xs|
  {
    if xs == [] then {} else
      var peak := OddLast(xs);
      LevelPairs(xs)
      + (if peak.Some? && acc.Some? then {(peak.value, acc.value)} else {})
      + HashedPairs(h, PairUp(h, xs), BagPeak(h, peak, acc))
  }

  ghost predicate CollisionFree<D>(h: (D, D) -> D, pairs: set<(D, D)>) {
    forall p, q :: p in pairs && q in pairs && h(p.0, p.1) == h(q.0, q.1) ==> p == q
  }

  lemma PairUpInjective<D>(h: (D, D) -> D, xs: seq<D>, ys: seq<D>, pairs: set<(D, D)>)
    requires |xs| == |ys|
    requires LevelPairs(xs) <= pairs && LevelPairs(ys) <= pairs && CollisionFree(h, pairs)
    requires PairUp(h, xs) == PairUp(h, ys)
    ensures forall i :: 0 <= i < |xs| / 2 * 2 ==> xs[i] == ys[i]
  {
    forall i | 0 <= i < |xs| / 2
      ensures xs[2 * i] == ys[2 * i] && xs[2 * i + 1] == ys[2 * i + 1]
    {
      assert (xs[2 * i], xs[2 * i + 1]) in LevelPairs(xs);
      assert (ys[2 * i], ys[2 * i + 1]) in LevelPairs(ys);
      assert PairUp(h, xs)[i] == PairUp(h, ys)[i];
    }
    forall i | 0 <= i < |xs| / 2 * 2
      ensures xs[i] == ys[i]
    {
      assert i == 2 * (i / 2) || i == 2 * (i / 2) + 1;
    }
  }

  lemma BagPeakBinds<D>(
      h: (D, D) -> D, p: Option<D>, q: Option<D>, a: Option<D>, b: Option<D>, pairs: set<(D, D)>)
    requires p.Some? == q.Some? && a.Some? == b.Some?
    requires p.Some? && a.Some? ==> (p.value, a.value) in pairs && (q.value, b.value) in pairs
    requires CollisionFree(h, pairs) && BagPeak(h, p, a) == BagPeak(h, q, b)
    ensures p == q && a == b
  {
  }

  lemma {:induction false} BagBinds<D>(
      h: (D, D) -> D, xs: seq<D>, ys: seq<D>, a: Option<D>, b: Option<D>, pairs: set<(D, D)>)
    requires |xs| == |ys| && a.Some? == b.Some?
    requires HashedPairs(h, xs, a) <= pairs && HashedPairs(h, ys, b) <= pairs && CollisionFree(h, pairs)
    requires Bag(h, PeaksOf(h, xs), a) == Bag(h, PeaksOf(h, ys), b)
    ensures xs == ys && a == b
    decreases |xs|
  {
    if xs != [] {
      var p, q := OddLast(xs), OddLast(ys);
      var xs', ys' := PairUp(h, xs), PairUp(h, ys);
      assert PeaksOf(h, xs)[1..] == PeaksOf(h, xs') && PeaksOf(h, ys)[1..] == PeaksOf(h, ys');
      BagBinds(h, xs', ys', BagPeak(h, p, a), BagPeak(h, q, b), pairs);
      PairUpInjective(h, xs, ys, pairs);
      BagPeakBinds(h, p, q, a, b, pairs);
      SameButLast(xs, ys);
    }
  }

  lemma SameButLast<D>(xs: seq<D>, ys: seq<D>)
    requires |xs| == |ys| && OddLast(xs) == OddLast(ys)
    requires forall i :: 0 <= i < |xs| / 2 * 2 ==> xs[i] == ys[i]
    ensures xs == ys
  {
  }

  /** A range's report pins down the whole appended sequence, leaf by leaf. */
  lemma RootBinds<D>(h: (D, D) -> D, zero: D, xs: seq<D>, ys: seq<D>)
    requires CollisionFree(h, HashedPairs(h, xs, None) + HashedPairs(h, ys, None))
    ensures ReportOf(h, zero, xs) == ReportOf(h, zero, ys) <==> xs == ys
  {
    if ReportOf(h, zero, xs) == ReportOf(h, zero, ys) && xs != [] {
      BagKeepsSome(h, xs, None);
      BagKeepsSome(h, ys, None);
      BagBinds(h, xs, ys, None, None, HashedPairs(h, xs, None) + HashedPairs(h, ys, None));
    }
  }

  lemma {:induction false} BagKeepsSome<D>(h: (D, D) -> D, xs: seq<D>, acc: Option<D>)
    ensures Bag(h, PeaksOf(h, xs), acc).Some? <==> xs != [] || acc.Some?
    decreases |xs|
  {
    if xs != [] {
      var peak := PeaksOf(h, xs)[0];
      assert PeaksOf(h, xs)[1..] == PeaksOf(h, PairUp(h, xs));
      BagKeepsSome(h, PairUp(h, xs), BagPeak(h, peak, acc));
    }
  }

  lemma BagNext<D>(h: (D, D) -> D, peak: Option<D>, rest: seq<Option<D>>, acc: Option<D>)
    ensures Bag(h, [peak] + rest, acc) == Bag(h, rest, BagPeak(h, peak, acc))
    ensures Bag(h, [], acc) == acc
  {
    assert ([peak] + rest)[1..] == rest;
  }

  /** The reports of up to three leaves: pairs are hashed in order, and peaks are bagged from the lowest up. */
  lemma SmallReports<D>(h: (D, D) -> D, zero: D, a: D, b: D, c: D)
    ensures ReportOf(h, zero, []) == Report(zero, 0)
    ensures ReportOf(h, zero, [a]) == Report(a, 1)
    ensures ReportOf(h, zero, [a, b]) == Report(h(a, b), 2)
    ensures ReportOf(h, zero, [a, b, c]) == Report(h(h(a, b), c), 3)
  {
    assert PairUp(h, [a]) == [] && PairUp(h, [h(a, b)]) == [];
    assert PairUp(h, [a, b]) == [h(a, b)] && PairUp(h, [a, b, c]) == [h(a, b)];
    hide PairUp;
    var pair := Some(h(a, b));
    assert PeaksOf(h, []) == [] && PeaksOf(h, [a]) == [Some(a)] + [] && PeaksOf(h, [h(a, b)]) == [pair] + [];
    assert PeaksOf(h, [a, b]) == [None] + ([pair] + []) && PeaksOf(h, [a, b, c]) == [Some(c)] + ([pair] + []);
    hide PeaksOf, Bag;
    BagNext(h, Some(a), [], None);
    BagNext(h, None, [pair] + [], None);
    BagNext(h, pair, [], None);
    BagNext(h, Some(c), [pair] + [], None);
    BagNext(h, pair, [], Some(c));
  }

  // ---------- one append ----------

  function Nulls<D>(n: nat): seq<Option<D>> {
    seq(n, _ => None)
  }

  lemma AppendCarries<D>(h: (D, D) -> D, xs: seq<D>, c: D)
    requires |xs| % 2 == 1
    ensures PeaksOf(h, xs) == [Some(xs[|xs| - 1])] + PeaksOf(h, PairUp(h, xs))
    ensures PeaksOf(h, xs + [c]) == [None] + PeaksOf(h, PairUp(h, xs) + [h(xs[|xs| - 1], c)])
  {
    PairUpOddAppend(h, xs, c);
    assert OddLast(xs + [c]) == None;
  }

  lemma AppendSettles<D>(h: (D, D) -> D, xs: seq<D>, c: D)
    requires |xs| % 2 == 0
    ensures PeaksOf(h, xs) == (if xs == [] then [] else [None] + PeaksOf(h, PairUp(h, xs)))
    ensures PeaksOf(h, xs + [c]) == [Some(c)] + PeaksOf(h, PairUp(h, xs))
  {
    PairUpEvenAppend(h, xs, c);
    assert OddLast(xs + [c]) == Some(c);
  }

  /** `leafCount & (1 << level)`: JavaScript keeps 32 bits of the left operand and 5 of the shift. */
  predicate TestBit32(leafCount: nat, level: nat) {
    Bit(leafCount % 0x1_0000_0000, level % 32)
  }

  lemma {:induction false} LevelBit(n: nat, m: nat, level: nat)
    requires n + 1 == (m + 1) * Pow2(level)
    ensures Bit(n, level) <==> m % 2 == 1
  {
    if level > 0 {
      var x := (m + 1) * Pow2(level - 1);
      assert n + 1 == 2 * x;
      LevelBit(n / 2, m, level - 1);
    }
  }

  lemma TestsLevel(n: nat, m: nat, level: nat)
    requires n + 1 == (m + 1) * Pow2(level) && n <= MAX_LEAVES && level < 32
    ensures TestBit32(n, level) <==> m % 2 == 1
  {
    LevelBit(n, m, level);
  }

  /** The carry loop in numbers: `m` nodes on `level`, reached after `level` merges. */
  ghost predicate Counts(n: nat, m: nat, level: nat, merges: nat) {
    && level <= 32 && n <= MAX_LEAVES
    && n + 1 == (m + 1) * Pow2(level)
    && (n == MAX_LEAVES ==> m + 1 == Pow2(32 - level))
    && merges + PopCount(n) == n + level
    && PopCount(n) == level + PopCount(m)
    && PopCount(n + 1) == PopCount(m + 1)
  }

  lemma LevelUp(n: nat, m: nat, p: nat)
    requires n + 1 == (m + 1) * p && m % 2 == 1
    ensures n + 1 == (m / 2 + 1) * (2 * p)
  {
    assert m + 1 == (m / 2 + 1) * 2;
  }

  lemma CountsBegin(n: nat, merges: nat)
    ensures n <= MAX_LEAVES && merges + PopCount(n) == n ==> Counts(n, n, 0, merges)
  {
    Pow2Values();
    assert Pow2(0) == 1;
    hide Pow2, PopCount;
  }

  lemma LastCountIsOdd()
    ensures TestBit32(MAX_LEAVES, 0)
  {
  }

  lemma CountsMove(n: nat, m: nat, level: nat, merges: nat)
    requires Counts(n, m, level, merges) && level < 32 && TestBit32(n, level)
    ensures m % 2 == 1 && Counts(n, m / 2, level + 1, merges + 1)
  {
    hide TestBit32;
    TestsLevel(n, m, level);
    LevelUp(n, m, Pow2(level));
    assert (m + 1) / 2 == m / 2 + 1;
  }

  lemma PopCountNext(m: nat)
    requires m % 2 == 0
    ensures PopCount(m + 1) == PopCount(m) + 1
  {
    assert (m + 1) / 2 == m / 2;
  }

  lemma CountsEnd(n: nat, m: nat, level: nat, merges: nat)
    requires Counts(n, m, level, merges) && level < 32 && !TestBit32(n, level)
    ensures m % 2 == 0 && n < MAX_LEAVES && merges + PopCount(n + 1) == n + 1
  {
    hide TestBit32, PopCount;
    TestsLevel(n, m, level);
    assert Pow2(32 - level) == 2 * Pow2(31 - level);
    PopCountNext(m);
  }

  lemma CountsOverflow(n: nat, m: nat, merges: nat)
    requires Counts(n, m, 32, merges)
    ensures m == 0 && n == MAX_LEAVES && TestBit32(n, 32)
  {
    Pow2Values();
  }

  /**
   * The carry loop in hashes: the settled lower levels are empty, `xs` is what the old leaves
   * amount to on this level, and `carry` waits to be placed behind them.
   */
  ghost predicate Carrying<D>(h: (D, D) -> D, leaves: seq<D>, leaf: D, peaks: seq<Option<D>>,
                              xs: seq<D>, carry: D, level: nat)
  {
    && peaks == Nulls(level) + PeaksOf(h, xs)
    && PeaksOf(h, leaves + [leaf]) == Nulls(level) + PeaksOf(h, xs + [carry])
  }

  lemma CarryBegins<D>(h: (D, D) -> D, leaves: seq<D>, leaf: D)
    ensures Carrying(h, leaves, leaf, PeaksOf(h, leaves), leaves, leaf, 0)
  {
    assert Nulls<D>(0) == [];
  }

  lemma CarryMoves<D>(h: (D, D) -> D, leaves: seq<D>, leaf: D, peaks: seq<Option<D>>,
                      xs: seq<D>, carry: D, level: nat)
    requires Carrying(h, leaves, leaf, peaks, xs, carry, level) && |xs| % 2 == 1
    ensures level < |peaks| && peaks[level].Some?
    ensures Carrying(h, leaves, leaf, peaks[level := None],
                     PairUp(h, xs), h(peaks[level].value, carry), level + 1)
  {
    hide PairUp;
    AppendCarries(h, xs, carry);
    hide PeaksOf;
    var rest := PeaksOf(h, PairUp(h, xs));
    var next := PeaksOf(h, PairUp(h, xs) + [h(xs[|xs| - 1], carry)]);
    assert peaks[level := None] == Nulls(level + 1) + rest;
    assert Nulls(level) + ([None] + next) == Nulls(level + 1) + next;
  }

  lemma CarryRunsOut<D>(h: (D, D) -> D, leaves: seq<D>, leaf: D, peaks: seq<Option<D>>, carry: D, level: nat)
    requires Carrying(h, leaves, leaf, peaks, [], carry, level)
    ensures peaks == Nulls(level)
  {
  }

  lemma CarrySettles<D>(h: (D, D) -> D, leaves: seq<D>, leaf: D, peaks: seq<Option<D>>,
                        xs: seq<D>, carry: D, level: nat)
    requires Carrying(h, leaves, leaf, peaks, xs, carry, level) && |xs| % 2 == 0
    ensures level <= |peaks|
    ensures PeaksOf(h, leaves + [leaf]) ==
            if level < |peaks| then peaks[level := Some(carry)] else peaks + [Some(carry)]
  {
    hide PairUp, PeaksOf;
    AppendSettles(h, xs, carry);
    var rest := PeaksOf(h, PairUp(h, xs));
    if xs == [] {
      NoPeaks(h, xs);
      assert peaks + [Some(carry)] == Nulls(level) + ([Some(carry)] + rest);
    } else {
      assert peaks[level := Some(carry)] == Nulls(level) + ([Some(carry)] + rest);
    }
  }

  lemma NoPeaks<D>(h: (D, D) -> D, xs: seq<D>)
    requires xs == []
    ensures PeaksOf(h, PairUp(h, xs)) == []
  {
  }

  class EventMmr<D> {
    const h: (D, D) -> D
    const zero: D
    var peaks: seq<Option<D>>
    var leafCount: nat
    ghost var leaves: seq<D>
    ghost var merges: nat  // calls of hashPair made by the carry loop

    ghost predicate Valid()
      reads this
    {
      && leafCount == |leaves| <= MAX_LEAVES
      && peaks == PeaksOf(h, leaves)
      && merges + PopCount(leafCount) == leafCount
    }

    /** The state an append leaves behind when the 32-bit level test wraps around. */
    ghost predicate Exhausted()
      reads this
    {
      leafCount == MAX_LEAVES && peaks == Nulls(32)
    }

    constructor (h: (D, D) -> D, zero: D)
      ensures Valid() && leaves == [] && this.h == h && this.zero == zero
    {
      this.h, this.zero := h, zero;
      peaks, leafCount := [], 0;
      leaves, merges := [], 0;
    }

    /** Appends one leaf; None stands for the TypeError that hashing a missing peak raises. */
    method Append(leaf: D) returns (r: Option<Report<D>>)
      requires Valid() || Exhausted()
      modifies this
      ensures r.Some? <==> old(Valid()) && old(leafCount) < MAX_LEAVES
      ensures r.Some? ==>
        Valid() && leaves == old(leaves) + [leaf] && r.value == ReportOf(h, zero, leaves)
      ensures r.None? ==> Exhausted()
    {
      hide PeaksOf, PairUp, PopCount, Pow2, Counts, Carrying, TestBit32, ReportOf;
      var carry, level := leaf, 0;
      ghost var xs, valid := leaves, Valid();
      CountsBegin(leafCount, merges);
      LastCountIsOdd();
      CarryBegins(h, leaves, leaf);
      while TestBit32(leafCount, level)
        invariant leafCount == old(leafCount) && leaves == old(leaves)
        invariant valid ==> leafCount == |leaves| && level <= 32 && Counts(leafCount, |xs|, level, merges)
        invariant valid ==> Carrying(h, leaves, leaf, peaks, xs, carry, level)
        invariant !valid ==> Exhausted() && level == 0
        decreases 32 - level
      {
        if valid && level < 32 {
          CountsMove(leafCount, |xs|, level, merges);
          CarryMoves(h, leaves, leaf, peaks, xs, carry, level);
        } else if valid {
          CountsOverflow(leafCount, |xs|, merges);
          CarryRunsOut(h, leaves, leaf, peaks, carry, level);
        }
        if level >= |peaks| || peaks[level].None? {
          return None;
        }
        carry := h(peaks[level].value, carry);
        peaks := peaks[level := None];
        level := level + 1;
        xs := PairUp(h, xs);
        merges := merges + 1;
      }
      if level == 32 { CountsOverflow(leafCount, |xs|, merges); }
      CountsEnd(leafCount, |xs|, level, merges);
      CarrySettles(h, leaves, leaf, peaks, xs, carry, level);
      peaks := if level < |peaks| then peaks[level := Some(carry)] else peaks + [Some(carry)];
      leafCount := leafCount + 1;
      leaves := leaves + [leaf];
      var report := Root();
      r := Some(report);
    }

    method Root() returns (r: Report<D>)
      ensures Valid() ==> r == ReportOf(h, zero, leaves)
      ensures Exhausted() ==> r == Report(zero, MAX_LEAVES)
    {
      var root: Option<D> := None;
      for i := 0 to |peaks|
        invariant Bag(h, peaks, None) == Bag(h, peaks[i..], root)
        invariant Exhausted() ==> root.None?
      {
        var peak := peaks[i];
        assert peaks[i..][1..] == peaks[i + 1..];
        if peak.Some? {
          root := if root.Some? then Some(h(peak.value, root.value)) else peak;
        }
      }
      r := Report(if root.Some? then root.value else zero, leafCount);
    }
  }
}
