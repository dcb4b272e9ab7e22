/**
 The quadratic-mean fragmentation of a stretch of slots: for every capacity level, how the slots with at least that
 much free form blocks.
 */
module Fragmentation {
  import opened Common
  import opened Reservations
  import opened Slots
  import opened Timeline
  import opened SlottedSchedules

  /** A block of slots: the first of them, and the first behind. */
  datatype Block = Block(from: nat, to: nat)

  // ------------------------------------------------------------------------------------------- maximal blocks

  /** All slots of the block have at least the level free, and the block cannot be extended on either side. */
  ghost predicate IsMaximal(free: seq<int>, level: int, b: Block) {
    && b.from < b.to <= |free|
    && (forall i :: b.from <= i < b.to ==> free[i] >= level)
    && (b.from == 0 || free[b.from - 1] < level)
    && (b.to == |free| || free[b.to] < level)
  }

  /** A scan from the left: the blocks that have ended, and where the current one began. */
  datatype Scan = Scan(closed: seq<Block>, from: nat)

  ghost function ScanOf(free: seq<int>, level: int): (s: Scan)
    ensures s.from <= |free|
    ensures forall b :: b in s.closed ==> b.from < b.to < |free|
  {
    if free == [] then Scan([], 0)
    else
      var n := |free| - 1;
      var s := ScanOf(free[..n], level);
      if free[n] >= level then s
      else if s.from < n then Scan(s.closed + [Block(s.from, n)], n + 1)
      else Scan(s.closed, n + 1)
  }

  /** The blocks of a level in order, with the one that is cut off by the end of the range. */
  ghost function Blocks(free: seq<int>, level: int): (bs: seq<Block>)
    ensures forall b :: b in bs ==> b.from < b.to <= |free|
  {
    var s := ScanOf(free, level);
    if s.from < |free| then s.closed + [Block(s.from, |free|)] else s.closed
  }

  /** The current block is as long as possible to the left. */
  lemma {:induction false} ScanKnowsOpenBlock(free: seq<int>, level: int)
    ensures var s := ScanOf(free, level);
            && (forall i :: s.from <= i < |free| ==> free[i] >= level)
            && (s.from == 0 || free[s.from - 1] < level)
  {
    if free != [] {
      ScanKnowsOpenBlock(free[..|free| - 1], level);
    }
  }

  lemma {:induction false} ScanClosesMaximalBlocks(free: seq<int>, level: int, b: Block)
    ensures b in ScanOf(free, level).closed <==> IsMaximal(free, level, b) && b.to < |free|
  {
    if free != [] {
      var n := |free| - 1;
      var init := free[..n];
      ScanClosesMaximalBlocks(init, level, b);
      ScanKnowsOpenBlock(init, level);
      var s := ScanOf(init, level);
      if b.to < n {
        assert IsMaximal(free, level, b) <==> IsMaximal(init, level, b);
      } else if b.to == n && IsMaximal(free, level, b) {
        assert b.from == s.from;
      }
    }
  }

  /** The blocks found are exactly the maximal ones, each once. */
  lemma BlocksAreMaximal(free: seq<int>, level: int)
    ensures forall b :: b in Blocks(free, level) <==> IsMaximal(free, level, b)
    ensures Distinct(Blocks(free, level))
  {
    forall b ensures b in Blocks(free, level) <==> IsMaximal(free, level, b) {
      BlockIsMaximal(free, level, b);
    }
    ClosedInOrder(free, level);
    hide ScanOf, IsMaximal;
  }

  lemma BlockIsMaximal(free: seq<int>, level: int, b: Block)
    ensures b in Blocks(free, level) <==> IsMaximal(free, level, b)
  {
    ScanKnowsOpenBlock(free, level);
    ScanClosesMaximalBlocks(free, level, b);
    var s := ScanOf(free, level);
    hide ScanOf;
    assert b in Blocks(free, level) <==> b in s.closed || (s.from < |free| && b == Block(s.from, |free|));
    if IsMaximal(free, level, b) && b.to == |free| {
      assert b.from == s.from;
    }
  }

  ghost predicate InOrder(s: Scan) {
    && (forall i, j :: 0 <= i < j < |s.closed| ==> s.closed[i].to < s.closed[j].to)
    && (forall i :: 0 <= i < |s.closed| ==> s.closed[i].to < s.from)
  }

  lemma {:induction false} ClosedInOrder(free: seq<int>, level: int)
    ensures InOrder(ScanOf(free, level))
  {
    if free != [] {
      var n := |free| - 1;
      ClosedInOrder(free[..n], level);
      var s := ScanOf(free[..n], level);
      StaysInOrder(s, n);
    }
  }

  lemma StaysInOrder(s: Scan, n: nat)
    requires InOrder(s) && s.from <= n
    ensures InOrder(Scan(s.closed, n + 1))
    ensures s.from < n ==> InOrder(Scan(s.closed + [Block(s.from, n)], n + 1))
  {
  }

  // ------------------------------------------------------------------------------------------------------ sums

  ghost function Lengths(bs: seq<Block>): int {
    if bs == [] then 0 else Lengths(bs[..|bs| - 1]) + (bs[|bs| - 1].to - bs[|bs| - 1].from)
  }

  ghost function Squares(bs: seq<Block>): int {
    if bs == [] then 0
    else
      var b := bs[|bs| - 1];
      Squares(bs[..|bs| - 1]) + (b.to - b.from) * (b.to - b.from)
  }

  ghost function SlotsWith(free: seq<int>, level: int): set<int> {
    set i | 0 <= i < |free| && free[i] >= level
  }

  /** The blocks of a level contain every slot with that much free, and no slot twice. */
  lemma {:induction false} LengthsCountSlots(free: seq<int>, level: int)
    ensures Lengths(Blocks(free, level)) == |SlotsWith(free, level)|
  {
    hide Blocks, SlotsWith, Lengths, ScanOf;
    BlockLengths(free, level);
    if free != [] {
      var init := free[..|free| - 1];
      LengthsCountSlots(init, level);
      BlockLengths(init, level);
      SlotsWithOneMore(free, level);
      ClosedLengths(free, level);
    } else {
      NoSlots(level);
    }
  }

  lemma NoSlots(level: int)
    ensures Lengths(ScanOf([], level).closed) == 0 && ScanOf([], level).from == 0
    ensures |SlotsWith([], level)| == 0
  {
    assert SlotsWith([], level) == {};
  }

  /** What is counted so far grows by one with a slot that has the level free, and stays as it is with any other. */
  lemma ClosedLengths(free: seq<int>, level: int)
    requires free != []
    ensures var init := free[..|free| - 1];
            Lengths(ScanOf(free, level).closed) + |free| - ScanOf(free, level).from ==
            Lengths(ScanOf(init, level).closed) + |init| - ScanOf(init, level).from + if free[|free| - 1] >= level then 1 else 0
  {
    var s := ScanOf(free[..|free| - 1], level);
    LengthsOfOneMore(s.closed, Block(s.from, |free| - 1));
  }

  lemma BlockLengths(free: seq<int>, level: int)
    ensures Lengths(Blocks(free, level)) == Lengths(ScanOf(free, level).closed) + |free| - ScanOf(free, level).from
  {
    LengthsOfOneMore(ScanOf(free, level).closed, Block(ScanOf(free, level).from, |free|));
  }

  lemma SlotsWithOneMore(free: seq<int>, level: int)
    requires free != []
    ensures |SlotsWith(free, level)| == |SlotsWith(free[..|free| - 1], level)| + if free[|free| - 1] >= level then 1 else 0
  {
    var n := |free| - 1;
    if free[n] >= level {
      assert SlotsWith(free, level) == SlotsWith(free[..n], level) + {n};
    } else {
      assert SlotsWith(free, level) == SlotsWith(free[..n], level);
    }
  }

  lemma LengthsOfOneMore(bs: seq<Block>, b: Block)
    ensures Lengths(bs + [b]) == Lengths(bs) + (b.to - b.from)
    ensures Squares(bs + [b]) == Squares(bs) + (b.to - b.from) * (b.to - b.from)
  {
    assert (bs + [b])[..|bs|] == bs;
  }

  /** The squares add up to less than the square of the sum as soon as there are two blocks. */
  lemma {:induction false} SquaresBelowSquare(bs: seq<Block>)
    requires forall b :: b in bs ==> b.from < b.to
    ensures 0 <= Lengths(bs) && 0 <= Squares(bs) <= Lengths(bs) * Lengths(bs)
    ensures bs == [] <==> Lengths(bs) == 0
    ensures bs != [] ==> Squares(bs) > 0
    ensures Squares(bs) == Lengths(bs) * Lengths(bs) <==> |bs| <= 1
  {
    if bs != [] {
      var init, last := bs[..|bs| - 1], bs[|bs| - 1];
      SquaresBelowSquare(init);
      assert last in bs;
      SquareOfSum(Lengths(init), last.to - last.from);
    }
  }

  lemma SquareOfSum(a: int, b: int)
    requires a >= 0 && b > 0
    ensures (a + b) * (a + b) == a * a + 2 * (a * b) + b * b && b * b > 0
    ensures a * b >= 0 && (a * b == 0 <==> a == 0)
  {
    if a > 0 {
      MulMono(a, 1, b);
    }
  }

  // ----------------------------------------------------------------------------------------------- the index

  function Times(x: real, y: real): (r: real)
    ensures x > 0.0 && y > 0.0 ==> r > 0.0
  {
    x * y
  }

  /** The default power with which block lengths enter the index. */
  function Squared(x: real): (r: real)
    ensures x > 0.0 ==> r > 0.0
  {
    Times(x, x)
  }

  /** One for a single block, and the closer to zero the more evenly the free slots are scattered. */
  ghost function Ratio(free: seq<int>, level: int): real {
    var sum := Lengths(Blocks(free, level)) as real;
    if sum > 0.0 then Squares(Blocks(free, level)) as real / Squared(sum) else 0.0
  }

  /** How many of the first levels have a block at all. */
  ghost function LevelsInUse(free: seq<int>, levels: nat): nat {
    if levels == 0 then 0 else LevelsInUse(free, levels - 1) + if Blocks(free, levels) == [] then 0 else 1
  }

  ghost function RatioSum(free: seq<int>, levels: nat): real {
    if levels == 0 then 0.0 else RatioSum(free, levels - 1) + Ratio(free, levels)
  }

  ghost function Index(free: seq<int>, levels: nat): real {
    if LevelsInUse(free, levels) == 0 then 0.0
    else 1.0 - RatioSum(free, levels) / LevelsInUse(free, levels) as real
  }

  lemma QuotientRange(a: real, b: real)
    requires 0.0 < a <= b
    ensures 0.0 < a / b <= 1.0
    ensures a / b == 1.0 <==> a == b
  {
    var q := a / b;
    assert q * b == a;
    assert q > 1.0 ==> (q - 1.0) * b > 0.0;
  }

  lemma RatioRange(free: seq<int>, level: int)
    ensures Blocks(free, level) == [] ==> Ratio(free, level) == 0.0
    ensures Blocks(free, level) != [] ==> 0.0 < Ratio(free, level) <= 1.0
    ensures Blocks(free, level) != [] ==> (Ratio(free, level) == 1.0 <==> |Blocks(free, level)| == 1)
  {
    var bs := Blocks(free, level);
    SquaresBelowSquare(bs);
    if bs != [] {
      var sum := Lengths(bs);
      SquareAsReal(sum);
      QuotientRange(Squares(bs) as real, (sum * sum) as real);
    }
  }

  /** No level up to the bound has more than one block. */
  ghost predicate Unscattered(free: seq<int>, levels: nat) {
    forall level :: 1 <= level <= levels ==> |Blocks(free, level)| <= 1
  }

  lemma UnscatteredStep(free: seq<int>, levels: nat)
    requires levels > 0
    ensures Unscattered(free, levels) <==> Unscattered(free, levels - 1) && |Blocks(free, levels)| <= 1
  {
    hide Blocks;
  }

  lemma NothingScattered(free: seq<int>)
    ensures Unscattered(free, 0)
  {
  }

  lemma OneMoreRatio(total: real, count: nat, ratio: real, blocks: nat)
    requires 0.0 <= total <= count as real && (count > 0 ==> total > 0.0)
    requires if blocks == 0 then ratio == 0.0 else 0.0 < ratio <= 1.0 && (ratio == 1.0 <==> blocks == 1)
    ensures var count' := count + if blocks == 0 then 0 else 1;
            && 0.0 <= total + ratio <= count' as real && (count' > 0 ==> total + ratio > 0.0)
            && (total + ratio == count' as real <==> total == count as real && blocks <= 1)
  {
  }

  lemma {:induction false} RatioSumRange(free: seq<int>, levels: nat)
    ensures 0.0 <= RatioSum(free, levels) <= LevelsInUse(free, levels) as real
    ensures LevelsInUse(free, levels) > 0 ==> RatioSum(free, levels) > 0.0
    ensures RatioSum(free, levels) == LevelsInUse(free, levels) as real <==> Unscattered(free, levels)
  {
    hide Ratio, Blocks, Unscattered;
    if levels > 0 {
      RatioSumRange(free, levels - 1);
      RatioRange(free, levels);
      UnscatteredStep(free, levels);
      OneMoreRatio(RatioSum(free, levels - 1), LevelsInUse(free, levels - 1), Ratio(free, levels), |Blocks(free, levels)|);
    } else {
      NothingScattered(free);
    }
  }

  /** The index is always below one, and it is zero if and only if the free capacity of every level is one block. */
  lemma IndexRange(free: seq<int>, levels: nat)
    ensures 0.0 <= Index(free, levels) < 1.0
    ensures Index(free, levels) == 0.0 <==> Unscattered(free, levels)
  {
    RatioSumRange(free, levels);
    var n := LevelsInUse(free, levels);
    if n > 0 {
      QuotientRange(RatioSum(free, levels), n as real);
    }
  }

  // --------------------------------------------------------------------------------------- what the index measures

  /** The levels up to the bound that have a block, counted. */
  lemma {:induction false} LevelsInUseCounted(free: seq<int>, levels: nat)
    ensures LevelsInUse(free, levels) == |set level | 1 <= level <= levels && Blocks(free, level) != []|
  {
    hide Blocks;
    var used := set level | 1 <= level <= levels && Blocks(free, level) != [];
    if levels == 0 {
      assert used == {};
    } else {
      LevelsInUseCounted(free, levels - 1);
      var before := set level | 1 <= level <= levels - 1 && Blocks(free, level) != [];
      assert used == if Blocks(free, levels) == [] then before else before + {levels};
    }
  }

  lemma QuotientTimes(a: real, b: real)
    requires b != 0.0
    ensures a / b * b == a
  {
  }

  /** The share of a level: it times the square of the number of free slots is the sum of the squared block lengths. */
  lemma RatioLaw(free: seq<int>, level: int)
    ensures var n := |SlotsWith(free, level)|; Ratio(free, level) * (n * n) as real == Squares(Blocks(free, level)) as real
  {
    var n := |SlotsWith(free, level)|;
    LengthsCountSlots(free, level);
    SquaresBelowSquare(Blocks(free, level));
    SquareAsReal(n);
    if n > 0 {
      SquarePositive(n);
      QuotientTimes(Squares(Blocks(free, level)) as real, (n * n) as real);
    }
  }

  lemma SquarePositive(n: int)
    requires n > 0
    ensures n * n > 0
  {
  }

  /** One minus the index, times the number of levels in use, grows by the share of every further level. */
  lemma IndexGrows(free: seq<int>, levels: nat)
    requires levels > 0
    ensures (1.0 - Index(free, levels)) * LevelsInUse(free, levels) as real
            == (1.0 - Index(free, levels - 1)) * LevelsInUse(free, levels - 1) as real + Ratio(free, levels)
    ensures LevelsInUse(free, 0) == 0
  {
    hide Ratio, Blocks;
    MeanTimesCount(free, levels);
    MeanTimesCount(free, levels - 1);
  }

  lemma MeanTimesCount(free: seq<int>, levels: nat)
    ensures (1.0 - Index(free, levels)) * LevelsInUse(free, levels) as real == RatioSum(free, levels)
  {
    RatioSumRange(free, levels);
    hide Ratio, Blocks;
    if LevelsInUse(free, levels) > 0 {
      QuotientTimes(RatioSum(free, levels), LevelsInUse(free, levels) as real);
    }
  }

  /** With a single level in use the index is read off its blocks alone. */
  lemma SingleLevelIndex(free: seq<int>, levels: nat, level: int)
    requires 1 <= level <= levels && forall k :: 1 <= k <= levels ==> (Blocks(free, k) != [] <==> k == level)
    ensures var n := |SlotsWith(free, level)|;
            (1.0 - Index(free, levels)) * (n * n) as real == Squares(Blocks(free, level)) as real
  {
    hide Blocks, Ratio;
    SingleLevelSum(free, levels, level);
    MeanTimesCount(free, levels);
    RatioLaw(free, level);
  }

  lemma {:induction false} SingleLevelSum(free: seq<int>, levels: nat, level: int)
    requires 1 <= level && forall k :: 1 <= k <= levels ==> (Blocks(free, k) != [] <==> k == level)
    ensures LevelsInUse(free, levels) == if level <= levels then 1 else 0
    ensures RatioSum(free, levels) == if level <= levels then Ratio(free, level) else 0.0
  {
    hide Blocks, Ratio;
    if levels > 0 {
      SingleLevelSum(free, levels - 1, level);
      RatioRange(free, levels);
    }
  }

  /** The level has nothing free, or k blocks of the same length. */
  ghost predicate EvenlySplit(free: seq<int>, level: int, k: nat) {
    Blocks(free, level) == [] || (|Blocks(free, level)| == k && exists n: int :: n > 0 && AllAsLong(Blocks(free, level), n))
  }

  ghost predicate AllAsLong(bs: seq<Block>, n: int) {
    forall i :: 0 <= i < |bs| ==> bs[i].to - bs[i].from == n
  }

  lemma {:induction false} LengthsOfEqual(bs: seq<Block>, n: int)
    requires AllAsLong(bs, n)
    ensures Lengths(bs) == |bs| * n && Squares(bs) == |bs| * (n * n)
  {
    if bs != [] {
      LengthsOfEqual(bs[..|bs| - 1], n);
    }
  }

  lemma EvenRatio(free: seq<int>, level: int, k: nat)
    requires k > 0 && EvenlySplit(free, level, k)
    ensures Ratio(free, level) == if Blocks(free, level) == [] then 0.0 else 1.0 / k as real
  {
    var bs := Blocks(free, level);
    if bs != [] {
      var n: int :| n > 0 && AllAsLong(bs, n);
      LengthsOfEqual(bs, n);
      ShareOfEqual(bs, k, n);
    }
  }

  lemma ShareOfEqual(bs: seq<Block>, k: nat, n: int)
    requires k > 0 && n > 0 && Lengths(bs) == k * n && Squares(bs) == k * (n * n)
    ensures Lengths(bs) > 0 && Squares(bs) as real / Squared(Lengths(bs) as real) == 1.0 / k as real
  {
    hide Squared, Lengths, Squares;
    SquarePositive(n);
    MulMono(k, 1, n);
    SquareAsReal(k * n);
    SquareOfProduct(k, n);
    var square := (n * n) as real;
    ProductAsReal(k, n * n);
    ProductAsReal(k, k * (n * n));
    QuotientTimes(1.0, k as real);
    Regroup(1.0 / k as real, k as real, k as real * square);
    QuotientIs(k as real * square, k as real * (k as real * square), 1.0 / k as real);
  }

  lemma SquareOfProduct(k: int, n: int)
    requires k > 0 && n > 0
    ensures (k * n) * (k * n) == k * (k * (n * n)) > 0
  {
    SquarePositive(n);
    MulMono(k, 1, n * n);
    MulMono(k, 1, k * (n * n));
  }

  lemma ProductAsReal(a: int, b: int)
    ensures (a * b) as real == a as real * b as real
  {
  }

  lemma Regroup(x: real, k: real, y: real)
    requires x * k == 1.0
    ensures x * (k * y) == y
  {
    assert x * (k * y) == (x * k) * y;
  }

  lemma QuotientIs(a: real, b: real, q: real)
    requires b != 0.0 && q * b == a
    ensures a / b == q
  {
  }

  lemma {:induction false} EvenSum(free: seq<int>, levels: nat, k: nat)
    requires k > 0 && forall level :: 1 <= level <= levels ==> EvenlySplit(free, level, k)
    ensures RatioSum(free, levels) == (1.0 / k as real) * LevelsInUse(free, levels) as real
  {
    hide Ratio, Blocks, EvenlySplit;
    if levels > 0 {
      EvenSum(free, levels - 1, k);
      EvenRatio(free, levels, k);
    }
  }

  /** If every level in use is split into k blocks of equal length, the index is 1 - 1/k, whatever the lengths. */
  lemma EvenIndex(free: seq<int>, levels: nat, k: nat)
    requires k > 0 && LevelsInUse(free, levels) > 0 && forall level :: 1 <= level <= levels ==> EvenlySplit(free, level, k)
    ensures Index(free, levels) == 1.0 - 1.0 / k as real
  {
    hide RatioSum, LevelsInUse, EvenlySplit, Index, Blocks;
    EvenSum(free, levels, k);
    IndexByShare(free, levels, 1.0 / k as real);
  }

  lemma IndexByShare(free: seq<int>, levels: nat, share: real)
    requires LevelsInUse(free, levels) > 0 && RatioSum(free, levels) == share * LevelsInUse(free, levels) as real
    ensures Index(free, levels) == 1.0 - share
  {
    hide RatioSum, LevelsInUse;
    QuotientIs(RatioSum(free, levels), LevelsInUse(free, levels) as real, share);
  }

  // ------------------------------------------------------------------------------------------ the computation

  /** What is free in the slots of a range, as the schedule reports it: slots outside the window have no load. */
  ghost function FreeCapacities(s: Schedule, first: int, last: int): seq<int>
    requires s.cells != []
  {
    seq(Max(0, last + 1 - first), k => s.cells[0].capacity - LoadAt(s, first + k))
  }

  /** What the three vectors hold for one level, once the slots given have been looked at. */
  ghost predicate Tallied(quad: real, sum: real, current: int, free: seq<int>, level: int) {
    var s := ScanOf(free, level);
    && quad == Squares(s.closed) as real && sum == Lengths(s.closed) as real && current == |free| - s.from
  }

  ghost predicate AllTallied(quad: array<real>, sums: array<real>, current: array<int>, free: seq<int>, from: nat, to: nat)
    requires quad.Length == sums.Length == current.Length && to <= quad.Length
    reads quad, sums, current
  {
    forall level :: from <= level < to ==> Tallied(quad[level], sums[level], current[level], free, level)
  }

  lemma TallyFree(quad: real, sum: real, current: int, free: seq<int>, f: int, level: int)
    requires Tallied(quad, sum, current, free, level) && f >= level
    ensures Tallied(quad, sum, current + 1, free + [f], level)
  {
    assert (free + [f])[..|free|] == free;
  }

  lemma TallyTaken(quad: real, sum: real, current: int, free: seq<int>, f: int, level: int)
    requires Tallied(quad, sum, current, free, level) && f < level
    ensures current >= 0
    ensures if current > 0 then Tallied(quad + Squared(current as real), sum + current as real, 0, free + [f], level)
            else Tallied(quad, sum, current, free + [f], level)
  {
    var s := ScanOf(free, level);
    assert (free + [f])[..|free|] == free;
    LengthsOfOneMore(s.closed, Block(s.from, |free|));
    SquareAsReal(current);
    hide Squared, Squares, Lengths;
  }

  lemma SquareAsReal(n: int)
    ensures (n * n) as real == Squared(n as real)
  {
  }

  lemma LoadInRange(s: Schedule, v: int)
    requires WellFormed(s) && AllAccounted(s)
    ensures 0 <= s.cells[0].capacity - LoadAt(s, v) <= s.cells[0].capacity
  {
    if InWindow(s, v) {
      var c := s.cells[v - s.start];
      assert Accounted(s.store, c) && c.ids <= s.store.Keys;
      ReservedByNonNegative(s.store, c.ids);
    }
  }

  /** Within the window these are what the slots have left; outside they are the whole capacity. */
  lemma FreeCapacitiesAre(s: Schedule, first: int, last: int, v: int)
    requires WellFormed(s) && first <= v <= last
    ensures |FreeCapacities(s, first, last)| == last + 1 - first
    ensures FreeCapacities(s, first, last)[v - first] ==
            if s.start <= v < s.start + |s.cells| then s.cells[v - s.start].capacity - s.cells[v - s.start].load
            else s.cells[0].capacity
  {
    var k := v - first;
    assert FreeCapacities(s, first, last)[k] == s.cells[0].capacity - LoadAt(s, first + k);
    if InWindow(s, v) {
      assert s.cells[v - s.start].capacity == s.cells[0].capacity;
    }
  }

  lemma FreeCapacitiesGrow(s: Schedule, first: int, last: int)
    requires s.cells != [] && first <= last
    ensures FreeCapacities(s, first, last) == FreeCapacities(s, first, last - 1) + [s.cells[0].capacity - LoadAt(s, last)]
  {
  }

  lemma NothingTallied(level: int)
    ensures Tallied(0.0, 0.0, 0, [], level)
  {
  }

  /** Counts, for every level, the blocks that end in the range, and how long the last ones are. */
  method AddBlocksEndingInRange(schedule: SlottedSchedule, first: int, last: int, quad: array<real>, sums: array<real>, current: array<int>)
    requires schedule.Valid() && quad != sums
    requires quad.Length == sums.Length == current.Length == schedule.Abs().cells[0].capacity + 1
    requires forall k :: 0 <= k < quad.Length ==> quad[k] == 0.0 && sums[k] == 0.0 && current[k] == 0
    modifies quad, sums, current
    ensures AllTallied(quad, sums, current, FreeCapacities(schedule.Abs(), first, last), 1, quad.Length)
  {
    hide Tallied, FreeCapacities, SlottedSchedule.Linked, SlottedSchedule.Logged, WellFormed, AllAccounted;
    schedule.Facts();
    ghost var s := schedule.Abs();
    var capacity := schedule.GetCapacity();
    var index := first;
    ghost var free: seq<int> := [];
    forall level: int ensures Tallied(0.0, 0.0, 0, [], level) {
      NothingTallied(level);
    }
    NoFreeCapacities(s, first, last);
    while index <= last
      invariant first <= index && (index <= last + 1 || index == first)
      invariant free == FreeCapacities(s, first, index - 1)
      invariant AllTallied(quad, sums, current, free, 1, quad.Length)
    {
      LoadInRange(s, index);
      FreeCapacitiesGrow(s, first, index);
      var f := capacity - schedule.GetSlotLoad(index);
      AddSlot(f, quad, sums, current, free);
      free := free + [f];
      index := index + 1;
    }
  }

  lemma NoFreeCapacities(s: Schedule, first: int, last: int)
    requires s.cells != []
    ensures FreeCapacities(s, first, first - 1) == []
    ensures last < first ==> FreeCapacities(s, first, last) == []
  {
  }

  /** One more slot: the blocks of the levels it has free grow, the others end. */
  method AddSlot(f: int, quad: array<real>, sums: array<real>, current: array<int>, ghost free: seq<int>)
    requires quad != sums && quad.Length == sums.Length == current.Length && 0 <= f < quad.Length
    requires AllTallied(quad, sums, current, free, 1, quad.Length)
    modifies quad, sums, current
    ensures AllTallied(quad, sums, current, free + [f], 1, quad.Length)
  {
    hide Tallied, Squared;
    for level := 1 to f + 1
      invariant AllTallied(quad, sums, current, free + [f], 1, level)
      invariant AllTallied(quad, sums, current, free, level, quad.Length)
    {
      TallyFree(quad[level], sums[level], current[level], free, f, level);
      current[level] := current[level] + 1;
    }
    for level := f + 1 to quad.Length
      invariant level >= 1
      invariant AllTallied(quad, sums, current, free + [f], 1, level)
      invariant AllTallied(quad, sums, current, free, level, quad.Length)
    {
      if level >= 1 {
        TallyTaken(quad[level], sums[level], current[level], free, f, level);
        if current[level] > 0 {
          quad[level] := quad[level] + Squared(current[level] as real);
          sums[level] := sums[level] + current[level] as real;
          current[level] := 0;
        }
      }
    }
  }

  /** What the vectors hold for one level in the end: all of its blocks. */
  ghost predicate Complete(quad: real, sum: real, free: seq<int>, level: int) {
    quad == Squares(Blocks(free, level)) as real && sum == Lengths(Blocks(free, level)) as real
  }

  ghost predicate AllComplete(quad: array<real>, sums: array<real>, free: seq<int>, to: nat)
    requires quad.Length == sums.Length && to <= quad.Length
    reads quad, sums
  {
    forall level :: 1 <= level < to ==> Complete(quad[level], sums[level], free, level)
  }

  lemma TallyEnd(quad: real, sum: real, current: int, free: seq<int>, level: int)
    requires Tallied(quad, sum, current, free, level)
    ensures current >= 0
    ensures if current > 0 then Complete(quad + Squared(current as real), sum + current as real, free, level)
            else Complete(quad, sum, free, level)
  {
    var s := ScanOf(free, level);
    LengthsOfOneMore(s.closed, Block(s.from, |free|));
    SquareAsReal(current);
  }

  /** Adds the blocks that are cut off by the end of the range. */
  method AddBlocksCutByRangeEnd(quad: array<real>, sums: array<real>, current: array<int>, ghost free: seq<int>)
    requires quad != sums && quad.Length == sums.Length == current.Length >= 1
    requires AllTallied(quad, sums, current, free, 1, quad.Length)
    modifies quad, sums, current
    ensures AllComplete(quad, sums, free, quad.Length)
  {
    hide Tallied, Complete, Squared;
    for level := 1 to quad.Length
      invariant AllComplete(quad, sums, free, level)
      invariant AllTallied(quad, sums, current, free, level, quad.Length)
    {
      TallyEnd(quad[level], sums[level], current[level], free, level);
      if current[level] > 0 {
        quad[level] := quad[level] + Squared(current[level] as real);
        sums[level] := sums[level] + current[level] as real;
        current[level] := 0;
      }
      assert Complete(quad[level], sums[level], free, level);
    }
  }

  lemma CompleteRatio(quad: real, sum: real, free: seq<int>, level: int)
    requires Complete(quad, sum, free, level)
    ensures sum > 0.0 <==> Blocks(free, level) != []
    ensures Ratio(free, level) == if sum > 0.0 then quad / Squared(sum) else 0.0
  {
    SquaresBelowSquare(Blocks(free, level));
    hide Squared, Blocks, Squares, Lengths;
  }

  /** The mean over the levels in use, taken from one. */
  method CalculateAvgFragmentation(quad: array<real>, sums: array<real>, ghost free: seq<int>) returns (index: real)
    requires quad.Length == sums.Length >= 1 && AllComplete(quad, sums, free, quad.Length)
    ensures index == Index(free, quad.Length - 1)
  {
    hide Complete, Ratio, Blocks, Squared;
    var total, count := 0.0, 0;
    for level := 1 to quad.Length
      invariant total == RatioSum(free, level - 1) && count == LevelsInUse(free, level - 1)
    {
      CompleteRatio(quad[level], sums[level], free, level);
      if sums[level] > 0.0 {
        total := total + quad[level] / Squared(sums[level]);
        count := count + 1;
      }
    }
    if count == 0 {
      return 0.0;
    }
    index := 1.0 - total / count as real;
  }

  method GetFragmentationQuadraticMean(schedule: SlottedSchedule, first: int, last: int) returns (index: real)
    requires schedule.Valid()
    ensures index == Index(FreeCapacities(schedule.Abs(), first, last), schedule.Abs().cells[0].capacity)
    ensures 0.0 <= index < 1.0
    ensures index == 0.0 <==> Unscattered(FreeCapacities(schedule.Abs(), first, last), schedule.Abs().cells[0].capacity)
  {
    hide Index, FreeCapacities, SlottedSchedule.Linked, SlottedSchedule.Logged;
    var capacity := schedule.GetCapacity();
    ghost var free := FreeCapacities(schedule.Abs(), first, last);
    var quad := new real[capacity + 1](_ => 0.0);
    var sums := new real[capacity + 1](_ => 0.0);
    var current := new int[capacity + 1](_ => 0);
    AddBlocksEndingInRange(schedule, first, last, quad, sums, current);
    AddBlocksCutByRangeEnd(quad, sums, current, free);
    index := CalculateAvgFragmentation(quad, sums, free);
    IndexRange(free, capacity);
  }
}
