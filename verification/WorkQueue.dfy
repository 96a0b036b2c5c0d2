/** The shared queue of height ranges that the parallel scan works through. */
module WorkQueue {
  import opened ByteOrder
  import opened Blocks
  import opened PowersOfTwo

  datatype WorkRange = WorkRange(start: U32, end: U32)

  /** `uint32` addition. */
  function Add32(a: U32, b: U32): U32 {
    (a + b) % 0x1_0000_0000
  }

  function Min(a: int, b: int): int {
    if a <= b then a else b
  }

  /** How many ranges it takes to get from start to end. */
  function Steps(start: U32, end: U32, size: nat): nat
    requires size > 0
  {
    if start < end then (end - start + size - 1) / size else 0
  }

  lemma StepsReach(start: U32, end: U32, size: nat, n: nat)
    requires size > 0
    ensures start + n * size < end <==> n < Steps(start, end, size)
  {
    if start < end {
      var q := Steps(start, end, size);
      assert q * size <= end - start + size - 1 < q * size + size by { DivMod(end - start + size - 1, size); }
      if n < q { TimesLe(n + 1, q, size); } else { TimesLe(q, n, size); }
    } else {
      TimesLe(0, n, size);
    }
  }

  lemma DivMod(a: nat, b: nat)
    requires b > 0
    ensures (a / b) * b <= a < (a / b) * b + b
  {
  }

  /** No step of the loop leaves 32 bits. */
  predicate NoWrap(start: U32, end: U32, size: nat)
    requires size > 0
  {
    start + Steps(start, end, size) * size <= 0x1_0000_0000 - 1 || start >= end
  }

  /** Range `i` in closed form. */
  function RangeAt(start: U32, end: U32, size: nat, i: nat): WorkRange
    requires size > 0 && start + i * size < end
  {
    WorkRange(start + i * size, Min(start + i * size + size, end))
  }

  ghost predicate IsQueue(start: U32, end: U32, size: nat, ranges: seq<WorkRange>)
    requires size > 0
  {
    && |ranges| == Steps(start, end, size)
    && forall i :: 0 <= i < |ranges| ==> start + i * size < end && ranges[i] == RangeAt(start, end, size, i)
  }

  // ---------- the loop, wrap-around included ----------

  /** `current` after n turns of the loop. */
  function CurrentAt(start: U32, size: U32, n: nat): U32 {
    (start + n * size) % 0x1_0000_0000
  }

  lemma CurrentNext(start: U32, size: U32, n: nat)
    ensures CurrentAt(start, size, n + 1) == Add32(CurrentAt(start, size, n), size)
    ensures CurrentAt(start, size, 0) == start
  {
    assert start + (n + 1) * size == start + n * size + size;
  }

  /** The loop comes to its end: some turn reaches the end height, wrapped or not. */
  ghost predicate Stops(start: U32, end: U32, size: U32) {
    exists n: nat :: CurrentAt(start, size, n) >= end
  }

  /** The ranges of all turns up to the first that reaches the end height. */
  ghost predicate Built(start: U32, end: U32, size: U32, ranges: seq<WorkRange>) {
    && CurrentAt(start, size, |ranges|) >= end
    && forall i :: 0 <= i < |ranges| ==>
         CurrentAt(start, size, i) < end
         && ranges[i] == WorkRange(CurrentAt(start, size, i), Min(CurrentAt(start, size, i + 1), end))
  }

  /** One range per turn, in 32-bit arithmetic, whenever the source's loop ends at all. */
  method NewWorkStealingQueue(start: U32, end: U32, size: U32) returns (q: WorkStealingQueue)
    requires LoopEnds(start, end, size)
    ensures fresh(q) && q.index == 0 && Built(start, end, size, q.ranges)
  {
    StopsIff(start, end, size);
    ghost var last: nat :| CurrentAt(start, size, last) >= end;
    var ranges := [];
    var current := start;
    CurrentNext(start, size, 0);
    while current < end
      invariant |ranges| <= last && current == CurrentAt(start, size, |ranges|)
      invariant forall i :: 0 <= i < |ranges| ==>
        CurrentAt(start, size, i) < end
        && ranges[i] == WorkRange(CurrentAt(start, size, i), Min(CurrentAt(start, size, i + 1), end))
      decreases last - |ranges|
    {
      CurrentNext(start, size, |ranges|);
      var rangeEnd := Min(Add32(current, size), end);
      ranges := ranges + [WorkRange(current, rangeEnd)];
      current := Add32(current, size);
    }
    q := new WorkStealingQueue(ranges);
  }

  lemma NoWrapCurrent(start: U32, end: U32, size: U32, n: nat)
    requires size > 0 && start < end && n <= Steps(start, end, size)
    ensures n < Steps(start, end, size) || NoWrap(start, end, size) ==> CurrentAt(start, size, n) == start + n * size
  {
    StepsReach(start, end, size, n);
  }

  /** Without a wrap the loop ends, and ends with the consecutive ranges. */
  lemma NoWrapStops(start: U32, end: U32, size: U32)
    requires size > 0 && NoWrap(start, end, size)
    ensures LoopEnds(start, end, size)
  {
    StopsIff(start, end, size);
    if start < end {
      NoWrapCurrent(start, end, size, Steps(start, end, size));
      StepsReach(start, end, size, Steps(start, end, size));
      assert CurrentAt(start, size, Steps(start, end, size)) >= end;
    } else {
      CurrentNext(start, size, 0);
    }
  }

  lemma NoWrapBuilds(start: U32, end: U32, size: U32, ranges: seq<WorkRange>)
    requires size > 0 && start < end && NoWrap(start, end, size) && Built(start, end, size, ranges)
    ensures IsQueue(start, end, size, ranges)
  {
    var n := Steps(start, end, size);
    NoWrapCurrent(start, end, size, n);
    StepsReach(start, end, size, n);
    NoWrapCurrent(start, end, size, |ranges|);
    StepsReach(start, end, size, |ranges|);
    forall i | 0 <= i < |ranges| ensures start + i * size < end && ranges[i] == RangeAt(start, end, size, i) {
      StepsReach(start, end, size, i);
      NoWrapCurrent(start, end, size, i);
      NoWrapCurrent(start, end, size, i + 1);
      assert start + (i + 1) * size == start + i * size + size;
    }
  }

  lemma WrapOnce(x: nat)
    requires 0x1_0000_0000 <= x < 0x2_0000_0000
    ensures x % 0x1_0000_0000 == x - 0x1_0000_0000
  {
  }

  /** The step that should have been the last wraps to below the end height, so the loop goes on. */
  lemma WrapsBelow(start: U32, end: U32, size: U32)
    requires size > 0 && start < end && !NoWrap(start, end, size)
    ensures CurrentAt(start, size, Steps(start, end, size)) < end
  {
    var n := Steps(start, end, size);
    StepsReach(start, end, size, 0);
    StepsReach(start, end, size, n - 1);
    assert start + n * size == start + (n - 1) * size + size;
    WrapOnce(start + n * size);
  }

  /** The loop makes the consecutive ranges exactly when no step of it wraps. */
  lemma QueueIffNoWrap(start: U32, end: U32, size: U32, ranges: seq<WorkRange>)
    requires size > 0 && Built(start, end, size, ranges)
    ensures IsQueue(start, end, size, ranges) <==> NoWrap(start, end, size)
  {
    CurrentNext(start, size, 0);
    if start >= end {
      assert |ranges| == 0;
    } else if NoWrap(start, end, size) {
      NoWrapBuilds(start, end, size, ranges);
    } else {
      WrapsBelow(start, end, size);
    }
  }

  /** The same condition step by step: every range the loop should make goes forward. */
  lemma NoWrapIff(start: U32, end: U32, size: U32)
    requires size > 0 && start < end
    ensures NoWrap(start, end, size) <==>
      forall n: nat :: n < Steps(start, end, size) ==> GoesForward(start, end, size, n)
  {
    var last := Steps(start, end, size) - 1;
    StepsReach(start, end, size, 0);
    StepsReach(start, end, size, last);
    assert start + (last + 1) * size == start + last * size + size;
    forall n: nat | n < Steps(start, end, size) && NoWrap(start, end, size) ensures GoesForward(start, end, size, n) {
      StepsReach(start, end, size, n);
      TimesLe(n + 1, last + 1, size);
      assert start + n * size + size == start + (n + 1) * size;
    }
    assert !NoWrap(start, end, size) ==> !GoesForward(start, end, size, last);
  }

  predicate GoesForward(start: U32, end: U32, size: U32, n: nat) {
    start + n * size < end && Min(Add32(start + n * size, size), end) > start + n * size
  }

  // ---------- when the loop ends ----------

  lemma Pow2Of32()
    ensures Pow2(32) == 0x1_0000_0000
  {
    assert Pow2(8) == 0x100;
    Pow2Splits(8, 16);
    Pow2Splits(16, 32);
  }

  /** A range size as an odd number of steps of the largest power of two in it, which divides 2^32. */
  lemma SizeSplits(size: U32) returns (a: nat, g: nat, k: nat)
    requires size > 0
    ensures g == Pow2In(size) && size == a * g && a % 2 == 1 && Pow2(k) * g == 0x1_0000_0000
  {
    var j;
    j, a := OddPart(size);
    g := Pow2(j);
    Pow2Of32();
    TimesLe(1, a, g);
    if j >= 32 { Pow2Grows(32, j); }
    k := 32 - j;
    Pow2Splits(j, 32);
  }

  lemma TimesAssoc(x: int, y: int, z: int)
    ensures x * (y * z) == (x * y) * z
  {
  }

  /** The counter keeps its residue modulo the power of two in the range size. */
  lemma CurrentResidue(start: U32, size: U32, n: nat)
    requires size > 0
    ensures CurrentAt(start, size, n) % Pow2In(size) == start % Pow2In(size)
    ensures CurrentAt(start, size, n) <= 0x1_0000_0000 - Pow2In(size) + start % Pow2In(size)
  {
    var a, g, k := SizeSplits(size);
    var m := Pow2(k);
    var c, q := CurrentAt(start, size, n), (start + n * size) / 0x1_0000_0000;
    TimesAssoc(n, a, g);
    TimesAssoc(q, m, g);
    TimesPlus(n * a, -(q * m), g);
    assert c == start + (n * a - q * m) * g;
    ModShift(start, n * a - q * m, g);
    LastOfClass(c, g, m);
  }

  /** Some turn reaches the last number of that residue class. */
  lemma CurrentReaches(start: U32, size: U32) returns (n: nat)
    requires size > 0
    ensures CurrentAt(start, size, n) == 0x1_0000_0000 - Pow2In(size) + start % Pow2In(size)
  {
    var a, g, k := SizeSplits(size);
    var m := Pow2(k);
    var s, r := start / g, start % g;
    var q;
    n, q := OddReaches(a, m - 1 - s, k);
    TimesAssoc(n, a, g);
    TimesAssoc(q, m, g);
    TimesPlus(m - 1 - s, q * m, g);
    TimesPlus(m - s, -1, g);
    TimesPlus(m, -s, g);
    assert start + n * size == (0x1_0000_0000 - g + r) + q * 0x1_0000_0000;
    LastFits(g, r, q);
  }

  lemma LastFits(g: nat, r: nat, q: int)
    requires r < g <= 0x1_0000_0000
    ensures ((0x1_0000_0000 - g + r) + q * 0x1_0000_0000) % 0x1_0000_0000 == 0x1_0000_0000 - g + r
  {
  }

  /** What a caller can check: the end is at most the last number of the start's residue class. */
  predicate LoopEnds(start: U32, end: U32, size: U32) {
    start >= end || (size > 0 && end <= 0x1_0000_0000 - Pow2In(size) + start % Pow2In(size))
  }

  /** The loop ends exactly under that condition. */
  lemma StopsIff(start: U32, end: U32, size: U32)
    ensures Stops(start, end, size) <==> LoopEnds(start, end, size)
  {
    CurrentNext(start, size, 0);
    if size > 0 {
      var n := CurrentReaches(start, size);
      forall i: nat ensures CurrentAt(start, size, i) <= 0x1_0000_0000 - Pow2In(size) + start % Pow2In(size) {
        CurrentResidue(start, size, i);
      }
      if start < end && LoopEnds(start, end, size) { assert CurrentAt(start, size, n) >= end; }
    } else {
      assert forall i: nat :: CurrentAt(start, size, i) == start;
    }
  }

  /** Near the top of the heights, with the default range size, the loop never ends. */
  lemma WrapNeverStops()
    ensures !NoWrap(0xFFFF_FFF6, MAX_U32, 144) && !Stops(0xFFFF_FFF6, MAX_U32, 144)
  {
    assert Pow2In(144) == 16 by {
      assert Pow2In(9) == 1 && Pow2In(18) == 2 && Pow2In(36) == 4 && Pow2In(72) == 8;
    }
    StopsIff(0xFFFF_FFF6, MAX_U32, 144);
  }

  lemma SmallSizeNoWrap(start: U32, end: U32, size: nat)
    requires size > 0 && end + size <= 0x1_0000_0000
    ensures NoWrap(start, end, size)
  {
    if start < end {
      StepsReach(start, end, size, Steps(start, end, size) - 1);
    }
  }

  class WorkStealingQueue {
    const ranges: seq<WorkRange>
    var index: nat

    constructor (ranges: seq<WorkRange>)
      ensures this.ranges == ranges && index == 0
    {
      this.ranges := ranges;
      index := 0;
    }

    /** One atomic increment: no two calls return the same range. */
    method GetNextRange() returns (r: Option<WorkRange>)
      modifies this
      ensures index == old(index) + 1
      ensures r == if old(index) < |ranges| then Some(ranges[old(index)]) else None
    {
      var currentIndex := index;
      index := index + 1;
      if currentIndex >= |ranges| {
        return None;
      }
      r := Some(ranges[currentIndex]);
    }
  }

  // ---------- coverage ----------

  predicate Covers(r: WorkRange, h: int) {
    r.start <= h <= r.end
  }

  ghost function CoveredBy(ranges: seq<WorkRange>, h: int): set<nat> {
    set i | 0 <= i < |ranges| && Covers(ranges[i], h)
  }

  lemma Between(d: nat, size: nat, i: nat)
    requires size > 0
    ensures i * size <= d <= i * size + size <==> i == d / size || (i == d / size - 1 && d % size == 0)
    ensures i * size <= d < i * size + size <==> i == d / size
  {
    var q := d / size;
    assert d == q * size + d % size;
    if i < q - 1 { TimesLe(i + 2, q, size); } else if i > q { TimesLe(q + 1, i, size); }
  }

  lemma CoversIff(start: U32, end: U32, size: nat, ranges: seq<WorkRange>, h: int, i: nat)
    requires size > 0 && start < end && IsQueue(start, end, size, ranges) && start <= h <= end && i < |ranges|
    ensures Covers(ranges[i], h) <==>
      i == (h - start) / size || (i == (h - start) / size - 1 && (h - start) % size == 0)
  {
    Between(h - start, size, i);
    assert ranges[i] == RangeAt(start, end, size, i);
  }

  /** A boundary between two neighbouring ranges. */
  predicate Interior(start: U32, end: U32, size: nat, h: int)
    requires size > 0
  {
    start < h < end && (h - start) % size == 0
  }

  lemma CoveredByIs(start: U32, end: U32, size: nat, ranges: seq<WorkRange>, h: int)
    requires size > 0 && start < end && IsQueue(start, end, size, ranges) && start <= h <= end
    ensures var q, r := (h - start) / size, (h - start) % size;
      forall i: nat :: i in CoveredBy(ranges, h) <==> i < |ranges| && (i == q || (i == q - 1 && r == 0))
  {
    forall i: nat | i < |ranges|
      ensures i in CoveredBy(ranges, h) <==>
        i == (h - start) / size || (i == (h - start) / size - 1 && (h - start) % size == 0)
    {
      CoversIff(start, end, size, ranges, h, i);
    }
  }

  lemma CoverageBelow(start: U32, end: U32, size: nat, ranges: seq<WorkRange>, h: int)
    requires size > 0 && IsQueue(start, end, size, ranges) && start <= h < end
    ensures |CoveredBy(ranges, h)| == if Interior(start, end, size, h) then 2 else 1
  {
    var q, r := (h - start) / size, (h - start) % size;
    Between(h - start, size, q);
    StepsReach(start, end, size, q);
    CoveredByIs(start, end, size, ranges, h);
    if q == 0 {
      SmallMod(h - start, size);
      assert CoveredBy(ranges, h) == {0};
    } else if r == 0 {
      assert CoveredBy(ranges, h) == {q - 1, q};
    } else {
      assert CoveredBy(ranges, h) == {q};
    }
  }

  lemma CoverageEnd(start: U32, end: U32, size: nat, ranges: seq<WorkRange>)
    requires size > 0 && start < end && IsQueue(start, end, size, ranges)
    ensures |CoveredBy(ranges, end)| == 1
  {
    TopRange(start, end, size);
    CoveredByIs(start, end, size, ranges, end);
    assert CoveredBy(ranges, end) == {|ranges| - 1};
  }

  /** Every height from start to end is in a range; boundaries between ranges are in two, the others in one. */
  lemma Coverage(start: U32, end: U32, size: nat, ranges: seq<WorkRange>, h: int)
    requires size > 0 && start < end && IsQueue(start, end, size, ranges)
    ensures |CoveredBy(ranges, h)| == if Interior(start, end, size, h) then 2 else if start <= h <= end then 1 else 0
  {
    if start <= h < end {
      CoverageBelow(start, end, size, ranges, h);
    } else if h == end {
      CoverageEnd(start, end, size, ranges);
    } else {
      forall i | 0 <= i < |ranges| ensures !Covers(ranges[i], h) { RangeInside(start, end, size, ranges, i); }
      assert CoveredBy(ranges, h) == {};
    }
  }

  lemma SmallMod(d: nat, size: nat)
    requires size > 0 && d / size == 0
    ensures d % size == d
  {
    assert d == (d / size) * size + d % size;
  }

  /** The end height is in the last range and in no other. */
  lemma TopRange(start: U32, end: U32, size: nat)
    requires size > 0 && start < end
    ensures var n, d := Steps(start, end, size), end - start;
      n > 0 && n - 1 == if d % size == 0 then d / size - 1 else d / size
  {
    var n, d := Steps(start, end, size), end - start;
    StepsReach(start, end, size, 0);
    StepsReach(start, end, size, n - 1);
    StepsReach(start, end, size, n);
    assert (n - 1) * size < d <= (n - 1) * size + size;
    Between(d, size, n - 1);
    Between(d, size, d / size);
    assert d == (d / size) * size + d % size;
  }

  lemma RangeInside(start: U32, end: U32, size: nat, ranges: seq<WorkRange>, i: nat)
    requires size > 0 && IsQueue(start, end, size, ranges) && i < |ranges|
    ensures start <= ranges[i].start < ranges[i].end <= end
  {
    assert ranges[i] == RangeAt(start, end, size, i);
    TimesLe(0, i, size);
  }

  // ---------- the ranges of any loop that ends ----------

  /** Each range ends where the next one starts, and the last one at the end height. */
  ghost predicate Chained(ranges: seq<WorkRange>, end: U32) {
    ranges != [] && forall i :: 0 <= i < |ranges| ==> ChainedAt(ranges, end, i)
  }

  ghost predicate ChainedAt(ranges: seq<WorkRange>, end: U32, i: nat)
    requires i < |ranges|
  {
    ranges[i].start < end && ranges[i].end == if i + 1 < |ranges| then ranges[i + 1].start else end
  }

  lemma BuiltChained(start: U32, end: U32, size: U32, ranges: seq<WorkRange>)
    requires start < end && Built(start, end, size, ranges)
    ensures Chained(ranges, end) && ranges[0].start == start
  {
    CurrentNext(start, size, 0);
    ChainedBy((n: nat) => CurrentAt(start, size, n), end, ranges);
  }

  lemma ChainedBy(at: nat -> U32, end: U32, ranges: seq<WorkRange>)
    requires at(0) < end <= at(|ranges|)
    requires forall i :: 0 <= i < |ranges| ==> TurnAt(at, end, ranges, i)
    ensures Chained(ranges, end) && ranges[0].start == at(0)
  {
    assert TurnAt(at, end, ranges, 0);
    forall i | 0 <= i < |ranges| ensures ChainedAt(ranges, end, i) {
      assert TurnAt(at, end, ranges, i);
      assert i + 1 < |ranges| ==> TurnAt(at, end, ranges, i + 1);
    }
  }

  ghost predicate TurnAt(at: nat -> U32, end: U32, ranges: seq<WorkRange>, i: nat)
    requires i < |ranges|
  {
    at(i) < end && ranges[i] == WorkRange(at(i), Min(at(i + 1), end))
  }

  lemma ChainedRest(ranges: seq<WorkRange>, end: U32)
    requires Chained(ranges, end) && |ranges| > 1
    ensures Chained(ranges[1..], end) && ranges[0].end == ranges[1].start < end
  {
    assert ChainedAt(ranges, end, 0) && ChainedAt(ranges, end, 1);
    forall i | 0 <= i < |ranges[1..]| ensures ChainedAt(ranges[1..], end, i) {
      assert ChainedAt(ranges, end, i + 1);
    }
  }

  /** The lowest height any of the ranges starts at. */
  function Lowest(ranges: seq<WorkRange>): U32
    requires ranges != []
  {
    if |ranges| == 1 then ranges[0].start else Min(ranges[0].start, Lowest(ranges[1..]))
  }

  lemma {:induction false} LowestIs(ranges: seq<WorkRange>)
    requires ranges != []
    ensures forall i :: 0 <= i < |ranges| ==> Lowest(ranges) <= ranges[i].start
    ensures exists i :: 0 <= i < |ranges| && Lowest(ranges) == ranges[i].start
  {
    if |ranges| > 1 {
      var rest := ranges[1..];
      LowestIs(rest);
      assert forall i :: 1 <= i < |ranges| ==> ranges[i] == rest[i - 1];
      var k :| 0 <= k < |rest| && Lowest(rest) == rest[k].start;
      assert Lowest(ranges) == ranges[0].start || Lowest(ranges) == ranges[k + 1].start;
    } else {
      assert Lowest(ranges) == ranges[0].start;
    }
  }

  /** Without a wrap nothing below the start height is scanned. */
  lemma NoWrapLowest(start: U32, end: U32, size: U32, ranges: seq<WorkRange>)
    requires size > 0 && start < end && NoWrap(start, end, size) && Built(start, end, size, ranges)
    ensures ranges != [] && Lowest(ranges) == start
  {
    BuiltChained(start, end, size, ranges);
    NoWrapBuilds(start, end, size, ranges);
    LowestIs(ranges);
    var i :| 0 <= i < |ranges| && Lowest(ranges) == ranges[i].start;
    RangeInside(start, end, size, ranges, i);
  }

  /** A first step that wraps takes the next range to below the start height. */
  lemma LowestAfterWrap(start: U32, end: U32, size: U32, ranges: seq<WorkRange>)
    requires start < end && Built(start, end, size, ranges) && Add32(start, size) < end
    ensures ranges != [] && Lowest(ranges) <= Add32(start, size)
  {
    BuiltChained(start, end, size, ranges);
    CurrentNext(start, size, 0);
    SecondTurn((n: nat) => CurrentAt(start, size, n), end, ranges);
    LowestIs(ranges);
  }

  lemma SecondTurn(at: nat -> U32, end: U32, ranges: seq<WorkRange>)
    requires ranges != [] && at(1) < end <= at(|ranges|)
    requires forall i :: 0 <= i < |ranges| ==> TurnAt(at, end, ranges, i)
    ensures |ranges| >= 2 && ranges[1].start == at(1)
  {
    assert |ranges| != 1;
    assert TurnAt(at, end, ranges, 1);
  }
}
