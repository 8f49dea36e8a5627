/**
 Cumulative time series over block numbers, quantised to multiples of 600 blocks, and
 the table that converts block numbers to times.
 */
module BlockSeries {
  import opened Wrappers
  import opened Sorting

  datatype BlockEvent = BlockEvent(blockNumber: nat, time: nat, eth: nat)

  datatype Point = Point(x: nat, y: nat)

  /** What one event adds to a series: one participant, or its amount in wei. */
  type Weight = BlockEvent -> nat

  const ROUND_TO_BLOCKS: nat := 600

  function CeilBlock(b: nat): nat
  {
    (b + ROUND_TO_BLOCKS - 1) / ROUND_TO_BLOCKS * ROUND_TO_BLOCKS
  }

  function FloorBlock(b: nat): nat
  {
    b / ROUND_TO_BLOCKS * ROUND_TO_BLOCKS
  }

  predicate SortedByBlock(blocks: seq<BlockEvent>)
  {
    forall i, j :: 0 <= i < j < |blocks| ==> blocks[i].blockNumber <= blocks[j].blockNumber
  }

  /** The total weight of the events up to and including block `x`. */
  function SumUpTo(blocks: seq<BlockEvent>, x: nat, w: Weight): nat
  {
    if blocks == [] then 0 else
    var e := blocks[|blocks| - 1];
    SumUpTo(blocks[..|blocks| - 1], x, w) + if e.blockNumber <= x then w(e) else 0
  }

  ghost predicate HasPoint(acc: seq<Point>, x: nat)
  {
    exists i :: 0 <= i < |acc| && acc[i].x == x
  }

  /** Some event is rounded up to `x`. */
  ghost predicate IsRounded(blocks: seq<BlockEvent>, x: nat)
  {
    exists e :: e in blocks && CeilBlock(e.blockNumber) == x
  }

  /**
   A series of `blocks` that starts at `start`: strictly increasing multiples of 600,
   one for each quantised block, each carrying the weight of all events up to it.
   */
  ghost predicate IsSeriesFrom(acc: seq<Point>, start: nat, blocks: seq<BlockEvent>, w: Weight)
  {
    && acc != [] && acc[0].x == start
    && (forall i :: 0 <= i < |acc| ==> acc[i].x % ROUND_TO_BLOCKS == 0)
    && (forall i, j :: 0 <= i < j < |acc| ==> acc[i].x < acc[j].x)
    && (forall i :: 0 <= i < |acc| ==> acc[i].y == SumUpTo(blocks, acc[i].x, w))
    && (forall e :: e in blocks ==> HasPoint(acc, CeilBlock(e.blockNumber)))
    && (forall i :: 0 < i < |acc| ==> IsRounded(blocks, acc[i].x))
  }

  ghost predicate IsSeries(acc: seq<Point>, blocks: seq<BlockEvent>, w: Weight)
  {
    blocks != [] && IsSeriesFrom(acc, FloorBlock(blocks[0].blockNumber), blocks, w)
  }

  /** Rounding a block number down and up. */
  lemma Rounding(b: nat)
    ensures FloorBlock(b) <= b <= CeilBlock(b)
    ensures CeilBlock(b) % ROUND_TO_BLOCKS == FloorBlock(b) % ROUND_TO_BLOCKS == 0
    ensures FloorBlock(b) <= CeilBlock(b)
  {
  }

  lemma CeilMonotone(b: nat, b': nat)
    requires b <= b'
    ensures CeilBlock(b) <= CeilBlock(b')
  {
  }

  lemma FloorMonotone(b: nat, b': nat)
    requires b <= b'
    ensures FloorBlock(b) <= FloorBlock(b')
  {
  }

  /** A multiple of 600 is below a block exactly when it is below the rounded-up block. */
  lemma MultipleBelow(m: nat, b: nat)
    requires m % ROUND_TO_BLOCKS == 0
    ensures m < b <==> m < CeilBlock(b)
    ensures m <= b <==> m <= FloorBlock(b)
  {
  }

  lemma SumUpToSnoc(blocks: seq<BlockEvent>, e: BlockEvent, x: nat, w: Weight)
    ensures SumUpTo(blocks + [e], x, w) == SumUpTo(blocks, x, w) + if e.blockNumber <= x then w(e) else 0
  {
  }

  /** Two bounds that admit the same events give the same sum. */
  lemma {:induction false} SumUpToSame(blocks: seq<BlockEvent>, x: nat, x': nat, w: Weight)
    requires forall e :: e in blocks ==> (e.blockNumber <= x <==> e.blockNumber <= x')
    ensures SumUpTo(blocks, x, w) == SumUpTo(blocks, x', w)
  {
    if blocks != [] {
      assert blocks[|blocks| - 1] in blocks;
      SumUpToSame(blocks[..|blocks| - 1], x, x', w);
    }
  }

  // ----- building a series

  ghost predicate Reached(acc: seq<Point>, blocks: seq<BlockEvent>)
  {
    acc != [] && forall e :: e in blocks ==> CeilBlock(e.blockNumber) <= acc[|acc| - 1].x
  }

  /** The body of the reduction. */
  function AddEvent(acc: seq<Point>, e: BlockEvent, w: Weight): seq<Point>
    requires acc != []
  {
    var last := acc[|acc| - 1];
    var blockNumber := CeilBlock(e.blockNumber);
    if last.x == blockNumber then acc[|acc| - 1 := Point(last.x, last.y + w(e))]
    else acc + [Point(blockNumber, last.y + w(e))]
  }

  lemma AddEventSums(acc: seq<Point>, start: nat, blocks: seq<BlockEvent>, e: BlockEvent, w: Weight, i: nat)
    requires IsSeriesFrom(acc, start, blocks, w) && Reached(acc, blocks)
    requires acc[|acc| - 1].x <= CeilBlock(e.blockNumber)
    requires i < |AddEvent(acc, e, w)|
    ensures AddEvent(acc, e, w)[i].y == SumUpTo(blocks + [e], AddEvent(acc, e, w)[i].x, w)
  {
    hide CeilBlock, SumUpTo;
    var acc', c, last := AddEvent(acc, e, w), CeilBlock(e.blockNumber), acc[|acc| - 1];
    SumUpToSnoc(blocks, e, acc'[i].x, w);
    Rounding(e.blockNumber);
    if acc'[i].x < c {
      MultipleBelow(acc[i].x, e.blockNumber);
    } else {
      forall x | x in blocks ensures x.blockNumber <= last.x && x.blockNumber <= c {
        Rounding(x.blockNumber);
      }
      SumUpToSame(blocks, last.x, c, w);
    }
  }

  lemma AddEventPoints(acc: seq<Point>, e: BlockEvent, w: Weight, x: nat)
    requires acc != []
    requires HasPoint(acc, x) || x == CeilBlock(e.blockNumber)
    ensures HasPoint(AddEvent(acc, e, w), x)
  {
    hide CeilBlock;
    var acc' := AddEvent(acc, e, w);
    if HasPoint(acc, x) {
      var i :| 0 <= i < |acc| && acc[i].x == x;
      assert acc'[i].x == x;
    } else {
      assert acc'[|acc'| - 1].x == x;
    }
  }

  lemma IsRoundedSnoc(blocks: seq<BlockEvent>, e: BlockEvent, x: nat)
    requires IsRounded(blocks, x) || x == CeilBlock(e.blockNumber)
    ensures IsRounded(blocks + [e], x)
  {
  }

  lemma AddEventKeepsSeries(acc: seq<Point>, start: nat, blocks: seq<BlockEvent>, e: BlockEvent, w: Weight)
    requires IsSeriesFrom(acc, start, blocks, w) && Reached(acc, blocks)
    requires acc[|acc| - 1].x <= CeilBlock(e.blockNumber)
    ensures IsSeriesFrom(AddEvent(acc, e, w), start, blocks + [e], w)
    ensures Reached(AddEvent(acc, e, w), blocks + [e])
    ensures AddEvent(acc, e, w)[|AddEvent(acc, e, w)| - 1].x == CeilBlock(e.blockNumber)
  {
    hide CeilBlock, SumUpTo, HasPoint, IsRounded;
    var acc' := AddEvent(acc, e, w);
    assert forall x :: x in blocks + [e] <==> x in blocks || x == e;
    forall i | 0 <= i < |acc'| ensures acc'[i].y == SumUpTo(blocks + [e], acc'[i].x, w) {
      AddEventSums(acc, start, blocks, e, w, i);
    }
    forall x | x in blocks + [e] ensures HasPoint(acc', CeilBlock(x.blockNumber)) {
      AddEventPoints(acc, e, w, CeilBlock(x.blockNumber));
    }
    forall i | 0 < i < |acc'| ensures IsRounded(blocks + [e], acc'[i].x) {
      IsRoundedSnoc(blocks, e, acc'[i].x);
    }
    Rounding(e.blockNumber);
  }

  method ReduceOverBlocks(blocks: seq<BlockEvent>, valueGetter: Weight) returns (acc: seq<Point>)
    requires blocks != [] && SortedByBlock(blocks)
    ensures IsSeries(acc, blocks, valueGetter)
    ensures acc[|acc| - 1].x >= CeilBlock(blocks[|blocks| - 1].blockNumber)
  {
    hide IsSeriesFrom, Reached, AddEvent, CeilBlock, FloorBlock, SumUpTo;
    ghost var start := FloorBlock(blocks[0].blockNumber);
    acc := [Point(FloorBlock(blocks[0].blockNumber), 0)];
    InitialSeries(blocks[0].blockNumber, valueGetter);
    for i := 0 to |blocks|
      invariant acc != []
      invariant IsSeriesFrom(acc, start, blocks[..i], valueGetter) && Reached(acc, blocks[..i])
      invariant acc[|acc| - 1].x == if i == 0 then start else CeilBlock(blocks[i - 1].blockNumber)
    {
      assert blocks[..i + 1] == blocks[..i] + [blocks[i]];
      CeilMonotone(blocks[if i == 0 then 0 else i - 1].blockNumber, blocks[i].blockNumber);
      Rounding(blocks[i].blockNumber);
      AddEventKeepsSeries(acc, start, blocks[..i], blocks[i], valueGetter);
      acc := AddEvent(acc, blocks[i], valueGetter);
      SeriesNotEmpty(acc, start, blocks[..i + 1], valueGetter);
    }
    assert blocks[..|blocks|] == blocks;
  }

  lemma SeriesNotEmpty(acc: seq<Point>, start: nat, blocks: seq<BlockEvent>, w: Weight)
    requires IsSeriesFrom(acc, start, blocks, w)
    ensures acc != []
  {
  }

  lemma InitialSeries(b: nat, w: Weight)
    ensures IsSeriesFrom([Point(FloorBlock(b), 0)], FloorBlock(b), [], w)
    ensures Reached([Point(FloorBlock(b), 0)], [])
  {
  }

  // ----- reading a series as a step function

  /** The value a chart shows at `n`: the last point not after it, zero before the first. */
  function StepAt(acc: seq<Point>, n: nat): nat
  {
    if acc == [] then 0
    else if acc[|acc| - 1].x <= n then acc[|acc| - 1].y
    else StepAt(acc[..|acc| - 1], n)
  }

  lemma {:induction false} StepAtIndex(acc: seq<Point>, n: nat)
    requires forall i, j :: 0 <= i < j < |acc| ==> acc[i].x < acc[j].x
    ensures (StepAt(acc, n) == 0 && forall i :: 0 <= i < |acc| ==> n < acc[i].x)
         || (exists i :: 0 <= i < |acc| && acc[i].x <= n && StepAt(acc, n) == acc[i].y
                         && forall j :: i < j < |acc| ==> n < acc[j].x)
  {
    if acc != [] && acc[|acc| - 1].x > n {
      var rest := acc[..|acc| - 1];
      StepAtIndex(rest, n);
      assert forall i :: 0 <= i < |rest| ==> acc[i] == rest[i];
    }
  }

  lemma {:induction false} SumUpToNothing(blocks: seq<BlockEvent>, x: nat, w: Weight)
    requires forall e :: e in blocks ==> x < e.blockNumber
    ensures SumUpTo(blocks, x, w) == 0
  {
    if blocks != [] {
      assert blocks[|blocks| - 1] in blocks;
      SumUpToNothing(blocks[..|blocks| - 1], x, w);
    }
  }

  /** Read at any block, a series is the weight of all events up to the last multiple of 600. */
  lemma SeriesReadsAsSum(acc: seq<Point>, blocks: seq<BlockEvent>, w: Weight, n: nat)
    requires SortedByBlock(blocks) && IsSeries(acc, blocks, w)
    ensures StepAt(acc, n) == SumUpTo(blocks, FloorBlock(n), w)
  {
    hide StepAt, SumUpTo, CeilBlock, FloorBlock, IsRounded;
    StepAtIndex(acc, n);
    Rounding(n);
    if forall i :: 0 <= i < |acc| ==> n < acc[i].x {
      assert n < acc[0].x;
      Rounding(blocks[0].blockNumber);
      SumUpToNothing(blocks, FloorBlock(n), w);
    } else {
      var i :| 0 <= i < |acc| && acc[i].x <= n && StepAt(acc, n) == acc[i].y && forall j :: i < j < |acc| ==> n < acc[j].x;
      MultipleBelow(acc[i].x, n);
      forall e | e in blocks ensures e.blockNumber <= acc[i].x <==> e.blockNumber <= FloorBlock(n) {
        if e.blockNumber <= FloorBlock(n) {
          MultipleBelow(FloorBlock(n), e.blockNumber);
          Rounding(e.blockNumber);
          var j :| 0 <= j < |acc| && acc[j].x == CeilBlock(e.blockNumber);
          assert j <= i;
        }
      }
      SumUpToSame(blocks, acc[i].x, FloorBlock(n), w);
    }
  }

  lemma {:induction false} SumUpToConcat(a: seq<BlockEvent>, b: seq<BlockEvent>, x: nat, w: Weight)
    ensures SumUpTo(a + b, x, w) == SumUpTo(a, x, w) + SumUpTo(b, x, w)
  {
    if b == [] {
      assert a + b == a;
    } else {
      var n := |b| - 1;
      assert a + b == (a + b[..n]) + [b[n]];
      SumUpToConcat(a, b[..n], x, w);
      SumUpToSnoc(a + b[..n], b[n], x, w);
    }
  }

  /** The order of the events does not matter to a sum. */
  lemma {:induction false} SumUpToPermuted(a: seq<BlockEvent>, b: seq<BlockEvent>, x: nat, w: Weight)
    requires multiset(a) == multiset(b)
    ensures SumUpTo(a, x, w) == SumUpTo(b, x, w)
  {
    if a == [] {
      assert |b| == |multiset(b)|;
    } else {
      var n, e := |a| - 1, a[|a| - 1];
      assert a == a[..n] + [e];
      assert e in multiset(b);
      var i :| 0 <= i < |b| && b[i] == e;
      var b' := b[..i] + b[i + 1..];
      assert b == b[..i] + [e] + b[i + 1..];
      assert multiset(b') == multiset(b) - multiset{e};
      SumUpToPermuted(a[..n], b', x, w);
      SumUpToConcat(b[..i], b[i + 1..], x, w);
      SumUpToConcat(b[..i] + [e], b[i + 1..], x, w);
      SumUpToSnoc(b[..i], e, x, w);
    }
  }

  /**
   Read as step functions, the series of all events is the sum of the lock series and the
   signal series, at every block and for every weight, whatever order ties were sorted in.
   */
  lemma AllEventsSeriesIsSum(all: seq<Point>, allEvents: seq<BlockEvent>, locks: seq<Point>, lockEvents: seq<BlockEvent>,
                             signals: seq<Point>, signalEvents: seq<BlockEvent>, w: Weight, n: nat)
    requires SortedByBlock(allEvents) && IsSeries(all, allEvents, w)
    requires SortedByBlock(lockEvents) && IsSeries(locks, lockEvents, w)
    requires SortedByBlock(signalEvents) && IsSeries(signals, signalEvents, w)
    requires multiset(allEvents) == multiset(lockEvents) + multiset(signalEvents)
    ensures StepAt(all, n) == StepAt(locks, n) + StepAt(signals, n)
  {
    hide IsSeries, SumUpTo, StepAt, SortedByBlock;
    SeriesReadsAsSum(all, allEvents, w, n);
    SeriesReadsAsSum(locks, lockEvents, w, n);
    SeriesReadsAsSum(signals, signalEvents, w, n);
    SumUpToPermuted(allEvents, lockEvents + signalEvents, FloorBlock(n), w);
    SumUpToConcat(lockEvents, signalEvents, FloorBlock(n), w);
  }

  // ----- block numbers to times

  predicate Stamps(e: BlockEvent, x: nat)
  {
    e.blockNumber == x || CeilBlock(e.blockNumber) == x
  }

  /** The time of the last event that is at `x` or is rounded up to it. */
  function LastStamp(events: seq<BlockEvent>, x: nat): Option<nat>
  {
    if events == [] then None
    else if Stamps(events[|events| - 1], x) then Some(events[|events| - 1].time)
    else LastStamp(events[..|events| - 1], x)
  }

  /** The first point has the time of the first event, every other block its last stamp. */
  ghost predicate IsTimeTable(times: map<nat, nat>, events: seq<BlockEvent>)
    requires events != []
  {
    && FloorBlock(events[0].blockNumber) in times
    && times[FloorBlock(events[0].blockNumber)] == events[0].time
    && (forall x: nat :: x != FloorBlock(events[0].blockNumber) ==>
          if x in times then LastStamp(events, x) == Some(times[x]) else LastStamp(events, x) == None)
  }

  method BlocknumToTime(allEvents: seq<BlockEvent>) returns (times: map<nat, nat>)
    requires allEvents != []
    ensures IsTimeTable(times, allEvents)
  {
    times := map[];
    for i := 0 to |allEvents|
      invariant forall x: nat ::
        if x in times then LastStamp(allEvents[..i], x) == Some(times[x]) else LastStamp(allEvents[..i], x) == None
    {
      var event := allEvents[i];
      assert allEvents[..i + 1][..i] == allEvents[..i];
      times := times[event.blockNumber := event.time];
      times := times[CeilBlock(event.blockNumber) := event.time];
    }
    assert allEvents[..|allEvents|] == allEvents;
    times := times[FloorBlock(allEvents[0].blockNumber) := allEvents[0].time];
  }

  lemma {:induction false} LastStampIndex(events: seq<BlockEvent>, x: nat, m: nat)
    requires m < |events| && Stamps(events[m], x)
    requires forall j :: m < j < |events| ==> !Stamps(events[j], x)
    ensures LastStamp(events, x) == Some(events[m].time)
  {
    if m < |events| - 1 {
      LastStampIndex(events[..|events| - 1], x, m);
    }
  }

  /** Block `x` is the first point of the series of all events, or some event is rounded up to it. */
  ghost predicate IsTimed(all: seq<BlockEvent>, x: nat)
  {
    IsRounded(all, x) || (all != [] && x == FloorBlock(all[0].blockNumber))
  }

  lemma {:induction false} LastStampIff(events: seq<BlockEvent>, x: nat)
    requires x % ROUND_TO_BLOCKS == 0
    ensures LastStamp(events, x).Some? <==> IsRounded(events, x)
  {
    hide CeilBlock;
    if events != [] {
      var n := |events| - 1;
      assert events == events[..n] + [events[n]];
      MultipleIsItsCeiling(x);
      LastStampIff(events[..n], x);
    }
  }

  /**
   The times of the points of a series whose events are among those of the time table. A
   later point always has a time, that of the last of all events up to the point. The first
   point, which no event need be rounded to, has a time exactly in the two cases of `IsTimed`.
   */
  lemma TimesOfPoints(acc: seq<Point>, events: seq<BlockEvent>, w: Weight, all: seq<BlockEvent>,
                      times: map<nat, nat>, i: nat)
    requires SortedByBlock(all) && IsSeries(acc, events, w) && i < |acc|
    requires all != [] && IsTimeTable(times, all) && forall e :: e in events ==> e in all
    ensures acc[i].x in times <==> i > 0 || IsTimed(all, FloorBlock(events[0].blockNumber))
    ensures i > 0 ==>
      exists m :: 0 <= m < |all| && times[acc[i].x] == all[m].time && CountedUpTo(all, acc[i].x, m)
  {
    hide SumUpTo, CeilBlock, FloorBlock, LastStamp;
    var x := acc[i].x;
    LastStampIff(all, x);
    if i > 0 {
      assert IsRounded(events, x);
      var e :| e in events && x == CeilBlock(e.blockNumber);
      var k :| 0 <= k < |all| && all[k] == e;
      assert IsRounded(all, x);
      LastStampUpTo(all, x, k);
      assert events[0] in all;
      FloorMonotone(all[0].blockNumber, events[0].blockNumber);
    }
  }

  lemma LastStampUpTo(all: seq<BlockEvent>, x: nat, k: nat)
    requires SortedByBlock(all) && k < |all| && x == CeilBlock(all[k].blockNumber)
    ensures exists m :: 0 <= m < |all| && LastStamp(all, x) == Some(all[m].time) && CountedUpTo(all, x, m)
  {
    hide CeilBlock, FloorBlock, LastStamp;
    Rounding(all[k].blockNumber);
    var m := LastUpTo(all, x, k);
    CeilMonotone(all[k].blockNumber, all[m].blockNumber);
    CeilMonotone(all[m].blockNumber, x);
    MultipleIsItsCeiling(x);
    forall j | m < j < |all| ensures !Stamps(all[j], x) {
      Rounding(all[j].blockNumber);
    }
    LastStampIndex(all, x, m);
  }

  /**
   Every point of the series of all events has a time. At the first point it is the time of
   the first event; at every later point it is the time of the last event counted by that point.
   */
  lemma EveryPointHasATime(acc: seq<Point>, events: seq<BlockEvent>, w: Weight, times: map<nat, nat>, i: nat)
    requires SortedByBlock(events) && IsSeries(acc, events, w) && i < |acc|
    requires IsTimeTable(times, events)
    ensures acc[i].x in times
    ensures i == 0 ==> times[acc[i].x] == events[0].time
    ensures i > 0 ==> exists m :: 0 <= m < |events| && times[acc[i].x] == events[m].time && CountedUpTo(events, acc[i].x, m)
  {
    hide SumUpTo, CeilBlock, FloorBlock, LastStamp;
    TimesOfPoints(acc, events, w, events, times, i);
    assert i > 0 ==> acc[0].x < acc[i].x;
  }

  /** Every point of a series has a time. */
  ghost predicate AllTimed(acc: seq<Point>, times: map<nat, nat>)
  {
    forall i :: 0 <= i < |acc| ==> acc[i].x in times
  }

  lemma AllTimedIff(acc: seq<Point>, events: seq<BlockEvent>, w: Weight, all: seq<BlockEvent>, times: map<nat, nat>)
    requires SortedByBlock(all) && IsSeries(acc, events, w)
    requires all != [] && IsTimeTable(times, all) && forall e :: e in events ==> e in all
    ensures AllTimed(acc, times) <==> IsTimed(all, FloorBlock(events[0].blockNumber))
  {
    hide IsTimed, IsTimeTable, SortedByBlock;
    forall i | 0 <= i < |acc|
      ensures acc[i].x in times <==> i > 0 || IsTimed(all, FloorBlock(events[0].blockNumber))
    {
      TimesOfPoints(acc, events, w, all, times, i);
    }
  }

  /**
   Not all points need have a time: with one signal at block 100 and one lock at block 1300
   the lock series starts at block 1200, and no time is recorded for that block.
   */
  lemma LockSeriesWithoutTime(acc: seq<Point>, w: Weight, times: map<nat, nat>)
    requires var signal, lock := BlockEvent(100, 1, 0), BlockEvent(1300, 2, 5);
      IsSeries(acc, SortByBlock([lock]), w) && IsTimeTable(times, SortByBlock([lock] + [signal]))
    ensures acc[0].x == 1200 && 1200 !in times && !AllTimed(acc, times)
  {
    hide SortByBlock, SumUpTo, LastStamp;
    var signal, lock := BlockEvent(100, 1, 0), BlockEvent(1300, 2, 5);
    SortTwo(lock, signal);
    assert !IsRounded([signal, lock], 1200);
    LastStampIff([signal, lock], 1200);
  }

  lemma SortTwo(a: BlockEvent, b: BlockEvent)
    requires b.blockNumber < a.blockNumber
    ensures SortByBlock([a]) == [a] && SortByBlock([a] + [b]) == [b, a]
  {
    var both := [a] + [b];
    assert both[..1] == [a] && [a][..0] == [];
    assert SortBy([a], BLOCK) == Insert([], a, BLOCK) == [a];
    assert SortBy(both, BLOCK) == Insert([a], b, BLOCK) == Insert([], b, BLOCK) + [a];
  }

  /** The blocks that have a time: those of events, rounded up or not, and the first point. */
  lemma {:induction false} TimedBlocks(times: map<nat, nat>, all: seq<BlockEvent>, x: nat)
    requires all != [] && IsTimeTable(times, all)
    ensures x in times <==> IsTimed(all, x) || exists e :: e in all && e.blockNumber == x
  {
    hide FloorBlock, CeilBlock;
    StampedBlocks(all, x);
  }

  lemma {:induction false} StampedBlocks(events: seq<BlockEvent>, x: nat)
    ensures LastStamp(events, x).Some? <==> IsRounded(events, x) || exists e :: e in events && e.blockNumber == x
  {
    hide CeilBlock;
    if events != [] {
      var n := |events| - 1;
      assert events == events[..n] + [events[n]];
      StampedBlocks(events[..n], x);
    }
  }

  /** The time of an event's block is that of the last event in it, unless the block is the first point. */
  lemma BlockHasItsLastTime(times: map<nat, nat>, all: seq<BlockEvent>, m: nat)
    requires SortedByBlock(all) && all != [] && IsTimeTable(times, all)
    requires m < |all| && (m + 1 < |all| ==> all[m].blockNumber < all[m + 1].blockNumber)
    ensures all[m].blockNumber in times
    ensures all[m].blockNumber != FloorBlock(all[0].blockNumber) ==> times[all[m].blockNumber] == all[m].time
  {
    hide FloorBlock, CeilBlock, LastStamp;
    forall j | m < j < |all| ensures !Stamps(all[j], all[m].blockNumber) {
      RoundingTo600(all[j].blockNumber);
    }
    LastStampIndex(all, all[m].blockNumber, m);
  }

  lemma MultipleIsItsCeiling(m: nat)
    requires m % ROUND_TO_BLOCKS == 0
    ensures CeilBlock(m) == m
  {
  }

  /** `m` is the last of the events up to and including block `x`. */
  ghost predicate CountedUpTo(events: seq<BlockEvent>, x: nat, m: nat)
  {
    forall j :: 0 <= j < |events| ==> (events[j].blockNumber <= x <==> j <= m)
  }

  lemma LastUpTo(events: seq<BlockEvent>, x: nat, k: nat) returns (m: nat)
    requires SortedByBlock(events) && k < |events| && events[k].blockNumber <= x
    ensures k <= m < |events|
    ensures CountedUpTo(events, x, m)
  {
    m := k;
    while m + 1 < |events| && events[m + 1].blockNumber <= x
      invariant k <= m < |events| && events[m].blockNumber <= x
    {
      m := m + 1;
    }
  }

  // ----- the whole report

  const BLOCK: BlockEvent -> int := (e: BlockEvent) => e.blockNumber

  function SortByBlock(events: seq<BlockEvent>): (sorted: seq<BlockEvent>)
    ensures |sorted| == |events|
  {
    SortBy(events, BLOCK)
  }

  lemma SortByBlockSorts(events: seq<BlockEvent>)
    ensures SortedByBlock(SortByBlock(events))
    ensures multiset(SortByBlock(events)) == multiset(events)
  {
    hide SortBy;
    SortBySorts(events, BLOCK);
    assert forall e: BlockEvent :: BLOCK(e) == e.blockNumber;
  }

  // ----- the report in plain numbers

  /** Rounding goes to the multiples of 600 next below and above. */
  lemma RoundingTo600(b: nat)
    ensures FloorBlock(b) % 600 == CeilBlock(b) % 600 == 0
    ensures FloorBlock(b) <= b < FloorBlock(b) + 600
    ensures b <= CeilBlock(b) < b + 600
  {
  }

  function TotalWei(events: seq<BlockEvent>): nat
  {
    if events == [] then 0 else TotalWei(events[..|events| - 1]) + events[|events| - 1].eth
  }

  lemma {:induction false} SumUpToAll(events: seq<BlockEvent>, x: nat)
    requires forall e :: e in events ==> e.blockNumber <= x
    ensures SumUpTo(events, x, COUNT) == |events| && SumUpTo(events, x, WEI) == TotalWei(events)
  {
    if events != [] {
      var n := |events| - 1;
      assert events[n] in events && forall e :: e in events[..n] ==> e in events;
      SumUpToAll(events[..n], x);
    }
  }

  /** At the end of a series stands the weight of all events. */
  lemma SeriesEnds(acc: seq<Point>, blocks: seq<BlockEvent>, w: Weight)
    requires IsSeries(acc, blocks, w)
    ensures forall e :: e in blocks ==> e.blockNumber <= acc[|acc| - 1].x
    ensures acc[|acc| - 1].y == SumUpTo(blocks, acc[|acc| - 1].x, w)
  {
    hide SumUpTo, CeilBlock;
    forall e | e in blocks ensures e.blockNumber <= acc[|acc| - 1].x {
      assert HasPoint(acc, CeilBlock(e.blockNumber));
      RoundingTo600(e.blockNumber);
    }
  }

  /** A series of counts ends with the number of events, one of amounts with all their wei, sorted or not. */
  lemma SeriesEndsWithTotal(acc: seq<Point>, events: seq<BlockEvent>)
    ensures IsSeries(acc, SortByBlock(events), COUNT) ==> Last(acc) == Some(|events|)
    ensures IsSeries(acc, SortByBlock(events), WEI) ==> Last(acc) == Some(TotalWei(events))
  {
    hide SortByBlock, SumUpTo;
    var blocks := SortByBlock(events);
    SortByBlockSorts(events);
    SameMembers(blocks, events);
    if IsSeries(acc, blocks, COUNT) {
      SeriesEnds(acc, blocks, COUNT);
      SumUpToAll(blocks, acc[|acc| - 1].x);
    }
    if IsSeries(acc, blocks, WEI) {
      SeriesEnds(acc, blocks, WEI);
      SumUpToPermuted(blocks, events, acc[|acc| - 1].x, WEI);
      SumUpToAll(events, acc[|acc| - 1].x);
    }
  }

  datatype Counts = Counts(participantsByBlock: seq<Point>, lockEventsByBlock: seq<Point>,
                           signalEventsByBlock: seq<Point>, ethLockedByBlock: seq<Point>,
                           blocknumToTime: map<nat, nat>, lastBlockNum: nat)

  /** The second error is the failed property access on the first event of an empty list. */
  datatype CountsError = NoLockingEvent | NoFirstEvent

  const COUNT: Weight := (e: BlockEvent) => 1
  const WEI: Weight := (e: BlockEvent) => e.eth

  lemma SameMembers(a: seq<BlockEvent>, b: seq<BlockEvent>)
    requires multiset(a) == multiset(b)
    ensures forall e :: e in a <==> e in b
  {
    assert forall e :: e in a <==> e in multiset(a);
    assert forall e :: e in b <==> e in multiset(b);
  }

  lemma FirstIsTimed(all: seq<BlockEvent>)
    requires all != []
    ensures IsTimed(all, FloorBlock(all[0].blockNumber))
  {
  }

  function Last(acc: seq<Point>): Option<nat>
  {
    if acc == [] then None else Some(acc[|acc| - 1].y)
  }

  method GetCountsByBlock(locks: seq<BlockEvent>, signals: seq<BlockEvent>) returns (r: Result<Counts, CountsError>)
    ensures r == Failure(NoLockingEvent) <==> locks == [] && signals == []
    ensures r == Failure(NoFirstEvent) <==> (locks == []) != (signals == [])
    ensures r.Success? ==>
      var all := SortByBlock(locks + signals);
      && |all| > 0 && IsSeries(r.value.participantsByBlock, all, COUNT)
      && IsSeries(r.value.lockEventsByBlock, SortByBlock(locks), COUNT)
      && IsSeries(r.value.signalEventsByBlock, SortByBlock(signals), COUNT)
      && IsSeries(r.value.ethLockedByBlock, SortByBlock(locks), WEI)
      && r.value.lastBlockNum == all[|all| - 1].blockNumber
      && IsTimeTable(r.value.blocknumToTime, all)
      && Last(r.value.participantsByBlock) == Some(|locks| + |signals|)
      && Last(r.value.lockEventsByBlock) == Some(|locks|) && Last(r.value.signalEventsByBlock) == Some(|signals|)
      && Last(r.value.ethLockedByBlock) == Some(TotalWei(locks))
      && AllTimed(r.value.participantsByBlock, r.value.blocknumToTime)
      && (AllTimed(r.value.lockEventsByBlock, r.value.blocknumToTime) <==>
            IsTimed(all, FloorBlock(SortByBlock(locks)[0].blockNumber)))
      && (AllTimed(r.value.ethLockedByBlock, r.value.blocknumToTime) <==>
            IsTimed(all, FloorBlock(SortByBlock(locks)[0].blockNumber)))
      && (AllTimed(r.value.signalEventsByBlock, r.value.blocknumToTime) <==>
            IsTimed(all, FloorBlock(SortByBlock(signals)[0].blockNumber)))
      && (forall n :: StepAt(r.value.participantsByBlock, n) ==
                      StepAt(r.value.lockEventsByBlock, n) + StepAt(r.value.signalEventsByBlock, n))
  {
    hide IsSeries, StepAt, SortedByBlock, SortByBlock, IsTimeTable, IsTimed, AllTimed, FloorBlock;
    SortByBlockSorts(locks + signals);
    SortByBlockSorts(locks);
    SortByBlockSorts(signals);
    var allEvents := SortByBlock(locks + signals);
    if |allEvents| == 0 {
      return Failure(NoLockingEvent);
    }
    var participants := ReduceOverBlocks(allEvents, COUNT);
    var sortedLocks, sortedSignals := SortByBlock(locks), SortByBlock(signals);
    if |sortedLocks| == 0 || |sortedSignals| == 0 {
      return Failure(NoFirstEvent);
    }
    var lockCounts := ReduceOverBlocks(sortedLocks, COUNT);
    var signalCounts := ReduceOverBlocks(sortedSignals, COUNT);
    var ethLocked := ReduceOverBlocks(sortedLocks, WEI);
    var times := BlocknumToTime(allEvents);
    var lastBlockNum := MaxBlock(allEvents);
    SeriesEndsWithTotal(participants, locks + signals);
    SeriesEndsWithTotal(lockCounts, locks);
    SeriesEndsWithTotal(signalCounts, signals);
    SeriesEndsWithTotal(ethLocked, locks);
    SameMembers(allEvents, locks + signals);
    SameMembers(sortedLocks, locks);
    SameMembers(sortedSignals, signals);
    AllTimedIff(participants, allEvents, COUNT, allEvents, times);
    assert IsTimed(allEvents, FloorBlock(allEvents[0].blockNumber)) by { FirstIsTimed(allEvents); }
    AllTimedIff(lockCounts, sortedLocks, COUNT, allEvents, times);
    AllTimedIff(ethLocked, sortedLocks, WEI, allEvents, times);
    AllTimedIff(signalCounts, sortedSignals, COUNT, allEvents, times);
    forall n ensures StepAt(participants, n) == StepAt(lockCounts, n) + StepAt(signalCounts, n) {
      AllEventsSeriesIsSum(participants, allEvents, lockCounts, sortedLocks, signalCounts, sortedSignals, COUNT, n);
    }
    r := Success(Counts(participants, lockCounts, signalCounts, ethLocked, times, lastBlockNum));
  }

  method MaxBlock(events: seq<BlockEvent>) returns (m: nat)
    requires events != [] && SortedByBlock(events)
    ensures m == events[|events| - 1].blockNumber
  {
    m := events[0].blockNumber;
    for i := 1 to |events|
      invariant m == events[i - 1].blockNumber
    {
      if m < events[i].blockNumber {
        m := events[i].blockNumber;
      }
    }
  }
}
