/** The schedule codec: a day is a sequence of 96 mode ids, one per
    quarter hour; on the wire it is a list of {From, To, TempID} blocks.
    Encoding run-length compresses a day (matrixToJSON's inner loop),
    decoding paints the blocks, in order, onto a day of zeros
    (jsonToMatrix). */
module Codec {
  import opened Util
  import opened Clock

  /** One wire block, with its From and To times already split into
      numbers. */
  datatype Block = Block(from: Time, to: Time, tempId: int)

  /** A maximal run of equal mode ids: slots [start, end) all hold mode. */
  datatype Run = Run(start: nat, end: nat, mode: int)

  // ---------------------------------------------------------------------
  // Encoding
  // ---------------------------------------------------------------------

  /** The runs of a day, built slot by slot from the left exactly as the
      encoder's scan builds them: a slot equal to the open run's mode
      extends it, any other slot opens a new run. */
  function Runs(s: seq<int>): seq<Run>
    decreases |s|
  {
    if s == [] then []
    else
      var rs := Runs(s[..|s| - 1]);
      var x := s[|s| - 1];
      if rs != [] && rs[|rs| - 1].mode == x
      then rs[..|rs| - 1] + [rs[|rs| - 1].(end := |s|)]
      else rs + [Run(|s| - 1, |s|, x)]
  }

  /** rs splits [0, n) into consecutive non-empty intervals, in order. */
  ghost predicate Chain(rs: seq<Run>, n: int)
  {
    && (rs == [] <==> n == 0)
    && (rs != [] ==> rs[0].start == 0 && rs[|rs| - 1].end == n)
    && (forall k :: 0 <= k < |rs| ==> rs[k].start < rs[k].end)
    && (forall j, k :: 0 <= j < k < |rs| && k == j + 1 ==> rs[j].end == rs[k].start)
  }

  /** rs is the minimal run-length form of s: a chain over all of s, the
      slots of each run hold its mode, and neighbouring runs differ. */
  ghost predicate IsRunsOf(s: seq<int>, rs: seq<Run>)
  {
    && Chain(rs, |s|)
    && (forall k :: 0 <= k < |rs| ==> rs[k].end <= |s|)
    && (forall k, j :: 0 <= k < |rs| && rs[k].start <= j < rs[k].end ==> j < |s| && s[j] == rs[k].mode)
    && (forall j, k :: 0 <= j < k < |rs| && k == j + 1 ==> rs[j].mode != rs[k].mode)
  }

  /** One more slot either extends the last run or opens a new one. */
  lemma RunsSnoc(s: seq<int>, i: nat)
    requires i < |s|
    ensures var rs := Runs(s[..i]);
      Runs(s[..i + 1]) ==
        if rs != [] && rs[|rs| - 1].mode == s[i]
        then rs[..|rs| - 1] + [rs[|rs| - 1].(end := i + 1)]
        else rs + [Run(i, i + 1, s[i])]
  {
    assert s[..i + 1][..i] == s[..i];
  }

  /** Extending the last interval of a chain by one gives a chain. */
  lemma ChainExtend(rs: seq<Run>, n: int)
    requires Chain(rs, n) && rs != []
    ensures Chain(rs[..|rs| - 1] + [rs[|rs| - 1].(end := n + 1)], n + 1)
  {
    var m := |rs| - 1;
    var rs' := rs[..m] + [rs[m].(end := n + 1)];
    assert forall k :: 0 <= k < m ==> rs'[k] == rs[k];
  }

  /** Appending the interval [n, n + 1) to a chain gives a chain. */
  lemma ChainOpen(rs: seq<Run>, n: int, x: int)
    requires Chain(rs, n) && n >= 0
    ensures Chain(rs + [Run(n, n + 1, x)], n + 1)
  {
    var rs' := rs + [Run(n, n + 1, x)];
    assert forall k :: 0 <= k < |rs| ==> rs'[k] == rs[k];
  }

  /** A slot equal to the last run's mode extends that run. */
  lemma ExtendRun(p: seq<int>, x: int, rs: seq<Run>)
    requires IsRunsOf(p, rs)
    requires rs != [] && rs[|rs| - 1].mode == x
    ensures IsRunsOf(p + [x], rs[..|rs| - 1] + [rs[|rs| - 1].(end := |p| + 1)])
  {
    var s := p + [x];
    var m := |rs| - 1;
    var rs' := rs[..m] + [rs[m].(end := |p| + 1)];
    ChainExtend(rs, |p|);
    assert forall k :: 0 <= k < m ==> rs'[k] == rs[k];
    forall k, j | 0 <= k < |rs'| && rs'[k].start <= j < rs'[k].end
      ensures j < |s| && s[j] == rs'[k].mode
    {
      if j < |p| {
        assert rs[k].start <= j < rs[k].end;
        assert s[j] == p[j];
      }
    }
  }

  /** A slot that differs from the last run's mode opens a new run. */
  lemma OpenRun(p: seq<int>, x: int, rs: seq<Run>)
    requires IsRunsOf(p, rs)
    requires rs == [] || rs[|rs| - 1].mode != x
    ensures IsRunsOf(p + [x], rs + [Run(|p|, |p| + 1, x)])
  {
    var s := p + [x];
    var n := |rs|;
    var rs' := rs + [Run(|p|, |p| + 1, x)];
    ChainOpen(rs, |p|, x);
    forall k | 0 <= k < |rs'|
      ensures rs'[k].end <= |s|
    {
      if k < n {
        assert rs'[k] == rs[k];
      }
    }
    forall k, j | 0 <= k < |rs'| && rs'[k].start <= j < rs'[k].end
      ensures j < |s| && s[j] == rs'[k].mode
    {
      if k < n {
        assert rs'[k] == rs[k];
        assert s[j] == p[j];
      }
    }
    forall k | 0 <= k < |rs'| - 1
      ensures rs'[k].mode != rs'[k + 1].mode
    {
      assert rs'[k] == rs[k];
      if k + 1 < n {
        assert rs'[k + 1] == rs[k + 1];
      }
    }
  }

  lemma {:induction false} RunsCorrect(s: seq<int>)
    ensures IsRunsOf(s, Runs(s))
    decreases |s|
  {
    if s != [] {
      var n := |s| - 1;
      var p := s[..n];
      var x := s[n];
      RunsCorrect(p);
      assert p + [x] == s;
      var rs := Runs(p);
      if rs != [] && rs[|rs| - 1].mode == x {
        ExtendRun(p, x, rs);
        assert Runs(s) == rs[..|rs| - 1] + [rs[|rs| - 1].(end := |p| + 1)];
      } else {
        OpenRun(p, x, rs);
        assert Runs(s) == rs + [Run(|p|, |p| + 1, x)];
      }
    }
  }

  /** The block the encoder pushes when it closes run r. */
  function ClosedBlock(r: Run): Block
  {
    Block(SlotTime(r.start), SlotTime(r.end), r.mode)
  }

  function ClosedBlocks(rs: seq<Run>): (bs: seq<Block>)
    ensures |bs| == |rs|
    ensures forall k :: 0 <= k < |rs| ==> bs[k] == ClosedBlock(rs[k])
  {
    seq(|rs|, k requires 0 <= k < |rs| => ClosedBlock(rs[k]))
  }

  lemma ClosedBlocksSnoc(rs: seq<Run>)
    requires rs != []
    ensures ClosedBlocks(rs) == ClosedBlocks(rs[..|rs| - 1]) + [ClosedBlock(rs[|rs| - 1])]
  {
  }

  /** The block list of a day: one block per run, the final one ending at
      the literal "24:00". */
  function EncodeDay(s: seq<int>): seq<Block>
  {
    var rs := Runs(s);
    if rs == [] then []
    else ClosedBlocks(rs[..|rs| - 1]) + [Block(SlotTime(rs[|rs| - 1].start), EndOfDay, rs[|rs| - 1].mode)]
  }

  /** The scan's step when slot i repeats the open run's mode: the closed
      runs stay, and the open run now ends after slot i. */
  lemma ExtendStep(s: seq<int>, i: nat)
    requires i < |s|
    requires var rs := Runs(s[..i]); rs != [] && rs[|rs| - 1].mode == s[i]
    ensures var rs := Runs(s[..i]); var rs' := Runs(s[..i + 1]);
      && rs' != []
      && rs'[..|rs'| - 1] == rs[..|rs| - 1]
      && rs'[|rs'| - 1] == rs[|rs| - 1].(end := i + 1)
  {
    RunsSnoc(s, i);
    var rs := Runs(s[..i]);
    var rs' := Runs(s[..i + 1]);
    assert rs'[..|rs'| - 1] == rs[..|rs| - 1];
  }

  /** The scan's step when slot i opens a new run: the open run closes,
      ending where slot i starts, and a run of slot i alone is open. */
  lemma OpenStep(s: seq<int>, i: nat)
    requires i < |s|
    requires var rs := Runs(s[..i]); rs == [] || rs[|rs| - 1].mode != s[i]
    ensures var rs := Runs(s[..i]); var rs' := Runs(s[..i + 1]);
      && rs' == rs + [Run(i, i + 1, s[i])]
      && rs'[..|rs'| - 1] == rs
      && (rs != [] ==> ClosedBlocks(rs) == ClosedBlocks(rs[..|rs| - 1]) + [Block(SlotTime(rs[|rs| - 1].start), CloseTime(i), rs[|rs| - 1].mode)])
  {
    RunsSnoc(s, i);
    var rs := Runs(s[..i]);
    var rs' := Runs(s[..i + 1]);
    assert rs'[..|rs'| - 1] == rs;
    if rs != [] {
      RunsCorrect(s[..i]);
      CloseTimeIsSlotTime(i);
      ClosedBlocksSnoc(rs);
    }
  }

  /** The per-day loop of matrixToJSON: scan the slots, keep one open
      block, update its To while the mode repeats, close and push it when the
      mode changes, and close the last one at "24:00". */
  method EncodeDayBlocks(intervals: seq<int>) returns (timeBlocks: seq<Block>)
    ensures timeBlocks == EncodeDay(intervals)
  {
    timeBlocks := [];
    var currentBlock: Option<Block> := None;
    var i := 0;
    while i < |intervals|
      invariant 0 <= i <= |intervals|
      invariant currentBlock.None? <==> i == 0
      invariant i == 0 ==> timeBlocks == []
      invariant i > 0 ==>
        var rs := Runs(intervals[..i]);
        && rs != []
        && timeBlocks == ClosedBlocks(rs[..|rs| - 1])
        && currentBlock == Some(Block(SlotTime(rs[|rs| - 1].start), SlotTime(i - 1), rs[|rs| - 1].mode))
    {
      var tempId := intervals[i];
      var timeStr := SlotTime(i);
      if currentBlock.None? {
        OpenStep(intervals, i);
        currentBlock := Some(Block(timeStr, timeStr, tempId));
      } else if currentBlock.value.tempId == tempId {
        ExtendStep(intervals, i);
        currentBlock := Some(currentBlock.value.(to := timeStr));
      } else {
        OpenStep(intervals, i);
        timeBlocks := timeBlocks + [currentBlock.value.(to := CloseTime(i))];
        currentBlock := Some(Block(timeStr, timeStr, tempId));
      }
      i := i + 1;
    }
    assert intervals[..i] == intervals;
    if currentBlock.Some? {
      timeBlocks := timeBlocks + [currentBlock.value.(to := EndOfDay)];
    }
  }

  /** For a full day, block k runs from the start to the end of run k (the
      end of the last run, slot 96, is exactly "24:00"). */
  lemma EncodeDayIsRuns(s: seq<int>)
    requires |s| == SlotsPerDay
    ensures |EncodeDay(s)| == |Runs(s)|
    ensures forall k :: 0 <= k < |Runs(s)| ==> EncodeDay(s)[k] == ClosedBlock(Runs(s)[k])
  {
    RunsCorrect(s);
    SlotTimeInverse(SlotsPerDay);
  }

  /** Block k of a full day spans exactly the slots of run k. */
  lemma EncodedBlockSpan(s: seq<int>, k: int)
    requires |s| == SlotsPerDay
    requires 0 <= k < |Runs(s)|
    ensures var b := EncodeDay(s)[k]; var r := Runs(s)[k];
      && OnGrid(b.from) && OnGrid(b.to)
      && StartSlot(b.from) == r.start && EndSlot(b.to) == r.end
      && Lo(b) == r.start && Hi(b) == r.end
  {
    RunsCorrect(s);
    EncodeDayIsRuns(s);
    var r := Runs(s)[k];
    SlotTimeOnGrid(r.start);
    SlotTimeOnGrid(r.end);
    SlotTimeInverse(r.start);
    SlotTimeInverse(r.end);
  }

  /** Encode normal form: the blocks of a full day start at "0:00", end at
      "24:00", each To is the next block's From, and neighbouring blocks
      carry different mode ids. */
  lemma EncodeContiguous(s: seq<int>)
    requires |s| == SlotsPerDay
    ensures var bs := EncodeDay(s);
      && |bs| > 0
      && bs[0].from == Time(0, 0)
      && bs[|bs| - 1].to == EndOfDay
      && (forall k :: 0 <= k < |bs| - 1 ==> bs[k].to == bs[k + 1].from)
      && (forall k :: 0 <= k < |bs| - 1 ==> bs[k].tempId != bs[k + 1].tempId)
      && (forall k :: 0 <= k < |bs| ==> StartSlot(bs[k].from) < EndSlot(bs[k].to))
  {
    RunsCorrect(s);
    EncodeDayIsRuns(s);
    SlotTimeInverse(SlotsPerDay);
    var bs := EncodeDay(s);
    forall k | 0 <= k < |bs|
      ensures StartSlot(bs[k].from) < EndSlot(bs[k].to)
    {
      EncodedBlockSpan(s, k);
    }
  }

  /** Encode normal form: every From and To of a full day's blocks lies
      on the quarter-hour grid. */
  lemma EncodeOnGrid(s: seq<int>)
    requires |s| == SlotsPerDay
    ensures var bs := EncodeDay(s);
      forall k :: 0 <= k < |bs| ==> OnGrid(bs[k].from) && OnGrid(bs[k].to)
  {
    EncodeDayIsRuns(s);
    var bs := EncodeDay(s);
    forall k | 0 <= k < |bs|
      ensures OnGrid(bs[k].from) && OnGrid(bs[k].to)
    {
      EncodedBlockSpan(s, k);
    }
  }

  /** Each block of a full day carries the mode of every slot it spans. */
  lemma EncodeSpansAgree(s: seq<int>)
    requires |s| == SlotsPerDay
    ensures var bs := EncodeDay(s);
      && (forall k :: 0 <= k < |bs| ==> 0 <= StartSlot(bs[k].from) && EndSlot(bs[k].to) <= |s|)
      && (forall k, j :: 0 <= k < |bs| && 0 <= j < |s| && StartSlot(bs[k].from) <= j < EndSlot(bs[k].to) ==> s[j] == bs[k].tempId)
  {
    var bs := EncodeDay(s);
    forall k | 0 <= k < |bs|
      ensures 0 <= StartSlot(bs[k].from) && EndSlot(bs[k].to) <= |s|
    {
      EncodeDayIsRuns(s);
      EncodedBlockSpan(s, k);
      RunsCorrect(s);
    }
    forall k, j | 0 <= k < |bs| && 0 <= j < |s| && StartSlot(bs[k].from) <= j < EndSlot(bs[k].to)
      ensures s[j] == bs[k].tempId
    {
      EncodedSlot(s, k, j);
    }
  }

  lemma EncodedSlot(s: seq<int>, k: int, j: int)
    requires |s| == SlotsPerDay
    requires 0 <= k < |EncodeDay(s)|
    requires StartSlot(EncodeDay(s)[k].from) <= j < EndSlot(EncodeDay(s)[k].to)
    ensures 0 <= j < |s| && s[j] == EncodeDay(s)[k].tempId
  {
    EncodeDayIsRuns(s);
    EncodedBlockSpan(s, k);
    RunsCorrect(s);
    var r := Runs(s)[k];
    assert r.start <= j < r.end;
  }

  /** A constant day is a single run. */
  lemma {:induction false} ConstantRuns(s: seq<int>, m: int)
    requires s != []
    requires forall j :: 0 <= j < |s| ==> s[j] == m
    ensures Runs(s) == [Run(0, |s|, m)]
    decreases |s|
  {
    if |s| > 1 {
      ConstantRuns(s[..|s| - 1], m);
    }
  }

  /** A day of one constant mode is a single block "0:00"-"24:00". */
  lemma EncodeConstantDay(s: seq<int>, m: int)
    requires |s| == SlotsPerDay
    requires forall j :: 0 <= j < |s| ==> s[j] == m
    ensures EncodeDay(s) == [Block(Time(0, 0), EndOfDay, m)]
  {
    ConstantRuns(s, m);
  }

  // ---------------------------------------------------------------------
  // Decoding
  // ---------------------------------------------------------------------

  /** First slot a block paints: Math.max(0, startInterval). */
  function Lo(b: Block): int { Max(0, StartSlot(b.from)) }

  /** Slot after the last one a block paints: Math.min(96, endInterval). */
  function Hi(b: Block): int { Min(SlotsPerDay, EndSlot(b.to)) }

  predicate Covers(b: Block, i: int) { Lo(b) <= i < Hi(b) }

  /** One block painted onto a day. */
  function ApplyBlock(row: seq<int>, b: Block): (r: seq<int>)
    ensures |r| == |row|
    ensures forall i :: 0 <= i < |row| ==> r[i] == if Covers(b, i) then b.tempId else row[i]
  {
    seq(|row|, i requires 0 <= i < |row| => if Covers(b, i) then b.tempId else row[i])
  }

  /** The blocks painted onto a day in list order. */
  function Paint(row: seq<int>, bs: seq<Block>): (r: seq<int>)
    ensures |r| == |row|
    decreases |bs|
  {
    if bs == [] then row else ApplyBlock(Paint(row, bs[..|bs| - 1]), bs[|bs| - 1])
  }

  function EmptyDay(): (r: seq<int>)
    ensures |r| == SlotsPerDay && forall i :: 0 <= i < SlotsPerDay ==> r[i] == 0
  {
    seq(SlotsPerDay, _ => 0)
  }

  /** The day a block list decodes to. */
  function Decode(bs: seq<Block>): seq<int>
  {
    Paint(EmptyDay(), bs)
  }

  /** jsonToMatrix: a 96-slot array of zeros, each block written over it in
      turn. */
  method JsonToMatrix(timeBlocks: seq<Block>) returns (intervals: seq<int>)
    ensures intervals == Decode(timeBlocks)
  {
    var a := new int[SlotsPerDay](_ => 0);
    var j := 0;
    while j < |timeBlocks|
      invariant 0 <= j <= |timeBlocks|
      invariant a[..] == Paint(EmptyDay(), timeBlocks[..j])
    {
      var block := timeBlocks[j];
      var startInterval := block.from.hour * 4 + block.from.minute / 15;
      var endInterval := block.to.hour * 4 + CeilQuarter(block.to.minute);
      if block.to.hour == 24 {
        endInterval := SlotsPerDay;
      }
      startInterval := Max(0, startInterval);
      endInterval := Min(SlotsPerDay, endInterval);
      ghost var before := a[..];
      var i := startInterval;
      while i < endInterval
        invariant startInterval <= i <= Max(startInterval, endInterval)
        invariant forall k :: 0 <= k < SlotsPerDay ==> a[k] == if startInterval <= k < i then block.tempId else before[k]
      {
        a[i] := block.tempId;
        i := i + 1;
      }
      assert timeBlocks[..j + 1][..j] == timeBlocks[..j];
      assert a[..] == ApplyBlock(before, block);
      j := j + 1;
    }
    assert timeBlocks[..j] == timeBlocks;
    intervals := a[..];
  }

  /** Decode bounds: a decoded day always has 96 slots. */
  lemma DecodeLength(bs: seq<Block>)
    ensures |Decode(bs)| == SlotsPerDay
  {
  }

  /** A slot that no block covers keeps its value. */
  lemma {:induction false} PaintUncovered(row: seq<int>, bs: seq<Block>, i: int)
    requires 0 <= i < |row|
    requires forall k :: 0 <= k < |bs| ==> !Covers(bs[k], i)
    ensures Paint(row, bs)[i] == row[i]
    decreases |bs|
  {
    if bs != [] {
      var p := bs[..|bs| - 1];
      assert forall k :: 0 <= k < |p| ==> p[k] == bs[k];
      PaintUncovered(row, p, i);
    }
  }

  /** A slot takes the mode id of the last block in the list that covers
      it. */
  lemma {:induction false} PaintLastCover(row: seq<int>, bs: seq<Block>, k: int, i: int)
    requires 0 <= i < |row|
    requires 0 <= k < |bs| && Covers(bs[k], i)
    requires forall l :: k < l < |bs| ==> !Covers(bs[l], i)
    ensures Paint(row, bs)[i] == bs[k].tempId
    decreases |bs|
  {
    var p := bs[..|bs| - 1];
    if k < |bs| - 1 {
      assert p[k] == bs[k];
      assert forall l :: k < l < |p| ==> p[l] == bs[l];
      PaintLastCover(row, p, k, i);
    }
  }

  /** Decode defaults: a slot no block covers decodes to 0. */
  lemma DecodeUncovered(bs: seq<Block>, i: int)
    requires 0 <= i < SlotsPerDay
    requires forall k :: 0 <= k < |bs| ==> !Covers(bs[k], i)
    ensures Decode(bs)[i] == 0
  {
    PaintUncovered(EmptyDay(), bs, i);
  }

  /** Decode order: on overlap the later block's mode id wins. */
  lemma DecodeLastWins(bs: seq<Block>, k: int, i: int)
    requires 0 <= i < SlotsPerDay
    requires 0 <= k < |bs| && Covers(bs[k], i)
    requires forall l :: k < l < |bs| ==> !Covers(bs[l], i)
    ensures Decode(bs)[i] == bs[k].tempId
  {
    PaintLastCover(EmptyDay(), bs, k, i);
  }

  /** A block fills exactly [max(0, start), min(96, end)) and a block whose
      start is not below its end changes nothing. */
  lemma DecodeOneBlock(row: seq<int>, b: Block)
    ensures forall i :: 0 <= i < |row| ==>
      Paint(row, [b])[i] == if Max(0, StartSlot(b.from)) <= i < Min(SlotsPerDay, EndSlot(b.to)) then b.tempId else row[i]
    ensures StartSlot(b.from) >= EndSlot(b.to) ==> Paint(row, [b]) == row
  {
    assert [b][..0] == [];
  }

  // ---------------------------------------------------------------------
  // Round trip
  // ---------------------------------------------------------------------

  /** In a chain, a later interval starts at or after an earlier one ends. */
  lemma {:induction false} ChainOrdered(rs: seq<Run>, n: int, k: int, l: int)
    requires Chain(rs, n)
    requires 0 <= k < l < |rs|
    ensures rs[k].end <= rs[l].start
    decreases l - k
  {
    if l > k + 1 {
      ChainOrdered(rs, n, k, l - 1);
    }
  }

  /** Every position of [0, n) lies in some interval of a chain over it. */
  lemma {:induction false} ChainCovers(rs: seq<Run>, n: int, j: int) returns (k: int)
    requires Chain(rs, n)
    requires 0 <= j < n
    ensures 0 <= k < |rs| && rs[k].start <= j < rs[k].end
    decreases |rs|
  {
    var last := |rs| - 1;
    if rs[last].start <= j {
      k := last;
    } else {
      var p := rs[..last];
      assert last > 0;
      assert Chain(p, rs[last].start);
      k := ChainCovers(p, rs[last].start, j);
    }
  }

  /** Round trip: decoding the blocks of a full day gives the day back. */
  lemma DecodeEncode(s: seq<int>)
    requires |s| == SlotsPerDay
    ensures Decode(EncodeDay(s)) == s
  {
    RunsCorrect(s);
    EncodeDayIsRuns(s);
    var rs := Runs(s);
    var bs := EncodeDay(s);
    forall j | 0 <= j < SlotsPerDay
      ensures Decode(bs)[j] == s[j]
    {
      var k := ChainCovers(rs, |s|, j);
      EncodedBlockSpan(s, k);
      forall l | k < l < |bs|
        ensures !Covers(bs[l], j)
      {
        ChainOrdered(rs, |s|, k, l);
        EncodedBlockSpan(s, l);
      }
      DecodeLastWins(bs, k, j);
    }
  }

  /** Idempotence of the normal form: re-encoding a decoded encoding gives
      the same blocks. */
  lemma EncodeDecodeEncode(s: seq<int>)
    requires |s| == SlotsPerDay
    ensures EncodeDay(Decode(EncodeDay(s))) == EncodeDay(s)
  {
    DecodeEncode(s);
  }

  // ---------------------------------------------------------------------
  // Normal form
  // ---------------------------------------------------------------------

  /** A block list in the encoder's normal form: from "0:00" to "24:00",
      every time on the quarter-hour grid, every block non-empty, each To
      the next block's From, and neighbouring mode ids different. */
  ghost predicate NormalForm(bs: seq<Block>)
  {
    && bs != []
    && bs[0].from == Time(0, 0)
    && bs[|bs| - 1].to == EndOfDay
    && (forall k :: 0 <= k < |bs| ==> OnGrid(bs[k].from) && OnGrid(bs[k].to))
    && (forall k :: 0 <= k < |bs| ==> Before(bs[k].from, bs[k].to))
    && (forall j, k :: 0 <= j < k < |bs| && k == j + 1 ==> bs[j].to == bs[k].from && bs[j].tempId != bs[k].tempId)
  }

  /** The slots the decoder paints for one block, as a run. */
  function PaintedRun(b: Block): (r: Run)
    ensures forall i :: r.start <= i < r.end <==> Covers(b, i)
  {
    Run(Lo(b), Max(Lo(b), Hi(b)), b.tempId)
  }

  /** The painted runs of a block list, block by block. */
  function PaintedRuns(bs: seq<Block>): (rs: seq<Run>)
    ensures |rs| == |bs|
    ensures forall k :: 0 <= k < |bs| ==> rs[k] == PaintedRun(bs[k])
  {
    seq(|bs|, k requires 0 <= k < |bs| => PaintedRun(bs[k]))
  }

  /** Dropping the last slot of a day whose last run is longer than one
      slot shortens that run. */
  lemma TrimLastRun(s: seq<int>, rs: seq<Run>)
    requires IsRunsOf(s, rs) && s != []
    requires rs[|rs| - 1].end - rs[|rs| - 1].start > 1
    ensures IsRunsOf(s[..|s| - 1], rs[..|rs| - 1] + [rs[|rs| - 1].(end := |s| - 1)])
  {
    var p := s[..|s| - 1];
    var m := |rs| - 1;
    var rs' := rs[..m] + [rs[m].(end := |s| - 1)];
    assert forall k :: 0 <= k < m ==> rs'[k] == rs[k];
    forall k | 0 <= k < |rs'|
      ensures rs'[k].end <= |p|
    {
      if k < m {
        ChainOrdered(rs, |s|, k, m);
      }
    }
    forall k, j | 0 <= k < |rs'| && rs'[k].start <= j < rs'[k].end
      ensures j < |p| && p[j] == rs'[k].mode
    {
      if k < m {
        ChainOrdered(rs, |s|, k, m);
      }
      assert rs[k].start <= j < rs[k].end;
    }
  }

  /** Dropping the last slot of a day whose last run is that slot alone
      drops the run. */
  lemma DropLastRun(s: seq<int>, rs: seq<Run>)
    requires IsRunsOf(s, rs) && s != []
    requires rs[|rs| - 1].start == |s| - 1
    ensures IsRunsOf(s[..|s| - 1], rs[..|rs| - 1])
  {
    var p := s[..|s| - 1];
    var m := |rs| - 1;
    var rs' := rs[..m];
    forall k | 0 <= k < |rs'|
      ensures rs'[k].end <= |p|
    {
      ChainOrdered(rs, |s|, k, m);
    }
    forall k, j | 0 <= k < |rs'| && rs'[k].start <= j < rs'[k].end
      ensures j < |p| && p[j] == rs'[k].mode
    {
      ChainOrdered(rs, |s|, k, m);
      assert rs[k].start <= j < rs[k].end;
    }
  }

  /** The scan's step for one more slot, as in Runs: extend the last run
      when it has mode x, otherwise open the run [n - 1, n). */
  function Grow(rs: seq<Run>, x: int, n: nat): seq<Run>
    requires n >= 1
  {
    if rs != [] && rs[|rs| - 1].mode == x
    then rs[..|rs| - 1] + [rs[|rs| - 1].(end := n)]
    else rs + [Run(n - 1, n, x)]
  }

  /** The step back: the last run loses its last slot, and disappears if
      that was its only one. */
  function Shrink(rs: seq<Run>): seq<Run>
    requires rs != []
  {
    var last := rs[|rs| - 1];
    if last.end - last.start > 1
    then rs[..|rs| - 1] + [last.(end := last.end - 1)]
    else rs[..|rs| - 1]
  }

  /** Shrinking a run-length form gives the form of the day without its
      last slot, and growing that again by the last slot restores it. */
  lemma GrowShrink(s: seq<int>, rs: seq<Run>)
    requires IsRunsOf(s, rs) && s != []
    ensures rs != []
    ensures IsRunsOf(s[..|s| - 1], Shrink(rs))
    ensures Grow(Shrink(rs), s[|s| - 1], |s|) == rs
  {
    var n := |s|;
    var m := |rs| - 1;
    LastRunMode(s, rs);
    if rs[m].end - rs[m].start > 1 {
      TrimLastRun(s, rs);
      var rs' := rs[..m] + [rs[m].(end := n - 1)];
      assert rs'[..m] == rs[..m];
      assert rs'[m].(end := n) == rs[m];
    } else {
      DropLastRun(s, rs);
    }
    assert rs[..m] + [rs[m]] == rs;
  }

  /** The minimal run-length form of a day is unique: the scan finds any
      decomposition that satisfies IsRunsOf. */
  lemma {:induction false} RunsUnique(s: seq<int>, rs: seq<Run>)
    requires IsRunsOf(s, rs)
    ensures Runs(s) == rs
    decreases |s|
  {
    if s != [] {
      var p := s[..|s| - 1];
      GrowShrink(s, rs);
      assert Runs(p) == Shrink(rs) by {
        RunsUnique(p, Shrink(rs));
      }
    }
  }

  /** The last run of a day holds its last slot; a run of length one
      there is the last slot alone, and the run before it has another
      mode. */
  lemma LastRunMode(s: seq<int>, rs: seq<Run>)
    requires IsRunsOf(s, rs) && s != []
    ensures var m := |rs| - 1;
      && rs != []
      && rs[m].start <= |s| - 1 < rs[m].end == |s|
      && rs[m].mode == s[|s| - 1]
      && (rs[m].end - rs[m].start <= 1 ==> rs[m] == Run(|s| - 1, |s|, s[|s| - 1]))
      && (m > 0 ==> rs[m - 1].mode != s[|s| - 1])
  {
    var m := |rs| - 1;
    assert rs[m].start <= |s| - 1 < rs[m].end;
  }

  /** A block between two grid times, From before To, paints exactly
      the slots its times name, and those times are its slots' times. */
  lemma BlockSlots(b: Block)
    requires OnGrid(b.from) && OnGrid(b.to) && Before(b.from, b.to)
    ensures 0 <= StartSlot(b.from) < EndSlot(b.to) <= SlotsPerDay
    ensures Lo(b) == StartSlot(b.from) && Hi(b) == EndSlot(b.to)
    ensures SlotTime(StartSlot(b.from)) == b.from && SlotTime(EndSlot(b.to)) == b.to
    ensures PaintedRun(b) == Run(StartSlot(b.from), EndSlot(b.to), b.tempId)
  {
    GridInterval(b.from, b.to);
  }

  /** The intervals of a normal-form list split the day [0, 96). */
  lemma NormalChain(bs: seq<Block>)
    requires NormalForm(bs)
    ensures Chain(PaintedRuns(bs), SlotsPerDay)
    ensures forall k :: 0 <= k < |bs| ==> PaintedRuns(bs)[k].end <= SlotsPerDay
  {
    NormalRunsInDay(bs);
    NormalRunsAdjacent(bs);
    NormalRunsEnds(bs);
  }

  /** The runs of a normal-form list start at slot 0 and end at slot 96. */
  lemma NormalRunsEnds(bs: seq<Block>)
    requires NormalForm(bs)
    ensures var rs := PaintedRuns(bs); rs != [] && rs[0].start == 0 && rs[|rs| - 1].end == SlotsPerDay
  {
    FirstBlockStarts(bs[0]);
    LastBlockEnds(bs[|bs| - 1]);
  }

  /** A grid block from "0:00" paints from slot 0. */
  lemma FirstBlockStarts(b: Block)
    requires b.from == Time(0, 0) && OnGrid(b.to) && Before(b.from, b.to)
    ensures PaintedRun(b).start == 0
  {
    BlockSlots(b);
  }

  /** A grid block to "24:00" paints up to slot 96. */
  lemma LastBlockEnds(b: Block)
    requires OnGrid(b.from) && b.to == EndOfDay && Before(b.from, b.to)
    ensures PaintedRun(b).end == SlotsPerDay
  {
    BlockSlots(b);
  }

  /** Every block of a normal-form list paints a non-empty run inside the
      day. */
  lemma NormalRunsInDay(bs: seq<Block>)
    requires NormalForm(bs)
    ensures forall k :: 0 <= k < |bs| ==> PaintedRuns(bs)[k].start < PaintedRuns(bs)[k].end <= SlotsPerDay
  {
    forall k | 0 <= k < |bs|
      ensures PaintedRun(bs[k]).start < PaintedRun(bs[k]).end <= SlotsPerDay
    {
      BlockSlots(bs[k]);
    }
  }

  /** Neighbouring blocks of a normal-form list paint adjacent runs. */
  lemma NormalRunsAdjacent(bs: seq<Block>)
    requires NormalForm(bs)
    ensures forall j, k :: 0 <= j < k < |bs| && k == j + 1 ==> PaintedRuns(bs)[j].end == PaintedRuns(bs)[k].start
  {
    forall j, k | 0 <= j < k < |bs| && k == j + 1
      ensures PaintedRun(bs[j]).end == PaintedRun(bs[k]).start
    {
      AdjacentBlocks(bs[j], bs[k]);
    }
  }

  /** When one grid block's To is the next one's From, the first's
      painted run ends where the second's starts. */
  lemma AdjacentBlocks(a: Block, b: Block)
    requires OnGrid(a.from) && OnGrid(a.to) && Before(a.from, a.to)
    requires OnGrid(b.from) && OnGrid(b.to) && Before(b.from, b.to)
    requires a.to == b.from
    ensures PaintedRun(a).end == PaintedRun(b).start
  {
    BlockSlots(a);
    BlockSlots(b);
    GridSlot(a.to);
  }

  /** A normal-form list decodes to a day whose minimal run-length form is
      exactly the list's painted runs. */
  lemma NormalRuns(bs: seq<Block>)
    requires NormalForm(bs)
    ensures IsRunsOf(Decode(bs), PaintedRuns(bs))
  {
    NormalChain(bs);
    NormalSlots(bs);
    NormalModes(bs);
  }

  /** Each slot of a painted run of a normal-form list decodes to that
      run's mode id. */
  lemma NormalSlots(bs: seq<Block>)
    requires Chain(PaintedRuns(bs), SlotsPerDay)
    requires forall k :: 0 <= k < |bs| ==> PaintedRuns(bs)[k].end <= SlotsPerDay
    ensures var rs := PaintedRuns(bs); var s := Decode(bs);
      forall k, j :: 0 <= k < |rs| && rs[k].start <= j < rs[k].end ==> j < |s| && s[j] == rs[k].mode
  {
    var rs := PaintedRuns(bs);
    forall k, j | 0 <= k < |rs| && rs[k].start <= j < rs[k].end
      ensures j < |Decode(bs)| && Decode(bs)[j] == rs[k].mode
    {
      PaintedSlot(bs, k, j);
    }
  }

  /** Neighbouring painted runs of a normal-form list have different
      mode ids. */
  lemma NormalModes(bs: seq<Block>)
    requires forall j, k :: 0 <= j < k < |bs| && k == j + 1 ==> bs[j].tempId != bs[k].tempId
    ensures var rs := PaintedRuns(bs);
      forall j, k :: 0 <= j < k < |rs| && k == j + 1 ==> rs[j].mode != rs[k].mode
  {
    var rs := PaintedRuns(bs);
    forall j, k | 0 <= j < k < |rs| && k == j + 1
      ensures rs[j].mode != rs[k].mode
    {
      assert bs[j].tempId != bs[k].tempId;
    }
  }

  /** When the painted runs of a list split the day, each slot of run k
      decodes to block k's mode id: no later block reaches back over it. */
  lemma PaintedSlot(bs: seq<Block>, k: int, j: int)
    requires Chain(PaintedRuns(bs), SlotsPerDay)
    requires 0 <= k < |bs| && PaintedRuns(bs)[k].end <= SlotsPerDay
    requires PaintedRuns(bs)[k].start <= j < PaintedRuns(bs)[k].end
    ensures 0 <= j < SlotsPerDay && Decode(bs)[j] == bs[k].tempId
  {
    var rs := PaintedRuns(bs);
    forall l | k < l < |bs|
      ensures !Covers(bs[l], j)
    {
      ChainOrdered(rs, SlotsPerDay, k, l);
    }
    DecodeLastWins(bs, k, j);
  }

  /** Every normal-form list is the encoding of its own decode. */
  lemma EncodeDecodeNormal(bs: seq<Block>)
    requires NormalForm(bs)
    ensures EncodeDay(Decode(bs)) == bs
  {
    NormalRuns(bs);
    RunsUnique(Decode(bs), PaintedRuns(bs));
    GridBlocksClose(bs);
    EncodeOfRuns(Decode(bs), bs);
  }

  /** Decoding a normal-form list paints each block over exactly the slots
      its From and To name. */
  lemma DecodeNormalSlots(bs: seq<Block>)
    requires NormalForm(bs)
    ensures forall k :: 0 <= k < |bs| ==> 0 <= StartSlot(bs[k].from) < EndSlot(bs[k].to) <= SlotsPerDay
    ensures forall k, j :: 0 <= k < |bs| && StartSlot(bs[k].from) <= j < EndSlot(bs[k].to) ==>
      0 <= j < SlotsPerDay && Decode(bs)[j] == bs[k].tempId
  {
    NormalRuns(bs);
    GridBlocksSlots(bs);
  }

  /** The painted run of each grid block names the block's slots. */
  lemma GridBlocksSlots(bs: seq<Block>)
    requires forall k :: 0 <= k < |bs| ==> OnGrid(bs[k].from) && OnGrid(bs[k].to) && Before(bs[k].from, bs[k].to)
    ensures forall k :: 0 <= k < |bs| ==>
      && 0 <= StartSlot(bs[k].from) < EndSlot(bs[k].to) <= SlotsPerDay
      && PaintedRuns(bs)[k] == Run(StartSlot(bs[k].from), EndSlot(bs[k].to), bs[k].tempId)
  {
    forall k | 0 <= k < |bs|
      ensures 0 <= StartSlot(bs[k].from) < EndSlot(bs[k].to) <= SlotsPerDay
      ensures PaintedRun(bs[k]) == Run(StartSlot(bs[k].from), EndSlot(bs[k].to), bs[k].tempId)
    {
      BlockSlots(bs[k]);
    }
  }

  /** Closing the painted run of a grid block gives the block back. */
  lemma GridBlocksClose(bs: seq<Block>)
    requires forall k :: 0 <= k < |bs| ==> OnGrid(bs[k].from) && OnGrid(bs[k].to) && Before(bs[k].from, bs[k].to)
    ensures forall k :: 0 <= k < |bs| ==> ClosedBlock(PaintedRuns(bs)[k]) == bs[k]
  {
    forall k | 0 <= k < |bs|
      ensures ClosedBlock(PaintedRun(bs[k])) == bs[k]
    {
      BlockSlots(bs[k]);
    }
  }

  /** A day whose runs close to a list ending at "24:00" encodes to that
      list. */
  lemma EncodeOfRuns(s: seq<int>, bs: seq<Block>)
    requires bs != [] && bs[|bs| - 1].to == EndOfDay
    requires Runs(s) == PaintedRuns(bs)
    requires forall k :: 0 <= k < |bs| ==> ClosedBlock(PaintedRuns(bs)[k]) == bs[k]
    ensures EncodeDay(s) == bs
  {
    var rs := Runs(s);
    var m := |bs| - 1;
    var e := EncodeDay(s);
    assert ClosedBlock(rs[m]) == bs[m];
    forall k | 0 <= k < |bs|
      ensures e[k] == bs[k]
    {
      if k < m {
        assert rs[..m][k] == rs[k];
      }
    }
  }

  /** The encoder's output is in normal form: with EncodeDecodeNormal, the
      normal-form lists are exactly the encodings of 96-slot days. */
  lemma EncodeNormalForm(s: seq<int>)
    requires |s| == SlotsPerDay
    ensures NormalForm(EncodeDay(s))
  {
    var bs := EncodeDay(s);
    EncodeContiguous(s);
    EncodeOnGrid(s);
    forall k | 0 <= k < |bs|
      ensures Before(bs[k].from, bs[k].to)
    {
      GridSlot(bs[k].to);
      GridBefore(bs[k].from, bs[k].to);
    }
  }

  /** The decode example: 0:00-6:00 in mode 1, 6:00-22:00 in mode 2 and
      22:00-24:00 in mode 1 give slots 0..23 = 1, 24..87 = 2, 88..95 = 1,
      and encoding that day gives the same three blocks. */
  lemma DecodeExample(bs: seq<Block>)
    requires bs == [Block(Time(0, 0), Time(6, 0), 1), Block(Time(6, 0), Time(22, 0), 2), Block(Time(22, 0), EndOfDay, 1)]
    ensures var s := Decode(bs);
      && (forall i :: 0 <= i < 24 ==> s[i] == 1)
      && (forall i :: 24 <= i < 88 ==> s[i] == 2)
      && (forall i :: 88 <= i < SlotsPerDay ==> s[i] == 1)
      && EncodeDay(s) == bs
  {
    ExampleIsNormal(bs);
    EncodeDecodeNormal(bs);
    NormalBlockFill(bs, 0);
    NormalBlockFill(bs, 1);
    NormalBlockFill(bs, 2);
  }

  /** Block k of a normal-form list decodes to its mode id on each of its
      slots. */
  lemma NormalBlockFill(bs: seq<Block>, k: int)
    requires NormalForm(bs) && 0 <= k < |bs|
    ensures forall i :: StartSlot(bs[k].from) <= i < EndSlot(bs[k].to) ==>
      0 <= i < SlotsPerDay && Decode(bs)[i] == bs[k].tempId
  {
    DecodeNormalSlots(bs);
  }

  /** The example's three blocks are in normal form. */
  lemma ExampleIsNormal(bs: seq<Block>)
    requires bs == [Block(Time(0, 0), Time(6, 0), 1), Block(Time(6, 0), Time(22, 0), 2), Block(Time(22, 0), EndOfDay, 1)]
    ensures NormalForm(bs)
  {
  }
}
