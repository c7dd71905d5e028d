/**
  PAV: the bidirectional Pool-Adjacent-Violators driver.

  It scans the input from right to left. Where the fitted value at i does not exceed the one
  at i - 1 it opens a block at i and pools leftward while the block's average is below the
  next raw value. When pooling raises the average above the value right after the block, it
  goes back to that index and absorbs it forward (merging with the next block when that index
  already belongs to one), then pools leftward again.
*/
module Driver {
  import opened BlockStore
  import opened BlockList
  import opened Materializer
  import opened Isotonic
  import opened Pooling

  /** The fitted values at and after index `from` are non-decreasing. */
  ghost predicate SettledFrom(x: seq<real>, blocks: seq<Block>, from: int)
  {
    forall a, b :: 0 <= a <= b < |x| && from <= a ==> Fitted(x, blocks, a) <= Fitted(x, blocks, b)
  }

  /** Two chains that give the same fitted values from `from` on are settled there alike. */
  lemma SettledTransfer(x: seq<real>, blocks: seq<Block>, blocks': seq<Block>, from0: int, from: int)
    requires SettledFrom(x, blocks, from0) && from0 <= from
    requires forall t :: 0 <= t < |x| && from <= t ==> Fitted(x, blocks, t) == Fitted(x, blocks', t)
    ensures SettledFrom(x, blocks', from)
  {
  }

  /**
    Past the range of the head, the fitted values depend only on the rest of the chain, so
    replacing the head by one with the same end keeps what was settled past it.
  */
  lemma SettledPastHead(x: seq<real>, blocks: seq<Block>, blocks': seq<Block>)
    requires blocks != [] && blocks' != []
    requires blocks[1..] == blocks'[1..] && blocks[0].end == blocks'[0].end
    requires SettledFrom(x, blocks, blocks[0].end + 1)
    ensures SettledFrom(x, blocks', blocks'[0].end + 1)
  {
    forall t | 0 <= t < |x| && blocks[0].end + 1 <= t
      ensures Fitted(x, blocks, t) == Fitted(x, blocks', t)
    {
      calc {
        Fitted(x, blocks, t);
        Fitted(x, blocks[1..], t);
        Fitted(x, blocks'[1..], t);
        Fitted(x, blocks', t);
      }
    }
    SettledTransfer(x, blocks, blocks', blocks[0].end + 1, blocks[0].end + 1);
  }

  /** A head block not above the fitted value right after it joins the settled part after it. */
  lemma HeadSettled(x: seq<real>, blocks: seq<Block>)
    requires WellFormed(x, blocks) && blocks != []
    requires SettledFrom(x, blocks, blocks[0].end + 1)
    requires blocks[0].end + 1 < |x| ==> blocks[0].avg <= Fitted(x, blocks, blocks[0].end + 1)
    ensures SettledFrom(x, blocks, blocks[0].start)
  {
    var h := blocks[0];
    forall a, b | 0 <= a <= b < |x| && h.start <= a
      ensures Fitted(x, blocks, a) <= Fitted(x, blocks, b)
    {
      if a <= h.end && h.end < b {
        assert Fitted(x, blocks, h.end + 1) <= Fitted(x, blocks, b);
      }
    }
  }

  /** Left of the head no block applies, so the fitted value there is the raw input. */
  lemma LeftOfHead(x: seq<real>, blocks: seq<Block>, i: int)
    requires Ordered(blocks) && blocks != [] && blocks[0].start <= blocks[0].end
    requires 0 <= i < blocks[0].start && i < |x|
    ensures Fitted(x, blocks, i) == x[i]
  {
    forall l | 0 <= l < |blocks|
      ensures !blocks[l].Contains(i)
    {
      if l > 0 { assert blocks[0].end < blocks[l].start; }
    }
    FittedOutside(x, blocks, i);
  }

  /**
    A head block whose left neighbour is not above its average and whose right neighbour is
    not below it joins the settled part: everything from just left of it on is non-decreasing.
  */
  lemma Settle(x: seq<real>, blocks: seq<Block>)
    requires WellFormed(x, blocks) && blocks != []
    requires SettledFrom(x, blocks, blocks[0].end + 1)
    requires blocks[0].start > 0 ==> x[blocks[0].start - 1] <= blocks[0].avg
    requires blocks[0].end + 1 < |x| ==> blocks[0].avg <= Fitted(x, blocks, blocks[0].end + 1)
    ensures SettledFrom(x, blocks, blocks[0].start - 1)
  {
    var h := blocks[0];
    assert Pooled(x, h);
    HeadSettled(x, blocks);
    if h.start > 0 {
      LeftOfHead(x, blocks, h.start - 1);
      ExtendSettled(x, blocks, h.start);
    }
  }

  /** One more index to the left joins the settled part when its fitted value is not above the next. */
  lemma ExtendSettled(x: seq<real>, blocks: seq<Block>, i: int)
    requires 1 <= i < |x| && SettledFrom(x, blocks, i)
    requires Fitted(x, blocks, i - 1) <= Fitted(x, blocks, i)
    ensures SettledFrom(x, blocks, i - 1)
  {
    forall a, b | 0 <= a <= b < |x| && i - 1 <= a
      ensures Fitted(x, blocks, a) <= Fitted(x, blocks, b)
    {
      if a == i - 1 && b > a {
        assert Fitted(x, blocks, i) <= Fitted(x, blocks, b);
      }
    }
  }

  /**
    The state at the head of PAV's main loop. `bsi` (blockStartIndex) is the head's end, or
    the index after it while a forward repair is pending; a forward repair is pending exactly
    when the value right after the head is below the head's average; `doAvg` without
    `forward` only survives once the scan has reached index 0.
  */
  ghost predicate ScanState(x: seq<real>, blocks: seq<Block>, i: int, k: int, bsi: int, doAvg: bool, forward: bool)
  {
    && -1 <= i < |x|
    && WellFormed(x, blocks)
    && (blocks != [] ==> bsi == blocks[0].end + (if forward then 1 else 0))
    && (forward ==>
          && doAvg && blocks != [] && i == blocks[0].end + 1 < |x| && k == blocks[0].start - 1
          && Fitted(x, blocks, i) < blocks[0].avg)
    && (doAvg && !forward ==> i == 0)
    && (!forward && blocks != [] ==> i < blocks[0].start || i == 0)
    && SettledFrom(x, blocks, i)
    && (StrictlyIncreasing(x) ==> blocks == [] && !doAvg)
    && (NonDecreasing(x) ==> !forward && AllSingletons(blocks))
  }

  /**
    The state of the backward update loop: the head starts right after j while it is still
    pooling, and once it stops the value left of it is not above its average.
  */
  ghost predicate SweepState(x: seq<real>, blocks: seq<Block>, j: int, doAvg: bool)
  {
    && -1 <= j
    && blocks != []
    && WellFormed(x, blocks)
    && SettledFrom(x, blocks, blocks[0].end + 1)
    && (doAvg ==> blocks[0].start == j + 1)
    && (!doAvg ==> blocks[0].start == j + 2 && x[j + 1] <= blocks[0].avg)
    && !StrictlyIncreasing(x)
    && (NonDecreasing(x) ==> AllSingletons(blocks))
  }

  /** The scan moves one index left past a strict increase of the fitted values. */
  lemma ScanStep(x: seq<real>, blocks: seq<Block>, i: int, k: int, bsi: int)
    requires ScanState(x, blocks, i, k, bsi, false, false) && i >= 1
    requires GetRecentValue(x, NodeAt(blocks, 0), i) > GetRecentValue(x, NodeAt(blocks, 0), i - 1)
    ensures ScanState(x, blocks, i - 1, k, bsi, false, false)
  {
    WellFormedInBounds(x, blocks);
    if |blocks| > 1 { assert blocks[0].end < blocks[1].start; }
    RecentValueIsFitted(x, blocks, 0, i);
    RecentValueIsFitted(x, blocks, 0, i - 1);
    ExtendSettled(x, blocks, i);
  }

  /** A violation found by the scan opens a block at i that pools x[i] and starts pooling leftward. */
  lemma OpenStep(x: seq<real>, blocks: seq<Block>, i: int, k: int, bsi: int)
    requires ScanState(x, blocks, i, k, bsi, false, false) && i >= 1
    requires !(GetRecentValue(x, NodeAt(blocks, 0), i) > GetRecentValue(x, NodeAt(blocks, 0), i - 1))
    requires AllTight(x, blocks)
    ensures var blocks' := ([EmptyBlock(i)] + blocks)[0 := EmptyBlock(i).Backward(x[i], i)];
            && SweepState(x, blocks', i - 1, true) && AllTight(x, blocks') && blocks'[0].end == i
            && HeadStart(blocks', |x|) < HeadStart(blocks, |x|)
  {
    var blocks' := ([EmptyBlock(i)] + blocks)[0 := EmptyBlock(i).Backward(x[i], i)];
    assert blocks' == [EmptyBlock(i).Backward(x[i], i)] + blocks;
    OpenKeepsWellFormed(x, blocks, i);
    OpenedBlockPooled(x, i);
    assert blocks'[1..] == blocks;
    SettledTransfer(x, blocks, blocks', i, i + 1);
    OpenKeepsTight(x, blocks, i);
  }

  /**
    The forward repair absorbs the index right after the head (or merges with the block that
    holds it); the head keeps its start, its end moves right, and pooling leftward resumes.
  */
  lemma ForwardStep(x: seq<real>, blocks: seq<Block>, i: int, k: int, bsi: int)
    requires ScanState(x, blocks, i, k, bsi, true, true) && AllTight(x, blocks)
    ensures var blocks' := ForwardChain(blocks, 0, x[i], i);
            && SweepState(x, blocks', k, true) && AllTight(x, blocks')
            && HeadStart(blocks', |x|) == HeadStart(blocks, |x|)
            && HeadRoom(blocks', |x|) < HeadRoom(blocks, |x|)
  {
    ForwardKeepsWellFormed(x, blocks, i);
    var blocks' := ForwardChain(blocks, 0, x[i], i);
    forall t | 0 <= t < |x| && blocks'[0].end + 1 <= t
      ensures Fitted(x, blocks, t) == Fitted(x, blocks', t)
    {
      if SuccessorHolds(blocks, 0, i) {
        assert blocks'[1..] == blocks[2..] == blocks[1..][1..];
      } else {
        assert blocks'[1..] == blocks[1..];
      }
    }
    SettledTransfer(x, blocks, blocks', i, blocks'[0].end + 1);
    ForwardKeepsTight(x, blocks, i);
  }

  /**
    When the head reached down to t + 1 and ended at `end`, its average was below x[t]: the
    condition under which the backward update absorbs x[t] (stated multiplied out by the
    head's counter, end - t).
  */
  ghost predicate AbsorbedAbove(x: seq<real>, end: int, t: int)
    requires 0 <= t <= end < |x|
  {
    Sum(x[t + 1..end + 1]) < x[t] * ((end - t) as real)
  }

  /** A pooled head whose average is below the value just left of it meets AbsorbedAbove there. */
  lemma HeadBelowValue(x: seq<real>, b: Block, j: int)
    requires Pooled(x, b) && 0 <= j == b.start - 1 && b.avg < x[j]
    ensures AbsorbedAbove(x, b.end, j)
  {
    var c := (b.end - j) as real;
    assert c == b.counter as real && c > 0.0;
    assert (x[j] - b.avg) * c > 0.0;
  }

  /** The head absorbs x[j] when its average is below it. */
  lemma SweepStep(x: seq<real>, blocks: seq<Block>, j: int)
    requires SweepState(x, blocks, j, true) && j >= 0 && blocks[0].avg < x[j]
    ensures SweepState(x, blocks[0 := blocks[0].Backward(x[j], j)], j - 1, true)
  {
    BackwardKeepsWellFormed(x, blocks, j);
    SettledPastHead(x, blocks, blocks[0 := blocks[0].Backward(x[j], j)]);
    SingletonAvg(x, blocks[0]);
  }

  /** The head stops pooling at the first x[j] not above its average. */
  lemma SweepStop(x: seq<real>, blocks: seq<Block>, j: int)
    requires SweepState(x, blocks, j, true) && j >= 0 && !(blocks[0].avg < x[j])
    ensures SweepState(x, blocks, j - 1, false)
  {
  }

  /**
    A head that is not above the fitted value after it (or that reaches the right end of the
    input) settles once it has stopped pooling leftward, and the scan resumes left of it.
  */
  lemma SettleHead(x: seq<real>, blocks: seq<Block>, j: int, doAvg: bool, d: bool, k: int)
    requires SweepState(x, blocks, j, doAvg) && !(j >= 0 && doAvg) && (d ==> doAvg)
    requires blocks[0].end + 1 < |x| ==> blocks[0].avg <= Fitted(x, blocks, blocks[0].end + 1)
    ensures ScanState(x, blocks, j + 1, k, blocks[0].end, d, false)
  {
    Settle(x, blocks);
  }

  /**
    getRecentValue on the successor of the head gives the fitted value right after the head,
    which is the comparison PAV makes once the head has stopped pooling leftward.
  */
  lemma ValueAfterHead(x: seq<real>, blocks: seq<Block>)
    requires WellFormed(x, blocks) && blocks != [] && blocks[0].end + 1 < |x|
    ensures GetRecentValue(x, NodeAt(blocks, 1), blocks[0].end + 1) == Fitted(x, blocks, blocks[0].end + 1)
  {
    WellFormedInBounds(x, blocks);
    if |blocks| > 2 { assert blocks[0].end < blocks[1].start <= blocks[1].end < blocks[2].start; }
    RecentValueIsFitted(x, blocks, 1, blocks[0].end + 1);
  }

  /**
    A head whose average is above the fitted value right after it calls for the forward repair
    at that index; this cannot happen on a non-decreasing input.
  */
  lemma ForwardDue(x: seq<real>, blocks: seq<Block>, j: int, doAvg: bool)
    requires SweepState(x, blocks, j, doAvg)
    requires blocks[0].end + 1 < |x| && Fitted(x, blocks, blocks[0].end + 1) < blocks[0].avg
    ensures ScanState(x, blocks, blocks[0].end + 1, blocks[0].start - 1, blocks[0].end + 1, true, true)
  {
    SingletonAvg(x, blocks[0]);
    SingletonsFitRaw(x, blocks, blocks[0].end + 1);
  }

  /** When the scan is over, the chain stands for a non-decreasing fit. */
  lemma Finished(x: seq<real>, blocks: seq<Block>, i: int, k: int, bsi: int, doAvg: bool, forward: bool)
    requires ScanState(x, blocks, i, k, bsi, doAvg, forward) && i < 1
    ensures NonDecreasing(Materialize(x, blocks))
    ensures NonDecreasing(x) ==> Materialize(x, blocks) == x
  {
    var y := Materialize(x, blocks);
    forall a, b | 0 <= a <= b < |y|
      ensures y[a] <= y[b]
    {
      assert SettledFrom(x, blocks, 0);
    }
    forall t | 0 <= t < |x|
      ensures NonDecreasing(x) ==> y[t] == x[t]
    {
      SingletonsFitRaw(x, blocks, t);
    }
  }

  /** The head's start, or n for an empty chain: the first component of PAV's termination measure. */
  function HeadStart(blocks: seq<Block>, n: int): int
  {
    if blocks == [] then n else blocks[0].start
  }

  /** How far the head's end is from the right end of the input (0 for an empty chain). */
  function HeadRoom(blocks: seq<Block>, n: int): int
  {
    if blocks == [] then 0 else n - blocks[0].end
  }

  /**
    The backward update of PAV's loop body: starting at j, the head absorbs x[j], x[j - 1], ...
    for as long as its average is below the next value. On exit either the input is exhausted
    (j is -1 with `doAvg` still set) or the head stopped at a value not above its average.
  */
  method UpdateBackward(x: seq<real>, chain: Chain, j: int, doAvg: bool) returns (j': int, doAvg': bool)
    requires SweepState(x, chain.blocks, j, doAvg) && AllTight(x, chain.blocks)
    modifies chain
    ensures SweepState(x, chain.blocks, j', doAvg') && !(j' >= 0 && doAvg')
    ensures AllTight(x, chain.blocks)
    ensures chain.blocks[0].end == old(chain.blocks[0].end)
    ensures chain.blocks[0].start <= old(chain.blocks[0].start)
    ensures |chain.blocks| == |old(chain.blocks)| && chain.blocks[1..] == old(chain.blocks[1..])
    ensures forall t :: chain.blocks[0].start <= t < old(chain.blocks[0].start) ==>
              AbsorbedAbove(x, chain.blocks[0].end, t)
  {
    j', doAvg' := j, doAvg;
    while j' >= 0 && doAvg'
      invariant SweepState(x, chain.blocks, j', doAvg') && AllTight(x, chain.blocks)
      invariant chain.blocks[0].end == old(chain.blocks[0].end)
      invariant chain.blocks[0].start <= old(chain.blocks[0].start)
      invariant |chain.blocks| == |old(chain.blocks)| && chain.blocks[1..] == old(chain.blocks[1..])
      invariant forall t :: chain.blocks[0].start <= t < old(chain.blocks[0].start) ==>
                  AbsorbedAbove(x, chain.blocks[0].end, t)
      decreases j'
    {
      if chain.blocks[0].avg < x[j'] {
        assert Pooled(x, chain.blocks[0]);
        HeadBelowValue(x, chain.blocks[0], j');
        SweepStep(x, chain.blocks, j');
        BackwardKeepsTight(x, chain.blocks, j');
        chain.AddBackwardValue(0, x[j'], j');
      } else {
        SweepStop(x, chain.blocks, j');
        doAvg' := false;
      }
      j' := j' - 1;
    }
  }

  /**
    The start of PAV's repair of a violation at i: open a block at i that pools x[i] (when no
    repair is under way), or, when a forward repair is pending, absorb x[i] into the head (merging
    with the successor when that already holds i). The head then either starts further left or
    reaches further right than before.
  */
  method AbsorbViolation(x: seq<real>, chain: Chain, i: int, k: int, bsi: int, doAvg: bool, forward: bool)
    returns (k': int, bsi': int)
    requires ScanState(x, chain.blocks, i, k, bsi, doAvg, forward) && i >= 1
    requires !(GetRecentValue(x, chain.Node(0), i) > GetRecentValue(x, chain.Node(0), i - 1) && !doAvg)
    requires AllTight(x, chain.blocks)
    modifies chain
    ensures SweepState(x, chain.blocks, k', true) && bsi' == chain.blocks[0].end
    ensures AllTight(x, chain.blocks)
    ensures var n := |x|;
            || HeadStart(chain.blocks, n) < HeadStart(old(chain.blocks), n)
            || (HeadStart(chain.blocks, n) == HeadStart(old(chain.blocks), n)
               && HeadRoom(chain.blocks, n) < HeadRoom(old(chain.blocks), n))
    ensures !doAvg ==> chain.blocks == [EmptyBlock(i).Backward(x[i], i)] + old(chain.blocks) && k' == i - 1
    ensures forward ==> chain.blocks == ForwardChain(old(chain.blocks), 0, x[i], i) && k' == k
  {
    ghost var before := chain.blocks;
    k', bsi' := k, bsi;
    if !doAvg {
      chain.InsertFirst(i);
      bsi' := i;
      k' := i - 1;
    }
    if forward {
      ForwardStep(x, before, i, k, bsi);
      chain.AddForwardValue(0, x[i], i);
      bsi' := chain.blocks[0].end;
    } else {
      OpenStep(x, before, i, k, bsi);
      chain.AddBackwardValue(0, x[i], i);
    }
  }

  /**
    The end of PAV's repair, once the head has stopped pooling leftward at j: the scan resumes
    at j + 1, unless the value right after the head is now below the head's average, in which
    case the next step is the forward repair at that index.
  */
  method CheckBlockEnd(x: seq<real>, chain: Chain, j: int, k: int, bsi: int, doAvg: bool)
    returns (i': int, k': int, bsi': int, doAvg': bool, forward': bool)
    requires SweepState(x, chain.blocks, j, doAvg) && !(j >= 0 && doAvg)
    requires bsi == chain.blocks[0].end
    ensures ScanState(x, chain.blocks, i', k', bsi', doAvg', forward')
    ensures i' == j + 1 || (forward' && i' == chain.blocks[0].end + 1)
  {
    var n := |x|;
    // The scan resumes at j + 1: the value just left of the head, or index 0 when the head reaches it.
    i', k', bsi', doAvg', forward' := j + 1, k, bsi, doAvg, false;
    if bsi + 1 >= n {
      SettleHead(x, chain.blocks, j, doAvg, doAvg, k);
      return;
    }
    ValueAfterHead(x, chain.blocks);
    doAvg' := GetRecentValue(x, chain.Node(1), bsi + 1) < chain.blocks[0].avg;
    if !doAvg' {
      SettleHead(x, chain.blocks, j, doAvg, false, k);
      return;
    }
    // The value after the head is below its average: the next step repairs forward at end + 1.
    ForwardDue(x, chain.blocks, j, doAvg);
    k' := chain.blocks[0].start - 1;
    bsi' := bsi + 1;
    i' := bsi';
    forward' := true;
  }

  /**
    PAV: fill `y` with the isotonic (non-decreasing) fit of `x`. The returned ghost chain is the
    block list the scan leaves behind, which getNewValues materialises into `y`.
  */
  method PAV(x: seq<real>, y: array<real>) returns (ghost blocks: seq<Block>)
    requires y.Length == |x|
    modifies y
    ensures WellFormed(x, blocks)
    ensures y[..] == Materialize(x, blocks)
    ensures NonDecreasing(y[..])
    ensures Balanced(x, y[..])
    ensures forall z :: |z| == |x| && NonDecreasing(z) ==> SqDist(x, y[..]) <= SqDist(x, z)
    ensures NonDecreasing(x) ==> y[..] == x
    ensures StrictlyIncreasing(x) ==> blocks == []
    ensures |x| <= 1 ==> blocks == [] && y[..] == x
  {
    var n := |x|;
    var chain := new Chain();
    var i, k, blockStartIndex := n - 1, 0, 0;
    var doAvg, forward := false, false;
    while i >= 1
      invariant fresh(chain)
      invariant ScanState(x, chain.blocks, i, k, blockStartIndex, doAvg, forward)
      invariant AllTight(x, chain.blocks)
      decreases HeadStart(chain.blocks, n), HeadRoom(chain.blocks, n), i
    {
      if GetRecentValue(x, chain.Node(0), i) > GetRecentValue(x, chain.Node(0), i - 1) && !doAvg {
        ScanStep(x, chain.blocks, i, k, blockStartIndex);
        i := i - 1;
        continue;
      }

      // The head-only comparison found no strict increase at i: open a block or repair forward.
      k, blockStartIndex := AbsorbViolation(x, chain, i, k, blockStartIndex, doAvg, forward);
      // Pool leftward from k.
      var j;
      j, doAvg := UpdateBackward(x, chain, k, true);
      i, k, blockStartIndex, doAvg, forward := CheckBlockEnd(x, chain, j, k, blockStartIndex, doAvg);
    }

    Finished(x, chain.blocks, i, k, blockStartIndex, doAvg, forward);
    WellFormedInBounds(x, chain.blocks);
    ChainBalanced(x, chain.blocks);
    ghost var writes: seq<nat>;
    writes := GetNewValues(x, chain, y);
    blocks := chain.blocks;
    forall z | |z| == |x| && NonDecreasing(z)
      ensures SqDist(x, y[..]) <= SqDist(x, z)
    {
      LeastSquares(x, y[..], z);
    }
  }
}
