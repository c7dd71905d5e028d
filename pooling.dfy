/**
  Why the blocks PAV builds are the right ones: every suffix of a block's range averages at
  most the block's average (the block is "tight"). The block opened for a violation is tight,
  and each way PAV grows a block keeps it so: absorbing on the left a value above the average,
  absorbing on the right a value below it, and merging with a successor whose average is
  below. Over a chain of tight blocks the materialised output meets the residual conditions
  of isotonic least squares.
*/
module Pooling {
  import opened BlockStore
  import opened BlockList
  import opened Materializer
  import opened Isotonic

  /** The part of the block's range from t on sums to at most the block's average times its length. */
  ghost predicate SuffixWithin(x: seq<real>, b: Block, t: int)
    requires 0 <= t <= b.end + 1 <= |x|
  {
    Sum(x[t..b.end + 1]) <= b.avg * ((b.end + 1 - t) as real)
  }

  /** Every suffix of the block's range averages at most the block's average. */
  ghost predicate Tight(x: seq<real>, b: Block)
  {
    && 0 <= b.start && b.end < |x|
    && forall t :: b.start <= t <= b.end ==> SuffixWithin(x, b, t)
  }

  ghost predicate AllTight(x: seq<real>, blocks: seq<Block>)
  {
    forall k :: 0 <= k < |blocks| ==> Tight(x, blocks[k])
  }

  /*
    Real arithmetic used by the block lemmas.
  */

  lemma PositiveFactor(p: real, q: real)
    requires p * q >= 0.0 && q > 0.0
    ensures p >= 0.0
  {
  }

  /** A bound by a smaller average is a bound by a larger one. */
  lemma ScaleUp(s: real, a: real, a': real, len: real)
    requires s <= a * len && a <= a' && len >= 0.0
    ensures s <= a' * len
  {
    assert (a' - a) * len >= 0.0;
  }

  /** A value above the average raises it. */
  lemma RaisedAverage(a: real, v: real, c: real, m: real)
    requires c > 0.0 && a < v && m * (c + 1.0) == a * c + v
    ensures a < m
  {
    assert (m - a) * (c + 1.0) == v - a;
    PositiveFactor(m - a, c + 1.0);
    assert m != a;
  }

  /** The bound a forward absorption of a value below the average needs. */
  lemma ForwardBound(a: real, v: real, c: real, c1: real, l: real, l1: real, m: real)
    requires 0.0 <= l <= c && c1 == c + 1.0 && l1 == l + 1.0 && v < a && m * c1 == a * c + v
    ensures a * l + v <= m * l1
  {
    calc {
      (m * l1 - a * l - v) * c1;
      m * c1 * l1 - (a * l + v) * c1;
      (a * c + v) * (l + 1.0) - (a * l + v) * (c + 1.0);
      (c - l) * (a - v);
    }
    assert (c - l) * (a - v) >= 0.0;
    PositiveFactor(m * l1 - a * l - v, c1);
  }

  /** The bounds a merge with a successor of lower average needs. */
  lemma MergeBound(a: real, b: real, ca: real, cb: real, cm: real, l: real, lm: real, m: real)
    requires ca > 0.0 && cb > 0.0 && 0.0 <= l <= ca && b < a
    requires cm == ca + cb && lm == l + cb && m * cm == a * ca + b * cb
    ensures a * l + b * cb <= m * lm
    ensures b < m
  {
    calc {
      (m * lm - a * l - b * cb) * cm;
      m * cm * lm - (a * l + b * cb) * cm;
      (a * ca + b * cb) * (l + cb) - (a * l + b * cb) * (ca + cb);
      cb * ((ca - l) * (a - b));
    }
    assert (ca - l) * (a - b) >= 0.0;
    assert cb * ((ca - l) * (a - b)) >= 0.0;
    PositiveFactor(m * lm - a * l - b * cb, cm);
    assert (m - b) * cm == ca * (a - b);
    PositiveFactor(m - b, cm);
    assert m != b;
  }

  /**
    The facts about two adjacent blocks a, b and their union m that the merge bounds rely on:
    the counters add up and each average times its counter is the block's sum.
  */
  ghost predicate MergeCounts(a: Block, b: Block, m: Block)
  {
    && a.counter >= 1 && b.counter >= 1 && m.counter == a.counter + b.counter
    && a.avg * (a.counter as real) == a.sum && b.avg * (b.counter as real) == b.sum
    && m.avg * (m.counter as real) == m.sum && m.sum == a.sum + b.sum
  }

  /** The bound on a merged suffix that covers the last l indices of a and all of b. */
  lemma LeftMergeBound(a: Block, b: Block, m: Block, l: int, len: int, sa: real)
    requires MergeCounts(a, b, m) && b.avg < a.avg && 0 <= l <= a.counter && len == l + b.counter
    requires sa <= a.avg * (l as real)
    ensures sa + b.sum <= m.avg * (len as real)
  {
    var ca, cb, cm := a.counter as real, b.counter as real, m.counter as real;
    MergeBound(a.avg, b.avg, ca, cb, cm, l as real, len as real, m.avg);
  }

  /** The bound on a merged suffix of length len inside b. */
  lemma RightMergeBound(a: Block, b: Block, m: Block, len: int, s: real)
    requires MergeCounts(a, b, m) && b.avg < a.avg && len >= 0
    requires s <= b.avg * (len as real)
    ensures s <= m.avg * (len as real)
  {
    var ca, cb, cm := a.counter as real, b.counter as real, m.counter as real;
    MergeBound(a.avg, b.avg, ca, cb, cm, 0.0, cb, m.avg);
    ScaleUp(s, b.avg, m.avg, len as real);
  }

  /*
    Each block update keeps the block tight.
  */

  /** The block opened at index pools x[index] alone, and is tight. */
  lemma OpenedTight(x: seq<real>, index: int)
    requires 0 <= index < |x|
    ensures Tight(x, EmptyBlock(index).Backward(x[index], index))
  {
    var b := EmptyBlock(index).Backward(x[index], index);
    OpenedBlockPooled(x, index);
    assert x[index..b.end + 1] == [x[index]];
    SumSingleton(x[index]);
    assert SuffixWithin(x, b, index);
    forall t | b.start <= t <= b.end
      ensures SuffixWithin(x, b, t)
    {
      assert t == index;
    }
  }

  /**
    The facts about a block b and the block b' it becomes by absorbing one value v that the
    bounds below rely on: one more counted value, v added to the sum, and each average times
    its counter giving the sum.
  */
  ghost predicate Absorbed(b: Block, v: real, b': Block)
  {
    && b.counter >= 1 && b'.counter == b.counter + 1
    && b.avg * (b.counter as real) == b.sum && b'.avg * (b'.counter as real) == b'.sum
    && b'.sum == b.sum + v
  }

  /** Absorbing a value above the average raises it. */
  lemma AbsorbAbove(b: Block, v: real, b': Block)
    requires Absorbed(b, v, b') && b.avg < v
    ensures b.avg < b'.avg
  {
    RaisedAverage(b.avg, v, b.counter as real, b'.avg);
  }

  /** A suffix of l values summing to at most l times the average, extended by one value below it. */
  lemma AbsorbBelow(b: Block, v: real, b': Block, l: int, len: int, s: real)
    requires Absorbed(b, v, b') && v < b.avg && 0 <= l <= b.counter && len == l + 1
    requires s <= b.avg * (l as real)
    ensures s + v <= b'.avg * (len as real)
  {
    ForwardBound(b.avg, v, b.counter as real, b'.counter as real, l as real, len as real, b'.avg);
  }

  lemma SumOne(x: seq<real>, e: int)
    requires 0 <= e < |x|
    ensures Sum(x[e..e + 1]) == x[e]
  {
    assert x[e..e + 1] == [x[e]];
    SumSingleton(x[e]);
  }

  /** Absorbing on the left a value above the average keeps the block tight. */
  lemma BackwardTight(x: seq<real>, b: Block, j: int)
    requires Pooled(x, b) && Tight(x, b) && 0 <= j == b.start - 1 && b.avg < x[j]
    ensures Tight(x, b.Backward(x[j], j))
  {
    var b' := b.Backward(x[j], j);
    BackwardKeepsPooled(x, b, j);
    assert Absorbed(b, x[j], b');
    AbsorbAbove(b, x[j], b');
    forall t | b'.start <= t <= b'.end
      ensures SuffixWithin(x, b', t)
    {
      if t > j {
        assert SuffixWithin(x, b, t);
        BackwardSuffix(x, b, b', t);
      } else {
        WholeSuffix(x, b');
      }
    }
  }

  /** A suffix inside the old range is bounded by the raised average. */
  lemma BackwardSuffix(x: seq<real>, b: Block, b': Block, t: int)
    requires b.avg <= b'.avg && b'.end == b.end && 0 <= t <= b.end < |x|
    requires SuffixWithin(x, b, t)
    ensures SuffixWithin(x, b', t)
  {
    ScaleUp(Sum(x[t..b.end + 1]), b.avg, b'.avg, (b.end + 1 - t) as real);
  }

  /** Absorbing on the right a value below the average keeps the block tight. */
  lemma ForwardTight(x: seq<real>, b: Block, e: int)
    requires Pooled(x, b) && Tight(x, b) && e == b.end + 1 < |x| && x[e] < b.avg
    ensures Tight(x, b.Forward(x[e], e))
  {
    var b' := b.Forward(x[e], e);
    ForwardKeepsPooled(x, b, e);
    assert Absorbed(b, x[e], b');
    forall t | b'.start <= t <= b'.end
      ensures SuffixWithin(x, b', t)
    {
      if t < e {
        assert SuffixWithin(x, b, t);
      }
      ForwardSuffix(x, b, b', e, t);
    }
  }

  /** A suffix of the widened range is a suffix of the old one followed by the absorbed value. */
  lemma ForwardSuffix(x: seq<real>, b: Block, b': Block, e: int, t: int)
    requires 0 <= b.start <= t <= e == b.end + 1 == b'.end < |x| && b.counter == b.end - b.start + 1
    requires Absorbed(b, x[e], b') && x[e] < b.avg
    requires t < e ==> SuffixWithin(x, b, t)
    ensures SuffixWithin(x, b', t)
  {
    SumSplit(x, t, e, e + 1);
    SumOne(x, e);
    if t == e {
      assert x[t..e] == [];
    }
    AbsorbBelow(b, x[e], b', e - t, e + 1 - t, Sum(x[t..e]));
  }

  /** Merging with the successor that starts right after, when its average is lower, keeps tightness. */
  lemma MergeTight(x: seq<real>, a: Block, b: Block)
    requires Pooled(x, a) && Pooled(x, b) && Tight(x, a) && Tight(x, b)
    requires b.start == a.end + 1 && b.avg < a.avg
    ensures Tight(x, a.Merged(b))
  {
    var m := a.Merged(b);
    MergeKeepsPooled(x, a, b);
    assert MergeCounts(a, b, m);
    forall t | m.start <= t <= m.end
      ensures SuffixWithin(x, m, t)
    {
      if t <= a.end {
        assert SuffixWithin(x, a, t);
        MergeSuffixLeft(x, a, b, m, t);
      } else {
        assert SuffixWithin(x, b, t);
        MergeSuffixRight(x, a, b, m, t);
      }
    }
  }

  /** A suffix of the merged range that starts inside a covers the rest of a and all of b. */
  lemma MergeSuffixLeft(x: seq<real>, a: Block, b: Block, m: Block, t: int)
    requires MergeCounts(a, b, m) && b.avg < a.avg
    requires 0 <= a.start <= t <= a.end && b.start == a.end + 1 && m.end == b.end < |x|
    requires a.counter == a.end - a.start + 1 && b.counter == b.end - b.start + 1
    requires b.sum == Sum(x[b.start..b.end + 1]) && SuffixWithin(x, a, t)
    ensures SuffixWithin(x, m, t)
  {
    SumSplit(x, t, b.start, b.end + 1);
    LeftMergeBound(a, b, m, a.end + 1 - t, m.end + 1 - t, Sum(x[t..a.end + 1]));
  }

  /** A suffix of the merged range that starts inside b lies inside b. */
  lemma MergeSuffixRight(x: seq<real>, a: Block, b: Block, m: Block, t: int)
    requires MergeCounts(a, b, m) && b.avg < a.avg
    requires 0 <= b.start <= t <= b.end && m.end == b.end < |x|
    requires SuffixWithin(x, b, t)
    ensures SuffixWithin(x, m, t)
  {
    RightMergeBound(a, b, m, m.end + 1 - t, Sum(x[t..m.end + 1]));
  }

  lemma SumSplit(x: seq<real>, t: int, u: int, v: int)
    requires 0 <= t <= u <= v <= |x|
    ensures Sum(x[t..v]) == Sum(x[t..u]) + Sum(x[u..v])
  {
    assert x[t..v] == x[t..u] + x[u..v];
    SumConcat(x[t..u], x[u..v]);
  }

  /*
    The updates PAV makes at the head of the chain keep every block tight.
  */

  lemma OpenKeepsTight(x: seq<real>, blocks: seq<Block>, index: int)
    requires AllTight(x, blocks) && 0 <= index < |x|
    ensures AllTight(x, [EmptyBlock(index).Backward(x[index], index)] + blocks)
  {
    OpenedTight(x, index);
    var blocks' := [EmptyBlock(index).Backward(x[index], index)] + blocks;
    forall k | 0 <= k < |blocks'|
      ensures Tight(x, blocks'[k])
    {
      if k > 0 { assert blocks'[k] == blocks[k - 1]; }
    }
  }

  lemma BackwardKeepsTight(x: seq<real>, blocks: seq<Block>, j: int)
    requires WellFormed(x, blocks) && AllTight(x, blocks) && blocks != []
    requires 0 <= j == blocks[0].start - 1 && blocks[0].avg < x[j]
    ensures AllTight(x, blocks[0 := blocks[0].Backward(x[j], j)])
  {
    BackwardTight(x, blocks[0], j);
  }

  /**
    addForwardValue at the index after the head keeps every block tight when the fitted value
    there is below the head's average, which is when PAV calls it.
  */
  lemma ForwardKeepsTight(x: seq<real>, blocks: seq<Block>, e: int)
    requires WellFormed(x, blocks) && AllTight(x, blocks) && blocks != []
    requires e == blocks[0].end + 1 < |x| && Fitted(x, blocks, e) < blocks[0].avg
    ensures AllTight(x, ForwardChain(blocks, 0, x[e], e))
  {
    var blocks' := ForwardChain(blocks, 0, x[e], e);
    WellFormedInBounds(x, blocks);
    if |blocks| > 2 { assert blocks[0].end < blocks[1].start <= blocks[1].end < blocks[2].start; }
    RecentValueIsFitted(x, blocks, 1, e);
    if SuccessorHolds(blocks, 0, e) {
      assert blocks[0].end < blocks[1].start;
      MergeTight(x, blocks[0], blocks[1]);
      assert blocks' == [blocks[0].Merged(blocks[1])] + blocks[2..];
      forall k | 0 <= k < |blocks'|
        ensures Tight(x, blocks'[k])
      {
        if k > 0 { assert blocks'[k] == blocks[k + 1]; }
      }
    } else {
      ForwardTight(x, blocks[0], e);
    }
  }

  /*
    From tight blocks to the residual conditions of the materialised output.
  */

  /** The position of the first block that holds t, or -1 when none does. */
  function Owner(blocks: seq<Block>, t: int): (k: int)
    ensures -1 <= k < |blocks|
    ensures k >= 0 ==> blocks[k].Contains(t)
    ensures k < 0 ==> forall l :: 0 <= l < |blocks| ==> !blocks[l].Contains(t)
  {
    if blocks == [] then -1
    else if blocks[0].Contains(t) then 0
    else
      var k := Owner(blocks[1..], t);
      assert forall l :: 1 <= l < |blocks| ==> blocks[l] == blocks[1..][l - 1];
      if k < 0 then -1 else k + 1
  }

  /** An index that no block holds except as its first index: a place where the fit may step. */
  ghost predicate Boundary(blocks: seq<Block>, t: int)
  {
    var k := Owner(blocks, t);
    k < 0 || blocks[k].start == t
  }

  lemma {:induction false} SumConstant(s: seq<real>, a: real)
    requires forall i :: 0 <= i < |s| ==> s[i] == a
    ensures Sum(s) == a * (|s| as real)
  {
    if s != [] {
      SumConstant(s[1..], a);
    }
  }

  /** Over a block's range the materialised output is the block's average. */
  lemma MaterializedBlock(x: seq<real>, blocks: seq<Block>, k: int, t: int)
    requires Ordered(blocks) && 0 <= k < |blocks| && 0 <= blocks[k].start <= t <= blocks[k].end < |x|
    ensures var y := Materialize(x, blocks);
            |y| == |x| && Sum(y[t..blocks[k].end + 1]) == blocks[k].avg * ((blocks[k].end + 1 - t) as real)
  {
    var y := Materialize(x, blocks);
    var b := blocks[k];
    var run := y[t..b.end + 1];
    forall i | 0 <= i < |run|
      ensures run[i] == b.avg
    {
      FittedInBlock(x, blocks, k, t + i);
    }
    assert |run| == b.end + 1 - t;
    SumConstant(run, b.avg);
    assert Sum(run) == b.avg * ((b.end + 1 - t) as real);
  }

  /** Right after an index that no block holds, the fit may step. */
  lemma BoundaryAfterOutside(blocks: seq<Block>, t: int)
    requires Owner(blocks, t) < 0
    ensures Boundary(blocks, t + 1)
  {
    var k := Owner(blocks, t + 1);
    if k >= 0 {
      assert !blocks[k].Contains(t);
    }
  }

  /** Right after a block's range, the fit may step: a block holding that index starts there. */
  lemma BoundaryAfterBlock(x: seq<real>, blocks: seq<Block>, k: int)
    requires WellFormed(x, blocks) && 0 <= k < |blocks|
    ensures Boundary(blocks, blocks[k].end + 1)
  {
    var e := blocks[k].end;
    var k' := Owner(blocks, e + 1);
    if k' >= 0 {
      assert Pooled(x, blocks[k]) && Pooled(x, blocks[k']);
      if k' > k {
        assert e < blocks[k'].start;
      }
    }
  }

  /**
    Inside a tight block of the chain, the input sums to at most what the materialised output
    sums to from t to the block's end, and to exactly as much from the block's first index.
  */
  lemma BlockSums(x: seq<real>, blocks: seq<Block>, k: int, t: int)
    requires WellFormed(x, blocks) && 0 <= k < |blocks| && Tight(x, blocks[k])
    requires blocks[k].start <= t <= blocks[k].end
    ensures var y, b := Materialize(x, blocks), blocks[k];
            && |y| == |x| && 0 <= t <= b.end < |x|
            && Sum(x[t..b.end + 1]) <= Sum(y[t..b.end + 1])
            && (t == b.start ==> Sum(x[t..b.end + 1]) == Sum(y[t..b.end + 1]))
  {
    var b := blocks[k];
    assert Pooled(x, b);
    MaterializedBlock(x, blocks, k, t);
    assert SuffixWithin(x, b, t);
    if t == b.start {
      WholeSuffix(x, b);
    }
  }

  /**
    From an index inside a block over which the input sums as BlockSums says, the residual is at
    most the residual after the block, and equal to it from the block's first index.
  */
  lemma ResidualOverBlock(x: seq<real>, y: seq<real>, b: Block, t: int)
    requires |y| == |x| && 0 <= b.start <= t <= b.end < |x|
    requires Sum(x[t..b.end + 1]) <= Sum(y[t..b.end + 1])
    requires t == b.start ==> Sum(x[t..b.end + 1]) == Sum(y[t..b.end + 1])
    ensures Residual(x, y, t) <= Residual(x, y, b.end + 1)
    ensures t == b.start ==> Residual(x, y, t) == Residual(x, y, b.end + 1)
  {
    ResidualSplit(x, y, t, b.end + 1);
  }

  /**
    From an index inside a tight block of the chain, the residual of the materialised output is
    at most the residual after the block, and equal to it from the block's first index.
  */
  lemma ResidualAcrossBlock(x: seq<real>, blocks: seq<Block>, k: int, t: int)
    requires WellFormed(x, blocks) && 0 <= k < |blocks| && Tight(x, blocks[k])
    requires blocks[k].start <= t <= blocks[k].end
    ensures var y := Materialize(x, blocks);
            && |y| == |x| && blocks[k].end < |x|
            && Residual(x, y, t) <= Residual(x, y, blocks[k].end + 1)
            && (t == blocks[k].start ==> Residual(x, y, t) == Residual(x, y, blocks[k].end + 1))
  {
    BlockSums(x, blocks, k, t);
    ResidualOverBlock(x, Materialize(x, blocks), blocks[k], t);
  }

  /** The whole range of a pooled block sums to its average times its length. */
  lemma WholeSuffix(x: seq<real>, b: Block)
    requires Pooled(x, b)
    ensures Sum(x[b.start..b.end + 1]) == b.avg * ((b.end + 1 - b.start) as real)
  {
  }

  /**
    The residual of the materialised output from t on is never positive, and it is zero at
    every boundary: past the last block, outside every block, and at a block's first index.
  */
  lemma {:induction false} ResidualOfChain(x: seq<real>, blocks: seq<Block>, t: int)
    requires WellFormed(x, blocks) && AllTight(x, blocks) && 0 <= t <= |x|
    ensures var y := Materialize(x, blocks);
            && |y| == |x|
            && Residual(x, y, t) <= 0.0
            && (t == |x| || Boundary(blocks, t) ==> Residual(x, y, t) == 0.0)
    decreases |x| - t
  {
    var y := Materialize(x, blocks);
    if t == |x| {
      assert x[t..] == [] && y[t..] == [];
    } else {
      var k := Owner(blocks, t);
      if k < 0 {
        FittedOutside(x, blocks, t);
        assert y[t] == x[t];
        ResidualStep(x, y, t);
        BoundaryAfterOutside(blocks, t);
        ResidualOfChain(x, blocks, t + 1);
        assert Residual(x, y, t) == Residual(x, y, t + 1) == 0.0;
      } else {
        var u := blocks[k].end + 1;
        ResidualAcrossBlock(x, blocks, k, t);
        BoundaryAfterBlock(x, blocks, k);
        ResidualOfChain(x, blocks, u);
        assert Residual(x, y, u) == 0.0;
        assert Boundary(blocks, t) ==> t == blocks[k].start;
      }
    }
  }

  /** Over a chain of tight blocks, the materialised output meets the residual conditions. */
  lemma ChainBalanced(x: seq<real>, blocks: seq<Block>)
    requires WellFormed(x, blocks) && AllTight(x, blocks)
    ensures Balanced(x, Materialize(x, blocks))
  {
    var y := Materialize(x, blocks);
    ResidualOfChain(x, blocks, 0);
    forall t | 0 <= t <= |x|
      ensures Residual(x, y, t) <= 0.0
    {
      ResidualOfChain(x, blocks, t);
    }
    forall t | 1 <= t < |x| && y[t - 1] != y[t]
      ensures Residual(x, y, t) == 0.0
    {
      ResidualOfChain(x, blocks, t);
      var k := Owner(blocks, t);
      if k >= 0 && blocks[k].start < t {
        FittedInBlock(x, blocks, k, t - 1);
        FittedInBlock(x, blocks, k, t);
      }
    }
  }
}
