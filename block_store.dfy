/**
  The block list of the bidirectional Pool-Adjacent-Violators algorithm.

  A block pools the inclusive index range [start, end] of the input: it keeps the running
  sum of the pooled values, how many were pooled (`counter`) and their average. The blocks
  live in a singly linked chain whose head is the block most recently opened, i.e. the
  leftmost one, since the driver scans the input from right to left.
*/
module BlockStore {

  datatype Option<T> = None | Some(value: T)

  /** One node of the chain (the `list` struct without its `next` link). */
  datatype Block = Block(sum: real, counter: nat, avg: real, start: int, end: int)
  {
    /** checkBoundires: is `index` inside this block's range? */
    predicate Contains(index: int)
    {
      start <= index <= end
    }

    /** The node as addBackwardValue leaves it: `value` absorbed, range opened down to `startIndex`. */
    function Backward(value: real, startIndex: int): Block
    {
      Block(sum + value, counter + 1, (sum + value) / ((counter + 1) as real), startIndex, end)
    }

    /** The node as addForwardValue leaves it when it absorbs `value` and widens up to `endIndex`. */
    function Forward(value: real, endIndex: int): Block
    {
      Block(sum + value, counter + 1, (sum + value) / ((counter + 1) as real), start, endIndex)
    }

    /** The node as merge leaves it after swallowing its successor `succ`. */
    function Merged(succ: Block): Block
      requires counter + succ.counter > 0
    {
      Block(sum + succ.sum, counter + succ.counter,
            (sum + succ.sum) / ((counter + succ.counter) as real), start, succ.end)
    }
  }

  /** The node insertFirst allocates for `index`: empty, with the one-index range [index, index]. */
  function EmptyBlock(index: int): Block
  {
    Block(0.0, 0, 0.0, index, index)
  }

  function Sum(s: seq<real>): real
  {
    if s == [] then 0.0 else s[0] + Sum(s[1..])
  }

  /**
    `b` pools x[b.start..b.end]: its sum, counter and average agree with the input. The average
    is stated multiplied out (the counter is at least 1), which is the same as sum / counter.
  */
  ghost predicate Pooled(x: seq<real>, b: Block)
  {
    && 0 <= b.start <= b.end < |x|
    && b.counter == b.end - b.start + 1
    && b.sum == Sum(x[b.start..b.end + 1])
    && b.avg * (b.counter as real) == b.sum
  }

  /** Every range lies inside [0, n) and is not empty. */
  ghost predicate InBounds(blocks: seq<Block>, n: int)
  {
    forall k :: 0 <= k < |blocks| ==> 0 <= blocks[k].start <= blocks[k].end < n
  }

  /** In link order the ranges are pairwise disjoint and ascending. */
  ghost predicate Ordered(blocks: seq<Block>)
  {
    forall k, l :: 0 <= k < l < |blocks| ==> blocks[k].end < blocks[l].start
  }

  /** The invariant the driver keeps for the whole chain. */
  ghost predicate WellFormed(x: seq<real>, blocks: seq<Block>)
  {
    Ordered(blocks) && forall k :: 0 <= k < |blocks| ==> Pooled(x, blocks[k])
  }

  /**
    The value index i stands for once the chain is taken into account: the average of the
    first block that contains i, or x[i] when no block does.
  */
  function Fitted(x: seq<real>, blocks: seq<Block>, i: int): real
    requires 0 <= i < |x|
  {
    if blocks == [] then x[i]
    else if blocks[0].Contains(i) then blocks[0].avg
    else Fitted(x, blocks[1..], i)
  }

  /** getRecentValue: the average of `block` when it is a node whose range holds i, else x[i]. */
  function GetRecentValue(x: seq<real>, block: Option<Block>, i: int): real
    requires 0 <= i < |x|
  {
    if block.Some? && block.value.Contains(i) then block.value.avg else x[i]
  }

  /** Node k of a chain, or NULL past its end. */
  function NodeAt(blocks: seq<Block>, k: nat): Option<Block>
  {
    if k < |blocks| then Some(blocks[k]) else None
  }

  /*
    Lemmas about the whole-chain view.
  */

  /** Inside the range of node k, the fitted value is that node's average. */
  lemma {:induction false} FittedInBlock(x: seq<real>, blocks: seq<Block>, k: int, i: int)
    requires Ordered(blocks)
    requires 0 <= k < |blocks| && 0 <= i < |x| && blocks[k].Contains(i)
    ensures Fitted(x, blocks, i) == blocks[k].avg
  {
    if k > 0 {
      assert blocks[0].end < blocks[k].start;
      FittedInBlock(x, blocks[1..], k - 1, i);
    }
  }

  /** Outside every range, the fitted value is the raw input. */
  lemma {:induction false} FittedOutside(x: seq<real>, blocks: seq<Block>, i: int)
    requires 0 <= i < |x|
    requires forall k :: 0 <= k < |blocks| ==> !blocks[k].Contains(i)
    ensures Fitted(x, blocks, i) == x[i]
  {
    if blocks != [] {
      assert !blocks[0].Contains(i);
      FittedOutside(x, blocks[1..], i);
    }
  }

  /**
    getRecentValue consults one node only, yet in an ordered chain it gives the fitted value
    for every index that lies after node k - 1 and before node k + 1 (a NULL node when k is
    the length of the chain).
  */
  lemma RecentValueIsFitted(x: seq<real>, blocks: seq<Block>, k: nat, i: int)
    requires Ordered(blocks) && InBounds(blocks, |x|)
    requires k <= |blocks| && 0 <= i < |x|
    requires k > 0 ==> blocks[k - 1].end < i
    requires k + 1 < |blocks| ==> i < blocks[k + 1].start
    ensures GetRecentValue(x, NodeAt(blocks, k), i) == Fitted(x, blocks, i)
  {
    if k < |blocks| && blocks[k].Contains(i) {
      FittedInBlock(x, blocks, k, i);
    } else {
      forall l | 0 <= l < |blocks|
        ensures !blocks[l].Contains(i)
      {
        if l < k {
          assert l == k - 1 || blocks[l].end < blocks[k - 1].start;
        } else if l > k + 1 {
          assert blocks[k + 1].end < blocks[l].start;
        }
      }
      FittedOutside(x, blocks, i);
    }
  }

  /*
    Lemmas about the running sums.
  */

  lemma {:induction false} SumConcat(s: seq<real>, t: seq<real>)
    ensures Sum(s + t) == Sum(s) + Sum(t)
  {
    if s == [] {
      assert s + t == t;
    } else {
      assert (s + t)[1..] == s[1..] + t;
      SumConcat(s[1..], t);
    }
  }

  lemma SumSingleton(v: real)
    ensures Sum([v]) == v
  {
    assert [v][1..] == [];
  }

  /*
    Each node update keeps a block's sum, counter, average and range in agreement with the input,
    provided the absorbed index is the one just outside the range on that side.
  */

  /** An average computed as sum / counter gives the sum back when multiplied by the counter. */
  lemma AverageTimesCounter(sum: real, counter: nat)
    requires counter > 0
    ensures (sum / (counter as real)) * (counter as real) == sum
  {
  }

  /** insertFirst followed by addBackwardValue at the same index pools exactly x[index]. */
  lemma OpenedBlockPooled(x: seq<real>, index: int)
    requires 0 <= index < |x|
    ensures Pooled(x, EmptyBlock(index).Backward(x[index], index))
    ensures EmptyBlock(index).Backward(x[index], index).avg == x[index]
  {
    assert x[index..index + 1] == [x[index]];
    SumSingleton(x[index]);
    AverageTimesCounter(0.0 + x[index], 1);
  }

  /** Absorbing x[b.start - 1] backward keeps the block pooled. */
  lemma BackwardKeepsPooled(x: seq<real>, b: Block, j: int)
    requires Pooled(x, b) && 0 <= j == b.start - 1
    ensures Pooled(x, b.Backward(x[j], j))
  {
    assert x[j..b.end + 1] == [x[j]] + x[b.start..b.end + 1];
    SumConcat([x[j]], x[b.start..b.end + 1]);
    SumSingleton(x[j]);
    AverageTimesCounter(b.sum + x[j], b.counter + 1);
  }

  /** Absorbing x[b.end + 1] forward keeps the block pooled. */
  lemma ForwardKeepsPooled(x: seq<real>, b: Block, e: int)
    requires Pooled(x, b) && e == b.end + 1 < |x|
    ensures Pooled(x, b.Forward(x[e], e))
  {
    assert x[b.start..e + 1] == x[b.start..e] + [x[e]];
    SumConcat(x[b.start..e], [x[e]]);
    SumSingleton(x[e]);
    AverageTimesCounter(b.sum + x[e], b.counter + 1);
  }

  /** Merging a block with the pooled block that starts right after it pools the union. */
  lemma MergeKeepsPooled(x: seq<real>, b: Block, c: Block)
    requires Pooled(x, b) && Pooled(x, c) && c.start == b.end + 1
    ensures Pooled(x, b.Merged(c))
  {
    var m := b.Merged(c);
    assert m.counter == m.end - m.start + 1;
    assert m.sum == Sum(x[m.start..m.end + 1]) by {
      assert x[b.start..c.end + 1] == x[b.start..b.end + 1] + x[c.start..c.end + 1];
      SumConcat(x[b.start..b.end + 1], x[c.start..c.end + 1]);
    }
    AverageTimesCounter(m.sum, m.counter);
  }

  /** A pooled block over a single index averages to that index's input value. */
  lemma SingletonAvg(x: seq<real>, b: Block)
    requires Pooled(x, b)
    ensures b.start == b.end ==> b.avg == x[b.start]
  {
    if b.start == b.end {
      assert x[b.start..b.end + 1] == [x[b.start]];
      SumSingleton(x[b.start]);
    }
  }

  /** A well-formed chain satisfies the preconditions of the lookup lemmas. */
  lemma WellFormedInBounds(x: seq<real>, blocks: seq<Block>)
    requires WellFormed(x, blocks)
    ensures Ordered(blocks) && InBounds(blocks, |x|)
  {
    forall k | 0 <= k < |blocks|
      ensures 0 <= blocks[k].start <= blocks[k].end < |x|
    {
      assert Pooled(x, blocks[k]);
    }
  }

  /** Every block of the chain covers a single index. */
  ghost predicate AllSingletons(blocks: seq<Block>)
  {
    forall k :: 0 <= k < |blocks| ==> blocks[k].start == blocks[k].end
  }

  /** In a chain whose blocks are all singletons, every fitted value is the raw input. */
  lemma {:induction false} SingletonsFitRaw(x: seq<real>, blocks: seq<Block>, i: int)
    requires WellFormed(x, blocks) && 0 <= i < |x|
    ensures AllSingletons(blocks) ==> Fitted(x, blocks, i) == x[i]
  {
    if blocks != [] && AllSingletons(blocks) {
      if blocks[0].Contains(i) {
        SingletonAvg(x, blocks[0]);
      } else {
        assert WellFormed(x, blocks[1..]) by {
          forall k | 0 <= k < |blocks[1..]| ensures Pooled(x, blocks[1..][k]) {
            assert blocks[1..][k] == blocks[k + 1];
          }
        }
        SingletonsFitRaw(x, blocks[1..], i);
      }
    }
  }
}
