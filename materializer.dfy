/**
  getNewValues: replay the final chain against the input to fill the output buffer. Every index
  inside a block gets that block's average; every other index keeps its input value.
*/
module Materializer {
  import opened BlockStore
  import opened BlockList

  /** The output the chain stands for, index by index. */
  function Materialize(x: seq<real>, blocks: seq<Block>): (y: seq<real>)
  {
    seq(|x|, i requires 0 <= i < |x| => Fitted(x, blocks, i))
  }

  /**
    getNewValues: walk the chain and the indices together, writing a whole block range at once
    when the current node starts at the current index and one raw value otherwise. `writes`
    counts the stores made to each index of `y`.
  */
  method GetNewValues(x: seq<real>, chain: Chain, y: array<real>) returns (ghost writes: seq<nat>)
    requires y.Length == |x|
    requires Ordered(chain.blocks) && InBounds(chain.blocks, |x|)
    modifies y
    ensures y[..] == Materialize(x, chain.blocks)
    ensures |writes| == |x| && forall j :: 0 <= j < |x| ==> writes[j] == 1
  {
    var n := |x|;
    var blocks := chain.blocks;
    writes := seq(n, _ => 0);
    var i := 0;
    var node := 0;  // the current node; |blocks| is NULL
    while i < n
      invariant 0 <= i <= n && 0 <= node <= |blocks|
      invariant forall l :: 0 <= l < node ==> blocks[l].end < i
      invariant forall l :: node <= l < |blocks| ==> i <= blocks[l].start
      invariant forall t :: 0 <= t < i ==> y[t] == Fitted(x, blocks, t)
      invariant |writes| == n && forall t :: 0 <= t < n ==> writes[t] == if t < i then 1 else 0
    {
      if node < |blocks| && blocks[node].Contains(i) {
        var b := blocks[node];
        for j := i to b.end + 1
          invariant forall t :: 0 <= t < i ==> y[t] == Fitted(x, blocks, t)
          invariant forall t :: i <= t < j ==> y[t] == b.avg
          invariant |writes| == n && forall t :: 0 <= t < n ==> writes[t] == if t < j then 1 else 0
        {
          y[j] := b.avg;
          writes := writes[j := writes[j] + 1];
        }
        forall t | i <= t <= b.end
          ensures y[t] == Fitted(x, blocks, t)
        {
          FittedInBlock(x, blocks, node, t);
        }
        i := b.end + 1;
        node := node + 1;
      } else {
        forall l | 0 <= l < |blocks|
          ensures !blocks[l].Contains(i)
        {
          if node < l { assert blocks[node].end < blocks[l].start; }
        }
        FittedOutside(x, blocks, i);
        y[i] := x[i];
        writes := writes[i := writes[i] + 1];
        i := i + 1;
      }
    }
  }
}
