/**
  The linked chain of blocks and the operations that update it in place: insertFirst,
  addBackwardValue, addForwardValue and merge.

  The chain is held as the sequence of its nodes in link order: `blocks[0]` is the head,
  `blocks[k + 1]` is the `next` of `blocks[k]`, and the end of the sequence is NULL. A node
  pointer is an index into that sequence. Nodes are never shared outside the chain, so
  relinking a node out of the chain is removing it from the sequence.
*/
module BlockList {
  import opened BlockStore

  class Chain {
    var blocks: seq<Block>

    /** The empty list (a NULL head). */
    constructor ()
      ensures blocks == []
    {
      blocks := [];
    }

    /** The pointer to node k, NULL past the end of the chain. */
    function Node(k: nat): Option<Block>
      reads this
    {
      NodeAt(blocks, k)
    }

    /** insertFirst: link a new empty node for `index` in front of the head. */
    method InsertFirst(index: int)
      modifies this
      ensures blocks == [EmptyBlock(index)] + old(blocks)
      ensures blocks[0].sum == 0.0 && blocks[0].counter == 0 && blocks[0].avg == 0.0
      ensures blocks[0].start == blocks[0].end == index
      ensures blocks[1..] == old(blocks)
    {
      var newHead := Block(0.0, 0, 0.0, index, index);
      blocks := [newHead] + blocks;
    }

    /** merge: fold the successor of `node` into it and unlink the successor. */
    method Merge(node: nat)
      requires node + 1 < |blocks|
      requires blocks[node].counter + blocks[node + 1].counter > 0
      modifies this
      ensures blocks == MergedChain(old(blocks), node)
      ensures |blocks| == |old(blocks)| - 1 && blocks[node + 1..] == old(blocks)[node + 2..]
    {
      var b1, b2 := blocks[node], blocks[node + 1];
      var end := b2.end;
      var counter := b1.counter + b2.counter;
      var sum := b1.sum + b2.sum;
      var avg := sum / (counter as real);
      blocks := blocks[..node] + [Block(sum, counter, avg, b1.start, end)] + blocks[node + 2..];
    }

    /** addBackwardValue: absorb `value` into `node` and move its start down to `startIndex`. */
    method AddBackwardValue(node: nat, value: real, startIndex: int)
      requires node < |blocks|
      modifies this
      ensures blocks == old(blocks)[node := old(blocks)[node].Backward(value, startIndex)]
      ensures blocks[node].sum == old(blocks)[node].sum + value
      ensures blocks[node].counter == old(blocks)[node].counter + 1
      ensures blocks[node].avg == blocks[node].sum / (blocks[node].counter as real)
      ensures blocks[node].start == startIndex && blocks[node].end == old(blocks)[node].end
    {
      var b := blocks[node];
      var sum := b.sum + value;
      var counter := b.counter + 1;
      var avg := sum / (counter as real);
      blocks := blocks[node := Block(sum, counter, avg, startIndex, b.end)];
    }

    /**
      addForwardValue: when the successor of `node` already holds `endIndex`, merge the two
      (without adding `value`, which the successor has counted already); otherwise absorb
      `value` and move the end of `node` up to `endIndex`.
    */
    method AddForwardValue(node: nat, value: real, endIndex: int)
      requires node < |blocks|
      requires SuccessorHolds(blocks, node, endIndex) ==> blocks[node].counter + blocks[node + 1].counter > 0
      modifies this
      ensures blocks == ForwardChain(old(blocks), node, value, endIndex)
    {
      if node + 1 < |blocks| && blocks[node + 1].Contains(endIndex) {
        Merge(node);
      } else {
        var b := blocks[node];
        var sum := b.sum + value;
        var counter := b.counter + 1;
        var avg := sum / (counter as real);
        blocks := blocks[node := Block(sum, counter, avg, b.start, endIndex)];
      }
    }
  }

  /** Does the node after `node` exist and hold `index`? */
  predicate SuccessorHolds(blocks: seq<Block>, node: nat, index: int)
  {
    node + 1 < |blocks| && blocks[node + 1].Contains(index)
  }

  /** The chain after merge(node, node->next): the two nodes replaced by their union. */
  function MergedChain(blocks: seq<Block>, node: nat): seq<Block>
    requires node + 1 < |blocks| && blocks[node].counter + blocks[node + 1].counter > 0
  {
    blocks[..node] + [blocks[node].Merged(blocks[node + 1])] + blocks[node + 2..]
  }

  /** The chain after addForwardValue(node, value, endIndex). */
  function ForwardChain(blocks: seq<Block>, node: nat, value: real, endIndex: int): seq<Block>
    requires node < |blocks|
    requires SuccessorHolds(blocks, node, endIndex) ==> blocks[node].counter + blocks[node + 1].counter > 0
  {
    if SuccessorHolds(blocks, node, endIndex) then MergedChain(blocks, node)
    else blocks[node := blocks[node].Forward(value, endIndex)]
  }

  /*
    The updates the driver makes at the head of the chain keep the whole chain well formed.
  */

  /** A new block opened left of the head, pooling x[index], gives a well-formed chain. */
  lemma OpenKeepsWellFormed(x: seq<real>, blocks: seq<Block>, index: int)
    requires WellFormed(x, blocks) && 0 <= index < |x|
    requires blocks != [] ==> index < blocks[0].start
    ensures WellFormed(x, [EmptyBlock(index).Backward(x[index], index)] + blocks)
  {
    var b := EmptyBlock(index).Backward(x[index], index);
    OpenedBlockPooled(x, index);
    var blocks' := [b] + blocks;
    forall k | 0 <= k < |blocks'|
      ensures Pooled(x, blocks'[k])
    {
      if k > 0 { assert blocks'[k] == blocks[k - 1]; }
    }
    forall k, l | 0 <= k < l < |blocks'|
      ensures blocks'[k].end < blocks'[l].start
    {
      if k == 0 {
        assert blocks'[l] == blocks[l - 1];
        if l > 1 { assert blocks[0].end < blocks[l - 1].start; }
      } else {
        assert blocks'[k] == blocks[k - 1] && blocks'[l] == blocks[l - 1];
      }
    }
  }

  /** Absorbing the value just left of the head keeps the chain well formed. */
  lemma BackwardKeepsWellFormed(x: seq<real>, blocks: seq<Block>, j: int)
    requires WellFormed(x, blocks) && blocks != [] && 0 <= j == blocks[0].start - 1
    ensures WellFormed(x, blocks[0 := blocks[0].Backward(x[j], j)])
  {
    BackwardKeepsPooled(x, blocks[0], j);
  }

  /**
    addForwardValue at the index right after the head keeps the chain well formed, whether it
    absorbs the raw value there or merges with the successor that starts there.
  */
  lemma ForwardKeepsWellFormed(x: seq<real>, blocks: seq<Block>, e: int)
    requires WellFormed(x, blocks) && blocks != [] && e == blocks[0].end + 1 < |x|
    ensures SuccessorHolds(blocks, 0, e) ==> blocks[1].start == e
    ensures WellFormed(x, ForwardChain(blocks, 0, x[e], e))
  {
    var blocks' := ForwardChain(blocks, 0, x[e], e);
    if SuccessorHolds(blocks, 0, e) {
      assert blocks[0].end < blocks[1].start;
      MergeKeepsPooled(x, blocks[0], blocks[1]);
      assert blocks' == [blocks[0].Merged(blocks[1])] + blocks[2..];
      forall k | 0 <= k < |blocks'|
        ensures Pooled(x, blocks'[k])
      {
        if k > 0 { assert blocks'[k] == blocks[k + 1]; }
      }
      forall k, l | 0 <= k < l < |blocks'|
        ensures blocks'[k].end < blocks'[l].start
      {
        assert blocks'[l] == blocks[l + 1];
        if k > 0 { assert blocks'[k] == blocks[k + 1]; }
      }
    } else {
      ForwardKeepsPooled(x, blocks[0], e);
      forall k, l | 0 <= k < l < |blocks'|
        ensures blocks'[k].end < blocks'[l].start
      {
        if k == 0 {
          assert blocks[0].end < blocks[1].start <= blocks[l].start;
        } else {
          assert blocks'[k] == blocks[k] && blocks'[l] == blocks[l];
        }
      }
    }
  }
}
