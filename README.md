# BiPAVA isotonic regression, modelled in Dafny

This project models `isoreg.c`, a bidirectional Pool-Adjacent-Violators implementation that
computes the isotonic (non-decreasing) least-squares fit `y` of an input sequence `x`. It models
the three parts of the file:

- **The block list.** The linked `list` of blocks is a class `BlockList.Chain`. Its field
  `blocks` is the sequence of nodes in link order: the head comes first, the `next` of node k is
  node k + 1, and the end of the sequence is NULL. Node pointers are indices. Each node is a
  `BlockStore.Block` value holding `sum`, `counter`, `avg` and the inclusive range `[start, end]`.
  `insertFirst`, `merge`, `addBackwardValue` and `addForwardValue` are methods that reassign
  `blocks`. `checkBoundires` and `getRecentValue` are pure functions.
- **The materializer.** `getNewValues` is `Materializer.GetNewValues`, a loop with an inner
  `for` loop that fills the output array. It is specified by `Materialize`, the per-index
  "fitted value" view of a chain.
- **The driver.** `PAV` is `Driver.PAV`. Its main `while` loop scans right to left. The body is
  split into three methods that follow the code's order:
  - `AbsorbViolation`: open a block, or absorb forward;
  - `UpdateBackward`: the backward `for` loop;
  - `CheckBlockEnd`: the re-check of the index after the block.

Values are modelled as mathematical reals. The input `x` is an immutable sequence and the output
`y` is the caller's array.

What is proved about `PAV`:

- it terminates;
- every block it leaves is **pooled**: its sum, counter and average agree with `x` over its range;
- the blocks are disjoint and ascending;
- `y` is what `getNewValues` makes of that chain;
- `y` is non-decreasing;
- `y == x` for sorted input;
- no block is opened for strictly increasing input;
- `y` is the least-squares isotonic fit: `SqDist(x, y) <= SqDist(x, z)` for every non-decreasing
  `z` of the same length.

The optimality proof rests on one invariant the driver keeps, **tightness**: every suffix of a
block's range averages at most the block's average. Each way the driver grows a block preserves
it. Over tight blocks the output's suffix residuals `Sum(x[t..]) - Sum(y[t..])` are never
positive, and they vanish where `y` steps. Abel summation then gives optimality (module
`Isotonic`).

Where the code differs from a plain reading of the algorithm, the model keeps the code's
behaviour:

- The scan at `isoreg.c:191` uses a strict `>`. Two equal neighbours count as a violation and
  open a block, so a sorted input with repeated values yields singleton blocks. The output is
  still `x` (`Driver.PAV`, `NonDecreasing(x) ==> y[..] == x`).
- Two blocks can end up index-adjacent without being merged. For example, `[5, 1, 4, 2, 3]`
  leaves `[0, 1]` and `[2, 3]`, both with average 3. The invariant is only that ranges are
  disjoint and ascending (`BlockStore.Ordered`).
- The re-check at `isoreg.c:233` reads `blockStartIndex + 1`. That variable holds the active
  block's right end, so the check looks at the index right after the block, through
  `blocks->next`.
- In the merge branch of `addForwardValue`, `value` is not added, because the successor has
  already counted it.

## Model

| member | source | states |
|---|---|---|
| BlockStore.RecentValueIsFitted | isoreg.c:49-63 | getRecentValue consults only one node. In an ordered chain it still returns the chain-wide fitted value of i: the average of the block holding i, else x[i]. This holds whenever i lies between that node's predecessor and successor; past the end, the node is NULL. |
| BlockStore.FittedInBlock | isoreg.c:147-153 | In an ordered chain, every index inside a node's range is fitted to that node's average. |
| BlockStore.FittedOutside | isoreg.c:155-159 | An index that no node's range contains keeps its raw input value. |
| BlockStore.OpenedBlockPooled | isoreg.c:200-217 | insertFirst at i followed by addBackwardValue of x[i] at i gives a block that pools exactly x[i], with average x[i]. |
| BlockStore.BackwardKeepsPooled | isoreg.c:96-105 | addBackwardValue of x[start-1] keeps sum = sum of x over the range, counter = range length, and avg * counter = sum. |
| BlockStore.ForwardKeepsPooled | isoreg.c:114-121 | Absorbing x[end+1] forward keeps the block pooled over its widened range. |
| BlockStore.MergeKeepsPooled | isoreg.c:82-92 | Merging a pooled block with the pooled block that starts right after it gives a block pooling the union. |
| BlockStore.SingletonsFitRaw | isoreg.c:147-159 | When every block is a singleton, every fitted value is the raw input. |
| BlockList.Chain.constructor | isoreg.c:176 | The list starts empty (NULL head). |
| BlockList.Chain.InsertFirst | isoreg.c:66-77 | A new head has sum = counter = avg = 0 and start = end = index. The old chain follows it unchanged. |
| BlockList.Chain.Merge | isoreg.c:82-92 | The node gets its successor's end, the summed counter and sum, and avg = sum / counter. The successor is unlinked and every other node is unchanged. |
| BlockList.Chain.AddBackwardValue | isoreg.c:96-105 | The node's sum grows by value and its counter by 1; avg = sum / counter and start = startIndex. Its end and every other node are unchanged. |
| BlockList.Chain.AddForwardValue | isoreg.c:107-124 | If the successor holds endIndex, the node merges with it and value is not added. Otherwise the node absorbs value and its end becomes endIndex. |
| BlockList.OpenKeepsWellFormed | isoreg.c:200-217 | A block opened left of the head and pooling x[i] keeps the chain pooled, disjoint and ascending. |
| BlockList.BackwardKeepsWellFormed | isoreg.c:220-225 | Absorbing x[start-1] into the head keeps the chain well formed. |
| BlockList.ForwardKeepsWellFormed | isoreg.c:107-124 | addForwardValue at the index after the head keeps the chain well formed, whether it absorbs or merges. When it merges, the successor starts exactly at that index. |
| Materializer.GetNewValues | isoreg.c:141-166 | Given an ordered, in-bounds chain, y becomes the chain's fitted values: each block's average over its range, x elsewhere. Every index of y is written exactly once. |
| Driver.PAV | isoreg.c:169-249 | The loop terminates. The returned chain is well formed and y is its materialisation. y is non-decreasing and least-squares optimal among non-decreasing sequences. Sorted x gives y = x, strictly increasing x opens no block, and n <= 1 gives y = x. |
| Driver.AbsorbViolation | isoreg.c:197-217 | At a violation with no repair under way, the chain becomes the block [i, i] pooling x[i] in front of the old chain, and k = i - 1. With a forward repair pending, the chain becomes addForwardValue(head, x[i], i) of the old chain and k is kept. Either way the chain stays well formed and tight, and the head starts further left or ends further right than before, which drives termination. |
| Driver.UpdateBackward | isoreg.c:219-228 | The head keeps absorbing x[j] leftward while its average is below it: for every newly absorbed index t, the head's average over [t + 1, end] was below x[t]. On exit the input is exhausted or the value left of the head is not above its average. Only the head changes: its end is kept, its start does not move right, and every node after it is unchanged. Well-formedness and tightness are kept. |
| Driver.CheckBlockEnd | isoreg.c:230-242 | After a backward update, the scan resumes at j + 1 with everything from there on non-decreasing. Otherwise the value after the head is below its average and the scan moves to that index with a forward repair pending. |
| Driver.ScanStep | isoreg.c:191-195 | When the fitted value at i exceeds the one at i - 1, the non-decreasing suffix extends one index left. |
| Driver.OpenStep | isoreg.c:200-217 | Opening a block at a violation gives a well-formed, tight chain whose head starts further left. |
| Driver.ForwardStep | isoreg.c:210-215 | The forward repair keeps the head's start, moves its end right, and keeps the chain well formed and tight. |
| Driver.SweepStep | isoreg.c:222-225 | Absorbing x[j] when the head's average is below it keeps the backward-loop invariant. |
| Driver.HeadBelowValue | isoreg.c:222-224 | A pooled head whose average is below x[j], the value just left of it, meets the absorption condition: the sum over its range is below x[j] times its counter. |
| Driver.SettleHead | isoreg.c:231-236 | A head that stopped pooling leftward and is not above the fitted value after it makes the fit non-decreasing from j + 1 on. |
| Driver.ValueAfterHead | isoreg.c:233 | getRecentValue on the head's successor at end + 1 is the chain-wide fitted value there. |
| Driver.ForwardDue | isoreg.c:233-242 | A head whose average is above the fitted value after it sets up a pending forward repair at end + 1. |
| Driver.Settle | isoreg.c:229-236 | A head between a left neighbour not above its average and a right neighbour not below it joins the non-decreasing suffix. |
| Driver.Finished | isoreg.c:189 | When the scan passes index 1, the materialised chain is non-decreasing, and it equals x when x is sorted. |
| Pooling.OpenKeepsTight | isoreg.c:200-217 | A newly opened block is tight, so the chain stays tight. |
| Pooling.BackwardKeepsTight | isoreg.c:220-225 | Absorbing on the left a value above the head's average keeps every block tight. |
| Pooling.ForwardKeepsTight | isoreg.c:107-124 | Absorbing or merging to the right of the head keeps every block tight, provided the fitted value there is below the head's average (the condition of isoreg.c:233). |
| Pooling.MergeTight | isoreg.c:82-92 | Merging a tight block with a tight successor of lower average gives a tight block. |
| Pooling.ForwardTight | isoreg.c:114-121 | Absorbing on the right a value below the average keeps a block tight. |
| Pooling.BackwardTight | isoreg.c:96-105 | Absorbing on the left a value above the average keeps a block tight. |
| Pooling.ResidualOfChain | isoreg.c:141-166 | Over tight blocks, the suffix residual of the materialised output is never positive, and it is zero at every block boundary. |
| Pooling.ChainBalanced | isoreg.c:141-166 | The materialised output of a well-formed, tight chain meets the residual conditions of isotonic least squares. |
| Isotonic.LeastSquares | isoreg.c:1-2 | A fit meeting the residual conditions is at least as close to x, in squared distance, as every non-decreasing sequence. |
| Isotonic.AbelSummation | isoreg.c:1-2 | A step of the optimality ensures of Driver.PAV (through LeastSquares): Abel summation rewrites the weighted sum of differences as a sum over suffix residuals. |
| Isotonic.ExpandSqDist | isoreg.c:1-2 | A step of the optimality ensures of Driver.PAV (through LeastSquares): the squared distance to z expands around y. |

## Left out

- The R entry point `isoreg` (`isoreg.c:253-276`) is left out: it is host-runtime marshalling.
- `deleteList`, `malloc` and `free` are left out. They only manage memory, and the sequence model
  of the chain has nothing to free.
- IEEE-754 double arithmetic is modelled as exact real arithmetic. Rounding, NaN and infinities
  are not modelled, and the optimality result holds for exact reals.
- The unused constant `DOUBLE_MAX`, the deprecated `obselete` field and `merge`'s missing return
  value are not modelled. The result of `merge` is never used, so `BlockList.Chain.Merge`
  returns nothing.
- `int` overflow of indices and counters is not modelled: indices and counters are unbounded
  integers.
- BlockList.Chain.Merge: requires the two counters to sum to more than zero. In C a zero total
  divides 0 by 0 (NaN); the driver only merges pooled blocks, whose counters are at least 1.
- BlockList.Chain.AddForwardValue: in the merge case it has the same requirement as `Merge`, for
  the same reason.
- Materializer.GetNewValues: requires the chain to be ordered and inside `[0, n)`. The driver
  always passes such a chain; for a chain out of order, the C loop would copy raw values past a
  node it never reaches, and the model does not describe that.
- `Pooled` states the average multiplied out (`avg * counter == sum`). This is equivalent to
  `avg == sum / counter` because a pooled block's counter is at least 1.
- Materializer.GetNewValues: `writes`, the count of stores to each index of `y`, is a ghost
  result that exists only to state that every index is written once.
- `blockStartIndex` and `k` are uninitialised in C until the first violation (`isoreg.c:204`
  and `isoreg.c:206`). The model starts both at 0, and no path reads either before it is set.
