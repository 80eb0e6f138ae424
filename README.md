# CS3460 exercises, modelled in Dafny

This project models the sequential logic of the C++ exercises in the CS3460
repository, one Dafny module per source file, and proves what those exercises
promise:

- `DynamicPriorityQueue` (`priority_queue.dfy`): `usu::priority_queue`, a binary
  max-heap of (value, priority) entries in a growable vector of which only the
  prefix `[0, size)` is live. It covers `enqueue` with sift-up, `dequeue` with
  sift-down, linear `find`, `update` re-heapifying both ways, bottom-up
  `buildHeap`, the index helpers and the index-based iterator. The class keeps the
  heap order over the live prefix as its invariant.
- `PriorityQueueScenario` (`priority_queue_scenario.dfy`): the `update` unit test
  played out on the class.
- `ConwaysLife` (`life_simulator.dfy`): `LifeSimulator`, Conway's Game of Life on a
  torus. A generation scans the old grid, collects the cells to kill and to revive,
  and applies both lists afterwards. `insertPattern` clamps and clips a pattern
  into the grid.
- `TypeAhead` (`word_tree.dfy`): `WordTree`, a 26-way trie with `add`, `find`,
  `size` and a breadth-first `predict`.
- `ArrayPerf` (`sortutils.dfy`): the raw-array copy and the in-place organ-pipe
  rewrite.
- `Distributions` (`distributions.dfy`): histogram bins, the bin index of a
  number, and the counting loops of the three `generate*` functions, with the
  random engines replaced by the sequence of samples they would produce.
- `WeightUnits` (`weight.dfy`): `usu::weight` count arithmetic on 32- and 64-bit
  unsigned counts, and `weight_cast` between unit ratios.
- `SmartPointer` (`shared_ptr.dfy`): `usu::shared_ptr<T>` and `shared_ptr<T[]>`.
  These form a reference-count state machine over a heap counter. A ghost
  multiset of holders keeps the count honest.
- `Nbonacci` (`nbonacci.dfy`) and `Assignment1` (`assignment1.dfy`): the two
  identical copies of `nbonacci`. The second copy is read literally as a loop
  accumulator, and the two are proved equal.

Integers are unbounded in Dafny. Where the source's unsigned widths matter, the
model says so explicitly:

- weight counts wrap modulo 2^32 or 2^64;
- the histogram index uses 32-bit subtraction and a 32-bit divisor that can wrap to 0;
- grid sizes, pattern sizes and `howMany` are kept within 8 bits by preconditions.

Errors the source reports by throwing or exiting become `Failure` results.

## Model

| member | source | states |
|---|---|---|
| DynamicPriorityQueue.LeftChildPos | DynamicPriorityQueue/priority_queue.hpp:250-260 | the no-position sentinel exactly when pos ≥ size/2, otherwise the left child 2·pos+1, which is then a live slot |
| DynamicPriorityQueue.RightChildPos | DynamicPriorityQueue/priority_queue.hpp:262-272 | the sentinel exactly when pos ≥ size/2, otherwise the right child 2·pos+2, which lies at most at the size |
| DynamicPriorityQueue.ParentPos | DynamicPriorityQueue/priority_queue.hpp:274-284 | the heap parent for positions 1..size; the sentinel for the root and for positions past the size |
| DynamicPriorityQueue.IsLeaf | DynamicPriorityQueue/priority_queue.hpp:98 | a position is a leaf exactly when it is live and its left child falls outside the live prefix |
| DynamicPriorityQueue.ChildParent | DynamicPriorityQueue/priority_queue.hpp:250-284 | each child position's parent is the position it came from |
| DynamicPriorityQueue.RootIsMax | DynamicPriorityQueue/priority_queue.hpp:6 | in a max-heap the root's priority is at least that of any live entry, by induction along the parent chain |
| DynamicPriorityQueue.HeapRootIsMax | DynamicPriorityQueue/TestPriorityQueue.cpp:34-77 | the entry at `begin()` of a non-empty heap has the highest priority of all live entries |
| DynamicPriorityQueue.RootIsUniqueMax | DynamicPriorityQueue/TestPriorityQueue.cpp:272-317 | when one live entry strictly outranks every other, a heap has exactly that entry at the root |
| DynamicPriorityQueue.DequeueStart | DynamicPriorityQueue/priority_queue.hpp:132-133 | swapping the root with the last live entry and shrinking the prefix keeps the live multiset minus the old root, which now sits just past the prefix, and leaves a state sift-down can repair from the root |
| DynamicPriorityQueue.DropLastSlot | DynamicPriorityQueue/priority_queue.hpp:137 | erasing the last storage slot beyond the live prefix keeps the live prefix and its heap order |
| DynamicPriorityQueue.UpperHalfIsHeap | DynamicPriorityQueue/priority_queue.hpp:183 | the entries from size/2 on have no children, so `buildHeap` may start there |
| DynamicPriorityQueue.ChangeKeepsExcept | DynamicPriorityQueue/priority_queue.hpp:162 | replacing one entry of a heap breaks order only on the edges touching it |
| DynamicPriorityQueue.UpStep | DynamicPriorityQueue/priority_queue.hpp:225-229 | swapping an entry that outranks its parent moves the only defect one level up |
| DynamicPriorityQueue.UpDone | DynamicPriorityQueue/priority_queue.hpp:225 | when sift-up stops, sift-down from the original position can finish the repair |
| DynamicPriorityQueue.DownStep | DynamicPriorityQueue/priority_queue.hpp:209-215 | swapping with the larger child when it outranks the entry moves the defect one level down |
| DynamicPriorityQueue.DownDone | DynamicPriorityQueue/priority_queue.hpp:209-212 | when the entry is at least its larger child, the sifted region is heap-ordered |
| DynamicPriorityQueue.LargerChild | DynamicPriorityQueue/priority_queue.hpp:203-207 | the child sift-down selects (the right one only when strictly larger) is a child of the position and outranks or ties every sibling |
| DynamicPriorityQueue.LeafDone | DynamicPriorityQueue/priority_queue.hpp:200 | sift-down ending at a leaf leaves the region heap-ordered |
| DynamicPriorityQueue.SwapKeepsItems | DynamicPriorityQueue/priority_queue.hpp:235-248 | exchanging two live slots keeps the live multiset and the dead tail |
| DynamicPriorityQueue.Grown | DynamicPriorityQueue/priority_queue.hpp:174 | the new capacity is strictly larger than the old one |
| DynamicPriorityQueue.Next | DynamicPriorityQueue/priority_queue.hpp:325-337 | increment moves the position by one and keeps the storage |
| DynamicPriorityQueue.Equal | DynamicPriorityQueue/priority_queue.hpp:63-64 | `==` on (storage, position) is the identity of the handle; `!=` is its negation |
| DynamicPriorityQueue.Distance | DynamicPriorityQueue/priority_queue.hpp:56 | from a handle to a later one in the same storage, the difference is the number of increments that lead from the earlier to the later |
| DynamicPriorityQueue.AdvancePos | DynamicPriorityQueue/priority_queue.hpp:325-329 | k increments move the position k places in the same storage |
| DynamicPriorityQueue.AdvanceDistance | DynamicPriorityQueue/priority_queue.hpp:56 | the difference between an iterator advanced k times and its start is k |
| DynamicPriorityQueue.PriorityQueue.constructor | DynamicPriorityQueue/priority_queue.hpp:71-74 | a new queue is empty, has no storage and is a valid heap |
| DynamicPriorityQueue.PriorityQueue.FromEntries | DynamicPriorityQueue/priority_queue.hpp:76-80 | the list constructor yields a valid heap over exactly the given entries, sized to the list |
| DynamicPriorityQueue.PriorityQueue.Begin | DynamicPriorityQueue/priority_queue.hpp:88 | `begin()` points at position 0 of this queue's storage |
| DynamicPriorityQueue.PriorityQueue.End | DynamicPriorityQueue/priority_queue.hpp:89 | `end()` points at position `size` of this queue's storage |
| DynamicPriorityQueue.PriorityQueue.Empty | DynamicPriorityQueue/priority_queue.hpp:85 | the queue is empty exactly when `begin() == end()` |
| DynamicPriorityQueue.PriorityQueue.BeginEnd | DynamicPriorityQueue/TestPriorityQueue.cpp:124-209 | exactly `size` increments take `begin()` to `end()` |
| DynamicPriorityQueue.PriorityQueue.Get | DynamicPriorityQueue/priority_queue.hpp:60-61 | dereferencing a live iterator yields a live entry |
| DynamicPriorityQueue.PriorityQueue.Swap | DynamicPriorityQueue/priority_queue.hpp:235-248 | the storage afterwards is the old one with the two slots exchanged |
| DynamicPriorityQueue.PriorityQueue.IncreaseSize | DynamicPriorityQueue/priority_queue.hpp:171-178 | storage grows to floor(1.25·length + 1) slots and keeps every existing slot |
| DynamicPriorityQueue.PriorityQueue.SiftUp | DynamicPriorityQueue/priority_queue.hpp:221-233 | from a heap whose only defect is at `pos`, it keeps the live multiset and the dead tail, and leaves a state sift-down can finish; it changes nothing when the entry does not outrank its parent |
| DynamicPriorityQueue.PriorityQueue.SiftDown | DynamicPriorityQueue/priority_queue.hpp:191-219 | it keeps the live multiset and the dead tail and makes the region heap-ordered; positions outside the live prefix change nothing |
| DynamicPriorityQueue.PriorityQueue.BuildHeap | DynamicPriorityQueue/priority_queue.hpp:180-189 | the live prefix becomes a max-heap over the same multiset, and the storage beyond it is untouched |
| DynamicPriorityQueue.PriorityQueue.Enqueue | DynamicPriorityQueue/priority_queue.hpp:106-122 | size grows by one and the live multiset gains exactly the new entry; heap order is kept; storage grows only when it was full |
| DynamicPriorityQueue.PriorityQueue.Dequeue | DynamicPriorityQueue/priority_queue.hpp:124-140 | it fails and changes nothing on an empty queue; otherwise it returns the old root, whose priority is at least every live entry's, removes exactly that entry, decrements size, shrinks storage by one slot and keeps heap order |
| DynamicPriorityQueue.PriorityQueue.Find | DynamicPriorityQueue/priority_queue.hpp:142-157 | the result is the first live position holding the value, or `end()` when no live entry holds it |
| DynamicPriorityQueue.PriorityQueue.Update | DynamicPriorityQueue/priority_queue.hpp:159-169 | only the target entry's priority changes in the live multiset, and heap order is restored |
| PriorityQueueScenario.PeekUnique | DynamicPriorityQueue/priority_queue.hpp:88 | when one live entry strictly outranks the rest, `*begin()` is that entry |
| PriorityQueueScenario.UpdateAndPeek | DynamicPriorityQueue/priority_queue.hpp:159-169 | finding a value that occurs once and updating its priority replaces just that entry, and the root is then the strict maximum |
| PriorityQueueScenario.EnqueueAll | DynamicPriorityQueue/TestPriorityQueue.cpp:276-280 | enqueuing a list into an empty queue gives a heap holding exactly the list's entries |
| PriorityQueueScenario.UpdateScenario | DynamicPriorityQueue/TestPriorityQueue.cpp:272-317 | after enqueuing a..e with priorities 1..5, the root is e(5); raising a to 6 makes it a(6); lowering a to 2 makes it e(5); lowering e to 1 makes it d(4) |
| ConwaysLife.DecWrap | ConwaysLife/LifeSimulator.cpp:120-132 | one step back stays on the ring [0, size) |
| ConwaysLife.IncWrap | ConwaysLife/LifeSimulator.cpp:134-146 | one step forward stays on the ring [0, size) |
| ConwaysLife.WrapIsModular | ConwaysLife/LifeSimulator.cpp:120-146 | on the ring the two steps are subtraction and addition of one modulo the size |
| ConwaysLife.WrapInverse | ConwaysLife/LifeSimulator.cpp:120-146 | the two steps undo each other on [0, size) |
| ConwaysLife.Neighbors | ConwaysLife/LifeSimulator.cpp:98-105 | the neighbour list has eight coordinates, all inside the grid |
| ConwaysLife.NeighborsAreOffsets | ConwaysLife/LifeSimulator.cpp:98-105 | neighbour i is the cell at the i-th unit offset taken modulo both dimensions (toroidal wrap) |
| ConwaysLife.NeighborsDistinct | ConwaysLife/LifeSimulator.cpp:98-105 | on grids at least 3 by 3 the eight neighbours are distinct and none is the cell itself |
| ConwaysLife.CountLive | ConwaysLife/LifeSimulator.cpp:107-115 | a count of listed live cells never exceeds the list length |
| ConwaysLife.CountLiveExtremes | ConwaysLife/LifeSimulator.cpp:107-115 | the count is 0 exactly when no listed cell is live, and the full length exactly when all are |
| ConwaysLife.LiveNeighbors | ConwaysLife/LifeSimulator.cpp:93-118 | the live neighbour count is at most 8 |
| ConwaysLife.LoneCellIsItsOwnNeighbors | ConwaysLife/LifeSimulator.cpp:98-105 | on a 1-by-1 grid a live cell counts itself eight times and a dead one counts 0 |
| ConwaysLife.ColumnChangesMembers | ConwaysLife/LifeSimulator.cpp:55-77 | a column's collected list holds exactly that column's cells that die (or are born) |
| ConwaysLife.ScanChangesMembers | ConwaysLife/LifeSimulator.cpp:53-78 | the scan's lists hold exactly the grid's dying and newborn cells |
| ConwaysLife.Step | ConwaysLife/LifeSimulator.cpp:42-91 | the next generation has the same dimensions as the grid |
| ConwaysLife.StepRule | ConwaysLife/LifeSimulator.cpp:44-76 | after a step a cell is live exactly when it was live with 2 or 3 live neighbours, or dead with exactly 3 |
| ConwaysLife.ScanChangesInGrid | ConwaysLife/LifeSimulator.cpp:53-78 | every collected coordinate lies in the grid |
| ConwaysLife.ApplyIsStep | ConwaysLife/LifeSimulator.cpp:80-90 | killing the dying cells and then reviving the newborn ones, both decided on the old grid, yields the next generation |
| ConwaysLife.Dies | ConwaysLife/LifeSimulator.cpp:60-67 | a cell dies exactly when it is live with a live-neighbour count other than 2 or 3 (the S23 survival rule) |
| ConwaysLife.Born | ConwaysLife/LifeSimulator.cpp:69-76 | a cell that is born was dead and so is not also killed: the two lists of `update` are disjoint |
| ConwaysLife.StepCell | ConwaysLife/LifeSimulator.cpp:80-90 | one cell of the next generation is its old state minus a death plus a birth |
| ConwaysLife.EmptyStaysEmpty | ConwaysLife/LifeSimulator.cpp:44-76 | an all-dead grid is its own next generation |
| ConwaysLife.ClampStart | ConwaysLife/LifeSimulator.cpp:14-23 | the start lies in the grid and is kept when it already does |
| ConwaysLife.ClipEnd | ConwaysLife/LifeSimulator.cpp:29-30 | the end is the pattern's last row or column when it fits, otherwise the grid's last one; it lies within the pattern and the grid |
| ConwaysLife.WindowWritten | ConwaysLife/LifeSimulator.cpp:29-39 | writing the rectangle from the clamped start to the clipped end is writing exactly the pattern's window |
| ConwaysLife.LifeSimulator.constructor | ConwaysLife/LifeSimulator.cpp:5-8 | the grid is sizeX by sizeY and every cell is dead |
| ConwaysLife.LifeSimulator.GetSizeX | ConwaysLife/LifeSimulator.cpp:148-151 | the number of columns, an 8-bit value of at least 1 |
| ConwaysLife.LifeSimulator.GetSizeY | ConwaysLife/LifeSimulator.cpp:153-157 | the length shared by every column, an 8-bit value of at least 1 |
| ConwaysLife.LifeSimulator.GetLiveNeighborCount | ConwaysLife/LifeSimulator.cpp:93-118 | the count of live cells among the eight wrapped neighbours, at most 8 |
| ConwaysLife.LifeSimulator.InsertPattern | ConwaysLife/LifeSimulator.cpp:10-40 | cells in the clamped and clipped window take the pattern's cells relative to the clamped start; every other cell and both dimensions are unchanged |
| ConwaysLife.LifeSimulator.CopyColumn | ConwaysLife/LifeSimulator.cpp:35-38 | one column's rows in the window take the pattern's column; nothing else changes |
| ConwaysLife.LifeSimulator.Update | ConwaysLife/LifeSimulator.cpp:42-91 | the grid becomes its next generation under the B3/S23 rule, decided simultaneously, with dimensions kept |
| ConwaysLife.LifeSimulator.CollectChanges | ConwaysLife/LifeSimulator.cpp:53-78 | the scan collects exactly the newborn and the dying cells of the unchanged grid, in scan order |
| ConwaysLife.LifeSimulator.CollectColumn | ConwaysLife/LifeSimulator.cpp:55-77 | one column's newborn and dying cells are appended in row order |
| ConwaysLife.LifeSimulator.KillAll | ConwaysLife/LifeSimulator.cpp:80-84 | every listed cell becomes dead and nothing else changes |
| ConwaysLife.LifeSimulator.ReviveAll | ConwaysLife/LifeSimulator.cpp:86-90 | every listed cell becomes live and nothing else changes |
| TypeAhead.CalcLetterIndex | TypeAhead/WordTree.cpp:136-139 | a letter's child slot lies in 0..25 |
| TypeAhead.IndexToLetter | TypeAhead/WordTree.cpp:141-144 | a slot's letter lies in 'a'..'z' |
| TypeAhead.LetterIndexRoundTrip | TypeAhead/WordTree.cpp:136-144 | the two conversions are inverse bijections between 'a'..'z' and 0..25 |
| TypeAhead.EmptyNode | TypeAhead/WordTree.cpp:27 | a new node has 26 empty child slots and ends no word |
| TypeAhead.SubtreeExtend | TypeAhead/WordTree.cpp:49-59 | following one more letter moves to that letter's child slot |
| TypeAhead.EmptyContainsNothing | TypeAhead/WordTree.cpp:4-8 | the empty tree stores no word |
| TypeAhead.Subtree | TypeAhead/WordTree.cpp:49-59 | following a word letter by letter from a well-formed trie reaches a well-formed subtrie, or nothing when a child slot is empty |
| TypeAhead.Contains | TypeAhead/WordTree.cpp:61-68 | a word is stored when its path exists and ends at an end-of-word node; no contract of its own, it is the reference the trie operations are stated against |
| TypeAhead.Insert | TypeAhead/WordTree.cpp:18-38 | creating the missing nodes along the word and marking its last node yields a well-formed trie; what it then stores is `InsertContains` |
| TypeAhead.InsertContains | TypeAhead/WordTree.cpp:18-38 | after adding w, exactly w and the previously stored words are stored |
| TypeAhead.ChildPending | TypeAhead/WordTree.cpp:105-118 | a queued child is the node of its text, and a prediction when a word ends there |
| TypeAhead.QueueAppend | TypeAhead/WordTree.cpp:118 | queueing a child one letter longer keeps the queue sorted by length |
| TypeAhead.PredictionAppend | TypeAhead/WordTree.cpp:112-115 | a new prediction one letter longer keeps the predictions valid and sorted by length |
| TypeAhead.PopFront | TypeAhead/WordTree.cpp:100-101 | popping the head of a sorted queue leaves a sorted queue within one letter of the head and removes the head's subtree from the pending work |
| TypeAhead.Rebase | TypeAhead/WordTree.cpp:98-100 | after a round every queued text and prediction is within one letter of the new head |
| TypeAhead.VisitChild | TypeAhead/WordTree.cpp:107-118 | visiting a present slot queues the child and predicts its text when a word ends there, keeping the round's invariant |
| TypeAhead.ExpandNode | TypeAhead/WordTree.cpp:103-125 | one round only appends to the queue, keeps queue and predictions valid and sorted by length, and strictly reduces the pending work |
| TypeAhead.Search | TypeAhead/WordTree.cpp:95-126 | every prediction of the breadth-first loop is a stored word extending the prefix by at least one letter, in non-decreasing length |
| TypeAhead.WordTree.constructor | TypeAhead/WordTree.cpp:4-8 | a new tree is a lone empty root storing no words |
| TypeAhead.WordTree.Size | TypeAhead/WordTree.cpp:131-134 | `size()` is the number of distinct words added |
| TypeAhead.WordTree.Find | TypeAhead/WordTree.cpp:41-69 | `find` is true exactly for the non-empty words added, so false for "" and for prefixes never added |
| TypeAhead.WordTree.WalkTo | TypeAhead/WordTree.cpp:82-93 | the walk from the root reaches the prefix's node exactly when its path exists |
| TypeAhead.WordTree.Add | TypeAhead/WordTree.cpp:10-39 | the stored words gain exactly the word when it is non-empty; re-adding a present word or adding "" changes neither the tree nor the size |
| TypeAhead.WordTree.Predict | TypeAhead/WordTree.cpp:71-129 | no predictions for "" or an absent prefix; otherwise every prediction is a stored word strictly extending the prefix, in non-decreasing length |
| ArrayPerf.OrganPipe | ArrayPerf/sortutils.cpp:16-34 | the organ-pipe image has the length of its input |
| ArrayPerf.OrganPipeKeepsFirstHalf | ArrayPerf/TestPerformance.cpp:33-36 | the first half (rounded down) is unchanged |
| ArrayPerf.OrganPipeIsPalindrome | ArrayPerf/TestPerformance.cpp:38-41 | the result reads the same from both ends |
| ArrayPerf.OrganPipeBranches | ArrayPerf/sortutils.cpp:20-33 | for odd lengths the middle is kept and position mid+i takes mid−i; for even lengths mid+i takes mid−1−i |
| ArrayPerf.OrganPipeOfAscending | ArrayPerf/main.cpp:32-33 | an ascending array becomes one that rises to the middle and falls after it |
| ArrayPerf.InitializeRawArrayFromStdArray | ArrayPerf/sortutils.cpp:8-14 | every destination slot below the source length holds the source element; the source and the rest of the destination are unchanged |
| ArrayPerf.OrganPipeStdArray | ArrayPerf/sortutils.cpp:16-34 | the array becomes the organ-pipe image of its old contents; no read sees a value the loop wrote |
| Distributions.Sub32 | GoogleTest/distributions.cpp:149-151 | `std::uint32_t` subtraction: the difference when it is non-negative, otherwise the difference plus 2^32 |
| Distributions.Increment | GoogleTest/distributions.cpp:127 | the increment times the bin count fits in max−min, and one more does not |
| Distributions.HistogramBins | GoogleTest/distributions.cpp:123-139 | exactly `numberBins` bins |
| Distributions.HistogramBinsShape | GoogleTest/distributions.cpp:127-135 | the first bin starts at min, each spans the increment, each starts one past its predecessor, and all counts are 0 |
| Distributions.LastBinCoversMax | GoogleTest/distributions.cpp:127-135 | the last bin ends at or after max and fewer than numberBins values beyond it |
| Distributions.BuildHistogramBins | GoogleTest/distributions.cpp:123-139 | the running-bounds loop builds exactly the closed-form bins |
| Distributions.BinDivisor | GoogleTest/distributions.cpp:149-151 | the divisor `increment + 1` in 32-bit arithmetic is 0 exactly when the recomputed increment is 2^32 − 1 |
| Distributions.GetHistogramIndex | GoogleTest/distributions.cpp:144-154 | defined only where the 32-bit divisor is not 0; the index is a 32-bit value |
| Distributions.FullRangeOneBin | GoogleTest/distributions.cpp:123-154 | one bin over 0..2^32−1 is accepted by the bin builder, yet the index divisor for it wraps to 0, a division by zero in the source |
| Distributions.RecomputedIncrement | GoogleTest/distributions.cpp:146-149 | the increment recomputed from the first and last bin equals the one the bins were built with |
| Distributions.IndexInBin | GoogleTest/distributions.cpp:144-154 | unless the increment is 2^32 − 1, the divisor is the bin width, and a number between min and the end of the last bin gets an index below numberBins and lies inside that bin |
| Distributions.BinIndex | GoogleTest/distributions.cpp:63-74 | the bin the loop picks for a sample; a sample that is clamped instead of divided lands in the first or the last bin |
| Distributions.Hits | GoogleTest/distributions.cpp:27-34 | no bin receives more samples than there are samples |
| Distributions.TotalUpdate | GoogleTest/distributions.cpp:33 | changing one bin's count changes the total by the same amount |
| Distributions.BinIndexIgnoresCounts | GoogleTest/distributions.cpp:144-154 | choosing a bin reads only the bin bounds, never the counts |
| Distributions.TallyStep | GoogleTest/distributions.cpp:31-33 | counting one more sample into the bin it selects keeps every bin's count exact |
| Distributions.Populate | GoogleTest/distributions.cpp:27-34 | the bounds are kept, each bin gains exactly the samples sent to it, and the total grows by the number of samples |
| Distributions.GenerateUniformDistribution | GoogleTest/distributions.cpp:16-37 | every sample is sent to an existing bin, and the result is the built bins, each counting the samples that fall in it, with a total equal to the number of samples; samples are drawn only when the 32-bit divisor is not 0 |
| Distributions.GenerateNormalDistribution | GoogleTest/distributions.cpp:42-80 | as uniform, with samples below min sent to the first bin and above max to the last; samples are drawn only when the 32-bit divisor is not 0 |
| Distributions.GeneratePoissonDistribution | GoogleTest/distributions.cpp:85-118 | every sample is sent to an existing bin: one bin per value 0..numberBins−1, larger samples to the last bin, total equal to the number of samples |
| Distributions.ZeroTotal | RandomDistrs/distributions.hpp:15-20 | fresh bins sum to zero |
| Distributions.UniformTestBins | GoogleTest/TestDistributions.cpp:50-54 | 0..79 in 40 bins gives the bins [2i, 2i+1] |
| Distributions.NormalTestBins | GoogleTest/TestDistributions.cpp:62-66 | 30..69 in 40 bins gives the single-value bins [30+i, 30+i] |
| WeightUnits.Zero | TemplateCode/weight.hpp:13-16 | the default weight has count 0 |
| WeightUnits.FromCount | TemplateCode/weight.hpp:17-20 | `weight(c)` has count c for every c |
| WeightUnits.Plus | TemplateCode/weight.hpp:27-30 | the sum of the counts, wrapped once past the count type's limit |
| WeightUnits.Minus | TemplateCode/weight.hpp:32-41 | as written: the difference when non-negative, otherwise the difference plus the count type's limit |
| WeightUnits.MinusWraps | TemplateCode/weight.hpp:34-38 | 4 − 11 on 32-bit counts gives 4294967289, not 0 |
| WeightUnits.MinusClamped | TemplateCode/weight.hpp:32-41 | as intended: never more than the left count, zero exactly when the right count is at least the left, and otherwise the exact difference |
| WeightUnits.ScaleRight | TemplateCode/weight.hpp:59-63 | weight × scalar is count × scalar when it fits the count type, and otherwise agrees with it modulo 2^bits |
| WeightUnits.ScaleLeft | TemplateCode/weight.hpp:65-69 | scalar × weight is scalar × count when it fits the count type, and otherwise agrees with it modulo 2^bits |
| WeightUnits.ScaleCommutes | TemplateCode/weight.hpp:59-69 | both operand orders give the same weight |
| WeightUnits.WeightCast | TemplateCode/weight.hpp:71-77 | the result is the largest count of target units whose mass does not exceed the source's mass |
| WeightUnits.CastIdentity | TemplateCode/weight.hpp:71-77 | casting to the weight's own ratio returns the same weight |
| WeightUnits.CastRoundTrip | TemplateCode/weight.hpp:71-77 | casting to a unit that divides the weight's unit whole multiplies the count by that quotient, and casting back restores the weight |
| WeightUnits.TestedValues | TemplateCode/TestWeight.cpp:35-126 | 11+4=15, 11−4=7, 11−0=11, 3·14=42, 4·5=20, identity casts keep 10 and 5, 15 units of 4/1 are 180 of 1/3, 24 and 39 of 1/3 are 2 and 3 of 4/1 |
| SmartPointer.Allocation.constructor | SmartPointer/shared_ptr.hpp:97 | a new object is not freed |
| SmartPointer.RefCount.constructor | SmartPointer/shared_ptr.hpp:17 | a new counter is 1 and is held by its one creator |
| SmartPointer.TwoOwners | SmartPointer/shared_ptr.hpp:59 | a counter held by two different handles is at least 2; `CopyAssign` relies on it to show that copy-assigning between two holders of the same counter frees nothing |
| SmartPointer.SharedPtr.constructor | SmartPointer/shared_ptr.hpp:12-18 | a fresh counter set to 1, held by this handle |
| SmartPointer.SharedPtr.Copy | SmartPointer/shared_ptr.hpp:20-25 | the copy shares object and counter, and the count grows by one |
| SmartPointer.SharedPtr.Move | SmartPointer/shared_ptr.hpp:27-32 | the move constructor copies: object and counter are shared and the count grows by one |
| SmartPointer.SharedPtr.UseCount | SmartPointer/shared_ptr.hpp:54 | the number of handles holding the counter, at least 1 |
| SmartPointer.SharedPtr.Cleanup | SmartPointer/shared_ptr.hpp:34-51 | the count drops by one; at zero the object and counter are freed, otherwise nothing is freed; with no counter nothing happens |
| SmartPointer.SharedPtr.CopyAssign | SmartPointer/shared_ptr.hpp:57-69 | self-assignment changes nothing; otherwise the old share is released, freeing the old object exactly when this handle was its last holder of a different counter, then rhs's object and counter are shared with the count up by one, and both report the same count |
| SmartPointer.SharedPtr.Share | SmartPointer/shared_ptr.hpp:63-65 | takes rhs's object and counter and increments it |
| SmartPointer.SharedPtr.MoveAssign | SmartPointer/shared_ptr.hpp:71-77 | object and counter are swapped between the two handles and no count changes |
| SmartPointer.SharedArray.constructor | SmartPointer/shared_ptr.hpp:104-112 | a fresh counter set to 1, with the given array length |
| SmartPointer.SharedArray.Copy | SmartPointer/shared_ptr.hpp:114-120 | the copy shares object, length and counter, and the count grows by one |
| SmartPointer.SharedArray.Move | SmartPointer/shared_ptr.hpp:122-128 | the move constructor copies, length included, and the count grows by one |
| SmartPointer.SharedArray.UseCount | SmartPointer/shared_ptr.hpp:183 | the shared counter equals the number of handles holding it, at least 1 |
| SmartPointer.SharedArray.Size | SmartPointer/shared_ptr.hpp:148 | `size()` returns the element count the handle was created with or copied from (`MakeSharedArray`, `Copy`); no contract of its own |
| SmartPointer.SharedArray.Cleanup | SmartPointer/shared_ptr.hpp:130-146 | the count drops by one; at zero the array and counter are freed, otherwise nothing is freed |
| SmartPointer.SharedArray.CopyAssign | SmartPointer/shared_ptr.hpp:151-164 | self-assignment changes nothing; otherwise the old share is released, freeing the old array exactly when this handle was its last holder of a different counter, and rhs's array, length and counter are shared with the count up by one |
| SmartPointer.SharedArray.Share | SmartPointer/shared_ptr.hpp:157-160 | takes rhs's array, length and counter and increments it |
| SmartPointer.SharedArray.MoveAssign | SmartPointer/shared_ptr.hpp:166-173 | array, length and counter are swapped and no count changes |
| SmartPointer.MakeShared | SmartPointer/shared_ptr.hpp:94-98 | a new live object under a new handle with count 1 |
| SmartPointer.MakeSharedArray | SmartPointer/shared_ptr.hpp:186-190 | a new array of N elements under a new handle with count 1 and size N |
| SmartPointer.CopyScopeScenario | SmartPointer/TestMemory.cpp:41-54 | counts go 1, then 2 for both handles inside the scope, then back to 1, and the object survives |
| SmartPointer.PassThroughScenario | SmartPointer/TestMemory.cpp:86-95 | passing a handle by value sees a count of 2 inside, and after returning and assigning back the count is 1 and the object survives |
| SmartPointer.ArrayCopyScenario | SmartPointer/shared_ptr.hpp:114-164 | a copy of a 4-element array handle reports size 4 and count 2; dropping it leaves count 1 |
| Nbonacci.Nth | Nbonacci/nbonacci.cpp:24-35 | every term is at least 1 |
| Nbonacci.PreviousSum | Nbonacci/nbonacci.cpp:30-33 | the first k rounds of the sum add at least k, since every term is at least 1 |
| Nbonacci.Nbonacci | Nbonacci/nbonacci.cpp:12-36 | it fails exactly when series < 2 (that error first) or n < 1; otherwise the term is at least 1, and exactly 1 for n ≤ series |
| Nbonacci.PreviousSumBound | Nbonacci/nbonacci.cpp:30-33 | a sum of k previous terms is at least the term before plus k−1 |
| Nbonacci.Growth | Nbonacci/nbonacci.cpp:24-35 | each term is at least its predecessor, and from term series+1 on exceeds it by at least series−1 |
| Nbonacci.Monotone | Nbonacci/nbonacci.cpp:24-35 | the sequence never decreases |
| Nbonacci.SumOfOnes | Nbonacci/nbonacci.cpp:24-33 | a sum of terms from the leading run of ones is its length |
| Nbonacci.FirstSum | Nbonacci/nbonacci.cpp:24-35 | the first term after the run of ones is `series` |
| Nbonacci.SeriesTwoIsFibonacci | Nbonacci/nbonacci.cpp:9 | series 2 is the Fibonacci sequence |
| Nbonacci.OpeningTerms | Nbonacci/Assignment1.cpp:10-22 | the Fibonacci row opens 1, 1, 2, 3, 5, 8 and the Tribonacci row opens 1, 1, 1, 3, 5, 9, 17 |
| Assignment1.Nbonacci | Nbonacci/Assignment1.cpp:51-75 | it fails exactly when series < 2 (that error first) or n < 1, and gives 1 for 1 ≤ n ≤ series |
| Assignment1.Nth | Nbonacci/Assignment1.cpp:63-74 | the term: 1 for n ≤ series, otherwise the accumulator loop; every term is at least 1, and `NthAgrees` shows it equals the recursive sum |
| Assignment1.Accumulate | Nbonacci/Assignment1.cpp:69-72 | the `sum +=` loop from round i: each remaining round adds at least 1 to the running sum |
| Assignment1.NthAgrees | Nbonacci/Assignment1.cpp:63-74 | the accumulator loop's term equals the recursive sum of the previous `series` terms |
| Assignment1.AccumulateAgrees | Nbonacci/Assignment1.cpp:69-72 | finishing the loop from round i adds the remaining previous terms to the running sum |
| Assignment1.SameAsNbonacci | Nbonacci/Assignment1.cpp:47-75 | this copy of `nbonacci` equals the one in nbonacci.cpp on every input |
| Assignment1.SeriesTwoIsFibonacci | Nbonacci/Assignment1.cpp:48 | series 2 is the Fibonacci sequence in this copy too |

## Left out

- The demo programs and console rendering (every `main.cpp`, `RendererConsole.cpp`, the simulation with `double` priorities, file reading in the type-ahead demo): input/output and terminal control.
- The timing harnesses `evaluateRawArray`, `evaluateStdArray` and `evaluateStdVector`: they only time `std::sort` and print.
- The random engines and the float range computation of `generateNormalDistribution` (`mean ± 4·stdev`): the samples, and the normal range `[min, max]`, are parameters. Rounding samples up with `ceil` is folded into the samples.
- `plotDistribution`: floating-point scaling and output.
- `computeNbonacciRatio` in both files: double-precision convergence and printing.
- Nbonacci.Nbonacci: terms are unbounded integers; the overflow of `long` for large n is not modelled.
- WeightUnits.WeightCast: the cast is exact rational truncation of `count · (to.den · from.num) / (to.num · from.den)`; the source computes that ratio in `double` and multiplies the count by it. The double product can land just below an exact integer and truncate one lower even for small counts: 49 units of 1/49 gram cast to grams give 1 here, while the source computes 0.9999999999999999 and truncates to 0. Above 2^53 the count itself is rounded as a `double`. It also requires that the result fits the target count type: the source's `static_cast` of an out-of-range `double` (TemplateCode/weight.hpp:76) is undefined behaviour.
- The `double`-count units `ounce`, `pound` and `ton`: floating-point counts.
- Distributions.GetHistogramIndex: the contract bounds the index only; that it selects the right bin is proved in `IndexInBin` for numbers inside the bins. It requires the 32-bit divisor `increment + 1` to be non-zero: for one bin over 0..2^32−1 that sum wraps to 0 and the source divides by zero (`FullRangeOneBin`).
- Distributions.BuildHistogramBins: `BinsOk` rules out a zero bin count (a division by zero in the source), a reversed range with min > max, where the source's 32-bit `max - min` wraps (`generateNormalDistribution` produces one when `stdev` is 0, since max = mean − 1 < min = mean), and bins whose upper end overflows 32 bits, where the source's bounds wrap around.
- WeightUnits.CastIdentity: holds of the exact model; in the source the ratio is exactly 1.0, so it holds there only for counts up to 2^53, above which the `double` product rounds the count.
- WeightUnits.CastRoundTrip: holds of the exact model; in the source the cast back multiplies by the `double` 1/k, which can truncate one lower: a count of 1 cast to a unit 49 times smaller gives 49, and casting back computes 49 · (1/49) = 0.9999999999999999, so the source gives 0.
- Distributions.IndexInBin: it requires the increment to be below 2^32 − 1, since for one bin over 0..2^32−1 the source divides by zero instead of choosing a bin.
- Distributions.GenerateUniformDistribution: it requires no samples for one bin over 0..2^32−1, where drawing any sample divides by zero in the source.
- Distributions.GenerateNormalDistribution: it requires no samples for one bin over 0..2^32−1; every 32-bit sample lies inside that range, so drawing any sample divides by zero in the source.
- ArrayPerf: the arrays have any length rather than exactly `HOW_MANY_ELEMENTS`.
- DynamicPriorityQueue.Distance: `operator-` is an unsigned `size_t` difference; the model uses the integer difference and only ever subtracts `begin()` from a later iterator.
- The iterator's copy and move constructors and assignments: plumbing that copies or swaps the (position, storage) pair; the iterator is a value here.
- DynamicPriorityQueue.PriorityQueue.IncreaseSize: the `double` computation of the new capacity is read as the exact floor(1.25·length + 1).
- DynamicPriorityQueue.PriorityQueue.Update: requires a live iterator into this queue. For `end()` with spare storage the source writes the dead slot and `siftUp` from `size` can swap it into the live prefix, corrupting the queue; an iterator into another queue corrupts that one. Every call site passes a live iterator.
- `priority_queue::size()`: a plain field read, with no contract of its own.
- TypeAhead.WordTree.Add: the trie is an immutable value and `add` rebuilds the word's path; shared-pointer mutation of existing nodes is not modelled.
- TypeAhead.WordTree.Predict: it requires `howMany ≤ 255`, which is the range of its `std::uint8_t` parameter. No bound on the number of predictions is claimed: the source checks the cap only between rounds, and its inner break tests the queue size, so one round can overshoot. Nor is a shortest-first or completeness promise claimed: that break abandons the remaining children of the node for good, so with the words "abc" and "ac", `predict("a", 1)` gives "abc" and never reaches the shorter "ac".
- TypeAhead: words hold only the letters 'a'..'z', the only characters with child slots.
- ConwaysLife: grid dimensions lie in 1..255 and pattern dimensions in 1..255. The sizes are `std::uint8_t` in the source. With a grid width of 0, `getSizeY` reads `field[0]` of an empty vector (ConwaysLife/LifeSimulator.cpp:156), which is undefined behaviour; a pattern of size 0 placed at column or row 0, or a grid height of 0 in `insertPattern`, sets an `std::uint8_t` loop bound to 255 and the loop never ends. Sizes of 256 or more do not fit the source's types.
- ConwaysLife.LifeSimulator.GetCell: a plain cell read, with no contract of its own.
- The pattern bitmaps (`Pattern*.cpp`): constant tables; a pattern is any rectangular bitmap here.
- SmartPointer.SharedArray.UseCount: the array specialisation has no `use_count()`; the model reads its counter only to state contracts.
- SmartPointer: `operator*`, `operator->`, `get()` and `operator[]` read the object itself; the model tracks only whether each allocation is freed.
- SmartPointer: handles with different counters that name the same raw pointer (a double free in the source) are not modelled, and neither is the `size_t` counter wrapping.
- PriorityQueueScenario.UpdateScenario: the test's string values "a" to "e" are the constants of a datatype, since only their equality matters.

## Findings

| source | as written | input that shows it | evidently intended | confidence | as-written member | corrected member |
|---|---|---|---|---|---|---|
| TemplateCode/weight.hpp:32-41 | the difference is stored in the unsigned count type, so `diff < 0` never holds and a larger right operand wraps around | 4 − 11 with `std::uint32_t` counts gives 4294967289 | a difference below zero becomes 0 | not executed | WeightUnits.MinusWraps | WeightUnits.MinusClamped |
