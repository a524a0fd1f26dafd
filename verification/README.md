# Models of the hard algorithms in smart_screen

smart_screen detects and classifies electrical events in a stream of current and voltage samples. This project models
the parts of it, and of the libraries it carries along, whose correctness is not evident from reading them, and proves
what they are for.

- **Nearest neighbours.** The classifier searches the k nearest neighbours of an event with libnabo's kd-tree
  (`KdTree.dfy`, `KdTreeLayout.dfy`, `KdTreePartition.dfy`, `KdTreeShape.dfy`, `IndexHeap.dfy`, `Neighbours.dfy`). The
  tree is built by in-place partitioning into one flat node vector with packed words; the search prunes with an
  incrementally updated lower bound. `BruteForce.dfy` and `KnnSpec.dfy` prove it equal to the linear search, and within
  (1 + epsilon)^2 of it when an error is allowed; `KnnMeaning.dfy` says in coordinates, radii and flag bits what an
  answer is. `KdTreeLimits.dfy` shows where the packed words are too small. `BalancedTrees.dfy` covers the
  layout and order of the experimental balanced trees.
- **Fourier transform.** kiss_fft's recursive mixed-radix transform computes exactly the discrete Fourier transform for
  every factor list: with the generic butterfly over every commutative ring (`Rings.dfy`, `DftTheory.dfy`,
  `Butterflies.dfy`, `Fft.dfy`, and `Residues.dfy` for a finite one), with the special butterflies, which refine the
  generic one, over the complex numbers (`Complex.dfy`, `RadixTheory.dfy`, `RadixButterflies.dfy`, `KissFft.dfy`). Both
  factorisers produce one and the same list (`FftFactor.dfy`); forward and inverse transform cancel (`FftInverse.dfy`).
- **Lock-free queue and log worker.** spdlog's bounded queue is a state machine of atomic steps of any number of threads
  (`Mpmc.dfy`, `MpmcRuns.dfy`); the asynchronous logger runs on top of it (`AsyncLog.dfy`, `QuietRuns.dfy`). What
  becomes of its terminate message and flush requests is in `LostTerminate.dfy`, `FlushWait.dfy`, `FlushRequest.dfy`,
  `FlushRuns.dfy` and `FlushRefused.dfy`.
- **Stream processing.** `AsyncDataQueue.dfy` is the blocking queue between reader and analyser, `QueueCalls.dfy` what its
  calls return, `DataStream.dfy` the distributor that buffers a moving part of the stream for several workers,
  `EventDetector.dfy` the detector that reads backwards after a detection, and the metric provider.
- **Files.** `Ini.dfy` is the INI parser with the printer of its example program, `IniLines.dfy` what its lines mean,
  `IniText.dfy` the same character by character; `RotatingSink.dfy` is the rotating log file.
- `Bits.dfy` (bit operations as arithmetic) and `Wrappers.dfy` (results and options) serve the rest.

What the models show beyond the intended behaviour, each with its exact condition:

- Every detection of the event detector is followed by its event, and nothing else is emitted, exactly if something of an
  event is stored, or the sample rate is below the frequency and compare_after is 0, so that nothing is looked at
  (`EventDetector.FollowedIff`). With an empty stored event, which is the default of the meta data, a detection is lost
  and a wrong window emitted (`EventDetector.EmptyEventMisplaced`).
- Some run of the asynchronous logger loses the terminate message of its destructor, which then never returns, exactly if
  messages may be discarded and the producers have enough of them to fill the queue (`LostTerminate.TerminateLostIff`,
  `LostTerminate.LostWaitsForEver`).
- Some run of the asynchronous logger has `flush(true)` return before its request is processed exactly if some producer
  calls it (`FlushRuns.FlushFailsIff`): no policy, queue size or program makes it safe, though the comment in the code
  promises it; the model follows the code. At its return the request may be claimed but not taken, taken but not yet
  followed by a flush, or, under discard_log_msg, refused (`FlushRequest.FlushProcessedIff`); the last can happen
  exactly if enough messages to fill the queue can come before it (`FlushRefused.FlushRefusedIff`).
- With one consumer a short `popDataPoints` leaves points in the queue exactly if some were pushed between its last
  critical section and its last test of the end of the stream (`QueueCalls.ShortLeavesPointsIff`,
  `QueueCalls.PointsLeftBehind`).
- A step takes the data queue beyond its maximum in exactly two ways (`AsyncDataQueue.BoundKept`).
- A built kd-tree can be searched exactly if its nodes and leaves fit the node word (`KdTree.KdTree.ValidIff`); the
  constructor lets clouds through for which they do not, for example 66 points in 2^24 dimensions
  (`KdLimits.CreateDoubling`, `KdLimits.CreateUnsearchable`).
- A round of the distributor fails exactly if the stream has ended and some worker wants to start behind what is left
  (`DataStream.DataStreamDistributor.LoopWorkersOnce`).

`dafny verify dfyconfig.toml` checks everything.

## Model

| member | source | states |
|---|---|---|
| `StdHeap.PushHeap` | external/libnabo/nabo/index_heap.h:119 | after the push the first n entries are a heap and the same multiset |
| `StdHeap.PopHeap` | external/libnabo/nabo/index_heap.h:111 | the largest entry is moved to the back, the rest is a heap, nothing is lost |
| `StdHeap.SortHeap` | external/libnabo/nabo/index_heap.h:125 | a heap becomes ascending in place, with the same entries |
| `IndexHeap.Heap.constructor` | external/libnabo/nabo/index_heap.h:85-90 | a new heap answers like k slots without a neighbour, for both kinds of heap |
| `IndexHeap.Heap.Reset` | external/libnabo/nabo/index_heap.h:93-97 | afterwards the heap again answers k slots without a neighbour, whatever it held |
| `IndexHeap.Heap.HeadIsWorst` | external/libnabo/nabo/index_heap.h:101 | the head is the worst of the k slots, infinite while a slot is free |
| `IndexHeap.Heap.ReplaceHead` | external/libnabo/nabo/index_heap.h:106-120 | a value below the head replaces exactly one worst slot; the head never grows |
| `IndexHeap.Heap.ReplaceHeadTree` | external/libnabo/nabo/index_heap.h:106-120 | the same for the binary heap, whether it is full or still filling up |
| `IndexHeap.Heap.ReplaceHeadLinear` | external/libnabo/nabo/index_heap.h:322-334 | the same for the sorted vector: the last slot is dropped and the new entry shifted into place |
| `IndexHeap.Heap.Sort` | external/libnabo/nabo/index_heap.h:123-126 | the slots become ascending and keep their entries |
| `IndexHeap.Heap.GetData` | external/libnabo/nabo/index_heap.h:132-149 | the answer is the stored slots padded to k with empty ones, in order when the slots are |
| `IndexHeap.Heap.Offer` | external/libnabo/nabo/brute_force_cpu.cpp:90-93 | guarded by value < head, the heap holds the k best of everything offered so far, one more entry included |
| `IndexHeap.Heap.Results` | external/libnabo/nabo/kdtree_cpu.cpp:362-365 | sorting on request and reading out gives exactly what the heap held, ascending when sorted or kept sorted |
| `Neighbours.KBestReplace` | external/libnabo/nabo/index_heap.h:106-120 | replacing a worst slot by a better candidate keeps the k best of a larger offer |
| `Neighbours.KBestSkip` | external/libnabo/nabo/index_heap.h:101 | candidates that are no better than the worst slot can be skipped without harm |
| `Neighbours.KBestUnique` | external/libnabo/nabo/index_heap.h:263-369 | two sorted lists of the k best of one offer have the same distances: both heaps agree on values |
| `Neighbours.SumSqBounds` | external/libnabo/nabo/kdtree_cpu.cpp:410-419 | the sum of squared offsets is a lower bound of the squared distance to every point beyond the offsets |
| `Neighbours.SumSqUpdate` | external/libnabo/nabo/kdtree_cpu.cpp:417 | subtracting the old and adding the new square of one offset gives the sum of squares of the updated offsets |
| `Neighbours.CandidatesPermute` | external/libnabo/nabo/kdtree_cpu.cpp:380-400 | the candidates of a query do not depend on the order in which the buckets list the points |
| `Neighbours.SlotWithin` | external/libnabo/nabo/kdtree_cpu.cpp:285 | each slot of an answer that skips only stretched-out candidates is within the error factor of the exact slot |
| `NodeWord.GetStorageBitCount` | external/libnabo/nabo/kdtree_cpu.cpp:63-73 | the least b with v < 2^b, for every 64-bit v |
| `Bits.AndBits` | external/libnabo/nabo/nabo_private.h:133-137 | bit i of the modelled a & b is set exactly if it is set in both |
| `Bits.OrBits` | external/libnabo/nabo/nabo_private.h:130-132 | bit i of the modelled a | b is set exactly if it is set in one of them |
| `NodeWord.WordRoundTrip` | external/libnabo/nabo/nabo_private.h:129-137 | the packed word is the dimension plus 2^bits times the other field modulo 2^(32 - bits); the dimension is recovered always, the other field up to the bits that fit, so exactly when it fits |
| `KdLayout.DecodeNode` | external/libnabo/nabo/kdtree_cpu.cpp:372-405 | what the search reads at a node is what the tree has there, the leaf marker never taken for a cut dimension, exactly if the child index or bucket size fits the word |
| `KdLayout.DecodeTree` | external/libnabo/nabo/kdtree_cpu.cpp:217-227 | the whole tree is read back exactly if every such field fits |
| `KdLayout.JoinNodes` | external/libnabo/nabo/kdtree_cpu.cpp:217-227 | patching the split node after both recursions leaves the encoding of the whole subtree behind the untouched old nodes |
| `KdLayout.JoinBuckets` | external/libnabo/nabo/kdtree_cpu.cpp:220-223 | two built sides make an ordered subtree: everything left is at most the cut, everything right at least the cut, and the buckets are the entries of the points of the range |
| `KdLayout.BeyondChildren` | external/libnabo/nabo/kdtree_cpu.cpp:407-446 | the offsets stay valid for both children, with the new offset for the far one |
| `KdPartition.ArgMax` | external/libnabo/nabo/kdtree_cpu.cpp:79-93 | the first index of the largest positive value, 0 when no value is positive |
| `KdPartition.GetBounds` | external/libnabo/nabo/kdtree_cpu.cpp:96-110 | the attained least and greatest coordinate of the range |
| `KdPartition.PartitionPass` | external/libnabo/nabo/kdtree_cpu.cpp:152-165 | one in-place pass leaves the points of one side before those of the other, as a permutation inside the range |
| `KdPartition.PartitionAround` | external/libnabo/nabo/kdtree_cpu.cpp:152-180 | the two passes leave three runs: below, equal to and above the cut |
| `KdPartition.LeftCountFits` | external/libnabo/nabo/kdtree_cpu.cpp:182-208 | 0 < leftCount < count in all five cases, and the split falls on the run of equal points |
| `KdPartition.SplitPoints` | external/libnabo/nabo/kdtree_cpu.cpp:140-208 | the cut is the ideal one moved between the attained bounds, the split count is chosen by where the runs end; no point lies on the wrong side, both sides get a point, cells outside the range are kept |
| `KdTree.KdTree.Create` | external/libnabo/nabo/kdtree_cpu.cpp:230-274 | each error exactly for its arguments, the refused estimate included, else a tree whose nodes encode an ordered tree over all points, for any initial bounds |
| `KdTree.KdTree.ValidIff` | external/libnabo/nabo/kdtree_cpu.cpp:248-253 | the built tree can be searched exactly if its leaves and, when it has a split, its number of nodes fit the node word; 2n - 1 fitting is enough |
| `KdLimits.CreateDoubling` | external/libnabo/nabo/kdtree_cpu.cpp:248-253 | n points on an axis of any number of dimensions with doubling distances are accepted exactly for n below 2^(32 - bits), but their tree has 2n - 3 nodes and is searchable only while that is at most 2^(32 - bits): the estimate is too low |
| `KdLimits.CreateUnsearchable` | external/libnabo/nabo/kdtree_cpu.cpp:248-253 | in 2^c dimensions such clouds from 2^(30 - c) + 2 points on are accepted and cannot be searched; with c = 24 from 66 points on, which single-precision numbers hold |
| `KdLimits.FirstIsLongest` | external/libnabo/nabo/kdtree_cpu.cpp:136-137 | the axis of the points is the longest side of every box with at least three of them |
| `KdLimits.DoublingNodes` | external/libnabo/nabo/kdtree_cpu.cpp:136-228 | every cut of such a cloud splits off a single point |
| `KdShape.JoinFollows` | external/libnabo/nabo/kdtree_cpu.cpp:136-220 | two subtrees on the sides of a cut of the longest side of their box are again a tree in which every split cuts a longest side, the first one, as near to the middle and to halves as its points allow |
| `KdShape.ChosenIsCut` | external/libnabo/nabo/kdtree_cpu.cpp:140-208 | the clamped cut and the five-way choice of the count mean: if all points lie on one side of the middle, the cut is at the nearest of them and that one point is split off; else the cut is the middle and each side gets half the points, or as near to half as the points on the cut allow |
| `KdShape.LeavesInBuckets` | external/libnabo/nabo/kdtree_cpu.cpp:120 | no leaf holds more points than a bucket |
| `KdTree.KdTree.BuildSingleBucket` | external/libnabo/nabo/kdtree_cpu.cpp:239-246 | a small cloud becomes one leaf over all points |
| `KdTree.KdTree.BuildAll` | external/libnabo/nabo/kdtree_cpu.cpp:255-273 | the buckets are a permutation of all points, and the box that is cut first is that of the cloud and the initial bounds |
| `KdTree.KdTree.Partition` | external/libnabo/nabo/kdtree_cpu.cpp:136-208 | the cut dimension has the longest side of the box, the first of that length, and the cut is as near to its middle and to halves as the points allow |
| `KdTree.KdTree.CutDimension` | external/libnabo/nabo/kdtree_cpu.cpp:136 | the first dimension in which maxValues - minValues is largest and positive, told by the bounds alone; 0 when no side has a length |
| `KdTree.KdTree.BuildNodes` | external/libnabo/nabo/kdtree_cpu.cpp:112-228 | the call returns the old node count, appends only nodes that encode the ordered subtree of its points, in which every split cuts the longest side of its box near the middle; it permutes only its index range, and terminates |
| `KdTree.KdTree.BuildLeaf` | external/libnabo/nabo/kdtree_cpu.cpp:120-134 | a leaf lists the entries of its index range in order |
| `KdTree.KdTree.RootSearchable` | external/libnabo/nabo/kdtree_cpu.cpp:343-352 | all offsets 0 are valid for the root, and the candidates below it are those of the cloud |
| `KdTree.KdTree.SearchBucket` | external/libnabo/nabo/kdtree_cpu.cpp:375-401 | the heap holds the k best of all offered before and of the accepted points of the bucket |
| `KdTree.KdTree.RecurseKnn` | external/libnabo/nabo/kdtree_cpu.cpp:369-449 | every candidate below the node is offered or skipped for good reason, the offsets are restored, rd is their sum of squares throughout |
| `KdTree.KdTree.VisitSides` | external/libnabo/nabo/kdtree_cpu.cpp:407-446 | the same across a cut, whichever side comes first |
| `KdTree.KdTree.VisitFar` | external/libnabo/nabo/kdtree_cpu.cpp:417-427 | the far side is pruned only when each of its candidates is out of the radius or, stretched by the error factor, no better than the head |
| `KdTree.KdTree.OnePointKnn` | external/libnabo/nabo/kdtree_cpu.cpp:340-367 | the answer approximates the k nearest accepted points of the whole cloud |
| `KdTree.KdTree.Knn` | external/libnabo/nabo/kdtree_cpu.cpp:308-338 | the argument error, which follows from k, the flag bits and the sizes; or for every query k slots: filled ones name different points of the cloud, each with the sum of its squared coordinate differences, inside the radius and no forbidden self match; no such point left out is nearer than any slot, even when its squared distance is stretched by (1 + epsilon)^2; a slot is empty only when none is left out; ascending when bit 1 of the flags is set |
| `KnnMeaning.DistanceIs` | external/libnabo/nabo/kdtree_cpu.cpp:380-391 | the distance compared is the last of the running totals of the squared coordinate differences, and nothing else |
| `KnnMeaning.OneCoordinate` | external/libnabo/nabo/kdtree_cpu.cpp:380-391 | changing one coordinate of a point exchanges just its square in the distance |
| `KnnMeaning.AnswerMeans` | external/libnabo/nabo/kdtree_cpu.cpp:340-367 | an answer that approximates the accepted candidates of a query lists the nearest points of the cloud in these terms |
| `KnnMeaning.RequestMeans` | external/libnabo/nabo/kdtree_cpu.cpp:308-338 | for every column of a request, with the radius squared once, the self match by bit 0 of the flags and the order by bit 1 |
| `KnnMeaning.ErrorMeans` | external/libnabo/nabo/nabo.cpp:84-112 | which error the arguments get: too many points for the cloud, one fewer without bit 0, too few rows, as many radii as queries, flags above 3, in this order |
| `KnnSpec.ExactWithoutError` | external/libnabo/nabo/kdtree_cpu.cpp:418-419 | with epsilon 0 an answer is exactly the k best |
| `KnnSpec.WithinFactor` | external/libnabo/nabo/kdtree_cpu.cpp:285 | the i-th returned squared distance is between the true i-th one and (1 + epsilon)^2 times it |
| `KnnSpec.SlotIsPoint` | external/libnabo/nabo/kdtree_cpu.cpp:394-398 | a filled slot names a point of the cloud at its true squared distance, within the radius and not a forbidden self match |
| `KnnSpec.EmptySlotMeansAll` | external/libnabo/nabo/kdtree_cpu.cpp:394-398 | a slot stays empty only when every accepted point is in the answer: the radius prune loses none |
| `KnnSpec.SearchedByPruning` | external/libnabo/nabo/kdtree_cpu.cpp:417-419 | a subtree whose lower bound fails the test may be left out |
| `KnnSpec.ExactAnswersAgree` | external/libnabo/nabo/brute_force_cpu.cpp:79-98 | two sorted exact answers list the same distances for every query |
| `KnnSpec.AnswerWithin` | external/libnabo/nabo/kdtree_cpu.cpp:285 | a whole answer with error is slot by slot within the factor of an exact one |
| `BruteForce.BruteForceSearch.Knn` | external/libnabo/nabo/brute_force_cpu.cpp:71-103 | the same as for the kd-tree with no error factor: the argument error, or for every query the k nearest points by coordinates, radius and flag bits |
| `BruteForce.BruteForceSearch.OnePoint` | external/libnabo/nabo/brute_force_cpu.cpp:86-97 | offering every point once leaves the exact k best of the cloud |
| `BruteForce.Validate` | external/libnabo/tests/knnvalidate.cpp:154-215 | kd-tree and linear search fail alike; with epsilon 0 they list the same distances, else the kd-tree is within the factor |
| `BalancedTrees.GetTreeSizeInNodes` | external/libnabo/experimental/kdtree_cpu.cpp:62-77 | 2^bits(n) - 1 for every n below 2^31 |
| `BalancedTrees.GetTreeSizeInLeaves` | external/libnabo/experimental/kdtree_cpu.cpp:369-387 | 2^(bits(n - 1) + 1) - 1 for every n from 1 below 2^31 |
| `BalancedTrees.Put` | external/libnabo/experimental/kdtree_cpu.cpp:95 | a slot is written only while it is empty, so never twice |
| `BalancedTrees.RoomBelow` | external/libnabo/experimental/kdtree_cpu.cpp:116-130 | a subtree of the computed height fits below its slot |
| `BalancedTrees.BuildPair` | external/libnabo/experimental/kdtree_cpu.cpp:131-135 | two points take a node and a leaf, and the right slot is marked invalid |
| `BalancedTrees.BuildInNodes` | external/libnabo/experimental/kdtree_cpu.cpp:88-136 | only slots below the position are written, all inside the array; they hold each point of the range exactly once; below every node the left points are at most its coordinate, the right ones at least, and the left has as many points as the right or one more |
| `BalancedTrees.BuildInLeaves` | external/libnabo/experimental/kdtree_cpu.cpp:389-449 | the same with the points in the leaves, on either side of a cut value that is the coordinate of a point on the right |
| `BalancedTrees.CreateInNodes` | external/libnabo/experimental/kdtree_cpu.cpp:187-189 | an array of getTreeSize(n) slots holds every point exactly once, in search order |
| `BalancedTrees.CreateInLeaves` | external/libnabo/experimental/kdtree_cpu.cpp:466-468 | the same for the tree with points in leaves |
| `DftTheory.CombineIsDft` | external/kiss_fft/kiss_fft.c:213-234 | over every commutative ring: the generic butterfly of the transforms of the p decimated inputs is the transform of the whole input |
| `Butterflies.NextTwiddle` | external/kiss_fft/kiss_fft.c:226-227 | the running twiddle index is (fstride k q) mod nfft, so one conditional subtraction reduces it |
| `Butterflies.StepFits` | external/kiss_fft/kiss_fft.c:226 | fstride k stays below nfft in every row of every column |
| `Butterflies.SumInto` | external/kiss_fft/kiss_fft.c:222-230 | one output cell becomes the twiddled sum of the scratch column, all other cells are kept |
| `Butterflies.GenericColumn` | external/kiss_fft/kiss_fft.c:213-233 | every cell of a column gets its sum of the old column; the other columns are kept |
| `Butterflies.Generic` | external/kiss_fft/kiss_fft.c:197-235 | the whole block is replaced column by column, nothing outside is touched |
| `RadixTheory.SecondRoot` | external/kiss_fft/kiss_fft.c:31-41 | a square root of 1 other than 1 is -1 |
| `RadixTheory.ThirdRoot` | external/kiss_fft/kiss_fft.c:104-130 | a third root of 1 other than 1 has real part -1/2 and its square is its conjugate |
| `RadixTheory.FifthRoot` | external/kiss_fft/kiss_fft.c:149-191 | for a fifth root of 1 the fourth and third powers are the conjugates of the first and second |
| `RadixTheory.CombineIsSmall` | external/kiss_fft/kiss_fft.c:222-230 | the generic sum is a transform of length p of the twiddled column |
| `RadixTheory.Radix2` | external/kiss_fft/kiss_fft.c:35-38 | the outputs computed for radix 2 are the transform of the two twiddled values |
| `RadixTheory.Radix3` | external/kiss_fft/kiss_fft.c:111-130 | the outputs computed for radix 3 are the transform of the three twiddled values |
| `RadixTheory.Radix4` | external/kiss_fft/kiss_fft.c:63-87 | the outputs computed for radix 4, forward and inverse, are the transform of the four twiddled values |
| `RadixTheory.Radix5` | external/kiss_fft/kiss_fft.c:163-191 | the outputs computed for radix 5 are the transform of the five twiddled values |
| `RadixButterflies.QuarterTurn` | external/kiss_fft/kiss_fft.c:77-87 | the root of a radix-4 butterfly is i for the inverse transform and -i else |
| `RadixButterflies.Radix2` | external/kiss_fft/kiss_fft.c:21-42 | the radix-2 butterfly leaves the array that the generic one leaves |
| `RadixButterflies.Radix3` | external/kiss_fft/kiss_fft.c:92-134 | the radix-3 butterfly leaves the array that the generic one leaves |
| `RadixButterflies.Radix4` | external/kiss_fft/kiss_fft.c:44-90 | the radix-4 butterfly leaves the array that the generic one leaves |
| `RadixButterflies.Radix5` | external/kiss_fft/kiss_fft.c:136-195 | the radix-5 butterfly leaves the array that the generic one leaves |
| `RadixButterflies.Turn3` | external/kiss_fft/kiss_fft.c:111-130 | the in-place arithmetic on one column writes the three outputs and nothing else |
| `RadixButterflies.Turn4` | external/kiss_fft/kiss_fft.c:63-87 | the in-place arithmetic on one column writes the four outputs and nothing else |
| `RadixButterflies.Turn5` | external/kiss_fft/kiss_fft.c:161-191 | the in-place arithmetic on one column writes the five outputs and nothing else |
| `Fft.GenericRows` | external/kiss_fft/kiss_fft.c:276-290 | after copying or p recursive calls, block q holds the transform of the inputs with index q modulo p |
| `Fft.GenericWork` | external/kiss_fft/kiss_fft.c:237-302 | over every commutative ring with a root w, w^nfft = 1, and for every factor list: kf_work with the generic butterfly leaves exactly the discrete Fourier transform of the strided input in the output block, and nothing else changes |
| `Complex.CpxLaws` | external/kiss_fft/_kiss_fft_guts.h:87-110 | the complex numbers of the transform are a commutative ring |
| `Residues.LengthFifteen` | external/kiss_fft/kiss_fft.c:197-235 | the assumptions can be met with radices 3 and 5: modulo 31 the powers of 9 are twiddles for the factors of 15 |
| `KissFft.Rows` | external/kiss_fft/kiss_fft.c:276-290 | the same rows for the transform with all its butterflies |
| `KissFft.Butterfly` | external/kiss_fft/kiss_fft.c:295-301 | whichever butterfly the radix selects, the block becomes what the generic one makes of it |
| `Fft.SweptIsDft` | external/kiss_fft/kiss_fft.c:294-301 | the butterfly over all columns turns the p transforms into the transform of the block |
| `KissFft.KfWork` | external/kiss_fft/kiss_fft.c:237-302 | for every factor list of nfft and every principal root of the complex numbers the output block is exactly the discrete Fourier transform of the strided input, whichever butterflies run, and nothing else changes |
| `FftFactor.KfFactor` | external/kiss_fft/kiss_fft.c:308-330 | terminates, and its list is the chain of radices 4 or least prime factor |
| `FftFactor.Prepare` | external/kiss_fft/kissfft.hh:29-46 | terminates, and its two lists interleave to the same chain, though it gives up at another bound |
| `FftFactor.ChainFactors` | external/kiss_fft/kiss_fft.c:304-307 | each radix times its remainder is the length of the stage, the last remainder is 1: the list suits the transform |
| `FftFactor.ChainRadices` | external/kiss_fft/kiss_fft.c:315 | every radix is 4 when 4 divides what is left of the length, else the least prime factor of what is left; radix and remainder multiply to what was left |
| `FftFactor.ChainFitsArray` | external/kiss_fft/kiss_fft.c:308-330 | no length below 2^31 has more than 30 stages, so 32 pairs suffice |
| `FftFactor.NoMoreFactors` | external/kiss_fft/kiss_fft.c:323-324 | once the square of the next radix exceeds the rest, the rest has no proper factor |
| `KissFft.KissFftStride` | external/kiss_fft/kiss_fft.c:371-383 | the transform of the input, also when input and output are the same array |
| `KissFft.KissFft` | external/kiss_fft/kiss_fft.c:385-388 | with the factors of kf_factor the output is the transform of the input |
| `KissFft.QuarterTurnsArePrincipal` | external/kiss_fft/kiss_fft.c:357-363 | roots that the transform assumes exist in both directions: for length 4 |
| `KissFft.ThirdRootIsPrincipal` | external/kiss_fft/kiss_fft.c:357-363 | for length 3, given a square root of 3 |
| `KissFft.FifthRootIsPrincipal` | external/kiss_fft/kiss_fft.c:357-363 | for length 5, given the cosine and the sine of its angle by their equations |
| `FftInverse.DftInverse` | external/kiss_fft/kiss_fft.c:357-363 | over every integral domain: transforming with a primitive root and then with its inverse gives nfft times the input |
| `KissFft.ThereAndBack` | external/kiss_fft/kiss_fft.c:371-383 | running the forward and then the inverse transform leaves nfft times the input |
| `Mpmc.AcceptedSizes` | external/spdlog/include/spdlog/details/mpmc_bounded_q.h:68 | the constructor's test accepts exactly the powers of two from 2 on |
| `Mpmc.SlotIsRemainder` | external/spdlog/include/spdlog/details/mpmc_bounded_q.h:89 | pos & mask is pos modulo the size |
| `Mpmc.Create` | external/spdlog/include/spdlog/details/mpmc_bounded_q.h:62-75 | an error exactly for a size that is no power of two from 2 on; else cell i waits for ticket i |
| `Mpmc.InitialInv` | external/spdlog/include/spdlog/details/mpmc_bounded_q.h:62-75 | a new queue satisfies the invariant |
| `Mpmc.EnqSeqInv` | external/spdlog/include/spdlog/details/mpmc_bounded_q.h:90-104 | each outcome of the three-way test keeps the invariant: the compare-exchange is tried only when the cell waits for that ticket |
| `Mpmc.ClaimToWriteInv` | external/spdlog/include/spdlog/details/mpmc_bounded_q.h:94 | a successful compare-exchange gives the ticket and its cell to one thread |
| `Mpmc.WriteDataInv` | external/spdlog/include/spdlog/details/mpmc_bounded_q.h:106 | writing the data keeps the invariant |
| `Mpmc.PublishInv` | external/spdlog/include/spdlog/details/mpmc_bounded_q.h:107 | publishing hands the cell to the consumers |
| `Mpmc.DeqSeqInv` | external/spdlog/include/spdlog/details/mpmc_bounded_q.h:118-129 | each outcome of the three-way test of dequeue keeps the invariant |
| `Mpmc.ClaimToReadInv` | external/spdlog/include/spdlog/details/mpmc_bounded_q.h:123 | a successful compare-exchange gives a published cell to one consumer |
| `Mpmc.ReadDataInv` | external/spdlog/include/spdlog/details/mpmc_bounded_q.h:131 | what a consumer moves out is the item of its ticket |
| `Mpmc.ReleaseInv` | external/spdlog/include/spdlog/details/mpmc_bounded_q.h:132 | releasing hands the cell to the ticket one round later |
| `Mpmc.StepInv` | external/spdlog/include/spdlog/details/mpmc_bounded_q.h:83-134 | every atomic step of every thread keeps the invariant, spurious failures included |
| `MpmcRuns.RunInv` | external/spdlog/include/spdlog/details/mpmc_bounded_q.h:83-134 | every reachable state satisfies the invariant |
| `MpmcRuns.SingleOwner` | external/spdlog/include/spdlog/details/mpmc_bounded_q.h:94-107 | in every reachable state two threads between compare-exchange and release use different cells |
| `MpmcRuns.DeliveredOnce` | external/spdlog/include/spdlog/details/mpmc_bounded_q.h:123-133 | in every run each delivery hands out the item enqueued with its ticket, and no ticket is delivered twice |
| `MpmcRuns.TicketOrder` | external/spdlog/include/spdlog/details/mpmc_bounded_q.h:123 | in every run the consumers claim the tickets in order and leave none out |
| `MpmcRuns.FirstInFirstOut` | external/spdlog/include/spdlog/details/mpmc_bounded_q.h:123-133 | in every run the i-th claim of a consumer is for the i-th item enqueued, there are no more such claims than items, and the claiming thread hands out just that item or is about to |
| `MpmcRuns.PhaseAdvances` | external/spdlog/include/spdlog/details/mpmc_bounded_q.h:83-134 | a ticket goes unclaimed, written, published, read, released, one phase at a time and never back |
| `MpmcRuns.PhaseHasOwner` | external/spdlog/include/spdlog/details/mpmc_bounded_q.h:94-133 | a ticket in the writing or reading phase has exactly one thread working on it |
| `MpmcRuns.PublishedKept` | external/spdlog/include/spdlog/details/mpmc_bounded_q.h:106-107 | a published item stays in its cell until the consumer of its ticket moves it out |
| `MpmcRuns.WithinOneRound` | external/spdlog/include/spdlog/details/mpmc_bounded_q.h:132 | unreleased tickets lie within one round of the buffer |
| `MpmcRuns.EnqueueFails` | external/spdlog/include/spdlog/details/mpmc_bounded_q.h:97-100 | enqueue returns false only if, at its load, the ticket one round back is not yet released |
| `MpmcRuns.DequeueFails` | external/spdlog/include/spdlog/details/mpmc_bounded_q.h:126-127 | dequeue returns false only if, at its load, the next ticket is not published |
| `MpmcRuns.QuietPhases` | external/spdlog/include/spdlog/details/mpmc_bounded_q.h:83-134 | between calls the queue is a bounded sequence of published items |
| `MpmcRuns.QuietEnqueue` | external/spdlog/include/spdlog/details/mpmc_bounded_q.h:86-105 | a lone enqueue is refused exactly when the queue is full |
| `MpmcRuns.QuietDequeue` | external/spdlog/include/spdlog/details/mpmc_bounded_q.h:114-130 | a lone dequeue finds nothing exactly when the queue is empty |
| `MpmcRuns.QuietSize` | external/spdlog/include/spdlog/details/mpmc_bounded_q.h:136-144 | between calls approx_size is exact |
| `AsyncLog.MoveKeeps` | external/spdlog/include/spdlog/details/async_log_helper.h:234-340 | every step of producers, destructor and worker keeps the invariant |
| `AsyncLog.WorkerExit` | external/spdlog/include/spdlog/details/async_log_helper.h:257-327 | when the worker has left its loop the queue is empty, every item was taken once in queue order, the last act was a flush of the sinks, all pushing is over, and under block_retry each producer's program was enqueued completely and in order |
| `QuietRuns.PushOne` | external/spdlog/include/spdlog/details/async_log_helper.h:234-247 | a lone push_msg enqueues its message exactly if the queue has room, and moves on to the next message unless it was refused under block_retry |
| `QuietRuns.TakeOne` | external/spdlog/include/spdlog/details/async_log_helper.h:285-340 | a lone dequeue of the worker takes the next message of a queue that is not empty |
| `LostTerminate.TerminateLostIff` | external/spdlog/include/spdlog/details/async_log_helper.h:213-247 | some run of a new logger loses the terminate message of the destructor exactly if messages may be discarded and the producers' programs hold at least as many messages as the queue has cells |
| `LostTerminate.MoveBounded` | external/spdlog/include/spdlog/details/async_log_helper.h:234-247 | the items come out of the programs, and the destructor gives up only on a full queue |
| `LostTerminate.LosesWhenFull` | external/spdlog/include/spdlog/details/async_log_helper.h:234-247 | the run that loses it: the producers push one after the other, then the destructor |
| `LostTerminate.LostWaitsForEver` | external/spdlog/include/spdlog/details/async_log_helper.h:213-225 | after such a run the worker never leaves its loop, whatever the threads do: the join in the destructor does not return |
| `AsyncLog.RefusedTerminateIsLost` | external/spdlog/include/spdlog/details/async_log_helper.h:215-225 | under discard_log_msg a terminate message refused by the queue is gone |
| `AsyncLog.RetryKeepsTerminate` | external/spdlog/include/spdlog/details/async_log_helper.h:234-247 | under block_retry no run loses the terminate message |
| `FlushWait.WaitedForClaim` | external/spdlog/include/spdlog/details/async_log_helper.h:249-255 | whenever approx_size() is 0 every item but at most the last has been taken, and that one exactly when the worker is not in the middle of its dequeue |
| `FlushWait.PendingMeans` | external/spdlog/include/spdlog/details/async_log_helper.h:257-340 | the flag of the worker says whether some taken request has not been followed by a flush |
| `FlushWait.WorkerAnswers` | external/spdlog/include/spdlog/details/async_log_helper.h:285-340 | in every run, when dequeue finds nothing the worker flushes exactly if some request has no flush yet or the periodic one is due, and stays active exactly if it has not taken the terminate message; when it takes a message it stays active and does not flush |
| `FlushWait.EnqueuedAnswered` | external/spdlog/include/spdlog/details/async_log_helper.h:249-255 | whenever approx_size() is 0, all enqueued flush requests have been taken and followed by a flush of the sinks exactly if no flush is pending and the worker is not in the middle of dequeuing a request |
| `FlushRequest.MoveLast` | external/spdlog/include/spdlog/details/async_log_helper.h:234-247 | every step keeps: a producer works off its program, and its last ticket belongs to the message it writes or has just enqueued |
| `FlushRequest.FlushProcessedIff` | external/spdlog/include/spdlog/details/async_log_helper.h:249-255 | when flush(true) of a producer returns, its request is taken and followed by a flush of the sinks exactly if it was not refused, is not being dequeued, and does not await the next flush; without a later request, exactly if it was not refused, is not being dequeued, and no flush is pending; under block_retry it is never refused |
| `FlushRuns.FlushFailsIff` | external/spdlog/include/spdlog/details/async_log_helper.h:249-255 | some run of a new logger has flush(true) return before its request is processed exactly if some producer calls flush: under every policy, number of cells and programs |
| `FlushRuns.FlushTooEarly` | external/spdlog/include/spdlog/details/async_log_helper.h:374-381 | for every flush request of a producer a run that ends so: the worker has only claimed the request when approx_size() is 0 |
| `FlushRefused.FlushRefusedIff` | external/spdlog/include/spdlog/details/async_log_helper.h:234-255 | some run of a new logger has a flush request refused and flush(true) return all the same exactly if messages may be discarded and some request can have as many messages before it, all those of other producers included, as the queue has cells |
| `AsyncDataQueue.StepConserves` | data_loader/src/AsyncDataQueue.h:178-278 | a critical section only removes from the front and appends to the back |
| `AsyncDataQueue.Conserved` | data_loader/src/AsyncDataQueue.h:178-278 | in every run what was there and was pushed is what was removed followed by what is left |
| `AsyncDataQueue.FirstInFirstOut` | data_loader/src/AsyncDataQueue.h:252-268 | in every run without discarding, the popped chunks followed by the queue are the pushed chunks |
| `AsyncDataQueue.BoundKept` | data_loader/src/AsyncDataQueue.h:178-224 | a step takes the size beyond the maximum exactly when the maximum is lowered below the size or a single point is added to a full queue after the end of the stream |
| `AsyncDataQueue.SizeBounded` | data_loader/src/AsyncDataQueue.h:171-224 | in every run without such steps the size stays within the maximum |
| `AsyncDataQueue.OverfullTakesAll` | data_loader/src/AsyncDataQueue.h:185-187 | after the end of the stream an overfull queue takes all remaining points of a call, as the unsigned difference wraps round |
| `QueueCalls.BookKept` | data_loader/src/AsyncDataQueue.h:178-278 | every step keeps what is recorded of each call: what a thread has got or added is the join of the chunks of its critical sections |
| `QueueCalls.CallsKeepPromise` | data_loader/src/AsyncDataQueue.h:178-278 | of every call that ends in any run from idle threads: a pop hands out the chunks of its critical sections in order, at most what it wants; short only if its last test found the stream ended and its last section emptied the queue; nothing only if that section found the queue empty and the stream ended; an add has pushed a prefix of its points, at least one in every section before the end of the stream, short only if its last test found the stream ended; neither goes on after such a test; an add of one point has pushed it; a removal has taken as many as asked or all there were at the end; and the stream is found ended exactly if an action before has ended it and none has restarted it since |
| `QueueCalls.StreamEndedIff` | data_loader/src/AsyncDataQueue.h:109-129 | in every run stream_ended holds exactly if some notifyStreamEnd or discardRestOfStream, or the start, has no restartStreaming after it |
| `QueueCalls.DiscardEmpties` | data_loader/src/AsyncDataQueue.h:124-129 | after discardRestOfStream the queue is empty |
| `QueueCalls.MaximumIsLastSet` | data_loader/src/AsyncDataQueue.h:171-175 | in every run the maximum is the one set last |
| `QueueCalls.WaitsIff` | data_loader/src/AsyncDataQueue.h:178-278 | a thread inside a call waits exactly if the stream goes on and it adds to a full queue, pops from an empty one, or removes more points than there are |
| `QueueCalls.NoMutualWait` | data_loader/src/AsyncDataQueue.h:178-268 | an adding and a popping thread never both wait, unless the maximum is 0 |
| `QueueCalls.ShortLeavesPointsIff` | data_loader/src/AsyncDataQueue.h:252-268 | in every run with one consumer a short pop leaves exactly what was pushed after its last critical section, so it leaves points in the queue exactly if some push between that section and its last test of the end was not empty |
| `QueueCalls.PointsLeftBehind` | data_loader/src/AsyncDataQueue.h:266 | such a run: a pop returns short although the missing point is in the queue |
| `DataStream.NextCall` | event_detector/src/DataStreamWorker.h:21-33 | an honest worker called as it asked answers within the contract, and gets further |
| `DataStream.DataStreamDistributor.AddWorker` | event_detector/src/DataStreamDistributor.h:94-99 | a new worker is called without data at the start of the buffer; nothing changes for the others |
| `DataStream.DataStreamDistributor.DataPointsNeededForNextRun` | event_detector/src/DataStreamDistributor.h:177-187 | the largest request end, less the end of the buffer |
| `DataStream.DataStreamDistributor.ReadBufferForNextRun` | event_detector/src/DataStreamDistributor.h:145-159 | fails exactly if every request ends before the end of the buffer; else the buffer is extended by just the next points of the stream up to the largest request, or to what an ended stream still gives |
| `DataStream.DataStreamDistributor.GetIndexInLocalBufferForRead` | event_detector/src/DataStreamDistributor.h:131-143 | the index of the next read, 0 for a read before the buffer |
| `DataStream.DataStreamDistributor.ExecuteWorkerOnce` | event_detector/src/DataStreamDistributor.h:120-129 | one worker gets exactly the part of the stream it asked for; nothing it may ask for is missing afterwards |
| `DataStream.DataStreamDistributor.ExecuteWorkerWhileDataInBuffer` | event_detector/src/DataStreamDistributor.h:101-112 | fails exactly if the next read starts behind the buffer; else terminates, with the worker's next request beyond the buffer, and the result says whether it was called |
| `DataStream.DataStreamDistributor.RunWorkers` | event_detector/src/DataStreamDistributor.h:85-89 | fails exactly if some next read starts behind the buffer; else every worker runs as far as the buffer goes, was called exactly if the buffer held its request, and the result says whether any was |
| `DataStream.DataStreamDistributor.FreeUnusedBuffer` | event_detector/src/DataStreamDistributor.h:161-175 | the buffer then starts exactly at the earliest point that a worker may still ask for |
| `DataStream.DataStreamDistributor.LoopWorkersOnce` | event_detector/src/DataStreamDistributor.h:80-92 | when some request reaches the end of the buffer, as after every AddWorker and every round, it fails exactly if the stream has ended and some worker wants to start behind what is left; else the buffer equals its part of the stream, every call so far got just what was asked for, exactly the points needed or left were read and exactly those no longer needed were freed; while the stream goes on every worker ran, afterwards those whose request was in the buffer |
| `MetricProvider.ProviderIsHonest` | smart_app/src/MetricProvider.h:43-83 | the metric provider meets the read contract exactly when the sample rate is positive |
| `MetricProvider.SecondBySecond` | smart_app/src/MetricProvider.h:43-83 | it is called with sample_rate points at a time, each call starting sample_rate points after the one before, and never goes back |
| `EventDetector.EventDetector.WorkOnDataPoints` | event_detector/src/EventDetector.h:26-48 | called as it asked to be, the detector answers within the read contract, no assertion fails and createEvent does not throw; the call after a detection, and no other, emits an event, which is the full data asked for; after a detection at chunk id d it asks for all stored points from p - stored before points behind d, where p * frequency <= sample_rate < (p + 1) * frequency; else for the larger of 4 p and compare_after, and p; it detects exactly when five values are remembered, none is awaited and the comparison says so |
| `EventDetector.PeriodIs` | data_loader/src/PowerMetaData.h:25-27 | a period has p points with p * frequency <= sample_rate < (p + 1) * frequency, which is positive exactly if sample_rate reaches frequency |
| `EventDetector.Serve` | event_detector/src/EventDetector.h:26-48 | a detector that is created and then called as it asks for any number of calls: nothing fails, and its events are full parts of the stream with disjoint parts after the detections |
| `EventDetector.EventDetector.Detect` | event_detector/src/EventDetector.h:135-158 | the decision, the length of previous_rms and the assertions of one comparison, for a period of p points by the same inequality |
| `EventDetector.AlwaysConsistent` | event_detector/src/EventDetector.h:26-179 | in every run as the detector asked for it no assertion fails, createEvent never throws and previous_rms has 0 or 5 entries |
| `EventDetector.DetectorIsHonest` | event_detector/src/EventDetector.h:62-116 | the detector meets the read contract with its backward read, and gets through any finite part of the stream in finitely many calls |
| `EventDetector.HonestIff` | event_detector/src/EventDetector.h:62-116 | it does so for every decision exactly when something of an event is stored and sample_rate reaches frequency or compare_after is positive |
| `EventDetector.DetectionIsEmitted` | event_detector/src/EventDetector.h:35-45 | a detection is followed by its event, in full length, from p points behind the detecting chunk less the points stored before it, with p * frequency <= sample_rate < (p + 1) * frequency; no event comes without a detection |
| `EventDetector.EventsApart` | event_detector/src/EventDetector.h:76-87 | the parts after the detections of the emitted events are disjoint and increasing, and every event has full length |
| `EventDetector.FollowedIff` | event_detector/src/EventDetector.h:31-45 | every detection, and nothing else, is followed by its full event, for every decision and every history of calls as asked, exactly if something of an event is stored, or sample_rate is below frequency and compare_after is 0 |
| `EventDetector.EmptyEventMisplaced` | event_detector/src/EventDetector.h:31-39 | with nothing to store, after any history of calls as asked, a detection is dropped and the next window is emitted in its place |
| `EventDetector.EventsOfDistributor` | event_detector/src/DataStreamDistributor.h:120-129 | a served detector emits the true parts of the stream around its detections |
| `Ini.RStrip` | external/inih/ini.c:27-34 | the string up to its last character other than space, tab, newline, vertical tab, form feed and carriage return |
| `Ini.LSkip` | external/inih/ini.c:36-42 | the string from its first such character on |
| `Ini.FindCharsOrComment` | external/inih/ini.c:44-62 | the first place with one of the characters or with a semicolon behind one of the six white space characters, else the end |
| `Ini.Fgets` | external/inih/ini.c:100 | the text up to and with the next newline, at most num - 1 characters, else the rest |
| `IniLines.LineHasKind` | external/inih/ini.c:101-161 | every line is blank, a comment, a continuation, a section, a pair, or bad: told by the parts it is made of |
| `IniLines.LineDoes` | external/inih/ini.c:101-161 | whatever kind a line is of, the parser does what that kind stands for: nothing, a call for the previous name, a new section, a call for the name and value, or an error |
| `IniText.CarriageReturn` | external/inih/ini.c:27-34 | a carriage return before the newline makes no difference to what the parser does with a line |
| `IniText.PairLine` | external/inih/ini.c:138-156 | a name and value with any of the six white space characters around name, separator and value, and perhaps a comment after them, give one call with just that name and value; of the name 49 characters are remembered |
| `IniText.SectionLine` | external/inih/ini.c:125-132 | a section line sets the section to the first 49 characters of the name and forgets the last name, whatever follows the bracket |
| `IniText.ContinuationLine` | external/inih/ini.c:118-124 | an indented line after a name is a call for that name with the line, stripped on both sides, as its value |
| `IniText.CommentLine` | external/inih/ini.c:113-116 | a line that starts with a semicolon or a hash sign does nothing |
| `IniText.BlankLine` | external/inih/ini.c:111-138 | a line of white space does nothing |
| `IniText.LineWithoutSeparator` | external/inih/ini.c:157-160 | any other line without separator sets the error, if none is set |
| `IniText.BomSkipped` | external/inih/ini.c:104-110 | a byte order mark at the start of the first line is skipped |
| `IniText.LinesAre` | external/inih/ini.c:100 | the lines of a text: up to and with a newline, 199 characters, or the end, and each up to its first NUL |
| `IniLines.LineError` | external/inih/ini.c:121-159 | a line sets the error exactly if none is set and the line is bad or its entry is rejected by the handler |
| `Ini.ParseStream` | external/inih/ini.c:73-174 | the calls and the result are those of the lines in turn |
| `IniLines.ResultIsFirstBadLine` | external/inih/ini.c:73-174 | the result of a whole parse is 0 if no line is bad, else the least number of a bad line |
| `Ini.Dumper.Dump` | external/inih/examples/ini_dump.c:7-19 | character by character what is printed for one call: a blank line unless it is the first section, the section in brackets, when it changes, then name = value; of the section 49 characters are remembered |
| `Ini.EntryLineParsed` | external/inih/ini.c:138-156 | the printed line of a printable entry is parsed back to that entry |
| `Ini.HeaderParsed` | external/inih/ini.c:125-132 | a printed section line is parsed back to the section |
| `Ini.RoundTrip` | external/inih/ini.c:73-174 | parsing what the dumper prints for any list of printable entries replays the list, with result 0 |
| `Ini.DumpAll` | external/inih/examples/ini_dump.c:7-33 | the text printed when the dumper is called for each entry in turn |
| `Ini.DumpAndParse` | external/inih/examples/ini_dump.c:7-33 | running the dumper over such a list and the parser over its output gives the list and result 0 |
| `RotatingSink.FilenamesDiffer` | external/spdlog/include/spdlog/sinks/file_sinks.h:97-105 | different indices give different file names |
| `RotatingSink.FilenameIs` | external/spdlog/include/spdlog/sinks/file_sinks.h:97-105 | file 0 has the base name, every other the base name, a dot and the digits of its index without leading zeros |
| `RotatingSink.RotatingFileSink.constructor` | external/spdlog/include/spdlog/sinks/file_sinks.h:67-77 | file 0 is opened for appending and _current_size is its size |
| `RotatingSink.RotatingFileSink.Rotate` | external/spdlog/include/spdlog/sinks/file_sinks.h:113-135 | file i becomes file i + 1, missing or not, the last one is lost, file 0 is empty, files of other names are kept |
| `RotatingSink.RotatingFileSink.SinkIt` | external/spdlog/include/spdlog/sinks/file_sinks.h:85-94 | the message goes to the end of file 0, or alone into a new file 0 after rotation; _current_size is the size of file 0 |
| `RotatingSink.SunkJoined` | external/spdlog/include/spdlog/sinks/file_sinks.h:85-94 | one message: the files hold a suffix of what they held and the message, all of it without rotation |
| `RotatingSink.RotatingFileSink.SinkMessages` | external/spdlog/include/spdlog/sinks/file_sinks.h:85-94 | any sequence of messages: the contents of the files from the oldest on are whole messages, the end of what they were and of all messages since; no file exceeds the maximum, unless it holds a single message; other files are kept |
| `RotatingSink.FilesHoldSuffix` | external/spdlog/include/spdlog/sinks/file_sinks.h:67-135 | the files from the oldest on hold a suffix of the initial messages and all since, no message split |
| `RotatingSink.FilesBounded` | external/spdlog/include/spdlog/sinks/file_sinks.h:85-94 | no file exceeds the maximum, unless it holds a single message |

## Left out

The model is exact about branches, constants and error conditions; it leaves out:

- libnabo: OpenCL kernels, the Python binding, OpenMP (the sequential loops are modelled), TOUCH_STATISTICS and the
  returned counts, the size checks of the two output matrices (they are results here), and creation with an unknown
  type.
- libnabo: floating-point rounding and NaN; coordinates, radii and distances are exact reals with an added infinity,
  and the self-match threshold is a parameter.
- libnabo: the two partition loops are one method with a flag for the side of ties, and the two branches of the
  recursive search are one method with near and far side as parameters.
- KdTree.KdTree.Create: the dimension is below 2^31, as an int is; the searches need a tree that can be read back
  (`KdTree.KdTree.ValidIff`).
- libnabo: boundary tightness is not needed and not stated; the bounds only choose cut dimension and ideal cut.
- BalancedTrees.BuildInNodes: std::sort is a parameter that sorts, the dimension of the largest variance is a
  parameter; the search on these trees is left out; the points are a sequence, only the nodes are filled in place.
- BalancedTrees.BuildInLeaves: as for BuildInNodes; std::nth_element is a parameter that selects.
- kiss_fft: fixed point, SIMD and OpenMP builds, the rounding of the twiddles (they are assumed to be the powers of an
  exact principal root), the memory layout of the configuration, and int overflow of twidx and p * p for huge lengths;
  floor(sqrt(n)) is the exact integer root. kissfft.hh has its own butterflies; only its factoriser is modelled.
- KissFft.KfWork: the special butterflies use the real and imaginary part, so this is proved for complex numbers.
- KissFft.QuarterTurnsArePrincipal: length 4 only; that the computed twiddles are principal for every length would
  need the cosine and sine themselves, of which the model has none.
- KissFft.ThirdRootIsPrincipal: length 3 only, with the square root of 3 given.
- KissFft.FifthRootIsPrincipal: length 5 only, with cosine and sine given by their equations.
- Mpmc.StepInv: the methods are split into the atomic steps of a state machine instead of class methods; sequentially
  consistent steps, unbounded tickets; weaker memory orders and the wrap-around of size_t tickets are not modelled.
  Progress of the retry loops is not stated.
- AsyncLog.WorkerExit: safety only. Exceptions of formatter and sinks, the sink filter by level, warm-up and teardown
  callbacks and sleeping are left out; the periodic flush may or may not be due at any empty poll. That the destructor
  starts when all producers have finished is the caller's duty and part of the model.
- QueueCalls.CallsKeepPromise: the methods are split into the steps of a state machine; blocking is a waiting
  condition of a step, so wake-ups (notify_one on the right condition variable) and liveness are not modelled.
  getDataPoints, which only reads, is left out.
- DataStream.DataStreamDistributor.LoopWorkersOnce: where an unsigned difference of the code wraps round
  (event_detector/src/DataStreamDistributor.h:106 and :186) places outside the buffer would be used; the model then
  fails instead. Positions and sizes are small enough that a wrapped difference passes the test of its loop. At least
  one worker must be there. How many points a short pop finds is a parameter.
- DataStream: workers are functions of the calls they got (any deterministic worker is one); their progress measure is
  part of the contract, because reading sizes and positions alone do not make the loop end.
- EventDetector.EventDetector.WorkOnDataPoints: root mean squares and the median are not computed; the comparison is a
  function of the calls so far. The numbers of stored points are not negative, meta data and compare_after stay fixed,
  and the event's time stamp is left out.
- MetricProvider: its metrics; it only reads.
- Ini.ParseStream: lines and fields are values instead of places in one buffer that is cut in place; the build options
  are the defaults (multi-line values, byte order mark, inline comments, no stop at the first error).
- RotatingSink.RotatingFileSink.SinkIt: no error of the operating system; file names are of the narrow character type,
  and the file system is a map that nobody else changes.
- smart_screen: HDF5 and BLUED readers, boost serialization, the command line and message queues, event labels and
  storage, features (spectra, phase, window functions), the web server and the other vendored libraries.