# Verified models of the inference-attack code base

This project models the algorithmic core of the inference-attack programs and of the numerical library they carry, and
proves what that code is for. All reals are exact. To check the project, use `dafny verify dfyconfig.toml`.

| files | component |
|---|---|
| `KdGeometry`, `KdHeap`, `KdShape`, `KdSliding`, `KdBuild`, `KdSearch`, `KdBruteForce`, `KdNode`, `KdBoxScan`, `KdMeaning`, `KdQuery`, `KdReport` | the KD-tree: sliding-midpoint construction into flat vectors, branch-and-bound k-NN, R-NN and box queries, and what they report about the input |
| `Hqrnd`, `HqrndUnbiased` | L'Ecuyer's combined random number generator and rejection sampling |
| `ConvSpec`, `ConvMeaning`, `Dft`, `Smooth`, `Conv` | convolution by three algorithms, the transform behind two of them, their selection, and correlation |
| `OdeTableau`, `OdePosition`, `OdeSolver`, `OdeExact`, `OdeLinear` | the adaptive Cash-Karp solver as a reverse-communication state machine |
| `Bytes`, `Jaccard`, `Segments`, `DistanceMatrix` | greedy segmentation of a chunk stream and the distance matrix of its segments |
| `Records`, `LocalityCount` | the co-occurrence index in packed records |
| `LocalityAttack`, `LocalityMeaning`, `LocalityRun`, `LocalityScore`, `LocalitySeeds`, `LocalityProgram`, `LocalityExact`, `LocalityLeak` | the worklist that infers chunks from that index |
| `Basics` | minima, maxima and set sizes |

## Modelling choices

- Conditions that the library asserts on entry (`ae_assert`) are preconditions. Vectors and stores that are reassigned
  as a whole are `seq` and `map` fields; rows, results and matrices that are edited element by element are arrays.
- KD-tree: a row and its tag form one array element, and so do a neighbour's distance and index. The 2-norm is handled
  squared, as in the source. A box query starts with the query box as current box, so its check at the root always
  passes.
- Generator: fields and intermediates are 32-bit integers, seeds and ranges 64-bit ones. A sampling call carries a limit
  on draws and returns nothing when it is used up; `DrawLimitIrrelevant` shows that the limit never changes a sample.
- Convolution: a transform is the sum that defines it, at the powers of a primitive root of unity; the roots, the
  operation estimate per transform and the largest real are parameters.
- Solver: `pow(x, 0.2)` is a parameter that returns fifth roots; tabulated rows are appended rather than written into a
  preallocated table. The right-hand side belongs to the caller; `SolveCubics` drives whole runs.
- Segmentation: chunk sizes are assumed to be non-negative; a negative size read by `atoi` would wrap the 64-bit
  running size. A distance is a number or, for 0/0, not a number.
- Index: stores are maps from fingerprints to bytes, and streams are shorter than 2^64. C-string copying of neighbour
  fingerprints is the function `Trunc`, and all counting results are stated modulo it.
- Worklist: ties in the priority queues are broken arbitrarily, so the failing runs below may rest on a favourable choice
  among equally frequent entries (the example streams have no ties). Leaked chunks are queued in any order, where
  `stat_db` follows the key order of the store. The two stacks that are always pushed and popped together are one stack
  of pairs. The once-only store is a set that is empty at the start, although the directory it is kept in outlives a run.
  The random choice of leaked chunks is a parameter.

Where comments and code disagree the model follows the code: `ftbasefindsmooth` gives 1 for arguments up to 1 although
its comment promises at least 2; `hqrnduniformi` returns offset plus count times bin, not what its comment says; segments
are limited to 2^23 bytes although the comment says 1 MB; the worklist pairs neighbours from the least frequent up, so
that of two lists of different length the longer one loses its most frequent entries.

## Results that fail, and exactly when

- The number of inferred chunks can exceed the number of target chunks, because neighbours are recorded under truncated
  fingerprints.
  - Runs without leaked chunks: `OpenStreamsOvercount` constructs a failing run for every target stream with a truncated
    fingerprint that is not a chunk (`TruncatedStreamOvercounts` gives one such stream), and
    `BoundHoldsExactlyWhenClosed` shows that such runs fail for no other target stream.
  - Runs with leaked chunks need the same of both streams. `OpenAuxiliaryOvercounts` constructs failing runs for every
    auxiliary stream with a truncated fingerprint that is not a chunk, against a target without that defect, and
    `LeakBoundHoldsExactlyWhenClosed` shows that such targets fail against no other auxiliary stream.
    `OpenTargetOvercounted` and `LeakedTargetBoundedExactlyWhenClosed` show the same with the two sides exchanged, and
    `LeakedExampleOvercounts` gives two streams that fail both ways round. All these runs exist for every order in
    which the leaked chunks may be queued.
- Left and right records need not be transposes: `EmbeddedZeroBreaksTransposition` gives a stream, and
  `RecordsTransposed` shows that they are exactly if there are fewer than two chunks or no embedded zero bytes.
- The distance matrix divides zero by zero for an empty segment: `OversizedFirstChunk` gives a stream, and
  `StreamDistances` shows that the matrix is a metric exactly if the stream starts with a chunk that fits a segment.

## Model

| member | source | states |
|---|---|---|
| `KdGeometry.BoxDistIsLowerBound` | code/InferenceAttacks/multistream/src/alglib/alglibmisc.cpp:5597-5683 | No point of a box is nearer to the query than the box distance, for each of the three norms. |
| `KdGeometry.BoxDistIsAttained` | code/InferenceAttacks/multistream/src/alglib/alglibmisc.cpp:5597-5683 | Some point of the box has exactly the box distance, so the bound used for pruning is the best possible. |
| `KdGeometry.RaiseLower` | code/InferenceAttacks/multistream/src/alglib/alglibmisc.cpp:5375-5396 | The incremental update of `curdist` when the lower face of the box moves gives the exact distance to the narrowed box. |
| `KdGeometry.LowerUpper` | code/InferenceAttacks/multistream/src/alglib/alglibmisc.cpp:5397-5418 | The same for the upper face. |
| `KdHeap.PushedIsHeap` | code/InferenceAttacks/multistream/src/alglib/alglibinternal.cpp:3300-3363 | Pushing keeps the max-heap order and adds exactly the new element. |
| `KdHeap.Push` | code/InferenceAttacks/multistream/src/alglib/alglibinternal.cpp:3300-3363 | The array loop computes the sifted heap of `PushedIsHeap` and leaves the rest of the array alone. |
| `KdHeap.ReplacedTopIsHeap` | code/InferenceAttacks/multistream/src/alglib/alglibinternal.cpp:3381-3484 | Replacing the top keeps the heap order and exchanges exactly the farthest element. |
| `KdHeap.ReplaceTop` | code/InferenceAttacks/multistream/src/alglib/alglibinternal.cpp:3381-3484 | The array loop computes that heap in place. |
| `KdHeap.PoppedIsHeap` | code/InferenceAttacks/multistream/src/alglib/alglibinternal.cpp:3502-3535 | Popping moves the farthest element to the end and leaves a heap of the others. |
| `KdHeap.Pop` | code/InferenceAttacks/multistream/src/alglib/alglibinternal.cpp:3502-3535 | The array method computes that arrangement in place. |
| `KdHeap.RootIsFarthest` | code/InferenceAttacks/multistream/src/alglib/alglibinternal.cpp:3300-3363 | The root of a heap is a farthest element. |
| `KdHeap.PopExtendsOrder` | code/InferenceAttacks/multistream/src/alglib/alglibmisc.cpp:3909-3921 | Each pop extends the ascending tail by one element that is no farther than any element in it. |
| `KdHeap.Drain` | code/InferenceAttacks/multistream/src/alglib/alglibmisc.cpp:3909-3921 | Popping until one element is left sorts the results in ascending order and permutes them. |
| `KdShape.CellsBound` | code/InferenceAttacks/multistream/src/alglib/alglibmisc.cpp:3405-3417 | A tree with non-empty leaves over n points takes at most 8n-6 node cells and n-1 splits, so all writes fit the 12n and 2n cells allocated. |
| `KdBuild.PartedCorrect` | code/InferenceAttacks/multistream/src/alglib/alglibmisc.cpp:4886-4955 | With rows below and above s the in-place partition permutes the rows of its range and puts rows at most s before rows greater than s, neither part empty. |
| `KdBuild.DividedCorrect` | code/InferenceAttacks/multistream/src/alglib/alglibmisc.cpp:5101-5161 | The sliding-midpoint rule gives two non-empty halves with left rows <= s <= right rows, whichever of its branches is taken. |
| `KdBuild.DividedSlides` | code/InferenceAttacks/multistream/src/alglib/alglibmisc.cpp:5101-5161 | Whichever branch divides the rows, the result is the cut of the rule. |
| `KdBuild.HalvesInBox` | code/InferenceAttacks/multistream/src/alglib/alglibmisc.cpp:5174-5189 | The rows of each half lie in the half of the box that generation continues with. |
| `KdBuild.FlattenDim` | code/InferenceAttacks/multistream/src/alglib/alglibmisc.cpp:5084-5100 | Making the box flat in one wide dimension lowers the number of wide dimensions: the second component of the termination measure. |
| `KdBuild.KdTree.PartitionRows` | code/InferenceAttacks/multistream/src/alglib/alglibmisc.cpp:4886-4955 | Rows with their tags are partitioned in place as `Parted` says, and the boundary index is returned. |
| `KdBuild.KdTree.GenerateTreeRec` | code/InferenceAttacks/multistream/src/alglib/alglibmisc.cpp:4972-5190 | Generation ends (points, then wide dimensions), permutes the rows of its range, restores the box, and writes a tree whose leaves partition the range, whose splits separate the rows and lie inside the box, and which follows the sliding-midpoint rule: few or indistinguishable rows are a leaf; others are cut in the first of the widest dimensions in which they differ, at the middle of the box, or next to the outermost row if all lie on one side. |
| `KdBuild.KdTree.Build` | code/InferenceAttacks/multistream/src/alglib/alglibmisc.cpp:3332-3417 | The built tree is valid and follows the rule with leaves of 8, and its rows, with both coordinate copies and tags, are a permutation of the input rows. |
| `KdBuild.KdTree.BuildIndex` | code/InferenceAttacks/multistream/src/alglib/alglibmisc.cpp:3390-3417 | Bounding box, 12n node cells and 2n split cells, and from the root a valid tree that follows the rule. |
| `KdBuild.FlatBoxSame` | code/InferenceAttacks/multistream/src/alglib/alglibmisc.cpp:5037-5043 | Where the widest dimension has no width the rows coincide: only then is an oversized leaf written. |
| `KdBuild.BoundingBox` | code/InferenceAttacks/multistream/src/alglib/alglibmisc.cpp:3394-3403 | The box contains every row, and each of its faces is touched by one. |
| `KdSliding.FlatteningUnseen` | code/InferenceAttacks/multistream/src/alglib/alglibmisc.cpp:5084-5100 | Making the box flat where the rows agree changes nothing: the rule may look at the box itself and the dimensions in which rows differ. |
| `KdSliding.TwoSidedIsHalfway` | code/InferenceAttacks/multistream/src/alglib/alglibmisc.cpp:5044-5110 | A cut with rows on both sides of it is at the same distance from both faces of the box. |
| `KdSliding.SlidingSmallLeaves` | code/InferenceAttacks/multistream/src/alglib/alglibmisc.cpp:5007-5043 | A tree that follows the rule has no leaf of more rows than allowed, unless they cannot be told apart. |
| `KdSearch.TracksPush` | code/InferenceAttacks/multistream/src/alglib/alglibmisc.cpp:5284-5291 | Adding an eligible row to a heap that is not full keeps it right for the rows seen so far. |
| `KdSearch.TracksReplace` | code/InferenceAttacks/multistream/src/alglib/alglibmisc.cpp:5292-5311 | Replacing the farthest neighbour by a nearer row keeps it right: whatever is dropped is beaten. |
| `KdSearch.TracksDistinct` | code/InferenceAttacks/multistream/src/alglib/alglibmisc.cpp:5275-5312 | No row is held twice. |
| `KdSearch.TracksHasRoom` | code/InferenceAttacks/multistream/src/alglib/alglibmisc.cpp:5284-5291 | Before a row not seen yet is added, fewer than n rows are held: the n-sized buffers never overflow. |
| `KdMeaning.DistIsDistance` | code/InferenceAttacks/multistream/src/alglib/alglibmisc.cpp:5239-5261 | The distance of the search is the largest difference, the sum of differences or the sum of squared differences. |
| `KdMeaning.DistZero` | code/InferenceAttacks/multistream/src/alglib/alglibmisc.cpp:5266-5269 | A distance is zero exactly for rows with the coordinates of the point, and positive for others. |
| `KdMeaning.ScanRanks` | code/InferenceAttacks/multistream/src/alglib/alglibmisc.cpp:3848-3922 | The brute-force scan lists as many distances as there are admitted rows (all, or without self-matches those that differ from the point in some coordinate), each at its rank among them. |
| `KdMeaning.ScanObeys` | code/InferenceAttacks/multistream/src/alglib/alglibmisc.cpp:3848-3922 | Distances bounded by the scan obey the self-match rule: min(k, n) of them and the first zero if some row equals the point, or else min(k, number of rows that differ) positive ones. |
| `KdMeaning.RadiusInOneCoordinate` | code/InferenceAttacks/multistream/src/alglib/alglibmisc.cpp:3704-3711 | A row that differs from the point in one coordinate only is within radius r exactly if that difference is at most r, whatever the norm. |
| `KdMeaning.RadiusStretched` | code/InferenceAttacks/multistream/src/alglib/alglibmisc.cpp:3704-3711 | Stretching row, point and radius by the same positive factor changes nothing. |
| `KdQuery.EligibleMeans` | code/InferenceAttacks/multistream/src/alglib/alglibmisc.cpp:3704-3714 | What the R-NN request admits are the rows within the caller's radius, in terms of coordinates, and not at the point unless self-matches are wanted. |
| `KdQuery.PruneIsSafe` | code/InferenceAttacks/multistream/src/alglib/alglibmisc.cpp:5420-5446 | A subtree whose box is out of reach holds no row that could improve the result. |
| `KdQuery.ConsideredCorrect` | code/InferenceAttacks/multistream/src/alglib/alglibmisc.cpp:5233-5313 | Offering one row to the heap accounts for that row: held, not eligible, or beaten. |
| `KdQuery.WholeSearch` | code/InferenceAttacks/multistream/src/alglib/alglibmisc.cpp:5199-5467 | The branch-and-bound search of a whole tree accounts for every row. |
| `KdQuery.RequestBuffer.NarrowBox` | code/InferenceAttacks/multistream/src/alglib/alglibmisc.cpp:5372-5418 | Moving a face of the current box keeps `curdist` equal to the exact distance from the query to the box. |
| `KdQuery.RequestBuffer.VisitChild` | code/InferenceAttacks/multistream/src/alglib/alglibmisc.cpp:5352-5464 | Narrow, dive only within reach, restore: `curboxmin`, `curboxmax` and `curdist` are as before. |
| `KdQuery.RequestBuffer.QueryNnRec` | code/InferenceAttacks/multistream/src/alglib/alglibmisc.cpp:5199-5467 | On the flat vectors, with saved and restored box and incremental distance, the recursion computes the search of the abstract tree. |
| `KdQuery.RequestBuffer.InitBox` | code/InferenceAttacks/multistream/src/alglib/alglibmisc.cpp:5597-5683 | The current box is the root box and `curdist` the exact distance to it. |
| `KdBruteForce.NearestTheorem` | code/InferenceAttacks/multistream/src/alglib/alglibmisc.cpp:3848-3922 | Any answer that misses only rows out of reach has min(k, number of eligible rows) results, each between the brute-force distance of its rank and the reach. |
| `KdBruteForce.ApproximationTheorem` | code/InferenceAttacks/multistream/src/alglib/alglibmisc.cpp:3884-3921 | The i-th returned distance exceeds the true i-th smallest by at most the approximation factor, for each i, and equals it for factor 1. |
| `KdQuery.NearestAreNearEnough` | code/InferenceAttacks/multistream/src/alglib/alglibmisc.cpp:3888-3895 | No returned distance exceeds the true one of its rank by more than the factor 1+eps, squared for the squared 2-norm. |
| `KdBruteForce.SearchAnswers` | code/InferenceAttacks/multistream/src/alglib/alglibmisc.cpp:5420-5450 | The heap that a search ends with misses only rows out of reach. |
| `KdQuery.RequestBuffer.QueryAknn` | code/InferenceAttacks/multistream/src/alglib/alglibmisc.cpp:3848-3922 | Results agree with a brute-force scan: min(k, number of admitted rows) genuine rows in ascending order, measured in coordinates, the i-th at most 1+eps times (squared for the squared 2-norm) the true i-th smallest distance, equal to it for eps = 0; with self-matches the first is at distance zero if a row equals the point, without them none is. |
| `KdQuery.RequestBuffer.QueryRnn` | code/InferenceAttacks/multistream/src/alglib/alglibmisc.cpp:3670-3741 | The results are exactly the rows within the caller's radius, in terms of coordinates (without self-matches only those that differ from the point), measured, distinct and in ascending order. |
| `KdQuery.TreeScanIsInputScan` | code/InferenceAttacks/multistream/src/alglib/alglibmisc.cpp:3384-3389 | A scan of the rearranged rows of the tree finds what a scan of the input finds. |
| `KdBoxScan.InsideIsExact` | code/InferenceAttacks/multistream/src/alglib/alglibmisc.cpp:5514-5547 | The box listing has exactly the rows inside the box, each once. |
| `KdBoxScan.Descended` | code/InferenceAttacks/multistream/src/alglib/alglibmisc.cpp:5549-5585 | Descending only into children that meet the query box lists the same rows as scanning the range. |
| `KdQuery.RequestBuffer.QueryBox` | code/InferenceAttacks/multistream/src/alglib/alglibmisc.cpp:4012-4063 | On a non-empty tree a box query lists exactly the rows inside the box, within the n result slots; an inverted box gives none. |
| `KdReport.TreeHitsAreInputHits` | code/InferenceAttacks/multistream/src/alglib/alglibmisc.cpp:3384-3389 | Any test of a row's first coordinates keeps the same rows and tags in the rearranged tree as in the input. |
| `KdReport.ResultHits` | code/InferenceAttacks/multistream/src/alglib/alglibmisc.cpp:4333-4416 | The original row and the tag of each result, in the order of the results. |
| `KdReport.BoxHits` | code/InferenceAttacks/multistream/src/alglib/alglibmisc.cpp:4012-4063 | Build, box query and accessors together report each row and tag as often as an input row inside the box has them. |
| `KdReport.RadiusHits` | code/InferenceAttacks/multistream/src/alglib/alglibmisc.cpp:3670-3741 | Build, R-NN query and accessors together report each row and tag as often as an input row within the radius has them, in terms of coordinates. |
| `KdReport.RadiusScales` | code/InferenceAttacks/multistream/src/alglib/alglibmisc.cpp:3670-3741 | Stretching all rows, the point and the radius leads to the same reported rows, stretched. |
| `KdReport.NormsAgreeOnLine` | code/InferenceAttacks/multistream/src/alglib/alglibmisc.cpp:3704-3711 | In one dimension all norms find the same rows. |
| `KdReport.NearDistances` | code/InferenceAttacks/multistream/src/alglib/alglibmisc.cpp:3848-3922 | Build and query with a tolerance: as many ascending distances as asked for and admitted, by the self-match rule of `ScanObeys`, the i-th between the true i-th smallest of the input and 1+eps times that (squared for the squared 2-norm). |
| `KdReport.NearestDistances` | code/InferenceAttacks/multistream/src/alglib/alglibmisc.cpp:3848-3922 | Build and query together give the k smallest admitted distances of the input, each at its rank among the input rows, by the same rule. |
| `Hqrnd.SchrageStep` | code/InferenceAttacks/multistream/src/alglib/alglibmisc.cpp:6298-6309 | Schrage's split product stays strictly between -m and m, and one correction makes it the modular product. |
| `Hqrnd.Generator.StepFirst` | code/InferenceAttacks/multistream/src/alglib/alglibmisc.cpp:6298-6303 | The first component's step is 40014*s1 mod 2147483563, with every intermediate in signed 32-bit range. |
| `Hqrnd.Generator.StepSecond` | code/InferenceAttacks/multistream/src/alglib/alglibmisc.cpp:6304-6309 | The second component's step is 40692*s2 mod 2147483399, in the same range. |
| `Hqrnd.ComponentsAreBijections` | code/InferenceAttacks/multistream/src/alglib/alglibmisc.cpp:6290-6321 | Both steps are bijections on 1 .. m-1, with the inverse multipliers as inverses. |
| `Hqrnd.Seeded` | code/InferenceAttacks/multistream/src/alglib/alglibmisc.cpp:5912-5942 | Every 64-bit seed, the least integer included, gives a state component in 1 .. m-1. |
| `Hqrnd.SeedingCoversGoodStates` | code/InferenceAttacks/multistream/src/alglib/alglibmisc.cpp:5912-5942 | Every admissible component value is reached from a non-negative and from a negative seed. |
| `Hqrnd.Generator.Seed` | code/InferenceAttacks/multistream/src/alglib/alglibmisc.cpp:5912-5942 | Seeding establishes the state invariant. |
| `Hqrnd.Generator.IntegerBase` | code/InferenceAttacks/multistream/src/alglib/alglibmisc.cpp:6290-6321 | One call makes one step of both components and reports their difference less one, raised by 2147483562 where it is negative. |
| `Hqrnd.RunsStayGood` | code/InferenceAttacks/multistream/src/alglib/alglibmisc.cpp:6290-6321 | From any good state, every run keeps both components nonzero and every output in 0 .. 2147483561. |
| `Hqrnd.RunsAreReversible` | code/InferenceAttacks/multistream/src/alglib/alglibmisc.cpp:6290-6321 | Every run can be replayed backwards to its start. |
| `Hqrnd.RunsNeverMerge` | code/InferenceAttacks/multistream/src/alglib/alglibmisc.cpp:6290-6321 | Different states never lead to the same state in the same number of steps. |
| `Hqrnd.Generator.UniformR` | code/InferenceAttacks/multistream/src/alglib/alglibmisc.cpp:5953-5961 | The real number lies strictly between 0 and 1 and is (output+1)/2147483563. |
| `Hqrnd.FirstBelowIsFirst` | code/InferenceAttacks/multistream/src/alglib/alglibmisc.cpp:6070-6076 | The redraw loop rejects everything before the output it chooses. |
| `Hqrnd.SmallSample` | code/InferenceAttacks/multistream/src/alglib/alglibmisc.cpp:6070-6077 | For n up to the number of raw outputs a sample is the remainder of the last raw output, the first below the largest multiple of n. |
| `Hqrnd.LargeSample` | code/InferenceAttacks/multistream/src/alglib/alglibmisc.cpp:6004-6058 | For larger n a sample joins the remainder of the last raw output, on division by the number of groups, with an earlier output as offset. |
| `Hqrnd.DrawLimitIrrelevant` | code/InferenceAttacks/multistream/src/alglib/alglibmisc.cpp:5976-6079 | The limit on draws in the model changes only whether a sample is reached, never its value. |
| `Hqrnd.SampleInRange` | code/InferenceAttacks/multistream/src/alglib/alglibmisc.cpp:5976-6079 | Whatever the raw outputs, a sample below n lies in 0 .. n-1. |
| `Hqrnd.SmallRangesUnbiased` | code/InferenceAttacks/multistream/src/alglib/alglibmisc.cpp:6070-6077 | For n up to the number of raw outputs, every target has exactly mx/n accepted raw outputs, at least one. |
| `Hqrnd.KeptPairsAreTheRange` | code/InferenceAttacks/multistream/src/alglib/alglibmisc.cpp:6004-6058 | For larger n the kept (offset, bin) pairs are in bijection with 0 .. n-1. |
| `Hqrnd.LargeRangesUnbiased` | code/InferenceAttacks/multistream/src/alglib/alglibmisc.cpp:6004-6077 | Down to raw outputs, every target of a large range comes from one offset output and from as many bin outputs as every other. |
| `HqrndUnbiased.SmallSamplesUnbiased` | code/InferenceAttacks/multistream/src/alglib/alglibmisc.cpp:6070-6077 | For n up to the number of raw outputs, exactly that number div n of them make the sample any given value below n after one draw. |
| `HqrndUnbiased.LargeSamplesUnbiased` | code/InferenceAttacks/multistream/src/alglib/alglibmisc.cpp:6004-6077 | For larger n, equally many pairs of raw outputs make the sample any given value below n after two draws. |
| `HqrndUnbiased.FirstOutput` | code/InferenceAttacks/multistream/src/alglib/alglibmisc.cpp:5912-6079 | Seeded with 0 and 0, the generator outputs 2147482883 first, so a sample below 6 is 5. |
| `HqrndUnbiased.SeedsWrapAround` | code/InferenceAttacks/multistream/src/alglib/alglibmisc.cpp:5912-5942 | Seeds count modulo the number of component values, small ones as they are, and negative ones mirror the others. |
| `Hqrnd.Generator.UniformI` | code/InferenceAttacks/multistream/src/alglib/alglibmisc.cpp:5976-6079 | The method advances the state by the draws made and returns a number in 0 .. n-1: for n up to the number of raw outputs the remainder of its last output, which is below the largest multiple of n, and for larger n the combination of an offset and such a remainder. |
| `ConvSpec.LinCommutes` | code/InferenceAttacks/multistream/src/alglib/fasttransforms.cpp:1633-1653 | Linear convolution is commutative, which justifies the exchange of arguments when the response is longer. |
| `ConvSpec.LinSplit` | code/InferenceAttacks/multistream/src/alglib/fasttransforms.cpp:2730-2778 | Linear convolution adds up over a cut of the signal, shifted to each piece's start. |
| `ConvSpec.CircIsWrapped` | code/InferenceAttacks/multistream/src/alglib/fasttransforms.cpp:2640-2658 | With m >= n, circular convolution is linear convolution with its tail added to its head. |
| `ConvSpec.PaddedCircIsLin` | code/InferenceAttacks/multistream/src/alglib/fasttransforms.cpp:2602-2639 | Padded to any common length of at least m+n-1, circular convolution is linear convolution. |
| `ConvSpec.FoldingKeepsCirc` | code/InferenceAttacks/multistream/src/alglib/fasttransforms.cpp:1808-1827 | Folding a response modulo the signal's length keeps circular convolution, for every m and n. |
| `ConvSpec.FoldingKeepsCircCorr` | code/InferenceAttacks/multistream/src/alglib/fasttransforms.cpp:3352-3370 | Folding a pattern modulo the signal's length keeps circular correlation. |
| `ConvSpec.CorrIsLin` | code/InferenceAttacks/multistream/src/alglib/fasttransforms.cpp:3285-3299 | Convolving with the reversed conjugate pattern correlates, shifted by the pattern's length less one. |
| `ConvSpec.CircCorrIsCirc` | code/InferenceAttacks/multistream/src/alglib/fasttransforms.cpp:3375-3387 | The same for circular correlation. |
| `ConvMeaning.ImpulseDelays` | code/InferenceAttacks/multistream/src/alglib/fasttransforms.cpp:1633-1653 | A response that is a single one at position t delays the signal by t. |
| `ConvMeaning.ResponsesAdd` | code/InferenceAttacks/multistream/src/alglib/fasttransforms.cpp:1633-1653 | Responses that add up give results that add up; with `ImpulseDelays` and `ResponseScales` this determines convolution. |
| `ConvMeaning.ResponseScales` | code/InferenceAttacks/multistream/src/alglib/fasttransforms.cpp:1633-1653 | A scaled response gives a scaled result. |
| `ConvMeaning.OccurrenceFound` | code/InferenceAttacks/multistream/src/alglib/fasttransforms.cpp:3240-3299 | A pattern that occurs in the signal after t samples correlates with it at lag t by its energy. |
| `ConvMeaning.NegativeLag` | code/InferenceAttacks/multistream/src/alglib/fasttransforms.cpp:3240-3299 | At a negative lag the pattern's tail correlates with the start of the signal. |
| `Conv.Direct` | code/InferenceAttacks/multistream/src/alglib/fasttransforms.cpp:2469-2528 | The straightforward loops, with their special case for one sample, compute the linear or circular convolution. |
| `Dft.ConvolutionTheorem` | code/InferenceAttacks/multistream/src/alglib/fasttransforms.cpp:2568-2579 | At every root of unity of the signal's length, the value of the circular convolution is the product of the values of signal and response. |
| `Dft.SpectrumInverts` | code/InferenceAttacks/multistream/src/alglib/fasttransforms.cpp:2580-2588 | Transforming back the spectrum gives n times each coefficient, for every primitive root. |
| `Dft.TransformedIsCircular` | code/InferenceAttacks/multistream/src/alglib/fasttransforms.cpp:2568-2588 | Transform both, multiply and conjugate, transform again with the same plan, conjugate and divide by the length: this chain is circular convolution. |
| `Conv.FftSmooth` | code/InferenceAttacks/multistream/src/alglib/fasttransforms.cpp:2544-2590 | One transform chain of the signal's length computes the circular convolution. |
| `Conv.FftPadded` | code/InferenceAttacks/multistream/src/alglib/fasttransforms.cpp:2591-2671 | With zero padding, and wrap-around of the tail for circular results, the transform chain computes the convolution. |
| `Conv.OverlapAdd` | code/InferenceAttacks/multistream/src/alglib/fasttransforms.cpp:2686-2778 | Overlap-add with any block size q >= 1 equals the direct formula, linear and circular, for every m >= n. |
| `Conv.ChooseBlock` | code/InferenceAttacks/multistream/src/alglib/fasttransforms.cpp:2436-2457 | Automatic selection considers transforms of power-of-two length within the result's length and takes the cheapest, if it is cheaper than the other candidates; q >= 1 always. |
| `Conv.Choose` | code/InferenceAttacks/multistream/src/alglib/fasttransforms.cpp:2382-2460 | The chosen algorithm is one of the three and no candidate is cheaper: direct, transforms of the least smooth length (or of the signal's, if circular and smooth), or overlap-add, where q+n-1 is a power of two and q <= m. |
| `Conv.ChooseReal` | code/InferenceAttacks/multistream/src/alglib/fasttransforms.cpp:2853-2945 | For real signals: responses of up to two samples take the direct formula whatever was asked for; otherwise no candidate is cheaper than the chosen one, the general code has the least even smooth length (or the signal's, if circular, smooth and even), and for overlap-add q+n-1 is an even power of two and q <= m. |
| `Conv.Costs` | code/InferenceAttacks/multistream/src/alglib/fasttransforms.cpp:2382-2457 | The cost estimates that selection compares. |
| `Conv.RealCosts` | code/InferenceAttacks/multistream/src/alglib/fasttransforms.cpp:2853-2945 | The same for real signals. |
| `Conv.ConvC1DX` | code/InferenceAttacks/multistream/src/alglib/fasttransforms.cpp:2331-2783 | Every algorithm number from -2 to 2 gives the convolution; any other leaves the result empty. |
| `Conv.ConvC1D` | code/InferenceAttacks/multistream/src/alglib/fasttransforms.cpp:1633-1653 | Linear convolution for all lengths. |
| `Conv.ConvC1DCircular` | code/InferenceAttacks/multistream/src/alglib/fasttransforms.cpp:1789-1833 | Circular convolution for all lengths. |
| `Conv.CorrC1D` | code/InferenceAttacks/multistream/src/alglib/fasttransforms.cpp:3265-3299 | R[i] is the correlation at lag i for i < n, and R[n+m-1-i] the one at lag -i. |
| `Conv.CorrC1DCircular` | code/InferenceAttacks/multistream/src/alglib/fasttransforms.cpp:3328-3388 | c[i] is the circular correlation at lag i, for all lengths. |
| `Smooth.TestSmooth` | code/InferenceAttacks/multistream/src/alglib/alglibinternal.cpp:14168-14183 | True exactly for products of 2, 3 and 5. |
| `Smooth.SmoothExactlyProducts` | code/InferenceAttacks/multistream/src/alglib/alglibinternal.cpp:14168-14183 | The smooth numbers are exactly the products of powers of 2, 3 and 5. |
| `Smooth.FindRecMinimal` | code/InferenceAttacks/multistream/src/alglib/alglibinternal.cpp:16865-16891 | The recursive search is never beaten by any product of the seed that is large enough. |
| `Smooth.FindSmooth` | code/InferenceAttacks/multistream/src/alglib/alglibinternal.cpp:14193-14207 | The smallest smooth number that is at least n (1 for n <= 1, where the comment says at least 2). |
| `Smooth.FindSmoothEven` | code/InferenceAttacks/multistream/src/alglib/alglibinternal.cpp:14217-14231 | The smallest even smooth number that is at least n. |
| `OdeTableau.RowsConsistent` | code/InferenceAttacks/multistream/src/alglib/diffequations.cpp:594-617 | Every row of the stage weights adds up to the stage's position. |
| `OdeLinear.AbsorbedProportional` | code/InferenceAttacks/multistream/src/alglib/diffequations.cpp:703-736 | Answered with rate*y at the values it asks about, the solver keeps every stage a multiple of the solution, by the same factors in all components. |
| `OdeLinear.StabilityPolynomials` | code/InferenceAttacks/multistream/src/alglib/diffequations.cpp:594-630 | The tableau turns these factors into the exponential series to degree five, and to degree four for the embedded result. |
| `OdeLinear.LinearAttempt` | code/InferenceAttacks/multistream/src/alglib/diffequations.cpp:594-736 | For y' = rate*y a whole attempt of the solver multiplies every component by these polynomials in h*rate. |
| `OdeTableau.CubicsIntegrate` | code/InferenceAttacks/multistream/src/alglib/diffequations.cpp:594-735 | For every polynomial in x of degree at most three, both results of every step, forward or backward, are exact. |
| `OdeTableau.RootScales` | code/InferenceAttacks/multistream/src/alglib/diffequations.cpp:768-782 | How h*(eps/err)^0.2 compares with h and 3h, from the fifth root alone. |
| `OdeTableau.StepBounds` | code/InferenceAttacks/multistream/src/alglib/diffequations.cpp:768-787 | The new step lies in [h/10, 3h], is shorter after a rejection and no shorter after an acceptance. |
| `OdeTableau.NextStepLaw` | code/InferenceAttacks/multistream/src/alglib/diffequations.cpp:768-782 | The new length is three times the old one for errors up to eps/243, a tenth of it for errors above 10^5 eps, and otherwise its fifth power is that of the old one times eps/err. |
| `OdePosition.FinishedStep` | code/InferenceAttacks/multistream/src/alglib/diffequations.cpp:768-808 | A rejected step stays and shrinks; an accepted one lands in the cell or, if truncated, exactly on the grid point. |
| `OdePosition.RunsStayOnGrid` | code/InferenceAttacks/multistream/src/alglib/diffequations.cpp:649-819 | Throughout any sequence of attempts h > 0 and xg[i-1] <= xc < xg[i], no step passes the grid point, and a finished run is exactly at the last one. |
| `OdePosition.ErrorFreeProgress` | code/InferenceAttacks/multistream/src/alglib/diffequations.cpp:658-815 | A step without error reaches the grid point or strictly lowers the number of steps left, so such runs end. |
| `OdeSolver.MaxErrorBounds` | code/InferenceAttacks/multistream/src/alglib/diffequations.cpp:739-766 | The error estimate is within a bound exactly when each component's absolute or scaled error is. |
| `OdeSolver.ErrorMeans` | code/InferenceAttacks/multistream/src/alglib/diffequations.cpp:739-766 | The error estimate exceeds the tolerance exactly if some component of the two results differs by more than eps, or, relatively, by more than eps times its largest magnitude at the starts of the attempts so far (one where that is zero). |
| `OdeSolver.ToleranceMeans` | code/InferenceAttacks/multistream/src/alglib/diffequations.cpp:739-787 | The same for the caller's e: absolute for e > 0, relative with -e for e < 0. |
| `OdeSolver.SteppedLength` | code/InferenceAttacks/multistream/src/alglib/diffequations.cpp:658-815 | After a step the new length is that of `NextStepLaw`, cut at the next grid point. |
| `OdeSolver.ResumedSound` | code/InferenceAttacks/multistream/src/alglib/diffequations.cpp:649-819 | Whatever the caller answers, the solver's state stays sound, with both results holding exactly the weighted stages so far, or the grid is complete. |
| `OdeSolver.Solver.Create` | code/InferenceAttacks/multistream/src/alglib/diffequations.cpp:908-1015 | Termination code -1 for bad parameters, 1 for a single point, -2 unless the points are strictly ordered, else a proper problem: ascending scaled grid, positive step, |eps| absolute or relative by its sign. |
| `OdeSolver.CheckOrder` | code/InferenceAttacks/multistream/src/alglib/diffequations.cpp:961-976 | True exactly for strictly ascending or strictly descending points. |
| `OdeSolver.SmallestGap` | code/InferenceAttacks/multistream/src/alglib/diffequations.cpp:978-989 | The smallest distance between neighbouring points, which is positive; 0.001 of it is the step selected for h = 0. |
| `OdeSolver.Solver.Request` | code/InferenceAttacks/multistream/src/alglib/diffequations.cpp:703-721 | The derivative is requested at the exact time and values of stage k. |
| `OdeSolver.Solver.Absorb` | code/InferenceAttacks/multistream/src/alglib/diffequations.cpp:722-736 | The answer enters the stage table and both results with its tableau weights. |
| `OdeSolver.Solver.FinishStep` | code/InferenceAttacks/multistream/src/alglib/diffequations.cpp:737-819 | The step is rejected exactly if the two results are too inaccurate in the sense of `ErrorMeans`; an accepted one moves time and solution to its end and tabulates it at a grid point, a rejected one stays; the new length is that of `SteppedLength`; then comes the next attempt or the end. |
| `OdeSolver.Solver.Iteration` | code/InferenceAttacks/multistream/src/alglib/diffequations.cpp:490-840 | Each call is one transition of the state machine and ends with a pending request or a complete table; the sixth answer of a step rejects or accepts it as in `FinishStep`, and the first call starts at the first grid point with the first step, cut at the second one. |
| `OdeSolver.Solver.Results` | code/InferenceAttacks/multistream/src/alglib/diffequations.cpp:869-902 | The grid in original time and the tabulated rows, or nothing on an error code. |
| `OdeExact.ResultsExact` | code/InferenceAttacks/multistream/src/alglib/diffequations.cpp:703-736 | On course, both results of a step equal the exact solution at its end. |
| `OdeExact.SteppedExact` | code/InferenceAttacks/multistream/src/alglib/diffequations.cpp:737-819 | On course, a step has error zero, is accepted, stays on course and tabulates exact values. |
| `OdeExact.SolveCubics` | code/InferenceAttacks/multistream/src/alglib/diffequations.cpp:490-902 | For every system of polynomials in x of degree at most three, ascending or descending grid, absolute or relative tolerance: the whole run ends, rejects no step and tabulates the exact solution at every grid point. |
| `Segments.SegmentationTheorem` | code/InferenceAttacks/multistream/src/similarity/cslice.cc:194-239 | The segments concatenate to the stream, none could have taken one more chunk, all fit exactly if every chunk does, and none is empty exactly if the stream starts with a chunk that fits. |
| `Segments.GreedyIsUnique` | code/InferenceAttacks/multistream/src/similarity/cslice.cc:194-239 | There is only one greedy segmentation of a stream whose segments all fit. |
| `Segments.Slicer.ReadHashes` | code/InferenceAttacks/multistream/src/similarity/cslice.cc:194-239 | After the loop the stores hold exactly the segments of the stream, and the last size of every chunk. |
| `Segments.Slicer.ProcessSeg` | code/InferenceAttacks/multistream/src/similarity/cslice.cc:161-192 | A segment is recorded under the next number, with its fingerprint counts and its concatenated fingerprints. |
| `Segments.SizesAreLast` | code/InferenceAttacks/multistream/src/similarity/cslice.cc:161-192 | The size stored for a fingerprint is that of its last chunk. |
| `Bytes.JoinedRoundTrip` | code/InferenceAttacks/multistream/src/similarity/cslice.cc:164-187 | The fingerprints of a segment can be read back from the stored concatenation. |
| `Jaccard.DistanceBasics` | code/InferenceAttacks/multistream/src/similarity/cslice.cc:132-134 | The distance is symmetric, within [0,1], zero exactly for equal sets and one exactly for disjoint ones. |
| `Jaccard.Triangle` | code/InferenceAttacks/multistream/src/similarity/cslice.cc:132-134 | The distance satisfies the triangle inequality. |
| `DistanceMatrix.MapDistance` | code/InferenceAttacks/multistream/src/similarity/cslice.cc:125-132 | Inclusion and exclusion on the map sizes gives 1-|A∩B|/|A∪B|, and not a number exactly for two empty maps. |
| `DistanceMatrix.Port2Cluster` | code/InferenceAttacks/multistream/src/similarity/cslice.cc:113-139 | Every cell of the flat matrix is assigned the distance of its two segments, empty ones included. |
| `DistanceMatrix.DistancesAreMetric` | code/InferenceAttacks/multistream/src/similarity/cslice.cc:113-139 | Without empty segments the matrix is symmetric, zero on the diagonal, within [0,1] and satisfies the triangle inequality. |
| `DistanceMatrix.MetricExactlyWhenComplete` | code/InferenceAttacks/multistream/src/similarity/cslice.cc:113-139 | A diagonal cell is 0/0 exactly for an empty segment, and the matrix is a metric exactly if there is none. |
| `DistanceMatrix.RecordsComplete` | code/InferenceAttacks/multistream/src/similarity/cslice.cc:113-239 | No segment of a stream is empty exactly if the stream starts with a chunk that fits. |
| `DistanceMatrix.OversizedFirstChunk` | code/InferenceAttacks/multistream/src/similarity/cslice.cc:113-239 | A stream of one oversized chunk, whose matrix has 0/0 in its first cell. |
| `DistanceMatrix.StreamDistances` | code/InferenceAttacks/multistream/src/similarity/cslice.cc:113-239 | From any stream to its distance matrix, which is a metric exactly if the stream starts with a chunk that fits. |
| `Records.EncodeRoundTrip` | code/InferenceAttacks/single_stream/locality_count.cc:76-96 | Eight little-endian bytes give every 64-bit count back. |
| `Records.EncodeBytes` | code/InferenceAttacks/single_stream/locality_count.cc:76-96 | The eight bytes of a stored count, lowest first. |
| `Records.PackRoundTrip` | code/InferenceAttacks/single_stream/locality_count.cc:104-157 | A packed record gives its entries back. |
| `Records.BumpCounts` | code/InferenceAttacks/single_stream/locality_count.cc:112-143 | Counting a neighbour adds one to its entry and leaves the others alone. |
| `Records.BumpKeepsPlaces` | code/InferenceAttacks/single_stream/locality_count.cc:112-143 | Counting a neighbour leaves all entries in their places; a new one comes last with count one. |
| `LocalityCount.CopiedUnchanged` | code/InferenceAttacks/single_stream/locality_count.cc:108-110 | Copying a fingerprint as a C string leaves it unchanged exactly if no zero byte precedes a non-zero one. |
| `LocalityCount.CopiedAt` | code/InferenceAttacks/single_stream/locality_count.cc:108-110 | A byte is copied unless a zero byte comes at or before it; then it is zero. |
| `LocalityCount.OccurrencesArePositions` | code/InferenceAttacks/single_stream/locality_count.cc:70-99 | A chunk's frequency is the number of positions that hold it. |
| `LocalityCount.BeforeArePositions` | code/InferenceAttacks/single_stream/locality_count.cc:104-157 | A left count is the number of positions where the chunk comes right after that neighbour. |
| `LocalityCount.AfterArePositions` | code/InferenceAttacks/single_stream/locality_count.cc:158-212 | A right count is the number of positions where the chunk comes right before that neighbour. |
| `LocalityCount.BumpRecord` | code/InferenceAttacks/single_stream/locality_count.cc:112-143 | Scanning and editing the packed bytes in place counts one more occurrence of the neighbour. |
| `LocalityCount.LeftCountsPairs` | code/InferenceAttacks/single_stream/locality_count.cc:104-157 | A left record has distinct keys and counts the adjacent pairs, by copied left neighbour. |
| `LocalityCount.RightCountsPairs` | code/InferenceAttacks/single_stream/locality_count.cc:158-212 | A right record does so by copied right neighbour. |
| `LocalityCount.LeftTotal` | code/InferenceAttacks/single_stream/locality_count.cc:52-157 | The counts of a left record add up to the chunk's frequency, less one if it comes first. |
| `LocalityCount.RightTotal` | code/InferenceAttacks/single_stream/locality_count.cc:52-212 | The counts of a right record add up to the chunk's frequency, less one if it comes last. |
| `LocalityCount.RecordsTransposed` | code/InferenceAttacks/single_stream/locality_count.cc:104-212 | Left and right records are transposes of each other exactly if there are fewer than two chunks or no embedded zero bytes. |
| `LocalityCount.EmbeddedZeroBreaksTransposition` | code/InferenceAttacks/single_stream/locality_count.cc:108-110 | A concrete stream with an embedded zero byte for which they are not. |
| `LocalityCount.Counter.CountChunk` | code/InferenceAttacks/single_stream/locality_count.cc:70-99 | The frequency store holds the encoded number of occurrences of every chunk read. |
| `LocalityCount.Counter.ReadHashes` | code/InferenceAttacks/single_stream/locality_count.cc:45-219 | The three stores index the whole stream. |
| `LocalityAttack.OfferKeepsTopK` | code/InferenceAttacks/single_stream/locality_attack.cc:166-177 | The bounded queue always holds the k most frequent entries offered, whichever of several least frequent ones is dropped. |
| `LocalityAttack.TakenFacts` | code/InferenceAttacks/single_stream/locality_attack.cc:330-351 | Enqueued pairs come from the candidates, have unrecorded and distinct target keys, and fit the limit. |
| `LocalityMeaning.CandidatesInStep` | code/InferenceAttacks/single_stream/locality_attack.cc:318-328 | The candidates of two records: as many as k and both records allow, more frequent neighbours later on either side. |
| `LocalityMeaning.ShorterRecordMatched` | code/InferenceAttacks/single_stream/locality_attack.cc:318-328 | All entries of a target record that is no longer than the auxiliary one and k are candidates. |
| `LocalityMeaning.TakenPicks` | code/InferenceAttacks/single_stream/locality_attack.cc:330-351 | From the top of the stack the topmost pair for every unrecorded key is taken, in that order, until there is no room. |
| `LocalityMeaning.RoundMeaning` | code/InferenceAttacks/single_stream/locality_attack.cc:304-392 | A round counts the front pair if it is one chunk, adds new pairs of its left and then of its right neighbours, from the most frequent down and as far as there is room, records their target keys, and removes it. |
| `LocalityMeaning.NoNeighbourMissed` | code/InferenceAttacks/single_stream/locality_attack.cc:304-392 | With room for 2k more pairs, a round records all neighbours of a target chunk on a side where its record is no longer than the auxiliary one and k. |
| `LocalityAttack.AdvancedOnce` | code/InferenceAttacks/single_stream/locality_attack.cc:304-392 | No round enqueues a target key that was ever enqueued before. |
| `LocalityAttack.RoundMeasures` | code/InferenceAttacks/single_stream/locality_attack.cc:304-392 | Every round lowers unrecorded neighbour keys plus target queue length by one, keeps the difference of the queue lengths, and keeps the queue within max(its length, limit). |
| `LocalityAttack.RoundConsistent` | code/InferenceAttacks/single_stream/locality_attack.cc:304-392 | Correct inferences stay distinct keys of both sides, each already taken from the queue. |
| `LocalityRun.RunsAreBounded` | code/InferenceAttacks/single_stream/locality_attack.cc:304-392 | Over every run: number of rounds, queue difference and queue limit. |
| `LocalityRun.RunsAreConsistent` | code/InferenceAttacks/single_stream/locality_attack.cc:304-392 | Over every run: no target key twice, correct inferences only among shared keys. |
| `LocalityScore.HitsCountPositions` | code/InferenceAttacks/single_stream/locality_attack.cc:304-310 | How many chunks are certain to be inferred: the number of positions that hold the same key in both queues. |
| `LocalityScore.CorrectCounts` | code/InferenceAttacks/single_stream/locality_attack.cc:304-392 | Over every run, as many chunks are inferred as there are rounds whose two front keys are the same. |
| `LocalityScore.CertainAreInferred` | code/InferenceAttacks/single_stream/locality_attack.cc:304-392 | A finished run infers at least the chunks that both queues hold in the same place at its start. |
| `LocalityRun.CountedNeighbours` | code/InferenceAttacks/single_stream/locality_attack.cc:136-184 | Read back by the attack, the counted stores give the neighbour records of the stream. |
| `LocalityRun.CountedClosed` | code/InferenceAttacks/single_stream/locality_attack.cc:136-234 | Counted stores name only chunks exactly if every copied fingerprint is a chunk again, or there are fewer than two chunks. |
| `LocalityProgram.InsertNeighbours` | code/InferenceAttacks/single_stream/locality_attack.cc:136-234 | The k most frequent neighbours of a record, read from its packed bytes: min(k, all) of them, none less frequent than one left out. |
| `LocalityProgram.Insert` | code/InferenceAttacks/single_stream/locality_attack.cc:166-177 | A full queue takes an entry only if that is more frequent than some entry, and then drops a least frequent one. |
| `LocalityProgram.PairUp` | code/InferenceAttacks/single_stream/locality_attack.cc:321-328 | Both queues are emptied in step from the least frequent entry up. |
| `LocalityProgram.MostFrequent` | code/InferenceAttacks/single_stream/locality_attack.cc:237-281 | The most frequent chunks of a store, from the most frequent down. |
| `LocalitySeeds.SeedRank` | code/InferenceAttacks/single_stream/locality_attack.cc:237-302 | At most i chunks are more frequent than the i-th seed, counting from zero, and more than i are at least as frequent. |
| `LocalitySeeds.MostFrequentFirst` | code/InferenceAttacks/single_stream/locality_attack.cc:237-302 | The first seed is a most frequent chunk. |
| `LocalitySeeds.SeedsNumber` | code/InferenceAttacks/single_stream/locality_attack.cc:237-302 | There are min(init, number of chunks) seeds, none twice. |
| `LocalitySeeds.SeedsAgree` | code/InferenceAttacks/single_stream/locality_attack.cc:237-302 | The i-th seeds of two stores with the same chunks and counts are equally frequent, and without ties the same chunk, however many seeds each side has. |
| `LocalitySeeds.LeakedChunksReported` | code/InferenceAttacks/single_stream/locality_attack.cc:82-395 | The report is at least the number of leaked target chunks, and exactly that number if the auxiliary side knows none of them. |
| `LocalitySeeds.SeedsReported` | code/InferenceAttacks/single_stream/locality_attack.cc:263-395 | Without leaked chunks and ties, the report on two sides with the same chunks and counts is at least the number of seeds; it is zero if a side is empty. |
| `LocalityProgram.Attacker.StatDb` | code/InferenceAttacks/single_stream/locality_attack.cc:82-123 | Counts all target chunks, the leaked ones and those known to the auxiliary side, and enqueues and records exactly the latter, each once. |
| `LocalityProgram.Attacker.SeedMostFrequent` | code/InferenceAttacks/single_stream/locality_attack.cc:268-302 | Without leaks the queues start with the most frequent chunks of each side, in descending order, the target ones recorded. |
| `LocalityProgram.Attacker.Extend` | code/InferenceAttacks/single_stream/locality_attack.cc:330-351 | The stack loop with its early exit enqueues exactly the pairs that `Taken` describes. |
| `LocalityProgram.Attacker.MainLoop` | code/InferenceAttacks/single_stream/locality_attack.cc:263-392 | The loop ends in a run of rounds from the seeds, with no target key enqueued twice. |
| `LocalityProgram.Attacker.Prepare` | code/InferenceAttacks/single_stream/locality_attack.cc:82-302 | Whether chunks are leaked or not, the counters and queues are exactly those a leaked or a seeded run starts from. |
| `LocalityProgram.Attacker.Execute` | code/InferenceAttacks/single_stream/locality_attack.cc:304-395 | On any stores and from any prepared state the program ends in a run of rounds and reports its number, which fits the target's chunks if the target's records, and where chunks are leaked the auxiliary ones, name only chunks. |
| `LocalityProgram.ReportFits` | code/InferenceAttacks/single_stream/locality_attack.cc:393-394 | The subtraction in the report never underflows, and the report fits under that condition. |
| `LocalityProgram.ReportBound` | code/InferenceAttacks/single_stream/locality_attack.cc:393-394 | Shared chunks and leaked unknown chunks together are at most all target chunks. |
| `LocalityProgram.CountAndInfer` | code/InferenceAttacks/single_stream/locality_attack.cc:263-395 | On any two streams the program reports the outcome of a finished run: its correct inferences plus the leaked chunks that the auxiliary side does not know. All leaked target chunks are reported, and nothing else if the auxiliary stream has none of them; without leaked chunks, a rearranged stream without ties yields at least all seeds. Without embedded zero bytes (on the auxiliary side only where chunks are leaked) the number never exceeds that of distinct target chunks. |
| `LocalityProgram.Infer` | code/InferenceAttacks/single_stream/locality_attack.cc:263-395 | On the stores of any two counted streams the program reports the outcome of a finished run from seeds or from leaked chunks, with the bound for all streams whose copied fingerprints are chunks again. |
| `LocalityExact.OpenStreamsOvercount` | code/InferenceAttacks/single_stream/locality_attack.cc:263-395 | For every other target stream there are settings and a run against itself, without leaked chunks, that infers more chunks than there are. |
| `LocalityExact.BoundHoldsExactlyWhenClosed` | code/InferenceAttacks/single_stream/locality_attack.cc:263-395 | Without leaks, the bound holds for all auxiliary sides, settings and runs exactly if the target stream has fewer than two chunks or every copied fingerprint is a chunk again. |
| `LocalityExact.TruncatedStreamOvercounts` | code/InferenceAttacks/single_stream/locality_attack.cc:263-395 | A concrete two-chunk stream, with an embedded zero byte, for which the bound fails without leaks. |
| `LocalityLeak.OpenAuxiliaryOvercounts` | code/InferenceAttacks/single_stream/locality_attack.cc:82-123 | For every auxiliary stream with a copied fingerprint that is no chunk there is a target stream without that defect that is overcounted: from all its chunks leaked, in whatever order, some run reports more chunks than there are. |
| `LocalityLeak.OpenTargetOvercounted` | code/InferenceAttacks/single_stream/locality_attack.cc:82-123 | For every target stream with a copied fingerprint that is no chunk there is an auxiliary stream without that defect against which it is overcounted in the same way. |
| `LocalityLeak.ClosedSidesBounded` | code/InferenceAttacks/single_stream/locality_attack.cc:263-395 | With leaked chunks, no run on closed sides reports more chunks than the target has. |
| `LocalityLeak.LeakBoundHoldsExactlyWhenClosed` | code/InferenceAttacks/single_stream/locality_attack.cc:263-395 | With leaks, the bound holds for all closed targets, leaked sets, settings and runs exactly if the auxiliary stream has fewer than two chunks or every copied fingerprint is a chunk again. |
| `LocalityLeak.LeakedTargetBoundedExactlyWhenClosed` | code/InferenceAttacks/single_stream/locality_attack.cc:263-395 | With leaks, the bound holds for all closed auxiliary sides, leaked sets, settings and runs exactly if the target stream has fewer than two chunks or every copied fingerprint is a chunk again. |
| `LocalityLeak.OpenTargetsOvercountLeaking` | code/InferenceAttacks/single_stream/locality_attack.cc:263-395 | A stream with a copied fingerprint that is no chunk, leaked against itself, has a run that reports too many. |
| `LocalityLeak.LeakedExampleOvercounts` | code/InferenceAttacks/single_stream/locality_attack.cc:82-123 | Two concrete two-chunk streams, one with an embedded zero byte, that are overcounted both ways round. |

## Left out

- Square roots in the 2-norm distances that the KD-tree reports, serialization and the thread-safety wrappers: forwarding without properties of their own.
- The real-valued variants of convolution and correlation, apart from their selection: the same algorithms on sequences with zero imaginary parts.
- FFT kernels and FFT plan construction, which evaluate the transform's sum in fewer operations; deconvolution.
- Normal, exponential and discrete random variates: they rest on logarithms and square roots.
- OdeSolver.Solver.Results: not for a single grid point, where the code returns before it stores the sizes that the results are read with, although its comment promises that this case is handled.
- OdeExact.SolveCubics: not for a single grid point, for the same reason.
- Runs of the solver with other right-hand sides are covered call by call; whether they end depends on the right-hand side.
- Clustering of the distance matrix, slices, k-minhash, entropy attacks and the bucket programs.
- Line parsing, LevelDB error statuses, printing and timing.
- Floating-point rounding and infinities, and NaN except in the distance matrix.
- Conv.FftSmooth: the transform is its defining sum, not the kernel.
- Conv.FftPadded: the transform is its defining sum, not the kernel.
- Hqrnd.Generator.UniformI: a draw limit replaces the unbounded redraw loops.
