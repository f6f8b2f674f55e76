# A verified model of the Popcorn user-level tools

The repository holds the user-level side of a replicated-kernel operating system: OpenMP benchmarks together with the
small OpenMP runtime `bomp` that they run on, a tool that partitions a machine's memory and CPUs among kernels, and a
mailbox through which kernels exchange network packets. This project models the parts of it whose correctness is not
evident, and proves what they are for.

- **NAS kernels** (`bomp/benchmark`). FT is a Stockham FFT on arrays: its stages, its ping-pong buffers and its
  blocked passes compute the three-dimensional discrete Fourier transform of the cube, given as a triple sum, and the
  backward transform undoes the forward one up to the size. CG builds a sparse matrix by an in-place bucket sort and
  an in-place compaction, and runs conjugate gradient on it. On every symmetric matrix that either solves the system,
  within as many passes as there are rows, or comes to a direction without curvature, which a definite matrix does not
  have. IS is a parallel counting sort. The random number generator works in 23-bit halves on doubles; its arithmetic
  is exact, its period is exactly 2^44, and the jumps with which EP and FT divide its stream among batches and planes
  reproduce one uninterrupted stream. Modules `Lcg`, `Random`, `Streams`, `ComplexNumbers`, `Dft`, `Stockham`, `Fft`,
  `FftCube`, `Sparse`, `MakeA`, `ConjGrad`, `CgSteps`, `CgMatrix`, `CgProgram`, `KeyCounts`.
- **OpenMP runtime** (`bomp/lib`). The spin lock, the cycle-flipping barrier and fork/join are transition systems with
  one step for each shared access, under sequential consistency, for any number of threads and any interleaving. They
  meet the barrier construct (section 2.8.3 of OpenMP 3.1), the critical construct (section 2.8.2) and the join at the
  end of a parallel region (section 2.4). As long as every thread keeps getting steps, every region is joined and every
  call of the parallel sort finishes. Modules `Barrier`, `ForkJoin`, `ForkJoinProgress`, `Ranking`, `RankingProgress`.
- **Memory partitioner** (`mpart.c`). NUMA nodes are carved from the top of memory down, CPU partitions from the bottom
  up; both skip holes. Modules `MemPart`, `CpuPart`.
- **CPU masks** (`lib/bits.c`). A branch-free population count, and an iterator made of counting, finding and clearing.
  Modules `Bitmask`, `CpuMask`.
- **Mailbox** (`tunnel.c`). A slot of one packet between kernels, with senders and a receiver interleaved access by
  access. With one sender nothing is lost or reordered, and everything arrives. Modules `Mailbox`, `MailboxProgress`.

Code that works on arrays is modelled by methods on arrays, each tied by its contract to a specification function; the
lemmas are about those functions. Concurrent code is modelled by a step function on states; the theorems quantify over
all schedules. Arithmetic is over exact reals, except in the random number generator: there `fl` is any rounding
function that leaves alone what binary64 holds exactly (integers of at most 53 bits over a power of two, section 3.3 of
IEEE 754-2008), so that the result holds for doubles.

## Where the code falls short of what its comments or callers expect

All but the last are proved, and the first four with the exact condition under which the code is right.

- `tunnel.c:147` says the slot's lock is for several writers. The test that the slot is empty comes before the lock is
  taken and is not repeated, so a second writer can overwrite a packet. The slot is first in, first out in all
  interleavings if and only if it has at most one sender (`Mailbox.LostPacket`, `Mailbox.FifoIffOneSender`).
- `mpart.c:537-555` rounds regions inwards to 128 MB (the comment there says 512 MB). A region that holds no multiple of
  128 MB ends up with its end below its start, and a partition that passes over it gets more memory than it should:
  with RAM at 1-128 MB, 144-160 MB and 256-512 MB, the second of two CPUs gets 256 MB instead of 128 MB
  (`CpuPart.PassedOver`). All partitions get exactly their share if and only if the first region that reaches 16 MB
  starts at 0, or all regions behind it, up to but not including the one in which the last partition ends, hold a
  multiple of 128 MB (`CpuPart.ExactWhen`, `CpuPart.PartitionNoNodes`). The condition is `CpuPart.WillBeExact`, a
  function of the region list, the number of CPUs and the reported total.
- The same loop takes a region that starts at 0 for the end of the list, and leaves the start of one that starts exactly
  at 16 MB alone. Either can move partitions off the multiples of 128 MB: with RAM at 0-272 MB and 512 MB-1 GB, the
  first of two ends at 624 MB (`CpuPart.StartsAtZero`); with RAM at 1-16 MB and 16-384 MB, it ends at 144 MB
  (`CpuPart.StartsAtCap`). When regions are realigned, all partitions begin and end at multiples of 128 MB if and only
  if they are empty or the number of regions that start at 16 MB behind the first usable one is a multiple of 8, of
  which all but the last are empty; when nothing is realigned, if and only if the holes below each region in which a
  partition has to end add up to a multiple of 128 MB (`CpuPart.AlignedWhen`, `CpuPart.PartitionNoNodes`).
- The size of a partition is computed before the regions are rounded, and need not be available afterwards
  (`CpuPart.TooLittleLeft`); `CpuPart.CutAll` finds all partitions if and only if it is. Otherwise the loop in
  the source reads on through the empty entries and past the end of the array.
- `bomp/benchmark/cg.c:704-705` says that the diagonal bounds the smallest eigenvalue of the matrix from below by rcond.
  What is added is rcond - shift, and that is the bound (`CgProgram.FormBound`): with a shift below rcond the matrix is
  positive definite (`CgProgram.PositiveWhen`), but with the shifts of all the classes of problems in lines 140-152,
  which are larger than nonzer + 1/4 + rcond, it is not (`CgProgram.ProgramMatrixNotPositive`). The values of zeta that
  those lines expect, which lie below the shift, point to a negative definite one. What `CgSteps` says of conjugate
  gradient covers both kinds, and the matrices that are neither.
- `bomp/benchmark/ft.c:714-717` says that the root table is set up by calling `cfftz` with `is` = 0. The code refuses
  that call and sets the table up in `fft_init`; the model follows the code.

## Model

| member | source | states |
|---|---|---|
| Lcg.IteratePow | bomp/benchmark/c_randdp.c:27-34 | k steps of the generator multiply the seed by a^k mod 2^46 |
| Lcg.IterateAdd | bomp/benchmark/c_randdp.c:27-34 | n steps from the state m steps on are m + n steps: the stream is continuous across calls |
| Lcg.JumpAhead | bomp/benchmark/ep.c:130-138 | one multiplication by a^k mod 2^46 jumps exactly k steps ahead in the sequential stream |
| Lcg.LiftSquare | bomp/benchmark/c_randdp.c:30-34 | for a = 5 mod 8, a^(2^k) is 1 plus an odd multiple of 2^(k+2) |
| Lcg.Displacement | bomp/benchmark/c_randdp.c:30-34 | t steps move an odd seed by 2^(k+2) times an odd number, where 2^k is the largest power of two in t |
| Lcg.Period | bomp/benchmark/c_randdp.c:30-34 | from an odd seed and with a multiplier that is 5 mod 8, the stream is back at the seed after t steps if and only if 2^44 divides t |
| Lcg.StatesOdd | bomp/benchmark/c_randdp.c:35-39 | from an odd seed and with an odd multiplier no state is even or 0 |
| Random.SplitIsExact | bomp/benchmark/c_randdp.c:55-68 | dropping the multiples of 2^46 in the middle of the split product loses nothing: it is a*x mod 2^46 |
| Random.FlMul | bomp/benchmark/c_randdp.c:63-66 | the product of two 23-bit halves is below 2^46 and rounding leaves it alone |
| Random.IntQuotient | bomp/benchmark/c_randdp.c:51-52 | scaling down and casting to int is integer division, and the value fits in an int |
| Random.Split | bomp/benchmark/c_randdp.c:51-53 | the rounded operations split an integer below 2^53 exactly into its quotient and remainder by 2^23 |
| Random.Reduce | bomp/benchmark/c_randdp.c:67-68 | the rounded operations reduce the last sum exactly mod 2^46 |
| Random.SplitStep | bomp/benchmark/c_randdp.c:60-68 | one step on doubles gives a*x mod 2^46; every rounding on the way is exact and every cast to int defined |
| Random.Randlc | bomp/benchmark/c_randdp.c:46-71 | the seed becomes a*x mod 2^46, and the result is the new seed over 2^46, for all integer seeds and multipliers below 2^46 |
| Random.Vranlc | bomp/benchmark/c_randdp.c:104-137 | fills n elements with the results of n randlc calls, changes no other element, and leaves the seed n steps on |
| Streams.Ipow46 | bomp/benchmark/ft.c:315-350 | repeated squaring gives a^exponent mod 2^46, for every exponent including 0 |
| Streams.FillPlane | bomp/benchmark/ft.c:301-306 | the copy loop puts the numbers at t and t + 1 into row j, column i, for t = 2*(j*NX + i) + 1, and touches nothing else |
| Streams.DrawPlane | bomp/benchmark/ft.c:298-306 | a plane holds the numbers that follow its starting state in the stream; the other planes are left alone |
| Streams.ComputeInitialConditions | bomp/benchmark/ft.c:271-310 | real and imaginary part of every element are the two numbers at its own place in the one stream from the seed, the cube being written down plane by plane and row by row, although each plane starts from a jump of its own |
| Streams.PositionInPlane | bomp/benchmark/ft.c:290-308 | first jump, jumps between planes and place in the plane add up to the position in the whole cube |
| Streams.BatchMultiplier | bomp/benchmark/ep.c:130-138 | MK + 1 squarings leave A^(2*NK) mod 2^46 |
| Streams.BatchSeed | bomp/benchmark/ep.c:164-176 | the halving loop gives batch kk the state 2*NK*kk steps after the seed, for all kk below 2^31 |
| Streams.Batch | bomp/benchmark/ep.c:164-182 | element j of batch kk is number 2*NK*kk + j + 1 of the one stream: the batches in a row are one uninterrupted vranlc run |
| Streams.KeyInRange | bomp/benchmark/is.c:305-321 | every key that create_seq makes is in [0, MAX_KEY) |
| Streams.FourUnits | bomp/benchmark/is.c:314-317 | the four draws of one key are consecutive in the stream and their rounded sum is exact |
| Streams.FlKey | bomp/benchmark/is.c:319 | scaling the sum is exact and the cast truncates it to an integer division |
| Streams.KeyIsDrawn | bomp/benchmark/is.c:314-319 | the integer formula for a key is MAX_KEY/4 times the sum of numbers 4i + 1 to 4i + 4 of the stream, chopped |
| Streams.CreateSeq | bomp/benchmark/is.c:305-321 | key i is MAX_KEY/4 times the sum of numbers 4i + 1 to 4i + 4 of the stream, chopped, and is in [0, MAX_KEY) |
| Dft.PowerMul | bomp/benchmark/ft.c:663-699 | (z^m)^n = z^(m*n) for the powers that the root table holds |
| Dft.TransformIsSum | bomp/benchmark/ft.c:712-714 | output k of the transform is the textbook sum over j of x[j]*w^(j*k) |
| Dft.Split | bomp/benchmark/ft.c:808-823 | the even outputs of a transform of size 2n are a transform of the sums of opposite inputs, the odd ones a transform of their differences times powers of the root |
| Dft.HalfTurn | bomp/benchmark/ft.c:663-699 | the 2^(t+1)-th root to the power 2^t is -1 |
| Dft.Inversion | bomp/benchmark/ft.c:705-753 | transforming with a root of unity and then with its inverse multiplies by the size, for every size 2^m and input |
| Stockham.ButterflyAt | bomp/benchmark/ft.c:791-824 | a stage puts the sum of two opposite rows and their twisted difference into rows lk apart |
| Stockham.StageStride | bomp/benchmark/ft.c:759-825 | one stage splits the rows of each residue class into sums, which stay, and twisted differences, which form a new class |
| Stockham.StageKeeps | bomp/benchmark/ft.c:759-825 | after stage l the rows of each residue k mod 2^l have the outputs congruent to k as their transform of size 2^(m-l); each stage keeps this |
| Stockham.StagesAreTransform | bomp/benchmark/ft.c:733-753 | all m stages together are the discrete Fourier transform |
| Fft.FillBlock | bomp/benchmark/ft.c:687-697 | one block of the table holds the powers of its root, and the rest of the table is kept |
| Fft.FftInit | bomp/benchmark/ft.c:663-699 | the table has u[2^s + i] = w_s^i for every block s, which is (cos, sin) of i*pi/2^s, and u[0] holds m |
| Fft.RootIsCis | bomp/benchmark/ft.c:687-697 | the root for size 2^t is (cos, sin) of 2*pi/2^t |
| Fft.CisRoots | bomp/benchmark/ft.c:687-697 | the roots built from cosine and sine are primitive: each is a square root of the one before, and the first is -1 |
| Fft.Ilog2 | bomp/benchmark/ft.c:831-849 | the least lg with 2^lg >= n; for n = 2^m it is m |
| Fft.ButterflyRow | bomp/benchmark/ft.c:809-822 | two rows of y become the sums and twisted differences of two rows of x, all other elements are kept |
| Fft.Fftz2 | bomp/benchmark/ft.c:759-825 | y becomes the stage of x in the first ny columns, and is kept elsewhere |
| Fft.UnitModulus | bomp/benchmark/ft.c:687-697 | every root in the table has modulus one, so its conjugate is its inverse |
| Fft.SignedInverses | bomp/benchmark/ft.c:797-803 | the roots used for is = -1 are the inverses of those used for is = 1 |
| Fft.Cfftz | bomp/benchmark/ft.c:705-753 | for m of both parities the transforms of the columns end up in x, with root w for is = 1 and its conjugate for is = -1; other columns are kept, and a wrong is or m is refused with x unchanged |
| Fft.ColumnsRoundTrip | bomp/benchmark/ft.c:705-753 | `cfftz` with is = -1 after is = 1 multiplies every column by its length, for every length 2^m |
| FftCube.PlaceIndex | bomp/benchmark/ft.c:524-657 | the loop variables of a pass and the indices of the cube correspond one to one, for all three axes |
| FftCube.CopyIn | bomp/benchmark/ft.c:543-548 | the scratch block holds the next fftblock pencils |
| FftCube.CopyOut | bomp/benchmark/ft.c:557-562 | the scratch block goes to the places of its pencils, and nothing else in the cube changes |
| FftCube.Cffts | bomp/benchmark/ft.c:524-657 | every pencil along the axis is transformed exactly once, in place or into another cube, when fftblock divides the dimension; otherwise all up to the last full block |
| FftCube.PassInverse | bomp/benchmark/ft.c:524-657 | a backward pass undoes the forward pass along the same axis up to its size |
| FftCube.FftRoundTrip | bomp/benchmark/ft.c:494-518 | the backward transform of the forward transform is NX*NY*NZ times the cube |
| FftCube.ForwardIsDft | bomp/benchmark/ft.c:510-512 | the passes along i, j and k, in this order, leave at (k, j, i) the sum over all k', j', i' of c(k', j', i')*w0^(i*i')*w1^(j*j')*w2^(k*k') |
| FftCube.BackwardIsDft | bomp/benchmark/ft.c:514-516 | so do the passes along k, j and i, in this order |
| FftCube.FftCubeTransform | bomp/benchmark/ft.c:494-518 | x2 ends up as the three-dimensional transform of x1, as that triple sum, with the tabulated roots for dir = 1 and their conjugates otherwise |
| Sparse.CountRows | bomp/benchmark/cg.c:766-776 | rowstr[j+1] counts the triples of row j |
| Sparse.RowStarts | bomp/benchmark/cg.c:778-781 | rowstr[j] is where row j starts |
| Sparse.BucketSort | bomp/benchmark/cg.c:791-805 | every row's triples, in list order, lie between its starts |
| Sparse.RowSums | bomp/benchmark/cg.c:783-797 | summing a row's entries of one column is summing the triples of that place |
| Sparse.GatherRow | bomp/benchmark/cg.c:819-832 | x holds the column sums of the row, and every column whose sum is not 0 is noted exactly once |
| Sparse.ExtractStep | bomp/benchmark/cg.c:837-847 | taking one noted column out keeps what is to come, what is done and what is clear in step |
| Sparse.ExtractRow | bomp/benchmark/cg.c:837-847 | the row comes out combined: no zero, each column once, the right sums; the workspaces are clear again; only slots behind nza and not past the row's own are written |
| Sparse.CompactRows | bomp/benchmark/cg.c:807-850 | compaction in place overwrites only what has been read, for all rows |
| Sparse.CombinedSums | bomp/benchmark/cg.c:834-847 | looking a column up in a combined row gives the sum of the row's entries in that column |
| Sparse.CsrEntry | bomp/benchmark/cg.c:735-851 | the entry at row j, column c of the result is the sum of all triples at that place |
| Sparse.SparseMatrix | bomp/benchmark/cg.c:735-851 | for every triple list within bounds the arrays become its compressed matrix, with rising rowstr, and the workspaces are clear again |
| MakeA.DrawOne | bomp/benchmark/cg.c:898-905 | a drawn index that is not marked is marked and noted with its value at the end of the vector, so that the indices stay distinct and in range |
| MakeA.IndexIs | bomp/benchmark/cg.c:892-919 | a number y in [0, 1) stands for the index i with i - 1 <= q*y < i, where q is the least power of two that is at least 2 and not below n |
| MakeA.DrawnAccepted | bomp/benchmark/cg.c:885-906 | the entries drawn are those draws, in order, whose index is at most n and not there yet: value from the first number, index from the second; every other draw has an index that is too large or there already |
| MakeA.Sprnvc | bomp/benchmark/cg.c:862-912 | the vector is exactly what the first draws of the stream yield that accept nz entries, as said for DrawnAccepted; the indices are distinct and in 1..n, and every mark is cleared again |
| MakeA.DrawNumber | bomp/benchmark/cg.c:885-906 | one pass of the loop takes the next two numbers of the stream and accepts or rejects them as one draw |
| MakeA.Vecset | bomp/benchmark/cg.c:925-948 | the vector becomes the one with the value at index i set, or added at the end; its sum in every other column is kept |
| MakeA.OneMoreFromStream | bomp/benchmark/cg.c:674-677 | the next vector drawn starts in the stream where the one before ended, and is 1/2 at its own index |
| MakeA.ColumnTriplesSum | bomp/benchmark/cg.c:678-699 | the triples appended for one column sum to the scaled products of the vector's values, within the windows |
| MakeA.VectorTriplesSum | bomp/benchmark/cg.c:678-699 | the triples appended for one vector sum to size times its outer product |
| MakeA.BuiltStep | bomp/benchmark/cg.c:674-701 | one pass of the outer loop adds ratio^(t-1) times the outer product of vector t and at most (nonzer+1)^2 triples |
| MakeA.AppendDiagonal | bomp/benchmark/cg.c:707-721 | rcond - shift is appended at every diagonal place within both windows |
| MakeA.MakeTriples | bomp/benchmark/cg.c:674-701 | the triple list sums to the matrix of the vectors that one uninterrupted stream yields; the exit for lack of space is taken only with fewer than n*(nonzer+1)^2 places |
| MakeA.WeightLaws | bomp/benchmark/cg.c:700 | the weights are the powers of the ratio: 1, the ratio, and products for sums of exponents |
| MakeA.OuterHorner | bomp/benchmark/cg.c:674-701 | a vector put in front of the others has weight 1, and all others are taken times the ratio |
| MakeA.MatrixSymmetric | bomp/benchmark/cg.c:634-729 | that matrix is symmetric |
| MakeA.MakeMatrix | bomp/benchmark/cg.c:634-729 | the arrays become the compressed form of the sum over t of ratio^(t-1)*v_t[row]*v_t[col], plus rcond - shift on the diagonal, for the vectors v_t drawn from the stream; entries outside the column window are 0; with the space that NZ provides (line 51) neither exit for lack of space is taken |
| MakeA.NoOtherColumns | bomp/benchmark/cg.c:681-696 | no triple outside the column window: every entry there is 0 |
| CgMatrix.MadeMatrix | bomp/benchmark/cg.c:174-200 | with full windows the rows are a square symmetric matrix with just these entries |
| CgMatrix.RowsStored | bomp/benchmark/cg.c:382-401 | these rows are what conj_grad reads from the arrays |
| CgMatrix.RandlcStream | bomp/benchmark/cg.c:885-892 | the results of randlc are a stream of numbers in [0, 1) such as makea draws from |
| ConjGrad.SelfAdjoint | bomp/benchmark/cg.c:456-463 | for a symmetric compressed matrix, (A*x).y = x.(A*y) |
| ConjGrad.PassEquations | bomp/benchmark/cg.c:434-570 | the recurrences of one pass: z, r and p move along p, A*p and r; alpha and beta solve their equations |
| ConjGrad.TrueResidual | bomp/benchmark/cg.c:538-546 | every pass keeps r = x - A*z |
| ConjGrad.NewResidual | bomp/benchmark/cg.c:519-546 | a new residual is orthogonal to all earlier ones |
| ConjGrad.NewDirection | bomp/benchmark/cg.c:548-569 | a new direction is conjugate to all earlier ones |
| ConjGrad.CgOrthogonality | bomp/benchmark/cg.c:405-607 | on a symmetric matrix with nonzero divisors, all residuals are mutually orthogonal and all directions mutually conjugate, after any number of passes |
| ConjGrad.RecomputedNorm | bomp/benchmark/cg.c:572-602 | the squared residual recomputed from A*z equals the last rho |
| ConjGrad.Multiply | bomp/benchmark/cg.c:456-463 | w becomes the product of the compressed matrix and a vector |
| ConjGrad.OnePass | bomp/benchmark/cg.c:434-570 | one pass on the arrays is one pass of the recurrence, exactly when neither divisor is 0 |
| ConjGrad.Solve | bomp/benchmark/cg.c:405-607 | the cgitmax passes get to the end exactly when no divisor vanishes; then z holds the iterate, and the sum under the square root is the last rho |
| CgSteps.RegularIff | bomp/benchmark/cg.c:519-561 | on a symmetric definite matrix, positive or negative, both divisors of a pass are nonzero if and only if the residual is not yet zero |
| CgSteps.RegularWhile | bomp/benchmark/cg.c:434-570 | on such a matrix the first k passes are possible if and only if no residual before the last of them is zero |
| CgSteps.PassesBounded | bomp/benchmark/cg.c:434-570 | no run with nonzero divisors has more passes than the matrix has rows |
| CgSteps.SolvesOrBreaksDown | bomp/benchmark/cg.c:405-607 | on every symmetric matrix and for every right side: after at most as many passes as there are rows the residual is zero and A*z = x, or the direction is not 0 and p.(A*p), by which the next pass divides, is |
| CgSteps.Solves | bomp/benchmark/cg.c:405-607 | on a symmetric definite matrix, positive or negative, the system is solved after at most as many passes as there are rows |
| CgProgram.DiagonalNegative | bomp/benchmark/cg.c:674-721 | when nonzer + 1/4 + rcond < shift, as in all classes of problems (lines 140-152), the matrix of the drawn vectors has a negative place on its diagonal |
| CgProgram.FormBound | bomp/benchmark/cg.c:703-721 | x.(A*x) >= (rcond - shift)*(x.x) for every x: the smallest eigenvalue is bounded from below by rcond - shift |
| CgProgram.PositiveWhen | bomp/benchmark/cg.c:703-721 | with a shift below rcond the matrix is positive definite |
| CgProgram.ProgramMatrixNotPositive | bomp/benchmark/cg.c:140-200 | so the matrix that main hands to conj_grad is not positive definite |
| CgProgram.MakeAndSolve | bomp/benchmark/cg.c:174-240 | makea, the starting vector, whose elements are all 1, and the first conj_grad on the same arrays: with the space of NZ there is never too little; the passes get to the end exactly when no divisor vanishes, and then z holds their iterate and the sum is the squared residual |
| KeyCounts.AccumulateInPlace | bomp/benchmark/is.c:415-416 | the loop turns counts into running sums in place |
| KeyCounts.SumsOfCounts | bomp/benchmark/is.c:402-416 | running sums of a thread's counts are its counts of keys up to each value |
| KeyCounts.PartsAddUp | bomp/benchmark/is.c:419-423 | for every partition of the keys, the threads' counts add up to the counts over all keys |
| KeyCounts.RankIsCardinality | bomp/benchmark/is.c:402-416 | the rank of v is the number of places that hold a key of at most v |
| KeyCounts.SlotsDistinct | bomp/benchmark/is.c:342-343 | the sort writes no slot twice |
| KeyCounts.SlotInBlock | bomp/benchmark/is.c:342-343 | each key goes to a slot between the ranks of its predecessor and its own |
| KeyCounts.PlacedSorts | bomp/benchmark/is.c:342-343 | when every key is in the block of its value, the array is in order and holds the same keys |
| KeyCounts.FullVerify | bomp/benchmark/is.c:331-361 | from ranks the sort leaves a nondecreasing permutation of key_buff2, and the check that follows passes |
| Barrier.StepInv | bomp/lib/spin.h:69-90 | every shared access keeps the barrier's invariant |
| Barrier.ArriveInv | bomp/lib/spin.h:72 | the thread that sees max - 1 is chosen exactly when all have arrived |
| Barrier.LastStepInv | bomp/lib/spin.h:73-74 | reset, then flip is safe in between |
| Barrier.BarrierSafety | bomp/lib/spin.h:55-90 | in all runs of all numbers of threads: nobody returns from its k-th wait before all have arrived at theirs; any two threads are within one round; the counter never exceeds N; while one thread resets and flips, the others spin on the old cycle |
| Barrier.SixBlocksFlip | bomp/lib/spin.h:69-90 | in any reachable state, six blocks in which every thread gets a step complete the arrival of the round |
| Barrier.BarrierProgress | bomp/lib/spin.h:69-90 | from every reachable state, every continuation of seven blocks in which each thread gets a step finishes the round for all |
| ForkJoin.RegionStep | bomp/lib/processing.c:36-47 | a thread's step in its function or final barrier keeps the region consistent |
| ForkJoin.FinishedMeansArrived | bomp/lib/processing.c:100-105 | when one thread has left the final barrier, all have finished the function |
| ForkJoin.PointerIsOwn | bomp/lib/processing.c:22-34 | a thread that is setting its thread-local data belongs to the region under way, and the global pointer is that region's |
| ForkJoin.TlsKeeps | bomp/lib/processing.c:22-34 | the store goes to the thread's own slot in its own region |
| ForkJoin.MainKeeps | bomp/lib/parallel.c:43-62 | every step of the main thread through fork, function and join keeps the invariant |
| ForkJoin.ForkJoinSafety | bomp/lib/processing.c:22-113 | for all sequences of regions and all schedules: no null or foreign pointer is used, inner barriers are safe; a region has the number of threads asked for, unless none is asked for or, with a dynamic team, more than there may be, when it has as many as there may be, and g_thread_numbers says so while it lasts; and when the join is over all ids have run the function exactly once and to its end, past all its barriers |
| ForkJoin.LateSpinners | bomp/lib/processing.c:36-47 | a thread late in leaving a joined region changes neither barrier, slots nor globals; it only returns |
| ForkJoinProgress.StepLess | bomp/lib/parallel.c:43-62 | every step of the main thread or a worker either changes nothing, because its thread tests the cycle in vain, is not created or has finished, or leaves strictly less to do |
| ForkJoinProgress.SomeoneGoesOn | bomp/lib/spin.h:69-90 | while one thread of a region spins, some other thread of it can go on |
| ForkJoinProgress.NoDeadlock | bomp/lib/processing.c:22-113 | when no thread can go on, the program is at its end and all threads of all regions have finished |
| ForkJoinProgress.ForkJoinTerminates | bomp/lib/processing.c:22-113 | for all programs, from every reachable state, every continuation that is long enough and gives every thread steps brings the main thread to the end of the program, with every region joined and every thread finished |
| Ranking.Nearness | bomp/benchmark/is.c:396-430 | the two barriers keep every thread within one half of an iteration of the master |
| Ranking.ClaimStep | bomp/lib/spin.h:26-37 | whoever wins the bit test holds the lock alone |
| Ranking.ReleaseStep | bomp/lib/spin.h:39-42 | only the holder releases the lock |
| Ranking.StoreStep | bomp/benchmark/is.c:404 | a thread stores in key_buff2 only keys that are its own, and no key has been replaced since the thread read it |
| Ranking.WriteStep | bomp/benchmark/is.c:419-423 | an element that is read and written under the lock gains just this thread's count |
| Ranking.OthersWait | bomp/benchmark/is.c:382-396 | while the master sets keys and clears, no other thread reads keys or merges |
| Ranking.CheckedIsRanked | bomp/benchmark/is.c:429-430 | past the second barrier every thread has copied all its keys and merged all its counts |
| Ranking.KeysAtIsSequential | bomp/benchmark/is.c:384-385 | in iteration e places 1 to e hold their own numbers, places 11 to 10 + e hold MAX_KEY - 1 to MAX_KEY - e, and all others the keys at first |
| Ranking.RankingRefines | bomp/benchmark/is.c:370-431 | for all numbers of threads, partitions of the keys and interleavings, in every iteration e: the keys are those just described; key_buff1[v] is the number of places that hold a key of at most v, and key_buff2 is a copy of the keys; at most one thread is in the critical section |
| RankingProgress.StepLess | bomp/benchmark/is.c:370-431 | no step adds to what is left in all; one that does not reduce it is a test in vain of the cycle or the lock, or a thread at its end |
| RankingProgress.HolderStep | bomp/lib/spin.h:26-42 | while the lock is taken, some thread holds it and is in its merge |
| RankingProgress.NoDeadlock | bomp/benchmark/is.c:396-430 | the threads cannot all wait in a barrier at the same time |
| RankingProgress.TwoBlocks | bomp/benchmark/is.c:370-431 | two blocks in which every thread gets a step get something done, unless all have finished |
| RankingProgress.RankingTerminates | bomp/benchmark/is.c:370-431 | from every reachable state, every continuation that is long enough and gives every thread steps completes all iterations in all threads, and key_buff1 then holds the ranks of the keys of sequential execution |
| MemPart.RamBetween | mpart.c:564-571 | the RAM between two addresses inside regions, from the signed lengths of the regions between them and what is inverted |
| MemPart.FindStart | mpart.c:725-740 | the inner loop stops at the region that holds the wanted address, or reports that there is no more memory, which happens if and only if there is not |
| MemPart.CountRegions | mpart.c:696-700 | the number of entries before the one that ends the list |
| MemPart.WantedIs | mpart.c:708-735 | the nodes want more than there is if and only if some node has no size or the sizes add up to more |
| MemPart.CarveNodes | mpart.c:696-748 | the message that there is no more memory is printed if and only if some node has no size or the sizes add up to more than the RAM there is; otherwise each node holds exactly its size in RAM, starts where the one below ends, and rstart and rend are the regions of its ends |
| CpuPart.SkipCap | mpart.c:469-481 | finds the first region that reaches 16 MB |
| CpuPart.HolesBelow | mpart.c:485-494 | the bytes below that region's start that are not RAM |
| CpuPart.ChunkSize | mpart.c:508-514 | the largest multiple of 128 MB of which every CPU can get one |
| CpuPart.Realign | mpart.c:541-553 | rewrites the regions in place, up to the first that starts or ends at 0: ends down to the next multiple of 128 MB, starts up to it unless they lie at most at 16 MB |
| CpuPart.RealignsUnless | mpart.c:541-553 | after that all bounds are multiples of 128 MB, if and only if a condition on the first two regions holds |
| CpuPart.StartsAtZero | mpart.c:453-595 | memory that starts at 0, and its true total, for which every run of the policy leaves the regions as they are and ends the first of two partitions at 624 MB |
| CpuPart.StartsAtCap | mpart.c:453-595 | memory with a region that starts at 16 MB, and its true total, for which every run of the policy ends the first of two partitions at 144 MB |
| CpuPart.RealignedOrdered | mpart.c:541-553 | the regions stay in order |
| CpuPart.CutOne | mpart.c:560-571 | one partition: its printed total is its length, its ends lie in RAM, it ends in the first region whose summed lengths reach far enough, and it holds one chunk of RAM plus what is inverted; or the loop runs through the empty entries to the end of the array, exactly when the regions are too short |
| CpuPart.CutAll | mpart.c:558-592 | the partitions tile the addresses from 0, partition l ends in the first region with which the lengths reach l + 1 chunks, and all are found if and only if the regions are long enough |
| CpuPart.SizeOfWhole | mpart.c:489-498 | when the reported total is the RAM of the list, the memory to divide is everything below the first region that reaches 16 MB and the RAM from there on |
| CpuPart.PartitionNoNodes | mpart.c:453-595 | the whole policy: the rounded list; the chunk, which is the largest multiple of 128 MB of which every CPU can get one out of the reported total and the holes below the first region that reaches 16 MB; and the partitions, which get exactly a chunk each, and lie on multiples of 128 MB, if and only if conditions on the given memory, the number of CPUs and the reported total hold |
| CpuPart.ExactWhen | mpart.c:498-592 | all partitions hold exactly a chunk of RAM if and only if no region is realigned, or every region of the given list behind the first usable one and before the one in which the last partition ends holds a multiple of 128 MB |
| CpuPart.AlignedWhen | mpart.c:498-592 | all partitions begin and end at multiples of 128 MB if and only if: regions are realigned, and the chunk is 0 or the number of regions that start at 16 MB behind the first usable one is a multiple of 8; or none is, and below each region in which a partition has to end the holes add up to a multiple of 128 MB |
| CpuPart.RealignedGaps | mpart.c:544-550 | in the realigned list, what lies in no region below a region is 16 MB for each region up to it that starts at 16 MB, and beyond that a multiple of 128 MB |
| CpuPart.EndsBehind | mpart.c:560-571 | a partition that is not empty ends behind all regions that start at 16 MB |
| CpuPart.BoundsStraight | mpart.c:544-550 | when all bounds are multiples of 128 MB, the holes below every region add up to one |
| CpuPart.TilesAligned | mpart.c:558-592 | with realigned bounds every partition begins and ends at a multiple of 128 MB |
| CpuPart.ExactUnlessInverted | mpart.c:558-592 | the first n partitions hold exactly a chunk of RAM if and only if no region before the one in which the last of them ends is inverted |
| CpuPart.HoldsMultipleIs | mpart.c:544-550 | the test that a region's start is at most its end rounded down says that it holds a multiple of 128 MB |
| CpuPart.TurnedOver | mpart.c:544-550 | a region from 16 MB on is inverted by rounding if and only if it holds no multiple of 128 MB |
| CpuPart.PassedOver | mpart.c:453-595 | memory and its true total for which the policy computes 128 MB for each of two CPUs and gives 256 MB to the second |
| CpuPart.TooLittleLeft | mpart.c:498-571 | memory and its true total for which the size that the policy computes is not there after rounding |
| Bitmask.Folded | lib/bits.c:12-16 | the three folding steps leave in each byte its number of ones; no field overflows or borrows |
| Bitmask.TopByte | lib/bits.c:18 | the multiplication adds the eight bytes into the top one |
| Bitmask.BitWeightCounts | lib/bits.c:7-19 | bit_weight is the number of ones of all 64 bits, for negative arguments too |
| CpuMask.FfsllFindsLeast | lib/bits.c:36 | ffsll is 0 for 0, and otherwise one more than the least bit set |
| CpuMask.ClearedBit | lib/bits.c:52 | masking with the complement of 1 << k clears bit k alone |
| CpuMask.CpusAreMembers | mpart.c:335-354 | the list of a mask's CPUs has exactly the members of the mask, ascending |
| CpuMask.BitWeightBitmask | lib/bits.c:21-29 | the number of CPUs in the mask |
| CpuMask.FfsllBitmask | lib/bits.c:31-45 | 0 for an empty mask, otherwise one more than the least CPU |
| CpuMask.ClearCpu | lib/bits.c:47-53 | takes one CPU out and changes no other |
| CpuMask.ClearLeast | mpart.c:335-354 | clearing the least CPU takes the first one off the list |
| CpuMask.WalkMask | mpart.c:335-354 | the loop visits exactly the CPUs of the map, each once and ascending, and leaves its copy empty and the map unchanged |
| Mailbox.SendKeeps | tunnel.c:219-267 | every access of a single sender keeps the invariant of the slot |
| Mailbox.ReceiveKeeps | tunnel.c:282-314 | every access of the receiver keeps it |
| Mailbox.OneSenderFifo | tunnel.c:219-314 | with one sender, in all interleavings, the packets written out are a prefix of those published, which are a prefix of those accepted, unmodified and with at most one outstanding |
| MailboxProgress.StepLess | tunnel.c:219-314 | no step of a single sender, the receiver or the device takes the next delivery further away, and the one that it waits for brings it nearer |
| MailboxProgress.EverythingArrives | tunnel.c:219-314 | from every state that one sender and a receiver reach, once both have had steps often enough, everything that had been taken is delivered, in order and unmodified |
| Mailbox.LostPacket | tunnel.c:243-265 | two senders that both see the empty slot: the first packet is lost |
| Mailbox.FifoIffOneSender | tunnel.c:219-314 | the slot is first in, first out in all interleavings if and only if it has at most one sender |

## Left out

- Rounding in FT and CG: their arithmetic is over exact reals. Cosine, sine and `pow` are parameters with the laws they obey; the square root around the last sum of `conj_grad` is not taken.
- MakeA.Sprnvc: the stream of random numbers and a bound on the number of draws are parameters, since whether the rejection loop ends depends on the stream; the contract speaks of the case that it does. `CgMatrix.RandlcStream` shows that `randlc`'s results are such a stream.
- OpenMP data sharing in `conj_grad`, in the loops of `sparse` and `makea`, in `cffts1`, `cffts2` and `cffts3`, and in the batch loop of EP: these are modelled sequentially. The reset of `rho` under `single nowait` is not ordered against the reduction.
- CgProgram.MakeAndSolve: the later calls of `conj_grad`, on z divided by its norm, and zeta. A zero divisor, after which doubles go on with infinities, is reported instead.
- Element n + 1 of the vectors that `conj_grad` and `main` initialise, and the shift of column numbers after `makea`, which does nothing for firstcol = 1.
- FftCube.Cffts: `cffts1`, `cffts2` and `cffts3` differ in which index is transformed, and are one method with the axis as a parameter.
- `evolve`, `checksum`, `compute_indexmap` and the verification values of FT, CG, EP and IS; EP's Gaussian deviates.
- Random.Randlc: `is_randlc` computes the same with its constants in static variables, whose one-time initialisation is not modelled.
- Overflow of the benchmarks' `int` sizes and indices.
- Ranking.RankingRefines: steps on private memory are joined with a shared one; the partial verification between the barriers only reads. `key_buff1[k-1]` with k = 0, which partial verification would read, is not part of this model.
- ForkJoin.ForkJoinSafety: nested parallel regions and the unsynchronised counter `nested` in them, `GOMP_single_start`, and the `stuck` statistics of the barrier.
- Creation of threads, affinity, thread-local storage and stacks (`bomp/lib/cthread.c`, the backends): a worker begins some time after it has been created, and runs.
- CpuPart.CutOne: the loop of the source has no test for the end of the list. The model follows it through the empty entries to the end of the array; what a read beyond that finds is not modelled, and is reported instead.
- CpuPart.PartitionNoNodes: the communication reservoir, the printed addresses derived from start, end and total, and overflow of 64-bit sizes. The number of entries is below the size of the array, so that the list has an end.
- `partitionedcpu_globalshm` other than its mask-walking loop, `clusteredcpu_on_nodes`, and the reading of `/proc` and `/sys`.
- Mailbox.OneSenderFifo: the address check that drops packets for other networks, restart of a receiver, and the bounded spin before yielding, which only retries the test.
- `/dev/mem`, mapping and TUN devices, `kcore.c`, `lib/popcorn.c`, the web server, the launchers and the latency, migration and communication tests: system calls with little logic of their own.
