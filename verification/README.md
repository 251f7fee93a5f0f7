# Verification of the planet miners

A Dafny model of the two mining engines of the repository and proofs about them.
Run `dafny verify dfyconfig.toml` in this directory to check everything.

A *miner* looks at a square chunk of cells, hashes every cell's coordinates with a sponge
built on a MiMC Feistel permutation over the residues modulo a prime P, and reports the cells
whose hash is below P / rarity. There are two independent implementations. The CPU miner keeps
arbitrary-precision residues and runs columns on OpenMP threads. The CUDA miner works in
256-bit registers, reduces by subtracting P only while a value is *larger* than P (so P itself
remains as a second form of 0), spreads cells over a grid of threads that write fields of a
reused device buffer, and lets the host scan that buffer.

What is proved, in short:

- **Agreement.** From any complete run of the CPU's threads and any complete run of the
  kernel's threads, under a launch that covers the chunk, the two lists are permutations of
  each other *exactly if* every hash 0 that the CPU computes in the chunk is a *true zero*;
  the difference is exactly the cells with another hash 0, which the CPU reports and CUDA
  drops (`Agreement`). In particular the miners agree on every chunk without a CPU hash 0.
  This holds for all signed 64-bit coordinates. Whether a 0 is true is read off the CPU's own
  computation (`SecondZero`): every second fifth power that feeds the left half must vanish,
  all the way back to the start. Two concrete jobs show that the miners can disagree.
- **Simulation.** After any sequence of sponge operations each device half is the CPU's, or P
  where the CPU has 0; nothing overflows 256 bits and the reduction loop runs at most once
  (`DeviceSponge`). Both are the residues of one integer recurrence that is reduced only at
  the end (`SpongeSpec`).
- **Permutation.** The mix has an explicit two-sided inverse, so rows of a column end in
  different states unless their 32-bit magnitudes collide (`Feistel`).
- **Threads.** Every schedule of the CPU's parallel region is safe, bounded and never stuck,
  and appends the planets of the sequential loops (`CpuThreads`). Every schedule of the
  kernel, one step per field access and with overlapping blocks, ends in one and the same
  buffer (`Kernel`).
- **Grid.** Exactly which rows a launch writes, and when it writes all of them. *The code
  computes the number of blocks as a ceiling over work * block rows but starts a block only
  1 + work rows after the previous one*; the comment in the source (`grid_size_y = ceil(...)`)
  suggests full coverage, and the model follows the code. With the command line's defaults
  (work 16, block 32) the rows 529 to 1023 of a 1024-chunk are never written (`Grid`).
- **Stale memory.** The buffer is never cleared. Still no call ever sees what an earlier one
  wrote, covering or not: launches that share a buffer write the same cells. What a call
  reports is determined by its arguments and by what the buffer contained when it was
  allocated, and by the arguments alone exactly if the launch covers all rows (`CudaMiner`).

## How the model is laid out

| file | contents |
|---|---|
| `ModArith.dfy` | residues and division by a variable modulus |
| `SpongeSpec.dfy` | the permutation, the sponge as a machine, snapshots, coordinates, the integer reference |
| `Constants.dfy` | the real modulus and the 219 round constants |
| `Feistel.dfy` | the inverse of the mix and what follows from it |
| `CpuHash.dfy`, `DeviceSponge.dfy` | the two sponge classes; simulation |
| `Limbs.dfy` | 256-bit numbers as eight 32-bit limbs |
| `Planets.dfy` | what mining a chunk means, for any hash; counts, orders, tilings |
| `CpuMiner.dfy`, `CpuThreads.dfy` | the CPU miner, sequential and parallel |
| `Grid.dfy`, `Kernel.dfy`, `CudaMiner.dfy` | the launch grid, the kernel, the buffer and the host |
| `SecondZero.dfy` | which device zeros are held as P, in terms of the CPU's numbers |
| `Scheduling.dfy` | sums over threads that bound runs |
| `Agreement.dfy` | the two miners against each other |

The field parameters are abstract everywhere (any modulus from 2^64 to 2^255 and any list of
residues); `Constants.GAME` is the real instance.

## Model

| member | source | states |
|---|---|---|
| Agreement.CompleteRunsAgreeIff | miner-cuda/lib/miner.cu:193-314 | For any complete CPU run and any complete kernel run from any stale buffer under a covering launch, the host's list is in strictly increasing (y, x) order and is a permutation of the CPU's list if and only if every 0 among the CPU's hashes of the chunk is a true zero |
| Agreement.CompleteRunsExist | miner-cuda/lib/miner.cu:193-314 | For every valid job, launch, number of CPU workers and stale buffer there is such a pair of complete runs |
| Agreement.EveryKernelRunReports | miner-cuda/lib/miner.cu:193-314 | After any complete run of the kernel, covering or not, the host lists the planets of the rows written and the stale contents of the others |
| Agreement.MinersAgreeIff | miner-cpu/lib/miner.cc:60-87 | The sequential CPU list and the CUDA list hold the same planets if and only if no cell of the chunk has a CPU hash 0 that is not a true zero |
| Agreement.AgreeWithoutZeroHash | miner-cpu/lib/miner.cc:60-87 | On a chunk without a CPU hash 0 the two miners report the same planets |
| Agreement.DifferenceIsExactly | miner-cuda/lib/miner.cu:252-257 | Planet by planet: the CPU lists one more, with hash 0, exactly for the cells whose CPU hash is 0 and not a true zero |
| Agreement.CudaReportsNoMore | miner-cuda/lib/miner.cu:252-257 | CUDA never reports a planet that the CPU does not report |
| Agreement.CoordinatesAddToP | miner-cuda/lib/miner.cu:105-113 | With P = 2^64, no round constants and the one cell (1, -1), a valid job makes the miners report different planets |
| Agreement.RoundAddsToP | miner-cuda/lib/miner.cu:145-160 | So does P = 2^65 + 2 with the one round constant 0 and the one cell (1, 8191) |
| Agreement.EveryKeyHasASecondZero | miner-cuda/lib/miner.cu:145-160 | For every key and non-empty constant list some pair of residues, not shown to come from coordinates, is mixed to left half 0 by the CPU and to P by the device |
| SecondZero.HoldsPIff | miner-cuda/lib/miner.cu:105-160 | The device register of a cell holds P if and only if the CPU's hash is 0 and not a true zero, which is defined by the CPU's functions only |
| SecondZero.MarksUnrolled | miner-cpu/lib/hash.cc:90-100 | The left half after the rounds is a true zero if and only if the powers of every second round, from the last one back, vanish and the half they are added to was a true zero |
| SecondZero.SumIsZeroIff | miner-cuda/lib/miner.cu:105-113 | A device sum of numbers in [0, P] is 0 only as 0 + 0 |
| SecondZero.RoundsZeros | miner-cuda/lib/miner.cu:145-157 | Which device halves are 0 after any number of rounds is exactly what the marks over the CPU's rounds say |
| SpongeSpec.RoundsAreUnreducedResidues | miner-cpu/lib/hash.cc:90-100 | Reducing after every operation yields the residues of the Feistel recurrence over unreduced integers |
| SpongeSpec.MixIsUnreducedResidue | miner-cpu/lib/hash.cc:90-105 | The same for the whole mix with its unswapped last round, from any pair of integers |
| SpongeSpec.CellHashIsUnreduced | miner-cpu/lib/miner.cc:62-74 | The hash of every cell is the residue of one integer computed from its coordinates, cut to 32 bits of magnitude, and the key without any reduction on the way |
| SpongeSpec.SnapshotReuse | miner-cpu/lib/miner.cc:62-73 | Restoring the column snapshot and hashing the row equals hashing both coordinates from a fresh state, whatever the sponge held and whatever operations but a save came between |
| SpongeSpec.WrapIsResidueIff | miner-cpu/lib/hash.cc:25-34 | For every 64-bit coordinate, the wrapped coordinate is its residue if and only if its magnitude is below 2^32 |
| SpongeSpec.WrapCollidesIff | miner-cpu/lib/hash.cc:25-34 | Two coordinates give one field element exactly if their 32-bit magnitudes agree and they share a sign or have magnitude 0 |
| Constants.RealParametersAreAField | miner-common/include/miner/common/constants.h:9-233 | There are 219 constants, all below P, P is above 2^64 and twice P fits 256 bits |
| Feistel.MixIsAPermutation | miner-cpu/lib/hash.cc:90-105 | The explicit inverse undoes the mix on both sides, for every key and list of constants |
| Feistel.InjectInjective | miner-cpu/lib/hash.cc:85-88 | Two injections into one state agree exactly if the injected values are one residue |
| Feistel.RowsCollideIff | miner-cpu/lib/miner.cc:67-73 | Two rows of a column end in the same pair of halves exactly if their coordinates alias |
| Feistel.DistinctRowsDistinctStates | miner-cpu/lib/miner.cc:67-73 | Rows less than 2^32 apart, hence all rows of a chunk, end in different states |
| Feistel.DistinctColumnsDistinctSeeds | miner-cpu/lib/miner.cc:60-66 | Columns less than 2^32 apart have different snapshots |
| CpuHash.WrapCoordinate | miner-cpu/lib/hash.cc:25-34 | Returns the wrapped coordinate, which is the residue for magnitudes below 2^32 |
| CpuHash.FieldAdd | miner-cpu/lib/hash.cc:40-44 | The residue of the sum, for residues by at most one subtraction, and the scratch value |
| CpuHash.FifthPower | miner-cpu/lib/hash.cc:46-49 | The fifth power modulo p |
| CpuHash.Sponge.Reset | miner-cpu/lib/hash.cc:79-83 | Clears the live halves, keeps the snapshot |
| CpuHash.Sponge.Inject | miner-cpu/lib/hash.cc:85-88 | Adds to the left half |
| CpuHash.Sponge.Mix | miner-cpu/lib/hash.cc:90-105 | The in-place loop over the constants with scratch fields computes the permutation |
| CpuHash.Sponge.Save | miner-cpu/lib/hash.cc:107-111 | The snapshot becomes the live halves |
| CpuHash.Sponge.Restore | miner-cpu/lib/hash.cc:113-117 | The live halves become the snapshot |
| CpuHash.Sponge.Result | miner-cpu/lib/hash.cc:119-122 | The left half |
| CpuHash.PlanetThreshold | miner-cpu/lib/hash.cc:124-127 | The comparison with the rounded-down threshold is (hash + 1) * rarity <= p |
| DeviceSponge.FieldAdd | miner-cuda/lib/miner.cu:105-113 | For all 256-bit operands the loop ends in [0, p]; for operands in [0, p] at most one subtraction and no overflow |
| DeviceSponge.FieldMul | miner-cuda/lib/miner.cu:115-121 | The high half of the product is below p, so the wide remainder is defined; the result is the residue of the product |
| DeviceSponge.FifthPower | miner-cuda/lib/miner.cu:123-129 | Square, square, multiply: the CPU's fifth power of the residue the register stands for, with all intermediate values residues |
| DeviceSponge.FifthSimulated | miner-cuda/lib/miner.cu:123-129 | Equals the CPU's modular fifth power for every n in [0, p], p included, and is a residue |
| DeviceSponge.AddSimulated | miner-cuda/lib/miner.cu:105-113 | The device sum stays in [0, p] and stands for the CPU's sum |
| DeviceSponge.WrapCoordinate | miner-cuda/lib/miner.cu:88-103 | In [0, P] and equal to the CPU's wrapped coordinate for every 64-bit coordinate, which is the residue for magnitudes below 2^32 |
| DeviceSponge.WrapAgrees | miner-cuda/lib/miner.cu:88-103 | The device's wrapped coordinate is the CPU's, without borrow |
| DeviceSponge.MixSimulated | miner-cuda/lib/miner.cu:145-160 | The mix of halves in [0, p] stays there and stands for the CPU's mix |
| DeviceSponge.SpongeSimulated | miner-cuda/lib/miner.cu:131-177 | After any sequence of reset, inject, mix, save, restore every half and snapshot is in [0, p] and is the CPU's, or p for 0 |
| DeviceSponge.CellHashSimulated | miner-cuda/lib/miner.cu:229-250 | For all coordinates the device hash is in [0, p] and stands for the CPU hash |
| DeviceSponge.Sponge.Reset | miner-cuda/lib/miner.cu:134-138 | Clears the live halves, keeps the snapshot |
| DeviceSponge.Sponge.Inject | miner-cuda/lib/miner.cu:140-143 | Adds to the left half, keeps it in [0, p], and the result stands for the CPU's sum |
| DeviceSponge.Sponge.Mix | miner-cuda/lib/miner.cu:145-160 | The in-place loop computes the register permutation, keeps both halves in [0, p], and the result stands for the CPU's mix |
| DeviceSponge.Sponge.Save | miner-cuda/lib/miner.cu:162-166 | The snapshot becomes the live halves |
| DeviceSponge.Sponge.Restore | miner-cuda/lib/miner.cu:168-172 | The live halves become the snapshot |
| Limbs.FromMpz | miner-cuda/lib/miner.cu:69-86 | Succeeds exactly below 2^256; then limb i is the i-th base-2^32 digit, lowest first, also where the exported words are padded with zeros, and the limbs import to the number; on failure the array is unchanged |
| Limbs.ToMpz | miner-cuda/lib/miner.cu:64-67 | The number whose i-th base-2^32 digit is limb i; exporting it gives the limbs back |
| Limbs.RoundTrip | miner-cuda/lib/miner.cu:64-86 | Export, pad, import is the identity on every number that fits, 0 included |
| Limbs.LimbsRoundTrip | miner-cuda/lib/miner.cu:64-86 | Import, export, pad is the identity on limbs |
| Limbs.LimbIsDigit | miner-cuda/lib/miner.cu:64-86 | Limb i of an imported number is its i-th digit in base 2^32 |
| Limbs.SizeBelow | miner-cuda/lib/miner.cu:75-79 | The bit-size test is the test against the power of two |
| Planets.ByColumnsCount | miner-cpu/lib/miner.cc:60-87 | The nested loops list every hit of the chunk exactly once and nothing else |
| Planets.ByRowsCount | miner-cuda/lib/miner.cu:303-313 | The same for the row-by-row order of the buffer |
| Planets.OrdersAgree | miner-cuda/lib/miner.cu:303-313 | Rows first or columns first, the planets are the same |
| Planets.RowsAreOrdered | miner-cuda/lib/miner.cu:303-313 | The row-by-row list is strictly increasing in (y, x) |
| Planets.ColumnsAreOrdered | miner-cpu/lib/miner.cc:60-87 | The column-by-column list is strictly increasing in (x, y) |
| Planets.EqualCoverEqualPlanets | miner-cpu/lib/miner.cc:60-87 | Families of chunks that cover all cells equally often yield the same planets |
| Planets.PartitionYieldsChunk | miner-cpu/lib/miner.cc:60-87 | Mining any partition of a chunk into square chunks yields the chunk's planets |
| Planets.QuadrantsYieldChunk | miner-cpu/lib/miner.cc:60-87 | In particular its four quadrants |
| CpuMiner.PlanetVector.PushBack | miner-cpu/lib/miner.cc:84 | Appends one planet |
| CpuMiner.MineColumn | miner-cpu/lib/miner.cc:62-87 | One column on one sponge appends the column's planets in order of y |
| CpuMiner.Mine | miner-cpu/lib/miner.cc:30-90 | On one thread, appends the planets of the nested loops, in strictly increasing (x, y) order |
| CpuMiner.MinedExactly | miner-cpu/lib/miner.cc:60-87 | Lists a planet once if it is a cell of the chunk with its hash and (hash + 1) * rarity <= p, and never otherwise |
| CpuMiner.RarerMeansFewer | miner-cpu/lib/miner.cc:35 | Raising the rarity only removes planets |
| CpuThreads.StepPreserves | miner-cpu/lib/miner.cc:51-89 | Every step of every worker keeps the invariant: snapshots, ownership, lock, and per column exactly the prefix dealt with |
| CpuThreads.MutualExclusion | miner-cpu/lib/miner.cc:81-85 | In every state of every run at most one worker is in the critical section |
| CpuThreads.NeverStuck | miner-cpu/lib/miner.cc:51-89 | Some worker can step exactly while some column is unfinished |
| CpuThreads.RunsAreBounded | miner-cpu/lib/miner.cc:51-89 | No schedule is longer than a bound in the side length |
| CpuThreads.RunsCanBeCompleted | miner-cpu/lib/miner.cc:51-89 | Every run extends to a complete one |
| CpuThreads.EveryCompleteRunMines | miner-cpu/lib/miner.cc:51-89 | Every maximal run appends the planets of the sequential loops, each column's in order of y |
| CpuThreads.MineParallel | miner-cpu/lib/miner.cc:30-90 | With any number of workers and an arbitrary scheduler: old entries stay, the new ones are the job's planets |
| Grid.Blocks | miner-cuda/lib/miner.cu:273-275 | The least number of blocks whose items reach the side |
| Grid.LaunchFits | miner-cuda/lib/miner.cu:273-275 | The 32-bit grid size is that number |
| Grid.LaunchOverflows | miner-cuda/lib/miner.cu:273-275 | Just outside the allowed launches, with work * block + side above 2^32, the computed grid has no blocks |
| Grid.NoWrapAround | miner-cuda/lib/miner.cu:235-239 | The 32-bit row expression is exact for every thread of the grid |
| Grid.RowsInOrder | miner-cuda/lib/miner.cu:235-239 | The first thread starts at row 0, iterations go up row by row, a thread starts right after the last row of the thread before it, a block 1 + work rows after the start of the block before it |
| Grid.FlatIndex | miner-cuda/lib/miner.cu:252 | The 32-bit flat index is exact, inside the buffer, and determines the cell |
| Grid.FlatIndexOnto | miner-cuda/lib/miner.cu:252 | Every buffer index is the index of a cell |
| Grid.AreaFitsIff | miner-cuda/lib/miner.cu:372-373 | The 32-bit area is exact if and only if the side is below 2^16 |
| Grid.WrittenIffBelowReach | miner-cuda/lib/miner.cu:235-244 | With two or more threads per block, exactly the rows below (G - 1) * (1 + work) + work * block are written |
| Grid.WrittenIffOutsideGap | miner-cuda/lib/miner.cu:235-244 | With one thread per block, exactly the rows not congruent to work modulo 1 + work are written |
| Grid.CoveredIff | miner-cuda/lib/miner.cu:235-277 | All rows are written if and only if block >= 2 and side is within reach, or block = 1 and side <= work |
| Grid.OneBlockWritesEachRowOnce | miner-cuda/lib/miner.cu:235-259 | With one block every row is written, by exactly one thread in exactly one of its iterations |
| Grid.OneBlockCovers | miner-cuda/lib/miner.cu:273-277 | One block covers all rows |
| Grid.DefaultLaunchMissesRows | miner-cuda/lib/miner.cu:235-277 | Side 1024, work 16, block 32: two blocks, and a row is written exactly if it is below 529 |
| Kernel.StepPreserves | miner-cuda/lib/miner.cu:229-260 | Every field access of every thread keeps the invariant: each field stale or final, finished rows final, accesses in bounds |
| Kernel.FieldsSettle | miner-cuda/lib/miner.cu:252-259 | In every state of every run each field is untouched or has the value its coordinates determine |
| Kernel.NeverStuck | miner-cuda/lib/miner.cu:193-261 | Every thread that is not done can step: no access out of bounds |
| Kernel.RunsAreBounded | miner-cuda/lib/miner.cu:237-260 | No schedule takes more than 6 * work + 2 steps per launched thread |
| Kernel.RunsCanBeCompleted | miner-cuda/lib/miner.cu:193-261 | Every run extends to a complete one |
| Kernel.EveryCompleteRunFills | miner-cuda/lib/miner.cu:193-261 | Every maximal run ends in one and the same buffer, whose fields `Kernel.FinalFields` spells out |
| Kernel.FinalFields | miner-cuda/lib/miner.cu:252-259 | Field by field: every written cell, planet or not, has its own coordinates, is flagged exactly if its device hash is below the threshold, and holds the hash if flagged, the stale limbs if not; every other cell is stale |
| Kernel.LaunchKernel | miner-cuda/lib/miner.cu:292-295 | In place under an arbitrary scheduler, the buffer becomes that one |
| CudaMiner.MineBatchKernel | miner-cuda/lib/miner.cu:193-261 | Thread v of block (bx, q) alone makes exactly the cells of column bx in the rows from q * (1 + work) + work * v, `work` of them, final and leaves the others |
| CudaMiner.MineCell | miner-cuda/lib/miner.cu:244-259 | One iteration makes one cell final |
| CudaMiner.CollectPlanets | miner-cuda/lib/miner.cu:301-313 | Appends the flagged cells in index order, hashes imported from limbs |
| CudaMiner.ScanAt | miner-cuda/lib/miner.cu:301-313 | The list has one entry per flagged cell, with the coordinates and the imported hash of the cell, at the position given by the number of flagged cells before it |
| CudaMiner.ScanIsReported | miner-cuda/lib/miner.cu:301-313 | For any launch and stale buffer the list is, row by row, the planets of the rows written and the stale contents of the others |
| CudaMiner.ScanIsByRows | miner-cuda/lib/miner.cu:301-313 | Under full coverage the scan is the row-by-row list of the arguments, whatever the stale buffer |
| CudaMiner.UnwrittenRowLeaks | miner-cuda/lib/miner.cu:301-313 | An unwritten row makes two stale buffers give two lists |
| CudaMiner.AllocationIrrelevantIff | miner-cuda/lib/miner.cu:253-313 | The list is independent of what the allocation contained if and only if the launch covers all rows |
| CudaMiner.OnlyUnwrittenCellsMatter | miner-cuda/lib/miner.cu:253-313 | For any launch, buffers that list alike in the cells it leaves alone give the same list |
| CudaMiner.EarlierLaunchesIrrelevant | miner-cuda/lib/miner.cu:353-381 | After any sequence of launches over the same grid, covering or not, a launch lists what it would list from the buffer as it was before them |
| CudaMiner.CudaMiner.Initialize | miner-cuda/lib/miner.cu:327-351 | The device constants import to the modulus and the round constants |
| CudaMiner.CudaMiner.PrepareCache | miner-cuda/lib/miner.cu:353-381 | A buffer of side * side cells; the old one, contents and all, if the side is the same, else a new one |
| CudaMiner.CudaMiner.RunMineBatch | miner-cuda/lib/miner.cu:263-314 | Makes the cached buffer final and appends its scan |
| CudaMiner.CudaMiner.Mine | miner-cuda/lib/miner.cu:383-412 | For any launch, in terms of the call's own key, rarity and chunk: every written cell lists exactly as its hash demands, and what is appended is, row by row, the planets of the rows written and the stale contents of the others, the stale buffer being the cached one if the side is the same; under full coverage, the list that the arguments determine |
| CudaMiner.MineNext | miner-cuda/lib/miner.cu:383-412 | One more call, after any others: reports the planets of the rows it writes and, in the other rows, the contents of the buffer's allocation |
| CudaMiner.MineRepeatedly | miner-cuda/lib/miner.cu:353-412 | Any sequence of calls with any sides, covering or not, reports what each call's arguments and its side's allocation determine, with a new allocation only where the side changes; covering calls report what their arguments determine |

## Left out

- The HTTP, REST and JSON-RPC layers and the command line: input and output around the miners.
- GMP and CGBN internals: `mpz_*`, `add`, `sub`, `mul_wide`, `rem_wide` are integer operations, with wrap-around at 2^256 and the divisor condition of the wide remainder where they matter.
- Lane cooperation inside one big number: the index of a virtual thread is `threadIdx.x / TPI`, and storing a hash is one step although several lanes store its limbs.
- Weak memory on the device: steps of threads are interleaved, each field access being one step.
- Allocation failures, copies between host and device, error reports, leaks: device and host buffer are one array.
- The decimal rendering of a hash: a planet carries the number.
- Inputs outside the ranges of `ValidJob` and `ValidLaunch` (rarity 0, sides from 2^16 on for CUDA, 64-bit overflow of loop bounds, 32-bit overflow of work * block + side): the source gives no guarantee there; `Grid.AreaFitsIff` says where the buffer size breaks, `Grid.LaunchOverflows` where the grid size does.
- Limits of the hardware on grid and block sizes.
- Whether a chunk of the real game, with its 219 constants, contains a cell that the CPU reports and CUDA drops: the two concrete jobs have their own small fields.
- The strength of the hash and the primality of P: nothing here needs them.
