# Seeder sync utilities and AVS aggregation, in Dafny

This project models two parts of the EigenLayer explorer backend.

The first part is the indexer's sync utilities in `packages/seeder/src/utils/seeder.ts`:

- `loopThroughBlocks` is the block-range batcher. It walks `[firstBlock, lastBlock]` in sub-ranges and awaits a callback on each one.
- `baseBlock`, `fetchLastSyncBlock` and `saveLastSyncBlock` are the checkpoint store. It keeps one value per key in the `settings` table.
- `bulkUpdateDbTransactions` is the chunked bulk committer. It commits chunks of 1000 operations, one Prisma transaction each.
- `getBlockDataFromDb` is the block timestamp lookup over the `evm_BlockData` table.

The second part is the integer aggregation in the AVS report handlers in `packages/api/src/routes/avs/avsController.ts`:

- `getAllAVS` counts each AVS's active operators and sums their stakers.
- `getAVS` computes exact per-strategy share totals and the staker total.

Files:

- `util.dfy` (module `Util`): an `Option`, exact sums with their append and permutation lemmas, a filter, and two facts about division.
- `chunk_util.dfy` (module `ChunkUtil`): `chunkArray`.
- `seeder.dfy` (module `Seeder`): the seeder utilities. The Prisma client is the class `Seeder.Database`, whose methods update its tables in place.
- `avs_controller.dfy` (module `AvsController`): the aggregation. The database reads are functions over in-memory tables.

How the model treats the environment:

- Block numbers, share amounts and staker counts are unbounded integers.
- The batcher's callback is a parameter `cb: (int, int) -> bool`. It says whether the callback resolves (true) or throws (false) on a range. The method returns the ranges it called the callback on.
- Whether a Prisma transaction commits or throws is up to the store. The model leaves it as a nondeterministic choice.
- The `NETWORK` environment variable is a parameter (`None` when it is unset).
- The configured strategy contracts (`getEigenContracts().Strategies`) are a parameter, in configuration order.

Notes on what the code does:

- Each sub-range starts one block after the previous one ended. Every range but the last spans `batchSize + 1` blocks.
- With the default batch size, syncing 17000000..17025000 gives [17000000, 17009999], [17010000, 17019999] and [17020000, 17025000]. No block is shared between ranges (`Seeder.RangesMainnetExample`).
- The loop test starts as `firstBlock < lastBlock`. So `firstBlock == lastBlock` makes no callback, and that single block is not visited (`Seeder.RangesCover`).
- `fetchLastSyncBlock` returns the stored value plus one.
- A stored 0 is falsy, so it reads back as `baseBlock`, not as 1 (`Seeder.SaveThenFetch`).
- `saveLastSyncBlock` does not compare with the stored value. A checkpoint can move backwards if a caller saves a smaller block.
- `getAllAVS` and `getAVS` report the same `totalOperators` and `totalStakers` for an AVS. `AvsController.GetAllAvsEntry` and `AvsController.GetAvs` both state them as the number of active operators and the sum over the same rows, `ActiveOperatorRecords`.
- In `getAVS`, `shares.find` stops at the first entry with a matching strategy. If a strategy contract is configured twice, all of its shares go to the first entry and the later one stays at 0.

## Model

| member | source | states |
|---|---|---|
| `Seeder.Database.BulkUpdateDbTransactions` | packages/seeder/src/utils/seeder.ts:37-55 | The committed transactions grow by a prefix of `chunkArray(ops, 1000)`, in order, and the tables hold exactly the writes of those chunks, applied in order. The result is success exactly when every chunk was committed, and then the tables are as if every operation had been applied one after another (through `Seeder.ApplyAllAppend` and `ChunkUtil.FlattenSnoc`). |
| `Seeder.Database.Transaction` | packages/seeder/src/utils/seeder.ts:49 | A transaction applies all of the chunk's writes, in order, and commits the chunk, or it throws and leaves the tables and the commit log as they were. |
| `Seeder.CommittedChunks` | packages/seeder/src/utils/seeder.ts:43-52 | There are ceil(n/1000) transactions. Each holds 1 to 1000 operations, and together they are the operations in order. For 2500 operations the sizes are 1000, 1000 and 500. |
| `Seeder.ApplyAllAppend` | packages/seeder/src/utils/seeder.ts:48-52 | Applying one group of writes and then another gives the same tables as applying the two groups as one sequence. So committing chunk by chunk has the same effect as applying the operations in order. |
| `ChunkUtil.ChunkArray` | packages/seeder/src/utils/seeder.ts:48 | Chunks are non-empty and at most `size` long. All but the last are exactly `size` long. They concatenate back to the input, and there are ceil(n/size) of them. |
| `Seeder.LoopThroughBlocks` | packages/seeder/src/utils/seeder.ts:15-35 | The callback ranges are a prefix of `Ranges(firstBlock, lastBlock, batchSize)`, where `batchSize` is 9999 for an absent or 0 argument. Every call before the last resolved. The result is `lastBlock` exactly when every range was called and resolved. Otherwise the run stops at the first range whose callback threw. |
| `Seeder.RangesContiguous` | packages/seeder/src/utils/seeder.ts:22-32 | When `firstBlock < lastBlock`, the first range starts at `firstBlock` and the last ends at `lastBlock`. Each later range starts at the previous `toBlock + 1`, and every range but the last spans exactly `batchSize + 1` blocks. |
| `Seeder.RangesBounded` | packages/seeder/src/utils/seeder.ts:21-28 | Every range has `fromBlock <= toBlock` and `toBlock - fromBlock <= batchSize`, and lies within [firstBlock, lastBlock]. |
| `Seeder.RangesEmptyIff` | packages/seeder/src/utils/seeder.ts:22-25 | There are no callback ranges exactly when `firstBlock >= lastBlock`, equality included. |
| `Seeder.RangesAscending` | packages/seeder/src/utils/seeder.ts:25-31 | Ranges come in strictly ascending order. A later range starts after every earlier one ends, so no block is visited twice. |
| `Seeder.RangesCover` | packages/seeder/src/utils/seeder.ts:25-34 | A block is in some range exactly when `firstBlock < lastBlock` and `firstBlock <= n <= lastBlock`. |
| `Seeder.RangesClosedForm` | packages/seeder/src/utils/seeder.ts:25-31 | The k-th range starts at `firstBlock + k*(batchSize+1)` and ends `batchSize` blocks later, clipped to `lastBlock`. There are `(lastBlock - firstBlock) / (batchSize + 1) + 1` ranges. |
| `Seeder.RangesMainnetExample` | packages/seeder/src/utils/seeder.ts:21-31 | With the default batch size, 17000000..17025000 splits into [17000000, 17009999], [17010000, 17019999] and [17020000, 17025000]. |
| `Seeder.FetchDefault` | packages/seeder/src/utils/seeder.ts:10-66 | A missing key or a falsy (0) value reads as 1159609 on holesky and as 17000000 otherwise. |
| `Seeder.SaveThenFetch` | packages/seeder/src/utils/seeder.ts:57-77 | After saving b under a key, reading the key gives b + 1, or `baseBlock` when b is 0. Other keys read as before. Saving the same value twice gives the same settings as saving it once. |
| `Seeder.Database.SaveLastSyncBlock` | packages/seeder/src/utils/seeder.ts:69-77 | An upsert of one key. The settings afterwards are the old settings with only that key set. The key now reads back as b + 1 (or `baseBlock` for 0), and the other tables are unchanged. |
| `Seeder.GetBlockDataFromDb` | packages/seeder/src/utils/seeder.ts:79-99 | The keys are exactly the stored block numbers in [fromBlock, toBlock], each with its stored timestamp. The result is empty when fromBlock > toBlock. |
| `Seeder.BlockDataSplit` | packages/seeder/src/utils/seeder.ts:79-98 | Lookups of [from, mid] and [mid+1, to] have disjoint keys, and their union is the lookup of [from, to]. |
| `Seeder.BlockDataOverRanges` | packages/seeder/src/utils/seeder.ts:82-98 | Looking up the block data for each of the batcher's ranges gives, in union, the lookup of [firstBlock, lastBlock] when `firstBlock < lastBlock`, and nothing otherwise. |
| `AvsController.ActiveOperators` | packages/api/src/routes/avs/avsController.ts:28-30 | Each operator occurs in the result as often as in `avs.operators` when it is active, and never when it is not. |
| `AvsController.ActiveOperatorsCount` | packages/api/src/routes/avs/avsController.ts:28-38 | `totalOperators` equals the number of positions in `avs.operators` whose operator is active (`ActivePositions`), so an operator listed twice counts twice. |
| `AvsController.FindOperators` | packages/api/src/routes/avs/avsController.ts:134-137 | A table row is in the result as often as in the table when its address is one of the given addresses, and never otherwise. |
| `AvsController.GetAllAvsEntry` | packages/api/src/routes/avs/avsController.ts:27-47 | `totalOperators` is the number of active operators. `totalStakers` is the sum of `totalStakers` over the active operators' rows. This holds even when the aggregate is null (no row) and `|| 0` applies. |
| `AvsController.GetAllAvs` | packages/api/src/routes/avs/avsController.ts:26-48 | One entry per AVS of the page, in order, each with the counts above. |
| `AvsController.SumOrZero` | packages/api/src/routes/avs/avsController.ts:31-39 | The `_sum.totalStakers` default to 0 gives the aggregate's sum when some row matched, and 0 when the aggregate is null. |
| `AvsController.Find` | packages/api/src/routes/avs/avsController.ts:145-147 | The result is the first position whose strategy matches. It is None exactly when no position matches. |
| `AvsController.CreditShare` | packages/api/src/routes/avs/avsController.ts:144-155 | Only the first entry with a matching strategy changes, and it gains exactly `os.shares`. An entry whose strategy matches no configured contract leaves every entry unchanged. |
| `AvsController.CreditOperator` | packages/api/src/routes/avs/avsController.ts:144-155 | After one operator's share entries are applied in order, the first entry of each strategy has gained that operator's whole amount in the strategy. Every other entry is unchanged, and the strategies keep their order. |
| `AvsController.AccumulateShares` | packages/api/src/routes/avs/avsController.ts:126-158 | Starting from one zero entry per configured contract, the first entry of each contract ends up with the exact sum over all rows of their shares in that strategy. A repeated contract's later entries stay 0, and the staker total is the sum of the rows' `totalStakers`. |
| `AvsController.GetAvs` | packages/api/src/routes/avs/avsController.ts:114-158 | `shares` has one entry per configured contract, in configuration order. The first entry for each contract holds the exact sum of the active operators' shares in that strategy. A repeated contract's later entries stay at 0. `totalOperators` counts the active operators, and `totalStakers` sums their rows' `totalStakers`. |
| `AvsController.TotalsIgnoreRecordOrder` | packages/api/src/routes/avs/avsController.ts:134-158 | The per-strategy totals and the staker total do not depend on the order in which the operator rows are returned. |
| `AvsController.StrategyTotalAppend` | packages/api/src/routes/avs/avsController.ts:143-152 | A strategy's total over two groups of operators is the sum of the two groups' totals (exact BigInt addition). |

## Left out

- The reconciliation loops in `packages/seeder/src/index.ts` (three concurrent `while (true)` loops with catch, log, sleep and retry) are left out. They are about concurrency and timing, and the seed functions they call are not part of this model.
- The effects of the callback passed to `loopThroughBlocks` are left out. The model records only the ranges it is called on and whether it resolves. Its asynchrony is not modelled: calls are sequential, as the `await` makes them.
- `Seeder.LoopThroughBlocks` requires a positive batch size when `firstBlock < lastBlock`. With a negative `defaultBatchSize` the source loops forever, and that case is not modelled.
- `Seeder.FetchLastSyncBlock`, `Seeder.Database.SaveLastSyncBlock` and `Seeder.GetBlockDataFromDb`: a failed Prisma read or upsert (`settings.findUnique`, `settings.upsert`, `evm_BlockData.findMany`) is not modelled. These calls always succeed here. In the source the rejection reaches the caller, and a failed upsert leaves `settings` unchanged.
- Prisma's query semantics are not modelled. The effect of one write operation on the `settings` and `evm_BlockData` tables is the store's `apply` function, which `Seeder.Database` takes as a parameter. Writes to other tables are not modelled.
- `packages/seeder/src/utils/array.ts` is not part of this model. `chunkArray` is given its usual meaning.
- The `console.time` and `console.timeEnd` instrumentation and the unused counter `i` of `bulkUpdateDbTransactions` are left out.
- `saveLastSyncBlock` stores `Number(blockNumber)`, which loses precision above 2^53. Block numbers are unbounded here.
- Settings values other than integers (JSON null, strings) are left out. The only falsy value modelled is 0.
- `getBlockDataFromDb` returns a JavaScript `Map` whose iteration order is ascending. The model returns a Dafny `map`, which has no order. Block numbers are taken to be unique in `evm_BlockData`.
- The floating-point `tvl` of `getAVS` is left out. It is display-only float arithmetic.
- `getAVS` adds `totalStakers` as JavaScript numbers. Here the sum is exact, and rounding above 2^53 is not modelled.
- Express, request validation, pagination (`skip`, `take`, `count`) and HTTP status codes are left out.
- The AVS lookup `findUniqueOrThrow` is left out, including its not-found error. The model starts from the AVS record.
- `OperatorShare.shares` is an integer. The source keeps it as a string and parses it with `BigInt`, which throws on a string that is not an integer, and `getAVS` then answers 400. Stored share strings are taken to be well-formed integers, so that error path is not modelled.
- `getAllAVSAddresses` is left out. It only projects names and addresses.
