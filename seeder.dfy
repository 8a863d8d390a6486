/** The seeder's sync utilities (packages/seeder/src/utils/seeder.ts):
    the block-range batcher `loopThroughBlocks`, the checkpoint store
    (`baseBlock`, `fetchLastSyncBlock`, `saveLastSyncBlock`), the chunked
    bulk committer `bulkUpdateDbTransactions` and the block timestamp lookup
    `getBlockDataFromDb`. Block numbers are JavaScript bigints, modelled as
    unbounded integers. The Prisma client is the class `Database`. */
module Seeder {
  import opened Util
  import opened ChunkUtil

  /** `baseBlock` on the 'holesky' network and on every other network. */
  const HoleskyBaseBlock: int := 1159609
  const MainnetBaseBlock: int := 17000000

  /** The batch size used when `defaultBatchSize` is absent or 0n. */
  const DefaultBatchSize: int := 9999

  /** The number of operations committed per transaction. */
  const ChunkSize: nat := 1000

  /** `baseBlock`, given the value of the NETWORK environment variable
      (None when it is unset). */
  function BaseBlock(network: Option<string>): int
  {
    if network == Some("holesky") then HoleskyBaseBlock else MainnetBaseBlock
  }

  // ---------------------------------------------------------------------
  // Block-range batcher

  /** The arguments of one callback invocation `cb(fromBlock, toBlock)`. */
  datatype BlockRange = BlockRange(fromBlock: int, toBlock: int)

  /** How a run of the batcher ends: it returns `lastBlock`, or the callback
      rejected on `failedRange` and the rejection propagated. */
  datatype LoopOutcome = Completed(lastBlock: int) | Failed(failedRange: BlockRange)

  /** `defaultBatchSize ? defaultBatchSize : 9999n`: an absent or zero
      argument selects the default. */
  function BatchSize(defaultBatchSize: Option<int>): int
  {
    if defaultBatchSize.Some? && defaultBatchSize.value != 0 then defaultBatchSize.value
    else DefaultBatchSize
  }

  /** The range one loop iteration hands to the callback when it starts at
      currentBlock: batchSize blocks further, clipped to lastBlock. */
  function NextRange(currentBlock: int, lastBlock: int, batchSize: int): BlockRange
  {
    BlockRange(currentBlock,
               if currentBlock + batchSize >= lastBlock then lastBlock else currentBlock + batchSize)
  }

  /** The ranges the loop visits once it is at currentBlock and still running. */
  function RangesFrom(currentBlock: int, lastBlock: int, batchSize: int): seq<BlockRange>
    requires currentBlock <= lastBlock && batchSize > 0
    decreases lastBlock - currentBlock
  {
    var r := NextRange(currentBlock, lastBlock, batchSize);
    if r.toBlock < lastBlock then [r] + RangesFrom(r.toBlock + 1, lastBlock, batchSize) else [r]
  }

  /** Every range the batcher hands to the callback, in order, when no
      callback fails. The loop test `nextBlock < lastBlock` starts with
      nextBlock == firstBlock, so there are none unless firstBlock < lastBlock. */
  function Ranges(firstBlock: int, lastBlock: int, batchSize: int): seq<BlockRange>
    requires firstBlock < lastBlock ==> batchSize > 0
  {
    if firstBlock < lastBlock then RangesFrom(firstBlock, lastBlock, batchSize) else []
  }

  /** True when the callback resolves on range r (false: it throws). */
  predicate Resolves(cb: (int, int) -> bool, r: BlockRange)
  {
    cb(r.fromBlock, r.toBlock)
  }

  /** `loopThroughBlocks(firstBlock, lastBlock, cb, defaultBatchSize)`. The
      callback is given as whether it resolves on each range; `calls` is the
      sequence of ranges it was invoked on. The calls are a prefix of
      `Ranges`; all of them resolved and the result is `lastBlock` exactly
      when the whole of `Ranges` was visited, and otherwise the run stopped
      at the first range whose callback threw. With a negative batch size and
      firstBlock < lastBlock the source loops forever; that case is excluded. */
  method LoopThroughBlocks(firstBlock: int, lastBlock: int, cb: (int, int) -> bool,
                           defaultBatchSize: Option<int>)
    returns (outcome: LoopOutcome, calls: seq<BlockRange>)
    requires firstBlock < lastBlock ==> BatchSize(defaultBatchSize) > 0
    ensures calls <= Ranges(firstBlock, lastBlock, BatchSize(defaultBatchSize))
    ensures forall i :: 0 <= i < |calls| - 1 ==> Resolves(cb, calls[i])
    ensures outcome.Completed? <==>
              calls == Ranges(firstBlock, lastBlock, BatchSize(defaultBatchSize))
              && forall i :: 0 <= i < |calls| ==> Resolves(cb, calls[i])
    ensures outcome.Completed? ==> outcome.lastBlock == lastBlock
    ensures outcome.Failed? ==>
              calls != [] && outcome.failedRange == calls[|calls| - 1]
              && !Resolves(cb, outcome.failedRange)
  {
    var batchSize := BatchSize(defaultBatchSize);
    ghost var ranges := Ranges(firstBlock, lastBlock, batchSize);
    var currentBlock := firstBlock;
    var nextBlock := firstBlock;
    calls := [];
    ghost var pending := ranges;

    while nextBlock < lastBlock
      invariant currentBlock == nextBlock || currentBlock == nextBlock + 1
      invariant calls + pending == ranges
      invariant nextBlock < lastBlock ==>
                  batchSize > 0 && currentBlock <= lastBlock
                  && pending == RangesFrom(currentBlock, lastBlock, batchSize)
      invariant nextBlock >= lastBlock ==> pending == []
      invariant forall i :: 0 <= i < |calls| ==> Resolves(cb, calls[i])
      decreases lastBlock - nextBlock
    {
      RangesFromStep(currentBlock, lastBlock, batchSize);
      nextBlock := currentBlock + batchSize;
      if nextBlock >= lastBlock {
        nextBlock := lastBlock;
      }
      var r := BlockRange(currentBlock, nextBlock);
      ghost var rest := if nextBlock < lastBlock then RangesFrom(nextBlock + 1, lastBlock, batchSize) else [];
      CallStep(calls, pending, r, rest, ranges);
      ghost var previous := calls;
      calls := calls + [r];
      pending := rest;
      if !cb(currentBlock, nextBlock) {
        assert calls[|calls| - 1] == r && !Resolves(cb, r);
        return Failed(r), calls;
      }
      assert forall i :: 0 <= i < |calls| - 1 ==> calls[i] == previous[i];
      currentBlock := nextBlock + 1;
    }
    assert calls + pending == calls;
    return Completed(lastBlock), calls;
  }

  /** Moving the next pending range to the calls made keeps calls + pending
      equal to the whole range list, and the calls a prefix of it. */
  lemma CallStep(calls: seq<BlockRange>, pending: seq<BlockRange>, r: BlockRange,
                 rest: seq<BlockRange>, ranges: seq<BlockRange>)
    requires calls + pending == ranges && pending == [r] + rest
    ensures (calls + [r]) + rest == ranges && calls + [r] <= ranges
  {
    assert calls + ([r] + rest) == (calls + [r]) + rest;
  }

  /** One step of the batcher: the first range of RangesFrom ends batchSize
      blocks on, clipped to lastBlock, and the rest start one block later. */
  lemma RangesFromStep(currentBlock: int, lastBlock: int, batchSize: int)
    requires currentBlock <= lastBlock && batchSize > 0
    ensures var next := if currentBlock + batchSize >= lastBlock then lastBlock else currentBlock + batchSize;
      RangesFrom(currentBlock, lastBlock, batchSize)
      == [BlockRange(currentBlock, next)]
         + (if next < lastBlock then RangesFrom(next + 1, lastBlock, batchSize) else [])
  {
  }

  /** True when some range of rs contains block n. */
  ghost predicate Covered(rs: seq<BlockRange>, n: int)
  {
    exists k :: 0 <= k < |rs| && rs[k].fromBlock <= n <= rs[k].toBlock
  }

  lemma RangesFromShape(currentBlock: int, lastBlock: int, batchSize: int)
    requires currentBlock <= lastBlock && batchSize > 0
    ensures var rs := RangesFrom(currentBlock, lastBlock, batchSize);
      && rs != []
      && rs[0].fromBlock == currentBlock
      && rs[|rs| - 1].toBlock == lastBlock
      && (forall k :: 0 <= k < |rs| ==>
            currentBlock <= rs[k].fromBlock <= rs[k].toBlock <= lastBlock
            && rs[k].toBlock - rs[k].fromBlock <= batchSize)
      && (forall k :: 0 <= k < |rs| - 1 ==>
            rs[k + 1].fromBlock == rs[k].toBlock + 1
            && rs[k].toBlock - rs[k].fromBlock == batchSize)
  {
    RangesFromEnds(currentBlock, lastBlock, batchSize);
    RangesFromWithin(currentBlock, lastBlock, batchSize);
    RangesFromAdjacent(currentBlock, lastBlock, batchSize);
  }

  lemma {:induction false} RangesFromEnds(currentBlock: int, lastBlock: int, batchSize: int)
    requires currentBlock <= lastBlock && batchSize > 0
    ensures var rs := RangesFrom(currentBlock, lastBlock, batchSize);
      rs != [] && rs[0].fromBlock == currentBlock && rs[|rs| - 1].toBlock == lastBlock
    decreases lastBlock - currentBlock
  {
    var r := NextRange(currentBlock, lastBlock, batchSize);
    RangesFromStep(currentBlock, lastBlock, batchSize);
    if r.toBlock < lastBlock {
      RangesFromEnds(r.toBlock + 1, lastBlock, batchSize);
    }
  }

  lemma {:induction false} RangesFromWithin(currentBlock: int, lastBlock: int, batchSize: int)
    requires currentBlock <= lastBlock && batchSize > 0
    ensures var rs := RangesFrom(currentBlock, lastBlock, batchSize);
      forall k :: 0 <= k < |rs| ==>
        currentBlock <= rs[k].fromBlock <= rs[k].toBlock <= lastBlock
        && rs[k].toBlock - rs[k].fromBlock <= batchSize
    decreases lastBlock - currentBlock
  {
    var r := NextRange(currentBlock, lastBlock, batchSize);
    var rs := RangesFrom(currentBlock, lastBlock, batchSize);
    RangesFromStep(currentBlock, lastBlock, batchSize);
    if r.toBlock < lastBlock {
      var rest := RangesFrom(r.toBlock + 1, lastBlock, batchSize);
      RangesFromWithin(r.toBlock + 1, lastBlock, batchSize);
      assert forall k :: 1 <= k < |rs| ==> rs[k] == rest[k - 1];
    }
  }

  lemma {:induction false} RangesFromAdjacent(currentBlock: int, lastBlock: int, batchSize: int)
    requires currentBlock <= lastBlock && batchSize > 0
    ensures var rs := RangesFrom(currentBlock, lastBlock, batchSize);
      forall k :: 0 <= k < |rs| - 1 ==>
        rs[k + 1].fromBlock == rs[k].toBlock + 1
        && rs[k].toBlock - rs[k].fromBlock == batchSize
    decreases lastBlock - currentBlock
  {
    var r := NextRange(currentBlock, lastBlock, batchSize);
    var rs := RangesFrom(currentBlock, lastBlock, batchSize);
    RangesFromStep(currentBlock, lastBlock, batchSize);
    if r.toBlock < lastBlock {
      var rest := RangesFrom(r.toBlock + 1, lastBlock, batchSize);
      RangesFromAdjacent(r.toBlock + 1, lastBlock, batchSize);
      RangesFromEnds(r.toBlock + 1, lastBlock, batchSize);
      forall k | 0 <= k < |rs| - 1
        ensures rs[k + 1].fromBlock == rs[k].toBlock + 1
        ensures rs[k].toBlock - rs[k].fromBlock == batchSize
      {
        assert rs[k + 1] == rest[k];
        if k > 0 {
          assert rs[k] == rest[k - 1];
        }
      }
    } else {
      assert |rs| == 1;
    }
  }

  /** The callback ranges are gap-free and overlap-free: the first starts at
      firstBlock, each later one starts one block after the previous one
      ended, and the last ends exactly at lastBlock. Every range but the last
      spans exactly batchSize + 1 blocks. */
  lemma RangesContiguous(firstBlock: int, lastBlock: int, batchSize: int)
    requires firstBlock < lastBlock && batchSize > 0
    ensures var rs := Ranges(firstBlock, lastBlock, batchSize);
      && rs != []
      && rs[0].fromBlock == firstBlock
      && rs[|rs| - 1].toBlock == lastBlock
      && (forall k :: 0 <= k < |rs| - 1 ==>
            rs[k + 1].fromBlock == rs[k].toBlock + 1
            && rs[k].toBlock - rs[k].fromBlock == batchSize)
  {
    RangesFromShape(firstBlock, lastBlock, batchSize);
  }

  /** Every callback range satisfies fromBlock <= toBlock, spans at most
      batchSize + 1 blocks, and lies within [firstBlock, lastBlock]. */
  lemma RangesBounded(firstBlock: int, lastBlock: int, batchSize: int)
    requires firstBlock < lastBlock ==> batchSize > 0
    ensures var rs := Ranges(firstBlock, lastBlock, batchSize);
      forall k :: 0 <= k < |rs| ==>
        firstBlock <= rs[k].fromBlock <= rs[k].toBlock <= lastBlock
        && rs[k].toBlock - rs[k].fromBlock <= batchSize
  {
    if firstBlock < lastBlock {
      RangesFromShape(firstBlock, lastBlock, batchSize);
    }
  }

  /** The callback is never invoked when firstBlock >= lastBlock, equality
      included, and is invoked at least once otherwise. */
  lemma RangesEmptyIff(firstBlock: int, lastBlock: int, batchSize: int)
    requires firstBlock < lastBlock ==> batchSize > 0
    ensures Ranges(firstBlock, lastBlock, batchSize) == [] <==> firstBlock >= lastBlock
  {
  }

  /** The ranges come in strictly ascending order: a later range starts after
      an earlier one ends, so no block is handed to the callback twice. */
  lemma RangesAscending(firstBlock: int, lastBlock: int, batchSize: int)
    requires firstBlock < lastBlock ==> batchSize > 0
    ensures var rs := Ranges(firstBlock, lastBlock, batchSize);
      forall i, j :: 0 <= i < j < |rs| ==> rs[i].toBlock < rs[j].fromBlock
  {
    if firstBlock < lastBlock {
      assert Ranges(firstBlock, lastBlock, batchSize) == RangesFrom(firstBlock, lastBlock, batchSize);
      RangesFromAscending(firstBlock, lastBlock, batchSize);
    }
  }

  lemma {:induction false} RangesFromAscending(currentBlock: int, lastBlock: int, batchSize: int)
    requires currentBlock <= lastBlock && batchSize > 0
    ensures var rs := RangesFrom(currentBlock, lastBlock, batchSize);
      forall i, j :: 0 <= i < j < |rs| ==> rs[i].toBlock < rs[j].fromBlock
    decreases lastBlock - currentBlock
  {
    var r := NextRange(currentBlock, lastBlock, batchSize);
    if r.toBlock < lastBlock {
      RangesFromAscending(r.toBlock + 1, lastBlock, batchSize);
      RangesFromShape(r.toBlock + 1, lastBlock, batchSize);
      var rest := RangesFrom(r.toBlock + 1, lastBlock, batchSize);
      var rs := RangesFrom(currentBlock, lastBlock, batchSize);
      assert rs == [r] + rest;
      forall i, j | 0 <= i < j < |rs|
        ensures rs[i].toBlock < rs[j].fromBlock
      {
        assert rs[j] == rest[j - 1];
        if i > 0 {
          assert rs[i] == rest[i - 1];
        }
      }
    }
  }

  /** The blocks handed to the callback are exactly [firstBlock, lastBlock]
      when firstBlock < lastBlock, and none at all otherwise: with
      firstBlock == lastBlock the single block lastBlock is not visited. */
  lemma RangesCover(firstBlock: int, lastBlock: int, batchSize: int)
    requires firstBlock < lastBlock ==> batchSize > 0
    ensures forall n ::
              Covered(Ranges(firstBlock, lastBlock, batchSize), n)
              <==> firstBlock < lastBlock && firstBlock <= n <= lastBlock
  {
    if firstBlock < lastBlock {
      RangesFromCover(firstBlock, lastBlock, batchSize);
    }
  }

  lemma {:induction false} RangesFromCover(currentBlock: int, lastBlock: int, batchSize: int)
    requires currentBlock <= lastBlock && batchSize > 0
    ensures forall n ::
              Covered(RangesFrom(currentBlock, lastBlock, batchSize), n)
              <==> currentBlock <= n <= lastBlock
    decreases lastBlock - currentBlock
  {
    var rs := RangesFrom(currentBlock, lastBlock, batchSize);
    var r := NextRange(currentBlock, lastBlock, batchSize);
    RangesFromShape(currentBlock, lastBlock, batchSize);
    if r.toBlock < lastBlock {
      var rest := RangesFrom(r.toBlock + 1, lastBlock, batchSize);
      RangesFromCover(r.toBlock + 1, lastBlock, batchSize);
      assert rs == [r] + rest;
      forall n | currentBlock <= n <= lastBlock
        ensures Covered(rs, n)
      {
        if n <= r.toBlock {
          assert rs[0].fromBlock <= n <= rs[0].toBlock;
        } else {
          assert Covered(rest, n);
          var k :| 0 <= k < |rest| && rest[k].fromBlock <= n <= rest[k].toBlock;
          assert rs[k + 1] == rest[k];
        }
      }
    } else {
      forall n | currentBlock <= n <= lastBlock
        ensures Covered(rs, n)
      {
        assert rs[0].fromBlock <= n <= rs[0].toBlock;
      }
    }
  }

  /** Closed form of the ranges: the k-th range starts at
      firstBlock + k * (batchSize + 1) and ends batchSize blocks later or at
      lastBlock, whichever comes first, and there are
      (lastBlock - firstBlock) / (batchSize + 1) + 1 of them, that is
      ceil((lastBlock - firstBlock + 1) / (batchSize + 1)). */
  lemma RangesClosedForm(firstBlock: int, lastBlock: int, batchSize: int)
    requires firstBlock < lastBlock && batchSize > 0
    ensures var rs := Ranges(firstBlock, lastBlock, batchSize);
      && |rs| == (lastBlock - firstBlock) / (batchSize + 1) + 1
      && forall k :: 0 <= k < |rs| ==>
           var start := firstBlock + k * (batchSize + 1);
           rs[k].fromBlock == start
           && rs[k].toBlock == (if start + batchSize >= lastBlock then lastBlock else start + batchSize)
  {
    RangesFromClosedForm(firstBlock, lastBlock, batchSize);
  }

  lemma {:induction false} RangesFromClosedForm(currentBlock: int, lastBlock: int, batchSize: int)
    requires currentBlock <= lastBlock && batchSize > 0
    ensures var rs := RangesFrom(currentBlock, lastBlock, batchSize);
      && |rs| == (lastBlock - currentBlock) / (batchSize + 1) + 1
      && forall k :: 0 <= k < |rs| ==>
           rs[k] == NextRange(currentBlock + k * (batchSize + 1), lastBlock, batchSize)
    decreases lastBlock - currentBlock
  {
    var rs := RangesFrom(currentBlock, lastBlock, batchSize);
    var r := NextRange(currentBlock, lastBlock, batchSize);
    var m := batchSize + 1;
    if r.toBlock < lastBlock {
      var next := currentBlock + m;
      var rest := RangesFrom(next, lastBlock, batchSize);
      RangesFromClosedForm(next, lastBlock, batchSize);
      assert rs == [r] + rest;
      DivPlusDivisor(lastBlock - next, m);
      forall k | 1 <= k < |rs|
        ensures rs[k] == NextRange(currentBlock + k * m, lastBlock, batchSize)
      {
        assert rs[k] == rest[k - 1];
        assert next + (k - 1) * m == currentBlock + k * m;
      }
    } else {
      DivUnique(lastBlock - currentBlock, m, 0, lastBlock - currentBlock);
    }
  }

  /** The first mainnet sync of 25001 blocks with the default batch size:
      three ranges of 10000, 10000 and 5001 blocks, each starting one block
      after the previous one ended. */
  lemma RangesMainnetExample()
    ensures Ranges(17000000, 17025000, BatchSize(None))
            == [BlockRange(17000000, 17009999),
                BlockRange(17010000, 17019999),
                BlockRange(17020000, 17025000)]
  {
    var rs := Ranges(17000000, 17025000, 9999);
    assert rs == [BlockRange(17000000, 17009999)] + RangesFrom(17010000, 17025000, 9999);
    assert RangesFrom(17010000, 17025000, 9999)
           == [BlockRange(17010000, 17019999)] + RangesFrom(17020000, 17025000, 9999);
  }

  // ---------------------------------------------------------------------
  // Checkpoint store and block data (read side)

  /** `fetchLastSyncBlock(key)`: the stored value plus one, or `baseBlock`
      when the key is missing or its value is falsy (0). */
  function FetchLastSyncBlock(settings: map<string, int>, network: Option<string>, key: string): int
  {
    if key in settings && settings[key] != 0 then settings[key] + 1 else BaseBlock(network)
  }

  /** A missing key or a stored 0 reads as the network's base block. */
  lemma FetchDefault(settings: map<string, int>, network: Option<string>, key: string)
    requires key !in settings || settings[key] == 0
    ensures FetchLastSyncBlock(settings, network, key)
            == (if network == Some("holesky") then 1159609 else 17000000)
  {
  }

  /** Reading back a saved checkpoint: `saveLastSyncBlock(key, b)` followed by
      `fetchLastSyncBlock(key)` yields b + 1, except that b == 0 is falsy and
      reads back as the base block. Other keys read as before, and saving the
      same value again leaves the settings unchanged. */
  lemma SaveThenFetch(settings: map<string, int>, network: Option<string>, key: string,
                      blockNumber: int, other: string)
    requires other != key
    ensures FetchLastSyncBlock(settings[key := blockNumber], network, key)
            == if blockNumber != 0 then blockNumber + 1 else BaseBlock(network)
    ensures FetchLastSyncBlock(settings[key := blockNumber], network, other)
            == FetchLastSyncBlock(settings, network, other)
    ensures settings[key := blockNumber][key := blockNumber] == settings[key := blockNumber]
  {
  }

  /** `getBlockDataFromDb(fromBlock, toBlock)` over the stored block records
      (block number to timestamp): the stored blocks numbered within
      [fromBlock, toBlock], each with its stored timestamp. */
  function GetBlockDataFromDb(blockData: map<int, int>, fromBlock: int, toBlock: int): (found: map<int, int>)
    ensures found.Keys <= blockData.Keys
    ensures forall n :: n in found ==> fromBlock <= n <= toBlock && found[n] == blockData[n]
    ensures forall n :: n in blockData && fromBlock <= n <= toBlock ==> n in found
    ensures fromBlock > toBlock ==> found == map[]
  {
    map n | n in blockData && fromBlock <= n <= toBlock :: blockData[n]
  }

  /** The block data of all the given ranges together. */
  function BlockDataOver(blockData: map<int, int>, rs: seq<BlockRange>): map<int, int>
  {
    if rs == [] then map[]
    else GetBlockDataFromDb(blockData, rs[0].fromBlock, rs[0].toBlock) + BlockDataOver(blockData, rs[1..])
  }

  /** Looking up the block data range by range as the batcher visits them
      yields exactly the block data of [firstBlock, lastBlock] when
      firstBlock < lastBlock, and nothing otherwise. */
  lemma BlockDataOverRanges(blockData: map<int, int>, firstBlock: int, lastBlock: int, batchSize: int)
    requires firstBlock < lastBlock ==> batchSize > 0
    ensures BlockDataOver(blockData, Ranges(firstBlock, lastBlock, batchSize))
            == if firstBlock < lastBlock then GetBlockDataFromDb(blockData, firstBlock, lastBlock) else map[]
  {
    if firstBlock < lastBlock {
      BlockDataOverRangesFrom(blockData, firstBlock, lastBlock, batchSize);
    }
  }

  lemma {:induction false} BlockDataOverRangesFrom(blockData: map<int, int>, currentBlock: int,
                                                   lastBlock: int, batchSize: int)
    requires currentBlock <= lastBlock && batchSize > 0
    ensures BlockDataOver(blockData, RangesFrom(currentBlock, lastBlock, batchSize))
            == GetBlockDataFromDb(blockData, currentBlock, lastBlock)
    decreases lastBlock - currentBlock
  {
    var rs := RangesFrom(currentBlock, lastBlock, batchSize);
    var r := NextRange(currentBlock, lastBlock, batchSize);
    RangesFromStep(currentBlock, lastBlock, batchSize);
    if r.toBlock < lastBlock {
      var rest := RangesFrom(r.toBlock + 1, lastBlock, batchSize);
      BlockDataOverRangesFrom(blockData, r.toBlock + 1, lastBlock, batchSize);
      BlockDataSplit(blockData, currentBlock, r.toBlock, lastBlock);
      calc {
        BlockDataOver(blockData, rs);
        { assert rs[0] == r && rs[1..] == rest; }
        GetBlockDataFromDb(blockData, currentBlock, r.toBlock) + BlockDataOver(blockData, rest);
        GetBlockDataFromDb(blockData, currentBlock, r.toBlock) + GetBlockDataFromDb(blockData, r.toBlock + 1, lastBlock);
      }
    } else {
      BlockDataOverSingle(blockData, r);
    }
  }

  lemma BlockDataOverSingle(blockData: map<int, int>, r: BlockRange)
    ensures BlockDataOver(blockData, [r]) == GetBlockDataFromDb(blockData, r.fromBlock, r.toBlock)
  {
    var found := GetBlockDataFromDb(blockData, r.fromBlock, r.toBlock);
    assert [r][1..] == [];
    assert found + map[] == found;
  }

  /** Two adjacent lookups [fromBlock, mid] and [mid + 1, toBlock] have
      disjoint keys and together give the lookup of [fromBlock, toBlock]. */
  lemma BlockDataSplit(blockData: map<int, int>, fromBlock: int, mid: int, toBlock: int)
    requires fromBlock <= mid < toBlock
    ensures GetBlockDataFromDb(blockData, fromBlock, mid).Keys !! GetBlockDataFromDb(blockData, mid + 1, toBlock).Keys
    ensures GetBlockDataFromDb(blockData, fromBlock, mid) + GetBlockDataFromDb(blockData, mid + 1, toBlock)
            == GetBlockDataFromDb(blockData, fromBlock, toBlock)
  {
  }

  // ---------------------------------------------------------------------
  // The store the seeder writes to

  /** The two tables the seeder utilities read and write: `settings`
      (checkpoint key to stored value) and `evm_BlockData` (block number to
      timestamp). */
  datatype Tables = Tables(settings: map<string, int>, blockData: map<int, int>)

  /** The tables after the write operations ops, applied one after another
      to tables, each by apply. */
  function ApplyAll<Op>(apply: (Op, Tables) -> Tables, ops: seq<Op>, tables: Tables): Tables
  {
    if ops == [] then tables else apply(ops[|ops| - 1], ApplyAll(apply, ops[..|ops| - 1], tables))
  }

  /** Applying ops and then more is applying ops + more. */
  lemma {:induction false} ApplyAllAppend<Op>(apply: (Op, Tables) -> Tables, ops: seq<Op>, more: seq<Op>,
                                               tables: Tables)
    ensures ApplyAll(apply, ops + more, tables) == ApplyAll(apply, more, ApplyAll(apply, ops, tables))
    decreases |more|
  {
    if more != [] {
      var n := |more| - 1;
      assert (ops + more)[..|ops + more| - 1] == ops + more[..n];
      assert (ops + more)[|ops + more| - 1] == more[n];
      ApplyAllAppend(apply, ops, more[..n], tables);
    } else {
      assert ops + more == ops;
    }
  }

  /** Committing chunk i after chunks 0 .. i-1 applies the writes of
      chunks 0 .. i, in order. */
  lemma ChunkCommitStep<Op>(apply: (Op, Tables) -> Tables, chunks: seq<seq<Op>>, i: int, tables: Tables)
    requires 0 <= i < |chunks|
    ensures ApplyAll(apply, Flatten(chunks[..i + 1]), tables)
            == ApplyAll(apply, chunks[i], ApplyAll(apply, Flatten(chunks[..i]), tables))
  {
    assert chunks[..i + 1] == chunks[..i] + [chunks[i]];
    FlattenSnoc(chunks[..i], chunks[i]);
    ApplyAllAppend(apply, Flatten(chunks[..i]), chunks[i], tables);
  }

  /** The Prisma client as seen by the seeder utilities: the two tables, the
      transactions committed so far (each a chunk of write operations), and
      `apply`, the effect of one write operation on the tables. */
  class Database<Op> {
    var settings: map<string, int>
    var blockData: map<int, int>
    var committed: seq<seq<Op>>
    const apply: (Op, Tables) -> Tables

    constructor (settings: map<string, int>, blockData: map<int, int>, apply: (Op, Tables) -> Tables)
      ensures this.settings == settings && this.blockData == blockData && committed == []
      ensures this.apply == apply
    {
      this.settings := settings;
      this.blockData := blockData;
      committed := [];
      this.apply := apply;
    }

    /** The current contents of the two tables. */
    function Contents(): Tables
      reads this
    {
      Tables(settings, blockData)
    }

    /** `saveLastSyncBlock(key, blockNumber)`: an upsert of the one key. */
    method SaveLastSyncBlock(key: string, blockNumber: int)
      modifies this
      ensures settings == old(settings)[key := blockNumber]
      ensures forall network :: FetchLastSyncBlock(settings, network, key)
                                  == if blockNumber != 0 then blockNumber + 1 else BaseBlock(network)
      ensures forall k :: k != key ==> (k in settings <==> k in old(settings))
      ensures forall k :: k != key && k in settings ==> settings[k] == old(settings)[k]
      ensures blockData == old(blockData) && committed == old(committed)
    {
      settings := settings[key := blockNumber];
    }

    /** `prismaClient.$transaction(chunk)`: either all of the chunk's writes
        take effect, in order, and the chunk is committed, or the transaction
        throws and the tables are as before. Which happens is up to the
        store. */
    method Transaction(chunk: seq<Op>) returns (ok: bool)
      modifies this
      ensures committed == if ok then old(committed) + [chunk] else old(committed)
      ensures Contents() == if ok then ApplyAll(apply, chunk, old(Contents())) else old(Contents())
    {
      ok :| true;
      if ok {
        var after := ApplyAll(apply, chunk, Contents());
        settings, blockData := after.settings, after.blockData;
        committed := committed + [chunk];
      }
    }

    /** `bulkUpdateDbTransactions(dbTransactions)`: commits the operations
        chunk by chunk, one transaction per chunk of at most 1000, in order.
        A failed transaction stops the loop, leaving the earlier chunks
        committed and the later ones not attempted; the tables then hold the
        writes of the committed chunks exactly. When every chunk commits, the
        tables are as if every operation had been applied in order. The
        ghost `done` is the number of chunks committed. */
    method BulkUpdateDbTransactions(dbTransactions: seq<Op>) returns (ok: bool, ghost done: nat)
      modifies this
      ensures var chunks := ChunkArray(dbTransactions, ChunkSize);
        && done <= |chunks|
        && committed == old(committed) + chunks[..done]
        && Contents() == ApplyAll(apply, Flatten(chunks[..done]), old(Contents()))
        && (ok <==> done == |chunks|)
      ensures ok ==> Contents() == ApplyAll(apply, dbTransactions, old(Contents()))
    {
      var chunks := ChunkArray(dbTransactions, ChunkSize);
      ghost var start, log := Contents(), committed;
      for i := 0 to |chunks|
        invariant committed == log + chunks[..i]
        invariant Contents() == ApplyAll(apply, Flatten(chunks[..i]), start)
      {
        ok := Transaction(chunks[i]);
        if !ok {
          done := i;
          return;
        }
        ChunkCommitStep(apply, chunks, i, start);
        assert chunks[..i + 1] == chunks[..i] + [chunks[i]];
      }
      assert chunks[..|chunks|] == chunks;
      ok, done := true, |chunks|;
    }
  }

  /** The committer's transactions: one per chunk, ceil(n / 1000) of them,
      each non-empty and at most 1000 long, and together the operations in
      their original order. For 2500 operations: 1000, 1000 and 500. */
  lemma CommittedChunks<Op>(dbTransactions: seq<Op>)
    ensures var chunks := ChunkArray(dbTransactions, ChunkSize);
      && |chunks| == (|dbTransactions| + 999) / 1000
      && Flatten(chunks) == dbTransactions
      && forall i :: 0 <= i < |chunks| ==> 0 < |chunks[i]| <= 1000
    ensures |dbTransactions| == 2500 ==>
      var chunks := ChunkArray(dbTransactions, ChunkSize);
      |chunks| == 3 && |chunks[0]| == 1000 && |chunks[1]| == 1000 && |chunks[2]| == 500
  {
    var chunks := ChunkArray(dbTransactions, ChunkSize);
    if |dbTransactions| == 2500 {
      assert |chunks| == 3 by {
        DivUnique(3499, 1000, 3, 499);
      }
      var tail1, tail2 := chunks[1..], chunks[2..];
      assert tail1[1..] == tail2 && tail2[1..] == [];
      assert Flatten(tail2) == chunks[2];
      assert Flatten(tail1) == chunks[1] + Flatten(tail2);
      assert Flatten(chunks) == chunks[0] + Flatten(tail1);
    }
  }
}
