/** The aggregation inside the AVS report handlers
    (packages/api/src/routes/avs/avsController.ts): the active-operator
    filter and counts of `getAllAVS`, and the per-strategy share sums and
    staker total of `getAVS`. The Prisma reads are functions over in-memory
    tables; share amounts are exact (BigInt) integers. */
module AvsController {
  import opened Util

  /** An entry of `avs.operators`. */
  datatype AvsOperator = AvsOperator(address: string, isActive: bool)

  /** An AVS record with its registered operators. */
  datatype Avs = Avs(address: string, operators: seq<AvsOperator>)

  /** An entry of an operator's `shares`: an amount held in one strategy. */
  datatype OperatorShare = OperatorShare(strategy: string, shares: int)

  /** A row of the `operator` table. */
  datatype OperatorRecord = OperatorRecord(address: string, shares: seq<OperatorShare>, totalStakers: int)

  /** An entry of the `shares` list that `getAVS` reports. The source keeps
      the amount as a decimal string and converts it with BigInt and
      toString on every update; that round trip is exact, so it is an int. */
  datatype StrategyShares = StrategyShares(shares: int, strategy: string)

  /** The computed fields `getAllAVS` adds to each AVS. */
  datatype AvsSummary = AvsSummary(address: string, totalOperators: nat, totalStakers: int)

  /** The computed fields `getAVS` adds to the AVS. */
  datatype AvsDetail = AvsDetail(address: string, shares: seq<StrategyShares>, totalOperators: nat, totalStakers: int)

  predicate IsActive(o: AvsOperator) { o.isActive }

  function TotalStakersOf(o: OperatorRecord): int { o.totalStakers }

  /** `avs.operators.filter((o) => o.isActive)`. */
  function ActiveOperators(operators: seq<AvsOperator>): (active: seq<AvsOperator>)
    ensures forall o :: multiset(active)[o] == if o.isActive then multiset(operators)[o] else 0
  {
    Filter(operators, IsActive)
  }

  /** `.map((o) => o.address)`. */
  function Addresses(operators: seq<AvsOperator>): (addresses: seq<string>)
    ensures |addresses| == |operators|
    ensures forall i :: 0 <= i < |operators| ==> addresses[i] == operators[i].address
  {
    seq(|operators|, i requires 0 <= i < |operators| => operators[i].address)
  }

  /** `prisma.operator.findMany({ where: { address: { in: addresses } } })`:
      the rows whose address is one of the given addresses, each once. */
  function FindOperators(table: seq<OperatorRecord>, addresses: seq<string>): (records: seq<OperatorRecord>)
    ensures forall o :: multiset(records)[o] == if o.address in addresses then multiset(table)[o] else 0
  {
    Filter(table, (o: OperatorRecord) => o.address in addresses)
  }

  /** The operator rows of an AVS's active operators. */
  function ActiveOperatorRecords(avs: Avs, table: seq<OperatorRecord>): seq<OperatorRecord>
  {
    FindOperators(table, Addresses(ActiveOperators(avs.operators)))
  }

  /** `prisma.operator.aggregate({ _sum: { totalStakers: true } })`: the sum
      of `totalStakers`, null when no row matches. */
  function AggregateTotalStakers(records: seq<OperatorRecord>): Option<int>
  {
    if records == [] then None else Some(SumOf(records, TotalStakersOf))
  }

  /** One element of `getAllAVS`'s `data`: `totalOperators` is the number of
      the AVS's active operators, `totalStakers` is `_sum.totalStakers || 0`,
      which is the sum of `totalStakers` over the active operators' rows
      whether or not any row matched. */
  function GetAllAvsEntry(avs: Avs, table: seq<OperatorRecord>): (entry: AvsSummary)
    ensures entry.address == avs.address
    ensures entry.totalOperators == |ActiveOperators(avs.operators)|
    ensures entry.totalStakers == SumOf(ActiveOperatorRecords(avs, table), TotalStakersOf)
  {
    var operatorAddresses := Addresses(ActiveOperators(avs.operators));
    var sum := AggregateTotalStakers(FindOperators(table, operatorAddresses));
    AvsSummary(avs.address, |operatorAddresses|, if sum.Some? && sum.value != 0 then sum.value else 0)
  }

  /** `getAllAVS`'s `data` for one page of AVS records. */
  function GetAllAvs(page: seq<Avs>, table: seq<OperatorRecord>): (data: seq<AvsSummary>)
    ensures |data| == |page|
    ensures forall i :: 0 <= i < |page| ==>
              data[i].address == page[i].address
              && data[i].totalOperators == |ActiveOperators(page[i].operators)|
              && data[i].totalStakers == SumOf(ActiveOperatorRecords(page[i], table), TotalStakersOf)
  {
    seq(|page|, i requires 0 <= i < |page| => GetAllAvsEntry(page[i], table))
  }

  /** The positions of `operators` that hold an active operator. */
  function ActivePositions(operators: seq<AvsOperator>): set<int>
  {
    set i | 0 <= i < |operators| && operators[i].isActive
  }

  lemma ActivePositionsSnoc(operators: seq<AvsOperator>)
    requires operators != []
    ensures var n := |operators| - 1;
      n !in ActivePositions(operators[..n])
      && ActivePositions(operators)
         == ActivePositions(operators[..n]) + if operators[n].isActive then {n} else {}
  {
    var n := |operators| - 1;
    assert forall i :: 0 <= i < n ==> operators[..n][i] == operators[i];
  }

  /** `totalOperators` is the number of positions of `avs.operators` whose
      operator is active (an operator listed twice counts twice). */
  lemma {:induction false} ActiveOperatorsCount(operators: seq<AvsOperator>)
    ensures |ActiveOperators(operators)| == |ActivePositions(operators)|
  {
    if operators != [] {
      var n := |operators| - 1;
      ActiveOperatorsCount(operators[..n]);
      ActivePositionsSnoc(operators);
    }
  }

  // ---------------------------------------------------------------------
  // getAVS

  /** The amount one operator's share list holds in the given strategy. */
  function EntryTotal(entries: seq<OperatorShare>, strategy: string): int
  {
    SumOf(entries, AmountIn(strategy))
  }

  /** The amount a share entry contributes to the given strategy. */
  function AmountIn(strategy: string): OperatorShare -> int
  {
    (os: OperatorShare) => if os.strategy == strategy then os.shares else 0
  }

  /** The amount an operator row holds in the given strategy. */
  function HoldingsIn(strategy: string): OperatorRecord -> int
  {
    (o: OperatorRecord) => EntryTotal(o.shares, strategy)
  }

  /** The amount all the given operators hold in the given strategy. */
  function StrategyTotal(records: seq<OperatorRecord>, strategy: string): int
  {
    SumOf(records, HoldingsIn(strategy))
  }

  /** True when position j holds the first occurrence of its strategy. */
  ghost predicate FirstOccurrence(strategies: seq<string>, j: int)
    requires 0 <= j < |strategies|
  {
    forall h :: 0 <= h < j ==> strategies[h] != strategies[j]
  }

  /** `shares.find((s) => s.strategy === strategy)`, as the position of the
      first entry with that strategy. */
  function Find(shares: seq<StrategyShares>, strategy: string): (found: Option<nat>)
    ensures found.Some? ==>
              found.value < |shares| && shares[found.value].strategy == strategy
              && forall h :: 0 <= h < found.value ==> shares[h].strategy != strategy
    ensures found.None? ==> forall h :: 0 <= h < |shares| ==> shares[h].strategy != strategy
  {
    if shares == [] then None
    else if shares[0].strategy == strategy then Some(0)
    else match Find(shares[1..], strategy)
      case None => None
      case Some(j) => Some(j + 1)
  }

  /** The strategies of the `shares` entries, in order. */
  function StrategiesOf(shares: seq<StrategyShares>): (strategies: seq<string>)
    ensures |strategies| == |shares|
    ensures forall j :: 0 <= j < |shares| ==> strategies[j] == shares[j].strategy
  {
    seq(|shares|, j requires 0 <= j < |shares| => shares[j].strategy)
  }

  /** The callback `(os) => { ... }` applied to one operator share entry: the
      first entry of `shares` whose strategy matches gains `os.shares`; every
      other entry, and all of them when none matches, is unchanged. */
  function CreditShare(shares: seq<StrategyShares>, os: OperatorShare): (updated: seq<StrategyShares>)
    ensures |updated| == |shares|
    ensures forall j :: 0 <= j < |shares| ==> updated[j].strategy == shares[j].strategy
    ensures forall j :: 0 <= j < |shares| ==>
              updated[j].shares
              == shares[j].shares
                 + if shares[j].strategy == os.strategy && FirstOccurrence(StrategiesOf(shares), j) then os.shares else 0
    ensures (forall j :: 0 <= j < |shares| ==> shares[j].strategy != os.strategy) ==> updated == shares
  {
    match Find(shares, os.strategy)
    case None => shares
    case Some(j) => shares[j := shares[j].(shares := shares[j].shares + os.shares)]
  }

  /** `o.shares.map((os) => { ... })`: the callback applied to each share
      entry of one operator in turn. The first entry of each strategy gains
      the operator's whole amount in that strategy; the others are unchanged. */
  method CreditOperator(shares: seq<StrategyShares>, entries: seq<OperatorShare>)
    returns (updated: seq<StrategyShares>)
    ensures |updated| == |shares|
    ensures forall j :: 0 <= j < |shares| ==> updated[j].strategy == shares[j].strategy
    ensures forall j :: 0 <= j < |shares| ==>
              updated[j].shares
              == shares[j].shares
                 + if FirstOccurrence(StrategiesOf(shares), j) then EntryTotal(entries, shares[j].strategy) else 0
  {
    updated := shares;
    for k := 0 to |entries|
      invariant |updated| == |shares|
      invariant forall j :: 0 <= j < |shares| ==> updated[j].strategy == shares[j].strategy
      invariant forall j :: 0 <= j < |shares| ==>
                  updated[j].shares
                  == shares[j].shares
                     + if FirstOccurrence(StrategiesOf(shares), j) then EntryTotal(entries[..k], shares[j].strategy) else 0
    {
      CreditStep(shares, updated, entries, k);
      updated := CreditShare(updated, entries[k]);
    }
    assert entries[..|entries|] == entries;
  }

  lemma CreditStep(shares: seq<StrategyShares>, updated: seq<StrategyShares>, entries: seq<OperatorShare>, k: int)
    requires 0 <= k < |entries| && |updated| == |shares|
    requires forall j :: 0 <= j < |shares| ==> updated[j].strategy == shares[j].strategy
    requires forall j :: 0 <= j < |shares| ==>
               updated[j].shares
               == shares[j].shares
                  + if FirstOccurrence(StrategiesOf(shares), j) then EntryTotal(entries[..k], shares[j].strategy) else 0
    ensures var next := CreditShare(updated, entries[k]);
      forall j :: 0 <= j < |shares| ==>
        next[j].shares
        == shares[j].shares
           + if FirstOccurrence(StrategiesOf(shares), j) then EntryTotal(entries[..k + 1], shares[j].strategy) else 0
  {
    var next := CreditShare(updated, entries[k]);
    assert StrategiesOf(updated) == StrategiesOf(shares);
    assert entries[..k + 1] == entries[..k] + [entries[k]];
    forall j | 0 <= j < |shares|
      ensures next[j].shares
              == shares[j].shares
                 + if FirstOccurrence(StrategiesOf(shares), j) then EntryTotal(entries[..k + 1], shares[j].strategy) else 0
    {
      SumOfSnoc(entries[..k], entries[k], AmountIn(shares[j].strategy));
    }
  }

  /** The body of `getAVS` after the queries: `shares` starts with one zero
      entry per configured contract, and each operator row in turn credits
      its share entries to it and adds its `totalStakers`. The first entry of
      each contract ends up holding the exact sum over all rows of their
      shares in that strategy, and a repeated contract's later entries stay
      at 0, because `find` stops at the first. */
  method AccumulateShares(records: seq<OperatorRecord>, strategies: seq<string>)
    returns (shares: seq<StrategyShares>, totalStakers: int)
    ensures |shares| == |strategies|
    ensures forall j :: 0 <= j < |strategies| ==>
              shares[j].strategy == strategies[j]
              && shares[j].shares
                 == if FirstOccurrence(strategies, j) then StrategyTotal(records, strategies[j]) else 0
    ensures totalStakers == SumOf(records, TotalStakersOf)
  {
    shares := seq(|strategies|, j requires 0 <= j < |strategies| => StrategyShares(0, strategies[j]));
    totalStakers := 0;
    for i := 0 to |records|
      invariant |shares| == |strategies|
      invariant forall j :: 0 <= j < |shares| ==> shares[j].strategy == strategies[j]
      invariant forall j :: 0 <= j < |shares| ==>
                  shares[j].shares
                  == if FirstOccurrence(strategies, j) then StrategyTotal(records[..i], strategies[j]) else 0
      invariant totalStakers == SumOf(records[..i], TotalStakersOf)
    {
      var o := records[i];
      ghost var before := shares;
      shares := CreditOperator(shares, o.shares);
      assert records[..i + 1] == records[..i] + [o];
      RecordStep(before, shares, strategies, records[..i], o);
      SumOfSnoc(records[..i], o, TotalStakersOf);
      totalStakers := totalStakers + o.totalStakers;
    }
    assert records[..|records|] == records;
  }

  /** `getAVS` for the AVS `avs`, the operator table and the configured
      strategy contracts (in configuration order): the per-strategy totals
      are over the rows of the AVS's active operators, `totalOperators`
      counts the active operators and `totalStakers` sums their rows'
      `totalStakers`. */
  method GetAvs(avs: Avs, table: seq<OperatorRecord>, strategyContracts: seq<string>)
    returns (detail: AvsDetail)
    ensures detail.address == avs.address
    ensures |detail.shares| == |strategyContracts|
    ensures forall j :: 0 <= j < |strategyContracts| ==>
              detail.shares[j].strategy == strategyContracts[j]
              && detail.shares[j].shares
                 == if FirstOccurrence(strategyContracts, j)
                    then StrategyTotal(ActiveOperatorRecords(avs, table), strategyContracts[j]) else 0
    ensures detail.totalOperators == |ActiveOperators(avs.operators)|
    ensures detail.totalStakers == SumOf(ActiveOperatorRecords(avs, table), TotalStakersOf)
  {
    var operatorAddresses := Addresses(ActiveOperators(avs.operators));
    var operatorRecords := FindOperators(table, operatorAddresses);
    var shares, totalStakers := AccumulateShares(operatorRecords, strategyContracts);
    detail := AvsDetail(avs.address, shares, |operatorAddresses|, totalStakers);
  }

  lemma RecordStep(before: seq<StrategyShares>, after: seq<StrategyShares>, strategies: seq<string>,
                   done: seq<OperatorRecord>, o: OperatorRecord)
    requires |before| == |strategies| == |after|
    requires forall j :: 0 <= j < |before| ==> before[j].strategy == strategies[j]
    requires forall j :: 0 <= j < |before| ==>
               before[j].shares == if FirstOccurrence(strategies, j) then StrategyTotal(done, strategies[j]) else 0
    requires forall j :: 0 <= j < |before| ==> after[j].strategy == before[j].strategy
    requires forall j :: 0 <= j < |before| ==>
               after[j].shares
               == before[j].shares + if FirstOccurrence(StrategiesOf(before), j) then EntryTotal(o.shares, before[j].strategy) else 0
    ensures forall j :: 0 <= j < |after| ==>
              after[j].shares == if FirstOccurrence(strategies, j) then StrategyTotal(done + [o], strategies[j]) else 0
  {
    assert StrategiesOf(before) == strategies;
    forall j | 0 <= j < |after|
      ensures after[j].shares == if FirstOccurrence(strategies, j) then StrategyTotal(done + [o], strategies[j]) else 0
    {
      SumOfSnoc(done, o, HoldingsIn(strategies[j]));
    }
  }

  /** The records Prisma returns come in no promised order; the per-strategy
      totals and the staker total are the same for every order. */
  lemma TotalsIgnoreRecordOrder(records: seq<OperatorRecord>, reordered: seq<OperatorRecord>, strategy: string)
    requires multiset(records) == multiset(reordered)
    ensures StrategyTotal(records, strategy) == StrategyTotal(reordered, strategy)
    ensures SumOf(records, TotalStakersOf) == SumOf(reordered, TotalStakersOf)
  {
    SumOfPermutation(records, reordered, HoldingsIn(strategy));
    SumOfPermutation(records, reordered, TotalStakersOf);
  }

  /** A strategy's total over a set of operators splits over any partition
      of them: the sum is exact, with no rounding between operators. */
  lemma StrategyTotalAppend(records: seq<OperatorRecord>, more: seq<OperatorRecord>, strategy: string)
    ensures StrategyTotal(records + more, strategy)
            == StrategyTotal(records, strategy) + StrategyTotal(more, strategy)
  {
    SumOfAppend(records, more, HoldingsIn(strategy));
  }

  /** The `_sum.totalStakers || 0` of `getAllAVS`: the aggregate's sum when
      some row matched, and 0 when none did and the aggregate is null. */
  lemma SumOrZero(avs: Avs, table: seq<OperatorRecord>)
    ensures match AggregateTotalStakers(ActiveOperatorRecords(avs, table))
            case None => GetAllAvsEntry(avs, table).totalStakers == 0
            case Some(sum) => GetAllAvsEntry(avs, table).totalStakers == sum
  {
  }
}
