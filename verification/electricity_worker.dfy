/** The electricity worker: its two module-level variables as the fields of
    a class, `handleInitialization`, `performAggregation` and the message
    handler as methods, each proved to behave as `WorkerProtocol.Step`
    and `Aggregation.Aggregate` say. */
module ElectricityWorker {

  import opened Optional
  import opened Sequences
  import opened Strings
  import opened Generation
  import opened Plotly
  import opened WorkerTypes
  import opened Aggregation
  import opened Metadata
  import opened WorkerProtocol

  /** `aggregatedData`: period -> country -> technology -> running sum. */
  type Buckets = map<string, map<string, map<string, int>>>

  /** `aggregatedData[period]?.[country]?.[tech] || 0`. */
  function Cell(buckets: Buckets, period: string, country: string, tech: string): (r: int)
    ensures r != 0 ==> period in buckets && country in buckets[period] && tech in buckets[period][country]
    ensures period !in buckets ==> r == 0
  {
    if period in buckets && country in buckets[period] && tech in buckets[period][country]
    then buckets[period][country][tech] else 0
  }

  /** Lines 128-135 of the loop body: create the period, country and
      technology entries when missing, then add `amount`. */
  function Deposit(buckets: Buckets, period: string, country: string, tech: string, amount: int): (r: Buckets)
    ensures r.Keys == buckets.Keys + {period}
    ensures Cell(r, period, country, tech) == Cell(buckets, period, country, tech) + amount
  {
    var byCountry := if period in buckets then buckets[period] else map[];
    var byTech := if country in byCountry then byCountry[country] else map[];
    var current := if tech in byTech then byTech[tech] else 0;
    buckets[period := byCountry[country := byTech[tech := current + amount]]]
  }

  /** A deposit adds `amount` to its own cell, leaves every other cell as
      it was, and adds its period to the keys. */
  lemma {:induction false} DepositEffect(buckets: Buckets, period: string, country: string, tech: string, amount: int)
    ensures var r := Deposit(buckets, period, country, tech, amount);
      && (forall p :: p in r <==> p in buckets || p == period)
      && (forall p, c, t ::
            Cell(r, p, c, t) == Cell(buckets, p, c, t) + (if p == period && c == country && t == tech then amount else 0))
  {
  }

  /** Every cell holds the total of its (period, country, technology)
      over the rows of `done`. */
  ghost predicate CellsHoldTotals(buckets: Buckets, done: seq<GenerationDataPoint>, key: Bucketing)
  {
    forall p, c, t :: Cell(buckets, p, c, t) == Total(done, key, p, c, t)
  }

  /** The buckets the loop of `performAggregation` has built after the
      rows of `done`: each row whose timestamp parses deposited in turn. */
  function BucketsOf(done: seq<GenerationDataPoint>, key: Bucketing): (r: Buckets)
    ensures |r| <= |done|
  {
    if done == [] then map[]
    else
      var d := done[|done| - 1];
      var before := BucketsOf(done[..|done| - 1], key);
      match key(d)
      case None => before
      case Some(period) => Deposit(before, period, d.countryId, d.technology, d.generation)
  }

  lemma {:induction false} BucketsOfAppend(done: seq<GenerationDataPoint>, d: GenerationDataPoint, key: Bucketing)
    ensures BucketsOf(done + [d], key)
         == match key(d)
            case None => BucketsOf(done, key)
            case Some(period) => Deposit(BucketsOf(done, key), period, d.countryId, d.technology, d.generation)
  {
    assert (done + [d])[..|done|] == done;
  }

  /** Every cell of the built buckets holds the total of its (period,
      country, technology) over the rows. */
  lemma {:induction false} BucketsHoldTotals(done: seq<GenerationDataPoint>, key: Bucketing)
    ensures CellsHoldTotals(BucketsOf(done, key), done, key)
  {
    if done != [] {
      var init, d := done[..|done| - 1], done[|done| - 1];
      assert done == init + [d];
      BucketsHoldTotals(init, key);
      BucketsOfAppend(init, d, key);
      if key(d).Some? {
        DepositEffect(BucketsOf(init, key), key(d).value, d.countryId, d.technology, d.generation);
      }
      forall p, c, t
        ensures Cell(BucketsOf(done, key), p, c, t) == Total(done, key, p, c, t)
      {
        TotalAppend(init, d, key, p, c, t);
      }
    }
  }

  /** A period is a key of the built buckets exactly when some row's
      timestamp falls in it. */
  lemma {:induction false} BucketsKeys(done: seq<GenerationDataPoint>, key: Bucketing)
    ensures forall p :: p in BucketsOf(done, key) <==> p in PeriodKeys(done, key)
  {
    if done != [] {
      var init, d := done[..|done| - 1], done[|done| - 1];
      assert done == init + [d];
      BucketsKeys(init, key);
      BucketsOfAppend(init, d, key);
      if key(d).Some? {
        DepositEffect(BucketsOf(init, key), key(d).value, d.countryId, d.technology, d.generation);
      }
      KeysAppend(init, d, key);
    }
  }

  /** A row whose timestamp falls in `period` appends its period to the
      keys exactly when the buckets do not hold it yet, and its
      technology exactly when it has not been met. */
  lemma {:induction false} OrdersAdvance(done: seq<GenerationDataPoint>, d: GenerationDataPoint, period: string,
                                         key: Bucketing)
    requires key(d) == Some(period)
    ensures period in BucketsOf(done, key) <==> period in Dedup(PeriodKeys(done, key))
    ensures var before := Dedup(PeriodKeys(done, key));
      Dedup(PeriodKeys(done + [d], key)) == if period in before then before else before + [period]
    ensures var before := Dedup(Technologies(done, key));
      Dedup(Technologies(done + [d], key)) == if d.technology in before then before else before + [d.technology]
  {
    KeysAppend(done, d, key);
    BucketsKeys(done, key);
    DedupAppend(PeriodKeys(done, key), period);
    DedupAppend(Technologies(done, key), d.technology);
  }

  /** One iteration of the loop of `performAggregation` keeps the buckets
      and the key orders those of the rows handled so far. */
  lemma {:induction false} AccumulateRow(buckets: Buckets, periodOrder: seq<string>, techOrder: seq<string>,
                                         done: seq<GenerationDataPoint>, d: GenerationDataPoint,
                                         key: Bucketing)
    requires buckets == BucketsOf(done, key)
    requires periodOrder == Dedup(PeriodKeys(done, key))
    requires techOrder == Dedup(Technologies(done, key))
    ensures match key(d)
      case None =>
        && buckets == BucketsOf(done + [d], key)
        && periodOrder == Dedup(PeriodKeys(done + [d], key))
        && techOrder == Dedup(Technologies(done + [d], key))
      case Some(period) =>
        && Deposit(buckets, period, d.countryId, d.technology, d.generation) == BucketsOf(done + [d], key)
        && (if period in buckets then periodOrder else periodOrder + [period]) == Dedup(PeriodKeys(done + [d], key))
        && (if d.technology in techOrder then techOrder else techOrder + [d.technology])
             == Dedup(Technologies(done + [d], key))
  {
    BucketsOfAppend(done, d, key);
    KeysAppend(done, d, key);
    if key(d).Some? {
      OrdersAdvance(done, d, key(d).value, key);
    }
  }

  /** `Object.keys(aggregatedData)` followed by `sort()`, and likewise for
      the technologies, give the sorted distinct keys of the selected rows. */
  lemma {:induction false} SortedKeys(f: seq<GenerationDataPoint>, key: Bucketing)
    ensures Sort(Dedup(PeriodKeys(f, key))) == SortedDistinct(PeriodKeys(f, key))
    ensures Sort(Dedup(Technologies(f, key))) == SortedDistinct(Technologies(f, key))
  {
  }

  /** `traces` are, one for one, the traces of the (country, technology)
      pairs `pairs`. */
  ghost predicate TracesFor(traces: AggregatedPlotData, pairs: seq<(string, string)>,
                            rows: seq<GenerationDataPoint>, key: Bucketing, periods: seq<string>)
  {
    && |traces| == |pairs|
    && forall k :: 0 <= k < |pairs| ==> traces[k] == TraceFor(rows, key, periods, pairs[k].0, pairs[k].1)
  }

  /** Traces that are, one for one, those of the emitted pairs are the
      aggregation's result. */
  lemma {:induction false} TracesAreAggregate(rows: seq<GenerationDataPoint>, request: AggregationRequest, parse: Parser,
                                              traces: AggregatedPlotData)
    requires TracesFor(traces, EmittedPairs(rows, request, parse), SelectedRows(rows, request.selectedCountries),
                       BucketOf(parse, request.aggregationLevel), Periods(rows, request, parse))
    ensures traces == Aggregation.Aggregate(rows, request, parse)
  {
  }

  lemma {:induction false} TracesForConcat(traces1: AggregatedPlotData, pairs1: seq<(string, string)>,
                                           traces2: AggregatedPlotData, pairs2: seq<(string, string)>,
                                           rows: seq<GenerationDataPoint>, key: Bucketing,
                                           periods: seq<string>)
    requires TracesFor(traces1, pairs1, rows, key, periods)
    requires TracesFor(traces2, pairs2, rows, key, periods)
    ensures TracesFor(traces1 + traces2, pairs1 + pairs2, rows, key, periods)
  {
    var traces, pairs := traces1 + traces2, pairs1 + pairs2;
    forall k | 0 <= k < |pairs|
      ensures traces[k] == TraceFor(rows, key, periods, pairs[k].0, pairs[k].1)
    {
      if k >= |pairs1| {
        assert traces[k] == traces2[k - |pairs1|] && pairs[k] == pairs2[k - |pairs1|];
      }
    }
  }

  class Worker {

    var rawData: seq<GenerationDataPoint>
    var isInitialized: bool

    /** `new Date(...)` applied to a `datetime` column. */
    const parse: Parser

    ghost function State(): WorkerProtocol.State
      reads this
    {
      WorkerProtocol.State(rawData, isInitialized)
    }

    ghost predicate Valid()
      reads this
    {
      ValidState(State())
    }

    constructor(parse: Parser)
      ensures State() == Initial && Valid()
      ensures this.parse == parse
    {
      rawData := [];
      isInitialized := false;
      this.parse := parse;
    }

    /** `handleInitialization(parquetData, wasmPath)`, given what loading
        the module at `wasmPath` and decoding `parquetData` produced on
        this attempt. */
    method HandleInitialization(decoded: Decoded) returns (completion: Completion)
      requires !isInitialized
      modifies this
      ensures (State(), completion) == InitStep(decoded, parse)
    {
      match decoded
      case Threw(thrown) =>
        isInitialized := false;
        rawData := [];
        match thrown {
          case ErrorValue(message) =>
            return Returned(ParseError(if message == "" then UNKNOWN_PARSING_ERROR else message));
          case Nullish(typeError) =>
            return Raised(typeError);
        }
      case Rows(rows) =>
        rawData := rows;
        if rawData == [] {
          return Returned(ParseError(NO_RECORDS));
        }
        isInitialized := true;
        return Returned(Summary(rawData, parse));
    }

    /** `performAggregation(request)`. */
    method PerformAggregation(request: AggregationRequest) returns (traces: AggregatedPlotData)
      ensures traces == Aggregation.Aggregate(rawData, request, parse)
    {
      var key, selected := BucketOf(parse, request.aggregationLevel), request.selectedCountries;
      if rawData == [] {
        return [];
      }
      var filtered := SelectedRows(rawData, selected);
      if filtered == [] {
        return [];
      }
      var buckets, periodOrder, techOrder := Accumulate(filtered, key);
      BucketsHoldTotals(filtered, key);
      var periods := Sort(periodOrder);
      var countries := Sort(selected);
      var technologies := Sort(techOrder);
      SortedKeys(filtered, key);
      traces := EmitTraces(buckets, periods, countries, technologies, filtered, key);
      EmittedIsPairsOf(rawData, request, parse);
      assert periods == Periods(rawData, request, parse);
      assert Pairs(filtered, key, periods, countries, technologies) == EmittedPairs(rawData, request, parse);
      TracesAreAggregate(rawData, request, parse, traces);
    }

    /** The `forEach` over the selected rows (lines 107-137): deposits
        every row whose timestamp parses into its (period, country,
        technology) cell, and records the periods and technologies in the
        order they are first met, as `Object.keys` enumerates them. */
    static method Accumulate(filtered: seq<GenerationDataPoint>, key: Bucketing)
      returns (buckets: Buckets, periodOrder: seq<string>, techOrder: seq<string>)
      ensures buckets == BucketsOf(filtered, key)
      ensures periodOrder == Dedup(PeriodKeys(filtered, key))
      ensures techOrder == Dedup(Technologies(filtered, key))
    {
      buckets, periodOrder, techOrder := map[], [], [];
      var i := 0;
      while i < |filtered|
        invariant 0 <= i <= |filtered|
        invariant buckets == BucketsOf(filtered[..i], key)
        invariant periodOrder == Dedup(PeriodKeys(filtered[..i], key))
        invariant techOrder == Dedup(Technologies(filtered[..i], key))
      {
        var d := filtered[i];
        assert filtered[..i + 1] == filtered[..i] + [d];
        AccumulateRow(buckets, periodOrder, techOrder, filtered[..i], d, key);
        match key(d) {
          case None =>
          case Some(period) =>
            var periodsAfter := if period in buckets then periodOrder else periodOrder + [period];
            var techsAfter := if d.technology in techOrder then techOrder else techOrder + [d.technology];
            buckets := Deposit(buckets, period, d.countryId, d.technology, d.generation);
            periodOrder, techOrder := periodsAfter, techsAfter;
        }
        i := i + 1;
      }
      assert filtered[..i] == filtered;
    }

    /** The nested loops over countries and technologies (lines 143-158):
        one trace per pair whose column has a positive value, in loop
        order. */
    static method EmitTraces(buckets: Buckets, periods: seq<string>, countries: seq<string>, technologies: seq<string>,
                      ghost filtered: seq<GenerationDataPoint>, ghost key: Bucketing)
      returns (traces: AggregatedPlotData)
      requires CellsHoldTotals(buckets, filtered, key)
      ensures TracesFor(traces, Pairs(filtered, key, periods, countries, technologies), filtered, key, periods)
    {
      traces := [];
      ghost var pairs: seq<(string, string)> := [];
      for ci := 0 to |countries|
        invariant pairs == Pairs(filtered, key, periods, countries[..ci], technologies)
        invariant TracesFor(traces, pairs, filtered, key, periods)
      {
        assert countries[..ci + 1][..ci] == countries[..ci];
        var countryTraces := EmitCountry(buckets, periods, countries[ci], technologies, filtered, key);
        ghost var countryPairs := TechPairs(filtered, key, periods, countries[ci], technologies);
        TracesForConcat(traces, pairs, countryTraces, countryPairs, filtered, key, periods);
        traces, pairs := traces + countryTraces, pairs + countryPairs;
      }
      assert countries[..|countries|] == countries;
    }

    /** The inner loop over the technologies of one country. */
    static method EmitCountry(buckets: Buckets, periods: seq<string>, country: string, technologies: seq<string>,
                       ghost filtered: seq<GenerationDataPoint>, ghost key: Bucketing)
      returns (traces: AggregatedPlotData)
      requires CellsHoldTotals(buckets, filtered, key)
      ensures var pairs := TechPairs(filtered, key, periods, country, technologies);
        && |traces| == |pairs|
        && forall k :: 0 <= k < |pairs| ==> traces[k] == TraceFor(filtered, key, periods, pairs[k].0, pairs[k].1)
    {
      traces := [];
      ghost var pairs: seq<(string, string)> := [];
      for ti := 0 to |technologies|
        invariant pairs == TechPairs(filtered, key, periods, country, technologies[..ti])
        invariant |traces| == |pairs|
        invariant forall k :: 0 <= k < |pairs| ==> traces[k] == TraceFor(filtered, key, periods, pairs[k].0, pairs[k].1)
      {
        var tech := technologies[ti];
        assert technologies[..ti + 1][..ti] == technologies[..ti];
        var yValues := seq(|periods|, k requires 0 <= k < |periods| => Cell(buckets, periods[k], country, tech));
        assert yValues == Column(filtered, key, periods, country, tech);
        if AnyPositive(yValues) {
          traces := traces + [Trace(periods, yValues, country + " - " + tech, BAR)];
          pairs := pairs + [(country, tech)];
        }
      }
      assert technologies[..|technologies|] == technologies;
    }

    /** The message handler: one message in, at most one reply out. */
    method Handle(ev: Inbound, decoded: Decoded) returns (reply: Option<FromWorkerMessage>)
      modifies this
      ensures (State(), reply) == Step(old(State()), ev, decoded, parse)
      ensures old(Valid()) ==> Valid()
    {
      match ev
      case Unrecognised(_) =>
        reply := None;
      case Message(message) =>
        match message
        case InitAndParse(parquetData, wasmPath) =>
          if isInitialized {
            reply := Some(ParseError(ALREADY_INITIALIZED));
          } else {
            var completion := HandleInitialization(decoded);
            match completion {
              case Returned(r) =>
                reply := Some(r);
              case Raised(error) =>
                reply := Some(UnhandledError(MessageType(message), error));
            }
          }
        case Aggregate(request) =>
          if !isInitialized {
            reply := Some(AggregationError(NOT_INITIALIZED));
          } else {
            var plotData := PerformAggregation(request);
            reply := Some(AggregationResult(plotData));
          }
    }
  }
}
