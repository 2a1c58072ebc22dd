/** The message contract between the dashboard and the electricity worker. */
module WorkerTypes {

  import opened Plotly

  datatype AggregationLevel = Yearly | Monthly | Daily

  datatype AggregationRequest = AggregationRequest(
    aggregationLevel: AggregationLevel,
    selectedCountries: seq<string>)

  /** The aggregation result: an ordered list of traces, found by scanning,
      not by key. */
  type AggregatedPlotData = seq<Trace<string>>

  /** Messages the main thread sends to the worker. */
  datatype ToWorkerMessage =
    | InitAndParse(parquetData: seq<bv8>, wasmPath: string)
    | Aggregate(payload: AggregationRequest)

  datatype DateRange = DateRange(min: string, max: string)

  /** Messages the worker sends back. A successful parse reports a summary
      of the rows it keeps, never the rows themselves. */
  datatype FromWorkerMessage =
    | ParseSuccess(availableCountries: seq<string>, dateRange: DateRange, numberOfRecords: nat)
    | ParseError(error: string)
    | AggregationResult(payload: AggregatedPlotData)
    | AggregationError(error: string)

  /** The `type` field of a message to the worker. */
  function MessageType(m: ToWorkerMessage): (t: string)
    ensures t == "AGGREGATE" <==> m.Aggregate?
  {
    match m
    case InitAndParse(_, _) => "INIT_AND_PARSE"
    case Aggregate(_) => "AGGREGATE"
  }
}
