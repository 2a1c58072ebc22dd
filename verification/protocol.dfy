/** The worker's behaviour as a state machine: the two module-level
    variables (`rawData`, `isInitialized`), one transition per message
    taken from the message handler, and what any run of messages from the
    initial state can and cannot produce. The `Worker` class is proved
    against `Step`. */
module WorkerProtocol {

  import opened Optional
  import opened Calendar
  import opened Generation
  import opened WorkerTypes
  import opened Aggregation
  import opened Metadata

  const ALREADY_INITIALIZED := "Worker already initialized"
  const NOT_INITIALIZED := "Worker not initialized or no data."
  const NO_RECORDS := "No records found after parsing."
  const UNKNOWN_PARSING_ERROR := "Unknown parsing error"
  const UNKNOWN_ERROR := "Unknown error"

  /** What the decoding library may throw. `ErrorValue` is any value whose
      `message` can be read (the empty string standing for a missing or
      empty message); `Nullish` is `null` or `undefined`, on which reading
      `message` itself raises a `TypeError` with the given message. */
  datatype Thrown = ErrorValue(message: string) | Nullish(typeError: string)

  /** The outcome of loading the WebAssembly module and decoding the
      Parquet buffer into rows. */
  datatype Decoded = Rows(rows: seq<GenerationDataPoint>) | Threw(thrown: Thrown)

  /** A message event: one of the two declared messages, or a message
      whose `type` the handler does not recognise. */
  datatype Inbound = Message(message: ToWorkerMessage) | Unrecognised(typeName: string)

  /** A message as it is delivered, together with what loading the
      WebAssembly module and decoding the buffer produce should it be an
      `INIT_AND_PARSE`. The outcome is chosen afresh for every delivery:
      a module that fails to load on one attempt may load on the next. */
  datatype Delivery = Delivery(event: Inbound, decoded: Decoded)

  datatype State = State(rawData: seq<GenerationDataPoint>, isInitialized: bool)

  const Initial := State([], false)

  /** The worker holds rows exactly when it is initialised. */
  predicate ValidState(s: State)
  {
    s.isInitialized <==> s.rawData != []
  }

  /** How `handleInitialization` completes: with a reply, or by throwing
      an error (with this `message`) out of its own `catch`. */
  datatype Completion = Returned(reply: FromWorkerMessage) | Raised(message: string)

  /** The reply built by the handler's outer `catch`. */
  function UnhandledError(messageType: string, message: string): (m: FromWorkerMessage)
    ensures m.AggregationError? <==> messageType == "AGGREGATE"
    ensures m.ParseError? <==> messageType != "AGGREGATE"
  {
    var text := "Unhandled worker error during " + messageType + ": "
      + (if message == "" then UNKNOWN_ERROR else message);
    if messageType == "AGGREGATE" then AggregationError(text) else ParseError(text)
  }

  /** `handleInitialization`, started while uninitialised: the new state
      and how the call completes. */
  function InitStep(decoded: Decoded, parse: Parser): (r: (State, Completion))
    ensures ValidState(r.0)
    ensures r.0.isInitialized <==> r.1.Returned? && r.1.reply.ParseSuccess?
    ensures !r.0.isInitialized ==> r.0 == Initial
    ensures r.1.Returned? ==> r.1.reply.ParseSuccess? || r.1.reply.ParseError?
    ensures r.1.Raised? <==> decoded.Threw? && decoded.thrown.Nullish?
    ensures decoded.Rows? && decoded.rows != [] ==> r == (State(decoded.rows, true), Returned(Summary(decoded.rows, parse)))
    ensures decoded == Rows([]) ==> r == (Initial, Returned(ParseError(NO_RECORDS)))
    ensures decoded.Threw? && decoded.thrown.ErrorValue? ==>
      r == (Initial, Returned(ParseError(if decoded.thrown.message == "" then UNKNOWN_PARSING_ERROR else decoded.thrown.message)))
  {
    match decoded
    case Rows(rows) =>
      if rows == [] then (State(rows, false), Returned(ParseError(NO_RECORDS)))
      else (State(rows, true), Returned(Summary(rows, parse)))
    case Threw(ErrorValue(message)) =>
      (Initial, Returned(ParseError(if message == "" then UNKNOWN_PARSING_ERROR else message)))
    case Threw(Nullish(typeError)) =>
      (Initial, Raised(typeError))
  }

  /** One message handled: the new state and the reply posted, if any.
      `decoded` is what decoding produces if `ev` is an `INIT_AND_PARSE`
      that gets that far. */
  function Step(s: State, ev: Inbound, decoded: Decoded, parse: Parser): (r: (State, Option<FromWorkerMessage>))
    ensures r.1.Some? <==> ev.Message?
    ensures ValidState(s) ==> ValidState(r.0)
    ensures s.isInitialized || ev.Unrecognised? || ev.message.Aggregate? ==> r.0 == s
    ensures ev.Message? && ev.message.InitAndParse? ==> r.1.value.ParseSuccess? || r.1.value.ParseError?
    ensures ev.Message? && ev.message.Aggregate? ==> r.1.value.AggregationResult? || r.1.value.AggregationError?
    ensures r.1.Some? && r.1.value.ParseSuccess? ==> !s.isInitialized && r.0.isInitialized
    ensures r.1.Some? && r.1.value.AggregationResult? ==> s.isInitialized
  {
    match ev
    case Unrecognised(_) => (s, None)
    case Message(InitAndParse(parquetData, wasmPath)) =>
      if s.isInitialized then (s, Some(ParseError(ALREADY_INITIALIZED)))
      else
        var (next, completion) := InitStep(decoded, parse);
        (next, Some(match completion
                    case Returned(reply) => reply
                    case Raised(message) => UnhandledError(MessageType(ev.message), message)))
    case Message(Aggregate(request)) =>
      if !s.isInitialized then (s, Some(AggregationError(NOT_INITIALIZED)))
      else (s, Some(AggregationResult(Aggregation.Aggregate(s.rawData, request, parse))))
  }

  /** A sequence of messages handled one after the other: the final state
      and, per message, the reply posted. */
  function Run(s: State, ds: seq<Delivery>, parse: Parser): (r: (State, seq<Option<FromWorkerMessage>>))
    ensures |r.1| == |ds|
    ensures forall j :: 0 <= j < |ds| ==> (r.1[j].Some? <==> ds[j].event.Message?)
    ensures ValidState(s) ==> ValidState(r.0)
  {
    if ds == [] then (s, [])
    else
      var (mid, replies) := Run(s, ds[..|ds| - 1], parse);
      var (next, reply) := Step(mid, ds[|ds| - 1].event, ds[|ds| - 1].decoded, parse);
      (next, replies + [reply])
  }

  predicate IsParseSuccess(reply: Option<FromWorkerMessage>)
  {
    reply.Some? && reply.value.ParseSuccess?
  }

  /** How many `PARSE_SUCCESS` replies were posted. */
  function Successes(replies: seq<Option<FromWorkerMessage>>): nat
  {
    if replies == [] then 0
    else Successes(replies[..|replies| - 1]) + (if IsParseSuccess(replies[|replies| - 1]) then 1 else 0)
  }

  lemma {:induction false} SuccessesPrefix(replies: seq<Option<FromWorkerMessage>>, reply: Option<FromWorkerMessage>)
    ensures Successes(replies + [reply]) == Successes(replies) + (if IsParseSuccess(reply) then 1 else 0)
  {
    assert (replies + [reply])[..|replies|] == replies;
  }

  /** `INIT_AND_PARSE` after a successful initialisation is refused and
      changes nothing. */
  lemma {:induction false} InitWhenInitialized(s: State, parquetData: seq<bv8>, wasmPath: string, decoded: Decoded, parse: Parser)
    requires s.isInitialized
    ensures Step(s, Message(InitAndParse(parquetData, wasmPath)), decoded, parse) == (s, Some(ParseError(ALREADY_INITIALIZED)))
  {
  }

  /** `AGGREGATE` before a successful initialisation is refused and changes
      nothing. */
  lemma {:induction false} AggregateBeforeInit(s: State, request: AggregationRequest, decoded: Decoded, parse: Parser)
    requires !s.isInitialized
    ensures Step(s, Message(Aggregate(request)), decoded, parse) == (s, Some(AggregationError(NOT_INITIALIZED)))
  {
  }

  /** A failed initialisation leaves the worker as it started, so a later
      `INIT_AND_PARSE` is accepted again and succeeds when its decode
      yields rows. */
  lemma {:induction false} FailedInitAllowsRetry(parquetData: seq<bv8>, wasmPath: string, first: Decoded, retry: Decoded,
                                                 parse: Parser)
    ensures var (next, reply) := Step(Initial, Message(InitAndParse(parquetData, wasmPath)), first, parse);
      !reply.value.ParseSuccess? ==>
        && next == Initial
        && (retry.Rows? && retry.rows != [] ==>
              Step(next, Message(InitAndParse(parquetData, wasmPath)), retry, parse)
                == (State(retry.rows, true), Some(Summary(retry.rows, parse))))
  {
  }

  /** Over any run from the initial state: at most one `PARSE_SUCCESS` is
      ever posted, the worker is initialised exactly when one was, and every
      `AGGREGATION_RESULT` comes after it. */
  lemma {:induction false} RunProtocol(ds: seq<Delivery>, parse: Parser)
    ensures var (s, replies) := Run(Initial, ds, parse);
      && ValidState(s)
      && Successes(replies) <= 1
      && (s.isInitialized <==> Successes(replies) == 1)
      && forall j :: 0 <= j < |replies| && replies[j].Some? && replies[j].value.AggregationResult? ==>
           Successes(replies[..j]) == 1
  {
    if ds != [] {
      var prefix := ds[..|ds| - 1];
      RunProtocol(prefix, parse);
      var (mid, replies) := Run(Initial, prefix, parse);
      var (next, reply) := Step(mid, ds[|ds| - 1].event, ds[|ds| - 1].decoded, parse);
      var all := replies + [reply];
      assert Run(Initial, ds, parse) == (next, all);
      SuccessesPrefix(replies, reply);
      ResultsAfterSuccess(replies, reply);
    }
  }

  /** Appending a reply keeps every `AGGREGATION_RESULT` after a success,
      provided the new reply is one only when a success came before it. */
  lemma {:induction false} ResultsAfterSuccess(replies: seq<Option<FromWorkerMessage>>, reply: Option<FromWorkerMessage>)
    requires forall j :: 0 <= j < |replies| && replies[j].Some? && replies[j].value.AggregationResult? ==>
      Successes(replies[..j]) == 1
    requires reply.Some? && reply.value.AggregationResult? ==> Successes(replies) == 1
    ensures var all := replies + [reply];
      forall j :: 0 <= j < |all| && all[j].Some? && all[j].value.AggregationResult? ==>
        Successes(all[..j]) == 1
  {
    var all := replies + [reply];
    forall j | 0 <= j < |all| && all[j].Some? && all[j].value.AggregationResult?
      ensures Successes(all[..j]) == 1
    {
      if j < |replies| {
        assert all[..j] == replies[..j];
      } else {
        assert all[..j] == replies;
      }
    }
  }

  /** After a successful initialisation the stored rows never change, and
      every `AGGREGATE` is answered from them. */
  lemma {:induction false} InitializedIsStable(s: State, ds: seq<Delivery>, parse: Parser)
    requires s.isInitialized
    ensures Run(s, ds, parse).0 == s
    ensures forall j :: 0 <= j < |ds| && ds[j].event.Message? && ds[j].event.message.Aggregate? ==>
      Run(s, ds, parse).1[j] == Some(AggregationResult(Aggregation.Aggregate(s.rawData, ds[j].event.message.payload, parse)))
  {
    if ds != [] {
      var prefix := ds[..|ds| - 1];
      InitializedIsStable(s, prefix, parse);
      var replies := Run(s, prefix, parse).1;
      assert Run(s, ds, parse).1 == replies + [Step(s, ds[|ds| - 1].event, ds[|ds| - 1].decoded, parse).1];
    }
  }
}
