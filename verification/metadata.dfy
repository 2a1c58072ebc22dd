/** The summary a successful initialisation reports: the sorted distinct
    country ids, the earliest and latest timestamps that parse (as ISO
    strings, or "N/A" when none does) and the number of rows. */
module Metadata {

  import opened Optional
  import opened Sequences
  import opened Strings
  import opened Calendar
  import opened Generation
  import opened WorkerTypes
  import opened Aggregation

  const NOT_AVAILABLE := "N/A"

  /** The timestamps that parse, in row order (`dates` after its
      `filter`). */
  function ParsedInstants(rows: seq<GenerationDataPoint>, parse: Parser): (r: seq<Instant>)
    ensures |r| <= |rows|
  {
    if rows == [] then []
    else
      var d := rows[|rows| - 1];
      ParsedInstants(rows[..|rows| - 1], parse) + (if parse(d.datetime).Some? then [parse(d.datetime).value] else [])
  }

  /** Where `dates.reduce((min, p) => (p < min ? p : min), dates[0])`
      ends up: an earliest instant, and of several equally early ones the
      first. */
  function EarliestIndex(ts: seq<Instant>): (i: nat)
    requires ts != []
    ensures i < |ts|
    ensures forall j :: 0 <= j < |ts| ==> ts[i].time <= ts[j].time
    ensures forall j :: 0 <= j < i ==> ts[i].time < ts[j].time
  {
    if |ts| == 1 then 0
    else
      var m := EarliestIndex(ts[..|ts| - 1]);
      if ts[|ts| - 1].time < ts[m].time then |ts| - 1 else m
  }

  /** Where `dates.reduce((max, p) => (p > max ? p : max), dates[0])`
      ends up: a latest instant, and of several equally late ones the
      first. */
  function LatestIndex(ts: seq<Instant>): (i: nat)
    requires ts != []
    ensures i < |ts|
    ensures forall j :: 0 <= j < |ts| ==> ts[j].time <= ts[i].time
    ensures forall j :: 0 <= j < i ==> ts[j].time < ts[i].time
  {
    if |ts| == 1 then 0
    else
      var m := LatestIndex(ts[..|ts| - 1]);
      if ts[|ts| - 1].time > ts[m].time then |ts| - 1 else m
  }

  /** `date?.toISOString() || "N/A"`. */
  function IsoOr(t: Option<Instant>): (r: string)
    ensures r == NOT_AVAILABLE <==> t.None?
  {
    match t
    case None => NOT_AVAILABLE
    case Some(i) => ToIsoString(i)
  }

  /** `dateRange`: the earliest and latest parsed instants, as ISO strings. */
  function Bounds(ts: seq<Instant>): (r: DateRange)
    ensures r.min == NOT_AVAILABLE <==> ts == []
    ensures r.max == NOT_AVAILABLE <==> ts == []
  {
    if ts == [] then DateRange(IsoOr(None), IsoOr(None))
    else DateRange(IsoOr(Some(ts[EarliestIndex(ts)])), IsoOr(Some(ts[LatestIndex(ts)])))
  }

  /** The `PARSE_SUCCESS` reply for a non-empty decode. */
  function Summary(rows: seq<GenerationDataPoint>, parse: Parser): (m: FromWorkerMessage)
    ensures m.ParseSuccess? && m.numberOfRecords == |rows|
    ensures StrictlyAscending(m.availableCountries)
  {
    ParseSuccess(SortedDistinct(Map(rows, CountryId)), Bounds(ParsedInstants(rows, parse)), |rows|)
  }

  /** An instant is among the parsed ones exactly when some row's
      timestamp parses to it. */
  lemma {:induction false} ParsedInstantsMembers(rows: seq<GenerationDataPoint>, parse: Parser, t: Instant)
    ensures t in ParsedInstants(rows, parse) <==> exists k :: 0 <= k < |rows| && parse(rows[k].datetime) == Some(t)
  {
    if rows != [] {
      var p := rows[..|rows| - 1];
      ParsedInstantsMembers(p, parse, t);
      if exists k :: 0 <= k < |rows| && parse(rows[k].datetime) == Some(t) {
        var k :| 0 <= k < |rows| && parse(rows[k].datetime) == Some(t);
        if k < |p| {
          assert p[k] == rows[k];
        }
      }
      if exists k :: 0 <= k < |p| && parse(p[k].datetime) == Some(t) {
        var k :| 0 <= k < |p| && parse(p[k].datetime) == Some(t);
        assert rows[k] == p[k];
      }
    }
  }

  /** An ISO string is never the "N/A" placeholder. */
  lemma {:induction false} IsoStringIsNotPlaceholder(t: Instant)
    ensures ToIsoString(t) != NOT_AVAILABLE
  {
    IsoStringSplitsAtT(t);
  }

  /** What `PARSE_SUCCESS` reports about the rows it was built from. */
  lemma {:induction false} SummaryFacts(rows: seq<GenerationDataPoint>, parse: Parser)
    ensures Summary(rows, parse).numberOfRecords == |rows|
    ensures StrictlyAscending(Summary(rows, parse).availableCountries)
    ensures forall c :: c in Summary(rows, parse).availableCountries <==> exists d :: d in rows && d.countryId == c
    ensures Summary(rows, parse).dateRange.min == NOT_AVAILABLE <==> ParsedInstants(rows, parse) == []
    ensures Summary(rows, parse).dateRange.max == NOT_AVAILABLE <==> ParsedInstants(rows, parse) == []
  {
    var ts := ParsedInstants(rows, parse);
    if ts != [] {
      IsoStringIsNotPlaceholder(ts[EarliestIndex(ts)]);
      IsoStringIsNotPlaceholder(ts[LatestIndex(ts)]);
    }
    forall c
      ensures c in Map(rows, CountryId) <==> exists d :: d in rows && d.countryId == c
    {
      MapMembers(rows, CountryId, c);
    }
  }

  /** For a non-empty list of instants the range runs from an earliest to
      a latest of them. */
  lemma {:induction false} BoundsSpan(ts: seq<Instant>)
    requires ts != []
    ensures
      exists i, j :: 0 <= i < |ts| && 0 <= j < |ts|
        && Bounds(ts) == DateRange(ToIsoString(ts[i]), ToIsoString(ts[j]))
        && ts[i].time <= ts[j].time
        && (forall k :: 0 <= k < |ts| ==> ts[i].time <= ts[k].time <= ts[j].time)
  {
    var i, j := EarliestIndex(ts), LatestIndex(ts);
    assert Bounds(ts) == DateRange(ToIsoString(ts[i]), ToIsoString(ts[j]));
  }

  lemma {:induction false} SummaryRange(rows: seq<GenerationDataPoint>, parse: Parser)
    ensures Summary(rows, parse).dateRange == Bounds(ParsedInstants(rows, parse))
  {
  }

  /** When some timestamp parses, the reported range runs from an earliest
      to a latest of them, and its start is not after its end. */
  lemma {:induction false} DateRangeBounds(rows: seq<GenerationDataPoint>, parse: Parser)
    requires ParsedInstants(rows, parse) != []
    ensures var ts := ParsedInstants(rows, parse);
      exists i, j :: 0 <= i < |ts| && 0 <= j < |ts|
        && Summary(rows, parse).dateRange == DateRange(ToIsoString(ts[i]), ToIsoString(ts[j]))
        && ts[i].time <= ts[j].time
        && (forall k :: 0 <= k < |ts| ==> ts[i].time <= ts[k].time <= ts[j].time)
  {
    var ts := ParsedInstants(rows, parse);
    var i, j := EarliestIndex(ts), LatestIndex(ts);
    SummaryRange(rows, parse);
    assert Summary(rows, parse).dateRange == DateRange(ToIsoString(ts[i]), ToIsoString(ts[j]));
  }
}
