/** What `performAggregation` computes, as functions of the stored rows and
    the request: the period bucket of every row, the running totals per
    (period, country, technology), and the traces emitted for each (country,
    technology) pair. The worker's loops are proved against these
    definitions; the lemmas below say what the result means. */
module Aggregation {

  import opened Optional
  import opened Sequences
  import opened Strings
  import opened Decimal
  import opened Calendar
  import opened Generation
  import opened Plotly
  import opened WorkerTypes

  /** Building a `Date` from a `datetime` column (a number of milliseconds
      when the text is numeric, an ISO string otherwise); `None` is an
      invalid date. */
  type Parser = string -> Option<Instant>

  /** The bucket an instant falls in: `YYYY-MM` (year as `toString` writes
      it, month zero-padded to two digits) for monthly, the date part of
      `toISOString()` for daily, the year alone otherwise. */
  function PeriodKey(level: AggregationLevel, t: Instant): (k: string)
    ensures level == Daily ==> k == IsoDate(t)
    ensures level != Daily ==> |IntToString(t.year)| <= |k| && k[..|IntToString(t.year)|] == IntToString(t.year)
    ensures level == Monthly ==> |k| == |IntToString(t.year)| + 3 && k[|IntToString(t.year)|] == '-'
  {
    IsoStringSplitsAtT(t);
    assert |NatToString(t.month)| <= 2 by {
      if t.month >= 10 {
        assert NatToString(t.month) == NatToString(t.month / 10) + [DigitChar(t.month % 10)];
      }
    }
    if level == Monthly then IntToString(t.year) + "-" + PadStart(NatToString(t.month), 2, '0')
    else if level == Daily then BeforeFirst(ToIsoString(t), 'T')
    else IntToString(t.year)
  }

  /** The bucket of a row, or `None` when its timestamp does not parse (the
      row is skipped). */
  function KeyOf(parse: Parser, level: AggregationLevel, d: GenerationDataPoint): (r: Option<string>)
    ensures r.Some? <==> parse(d.datetime).Some?
  {
    match parse(d.datetime)
    case None => None
    case Some(t) => Some(PeriodKey(level, t))
  }

  /** How a row is put in a bucket: its period key, or `None` when the row
      is skipped. The aggregation below is stated for any bucketing;
      `performAggregation` uses `BucketOf(parse, level)`. */
  type Bucketing = GenerationDataPoint -> Option<string>

  function BucketOf(parse: Parser, level: AggregationLevel): Bucketing
  {
    d => KeyOf(parse, level, d)
  }

  /** `rows.filter(d => countries.includes(d.country_id))`. */
  function SelectedRows(rows: seq<GenerationDataPoint>, countries: seq<string>): (r: seq<GenerationDataPoint>)
    ensures |r| <= |rows|
    ensures forall d :: d in r <==> d in rows && d.countryId in countries
  {
    if rows == [] then []
    else
      var d := rows[|rows| - 1];
      assert rows == rows[..|rows| - 1] + [d];
      SelectedRows(rows[..|rows| - 1], countries) + (if d.countryId in countries then [d] else [])
  }

  /** The bucket of every row that contributes, in row order. */
  function PeriodKeys(rows: seq<GenerationDataPoint>, key: Bucketing): seq<string>
  {
    if rows == [] then []
    else
      var d := rows[|rows| - 1];
      PeriodKeys(rows[..|rows| - 1], key) + (if key(d).Some? then [key(d).value] else [])
  }

  /** The technology of every row that contributes, in row order. */
  function Technologies(rows: seq<GenerationDataPoint>, key: Bucketing): seq<string>
  {
    if rows == [] then []
    else
      var d := rows[|rows| - 1];
      Technologies(rows[..|rows| - 1], key) + (if key(d).Some? then [d.technology] else [])
  }

  /** One more row adds its key and technology when its timestamp
      parses, and nothing otherwise. */
  lemma {:induction false} KeysAppend(rows: seq<GenerationDataPoint>, d: GenerationDataPoint, key: Bucketing)
    ensures key(d).None? ==>
      && PeriodKeys(rows + [d], key) == PeriodKeys(rows, key)
      && Technologies(rows + [d], key) == Technologies(rows, key)
    ensures key(d).Some? ==>
      && PeriodKeys(rows + [d], key) == PeriodKeys(rows, key) + [key(d).value]
      && Technologies(rows + [d], key) == Technologies(rows, key) + [d.technology]
  {
    assert (rows + [d])[..|rows|] == rows;
    assert PeriodKeys(rows, key) + [] == PeriodKeys(rows, key);
    assert Technologies(rows, key) + [] == Technologies(rows, key);
  }

  /** What row `d` adds to the (period, country, technology) cell. */
  function Contribution(key: Bucketing, d: GenerationDataPoint,
                        period: string, country: string, tech: string): int
  {
    if d.countryId == country && d.technology == tech && key(d) == Some(period)
    then d.generation else 0
  }

  /** The generation summed over the rows of `country` and `tech` whose
      timestamp falls in `period`. */
  function Total(rows: seq<GenerationDataPoint>, key: Bucketing,
                 period: string, country: string, tech: string): int
  {
    if rows == [] then 0
    else
      Total(rows[..|rows| - 1], key, period, country, tech)
        + Contribution(key, rows[|rows| - 1], period, country, tech)
  }

  lemma {:induction false} TotalAppend(rows: seq<GenerationDataPoint>, d: GenerationDataPoint, key: Bucketing,
                    p: string, c: string, t: string)
    ensures Total(rows + [d], key, p, c, t)
         == Total(rows, key, p, c, t) + Contribution(key, d, p, c, t)
  {
    assert (rows + [d])[..|rows|] == rows;
  }

  /** The `y` values of the trace for `country` and `tech`: one total per
      period, zero where nothing was recorded. */
  function Column(rows: seq<GenerationDataPoint>, key: Bucketing,
                  periods: seq<string>, country: string, tech: string): (y: seq<int>)
    ensures |y| == |periods|
  {
    seq(|periods|, k requires 0 <= k < |periods| => Total(rows, key, periods[k], country, tech))
  }

  /** `y.some(v => v > 0)`. */
  predicate AnyPositive(y: seq<int>): (b: bool)
    ensures b <==> exists v :: v in y && v > 0
  {
    assert (exists k :: 0 <= k < |y| && y[k] > 0) <==> (exists v :: v in y && v > 0) by {
      if exists k :: 0 <= k < |y| && y[k] > 0 {
        var k :| 0 <= k < |y| && y[k] > 0;
        assert y[k] in y;
      }
      if exists v :: v in y && v > 0 {
        var v :| v in y && v > 0;
        var k :| 0 <= k < |y| && y[k] == v;
      }
    }
    exists k :: 0 <= k < |y| && y[k] > 0
  }

  function TraceFor(rows: seq<GenerationDataPoint>, key: Bucketing,
                    periods: seq<string>, country: string, tech: string): (t: Trace<string>)
    ensures t.x == periods && |t.y| == |t.x| && t.kind == BAR
    ensures forall k :: 0 <= k < |periods| ==> t.y[k] == Total(rows, key, periods[k], country, tech)
  {
    Trace(periods, Column(rows, key, periods, country, tech), country + " - " + tech, BAR)
  }

  /** The (country, technology) pairs of one country that get a trace, in
      the order of `techs`. */
  function TechPairs(rows: seq<GenerationDataPoint>, key: Bucketing,
                     periods: seq<string>, country: string, techs: seq<string>): (r: seq<(string, string)>)
    ensures |r| <= |techs|
    ensures forall p :: p in r ==> p.0 == country && p.1 in techs
  {
    if techs == [] then []
    else
      var t := techs[|techs| - 1];
      TechPairs(rows, key, periods, country, techs[..|techs| - 1])
        + (if AnyPositive(Column(rows, key, periods, country, t)) then [(country, t)] else [])
  }

  /** The pairs that get a trace, country by country. */
  function Pairs(rows: seq<GenerationDataPoint>, key: Bucketing,
                 periods: seq<string>, countries: seq<string>, techs: seq<string>): (r: seq<(string, string)>)
    ensures forall p :: p in r ==> p.0 in countries && p.1 in techs
  {
    if countries == [] then []
    else
      Pairs(rows, key, periods, countries[..|countries| - 1], techs)
        + TechPairs(rows, key, periods, countries[|countries| - 1], techs)
  }

  /** The sorted, distinct buckets that occur among the selected rows. */
  function Periods(rows: seq<GenerationDataPoint>, request: AggregationRequest, parse: Parser): (r: seq<string>)
    ensures StrictlyAscending(r)
  {
    SortedDistinct(PeriodKeys(SelectedRows(rows, request.selectedCountries), BucketOf(parse, request.aggregationLevel)))
  }

  /** The pairs emitted for already filtered rows `f`. */
  function PairsOf(f: seq<GenerationDataPoint>, countries: seq<string>, key: Bucketing): (r: seq<(string, string)>)
    ensures forall p :: p in r ==> p.0 in countries
  {
    assert forall c :: c in Sort(countries) ==> c in countries by {
      forall c | c in Sort(countries)
        ensures c in countries
      {
        assert c in multiset(Sort(countries));
      }
    }
    Pairs(f, key, SortedDistinct(PeriodKeys(f, key)), Sort(countries),
          SortedDistinct(Technologies(f, key)))
  }

  /** The (country, technology) pairs `performAggregation` emits a trace
      for, in emission order. */
  function EmittedPairs(rows: seq<GenerationDataPoint>, request: AggregationRequest, parse: Parser): (r: seq<(string, string)>)
    ensures rows == [] ==> r == []
    ensures forall p :: p in r ==> p.0 in request.selectedCountries
  {
    if rows == [] then []
    else
      var f := SelectedRows(rows, request.selectedCountries);
      if f == [] then [] else PairsOf(f, request.selectedCountries, BucketOf(parse, request.aggregationLevel))
  }

  /** The result of `performAggregation(request)` over `rows`. */
  function Aggregate(rows: seq<GenerationDataPoint>, request: AggregationRequest, parse: Parser): (traces: AggregatedPlotData)
    ensures |traces| == |EmittedPairs(rows, request, parse)|
    ensures forall k :: 0 <= k < |traces| ==>
      traces[k].x == Periods(rows, request, parse) && |traces[k].y| == |traces[k].x| && traces[k].kind == BAR
  {
    var f := SelectedRows(rows, request.selectedCountries);
    var periods := Periods(rows, request, parse);
    var ps := EmittedPairs(rows, request, parse);
    seq(|ps|, k requires 0 <= k < |ps| => TraceFor(f, BucketOf(parse, request.aggregationLevel), periods, ps[k].0, ps[k].1))
  }

  // ---- Which rows contribute -------------------------------------------

  /** Filtering by country first keeps the totals of the selected countries
      and zeroes the others. */
  lemma {:induction false} SelectedTotal(rows: seq<GenerationDataPoint>, countries: seq<string>, key: Bucketing, p: string, c: string, t: string)
    ensures Total(SelectedRows(rows, countries), key, p, c, t)
         == if c in countries then Total(rows, key, p, c, t) else 0
  {
    if rows != [] {
      var init, d := rows[..|rows| - 1], rows[|rows| - 1];
      assert rows == init + [d];
      SelectedTotal(init, countries, key, p, c, t);
      SelectedTotalStep(init, d, countries, key, p, c, t);
    }
  }

  lemma {:induction false} SelectedTotalStep(rows: seq<GenerationDataPoint>, d: GenerationDataPoint, countries: seq<string>,
                                             key: Bucketing, p: string, c: string, t: string)
    requires Total(SelectedRows(rows, countries), key, p, c, t)
          == if c in countries then Total(rows, key, p, c, t) else 0
    ensures Total(SelectedRows(rows + [d], countries), key, p, c, t)
         == if c in countries then Total(rows + [d], key, p, c, t) else 0
  {
    SelectedRowsAppend(rows, d, countries);
    TotalAppend(rows, d, key, p, c, t);
    var f := SelectedRows(rows, countries);
    if d.countryId in countries {
      TotalAppend(f, d, key, p, c, t);
    } else {
      assert SelectedRows(rows + [d], countries) == f;
      if c in countries {
        assert d.countryId != c;
        assert Contribution(key, d, p, c, t) == 0;
      }
    }
  }

  lemma {:induction false} SelectedRowsAppend(rows: seq<GenerationDataPoint>, d: GenerationDataPoint, countries: seq<string>)
    ensures SelectedRows(rows + [d], countries)
         == SelectedRows(rows, countries) + (if d.countryId in countries then [d] else [])
  {
    assert (rows + [d])[..|rows|] == rows;
  }

  lemma {:induction false} PeriodKeysMembers(rows: seq<GenerationDataPoint>, key: Bucketing)
    ensures forall p :: p in PeriodKeys(rows, key) <==> exists d :: d in rows && key(d) == Some(p)
  {
    if rows != [] {
      var init := rows[..|rows| - 1];
      assert rows == init + [rows[|rows| - 1]];
      PeriodKeysMembers(init, key);
    }
  }

  lemma {:induction false} TechnologiesMembers(rows: seq<GenerationDataPoint>, key: Bucketing)
    ensures forall t :: t in Technologies(rows, key) <==>
                          exists d :: d in rows && key(d).Some? && d.technology == t
  {
    if rows != [] {
      var init := rows[..|rows| - 1];
      assert rows == init + [rows[|rows| - 1]];
      TechnologiesMembers(init, key);
    }
  }

  /** A non-zero total comes from some contributing row, so its period and
      technology have been observed. */
  lemma {:induction false} TotalNonZero(rows: seq<GenerationDataPoint>, key: Bucketing,
                                        p: string, c: string, t: string)
    requires Total(rows, key, p, c, t) != 0
    ensures p in PeriodKeys(rows, key) && t in Technologies(rows, key)
  {
    var init := rows[..|rows| - 1];
    if Total(init, key, p, c, t) != 0 {
      TotalNonZero(init, key, p, c, t);
    }
  }

  /** A trace is kept exactly when some bucket of its pair has a strictly
      positive total. */
  lemma {:induction false} ColumnPositive(f: seq<GenerationDataPoint>, key: Bucketing,
                       periods: seq<string>, c: string, t: string)
    requires forall p :: p in periods <==> p in PeriodKeys(f, key)
    ensures AnyPositive(Column(f, key, periods, c, t))
        <==> exists p :: Total(f, key, p, c, t) > 0
  {
    var y := Column(f, key, periods, c, t);
    if p :| Total(f, key, p, c, t) > 0 {
      TotalNonZero(f, key, p, c, t);
      var k :| 0 <= k < |periods| && periods[k] == p;
      assert y[k] > 0;
    }
  }

  lemma {:induction false} TechPairsMembers(f: seq<GenerationDataPoint>, key: Bucketing,
                                            periods: seq<string>, c: string, techs: seq<string>)
    ensures forall q :: q in TechPairs(f, key, periods, c, techs) <==>
              q.0 == c && q.1 in techs && AnyPositive(Column(f, key, periods, c, q.1))
  {
    if techs != [] {
      var init := techs[..|techs| - 1];
      assert techs == init + [techs[|techs| - 1]];
      TechPairsMembers(f, key, periods, c, init);
    }
  }

  lemma {:induction false} PairsMembers(f: seq<GenerationDataPoint>, key: Bucketing,
                                        periods: seq<string>, countries: seq<string>, techs: seq<string>)
    ensures forall q :: q in Pairs(f, key, periods, countries, techs) <==>
              q.0 in countries && q.1 in techs && AnyPositive(Column(f, key, periods, q.0, q.1))
  {
    if countries != [] {
      var init := countries[..|countries| - 1];
      assert countries == init + [countries[|countries| - 1]];
      PairsMembers(f, key, periods, init, techs);
      TechPairsMembers(f, key, periods, countries[|countries| - 1], techs);
    }
  }

  // ---- What the result means -------------------------------------------

  /** The buckets shared by every trace: strictly ascending, and exactly the
      buckets of the selected rows whose timestamp parses. */
  lemma {:induction false} PeriodsMeaning(rows: seq<GenerationDataPoint>, request: AggregationRequest, parse: Parser)
    ensures StrictlyAscending(Periods(rows, request, parse))
    ensures forall p :: p in Periods(rows, request, parse) <==>
              exists d :: d in rows && d.countryId in request.selectedCountries
                          && KeyOf(parse, request.aggregationLevel, d) == Some(p)
  {
    PeriodKeysMembers(SelectedRows(rows, request.selectedCountries), BucketOf(parse, request.aggregationLevel));
  }

  /** Some bucket of the pair (`c`, `t`) has a strictly positive total. */
  ghost predicate PositiveSomewhere(rows: seq<GenerationDataPoint>, key: Bucketing, c: string, t: string)
  {
    exists p :: Total(rows, key, p, c, t) > 0
  }

  lemma {:induction false} PairsOfSelection(f: seq<GenerationDataPoint>, sel: seq<string>, key: Bucketing,
                          c: string, t: string)
    ensures (c, t) in PairsOf(f, sel, key) <==> c in sel && PositiveSomewhere(f, key, c, t)
  {
    var periods := SortedDistinct(PeriodKeys(f, key));
    var techs := SortedDistinct(Technologies(f, key));
    var cs := Sort(sel);
    PairsMembers(f, key, periods, cs, techs);
    ColumnPositive(f, key, periods, c, t);
    assert c in cs <==> c in sel by {
      assert c in multiset(cs) <==> c in multiset(sel);
    }
    if p :| Total(f, key, p, c, t) > 0 {
      TotalNonZero(f, key, p, c, t);
    }
  }

  lemma {:induction false} PositiveSomewhereSelected(rows: seq<GenerationDataPoint>, sel: seq<string>, key: Bucketing, c: string, t: string)
    ensures PositiveSomewhere(SelectedRows(rows, sel), key, c, t)
        <==> c in sel && PositiveSomewhere(rows, key, c, t)
  {
    var f := SelectedRows(rows, sel);
    if p :| Total(f, key, p, c, t) > 0 {
      SelectedTotal(rows, sel, key, p, c, t);
    }
    if p :| Total(rows, key, p, c, t) > 0 {
      SelectedTotal(rows, sel, key, p, c, t);
    }
  }

  /** A (country, technology) pair gets a trace exactly when the country is
      selected and some bucket of the pair has a strictly positive total; an
      all-zero or all-negative pair gets none. */
  lemma {:induction false} AggregateSelection(rows: seq<GenerationDataPoint>, request: AggregationRequest, parse: Parser, c: string, t: string)
    ensures (c, t) in EmittedPairs(rows, request, parse) <==>
              c in request.selectedCountries && PositiveSomewhere(rows, BucketOf(parse, request.aggregationLevel), c, t)
  {
    var key, sel := BucketOf(parse, request.aggregationLevel), request.selectedCountries;
    var f := SelectedRows(rows, sel);
    PositiveSomewhereSelected(rows, sel, key, c, t);
    if rows == [] || f == [] {
      assert f == [];
      assert !PositiveSomewhere(f, key, c, t);
      assert EmittedPairs(rows, request, parse) == [];
    } else {
      assert EmittedPairs(rows, request, parse) == PairsOf(f, sel, key);
      PairsOfSelection(f, sel, key, c, t);
    }
  }

  /** Trace `k` belongs to the `k`-th emitted pair `(c, t)`: its `x` is the
      shared bucket list, `y` holds, bucket by bucket, the generation of `c`
      and `t` summed over all stored rows (zero when absent), at least one
      value is strictly positive, and it is a bar trace named `c - t`. */
  lemma {:induction false} AggregateTrace(rows: seq<GenerationDataPoint>, request: AggregationRequest, parse: Parser, k: nat)
    requires k < |EmittedPairs(rows, request, parse)|
    ensures var tr, c, t := Aggregate(rows, request, parse)[k], EmittedPairs(rows, request, parse)[k].0,
                            EmittedPairs(rows, request, parse)[k].1;
            && c in request.selectedCountries
            && tr.x == Periods(rows, request, parse) && |tr.y| == |tr.x|
            && (forall i :: 0 <= i < |tr.y| ==> tr.y[i] == Total(rows, BucketOf(parse, request.aggregationLevel), tr.x[i], c, t))
            && AnyPositive(tr.y)
            && tr.name == c + " - " + t && tr.kind == "bar"
  {
    var key, sel := BucketOf(parse, request.aggregationLevel), request.selectedCountries;
    var f := SelectedRows(rows, sel);
    var periods := Periods(rows, request, parse);
    var q := EmittedPairs(rows, request, parse)[k];
    EmittedPairMembers(rows, request, parse, k);
    var tr := Aggregate(rows, request, parse)[k];
    assert tr == TraceFor(f, key, periods, q.0, q.1);
    forall i | 0 <= i < |periods|
      ensures tr.y[i] == Total(rows, key, periods[i], q.0, q.1)
    {
      SelectedTotal(rows, sel, key, periods[i], q.0, q.1);
    }
  }

  /** Each emitted pair is a selected country with a positive column. */
  lemma {:induction false} EmittedPairMembers(rows: seq<GenerationDataPoint>, request: AggregationRequest, parse: Parser, k: nat)
    requires k < |EmittedPairs(rows, request, parse)|
    ensures var q := EmittedPairs(rows, request, parse)[k];
      && q.0 in request.selectedCountries
      && AnyPositive(Column(SelectedRows(rows, request.selectedCountries), BucketOf(parse, request.aggregationLevel),
                            Periods(rows, request, parse), q.0, q.1))
  {
    var key, sel := BucketOf(parse, request.aggregationLevel), request.selectedCountries;
    var f := SelectedRows(rows, sel);
    var periods := SortedDistinct(PeriodKeys(f, key));
    var techs := SortedDistinct(Technologies(f, key));
    EmittedIsPairsOf(rows, request, parse);
    var ps := Pairs(f, key, periods, Sort(sel), techs);
    assert EmittedPairs(rows, request, parse) == ps;
    PairsMembers(f, key, periods, Sort(sel), techs);
    assert ps[k] in ps;
    assert ps[k].0 in multiset(Sort(sel));
  }

  /** Lexicographic order on (country, technology). */
  predicate PairBelow(a: (string, string), b: (string, string))
  {
    Below(a.0, b.0) || (a.0 == b.0 && Below(a.1, b.1))
  }

  predicate PairsAscending(ps: seq<(string, string)>)
  {
    forall i, j :: 0 <= i < j < |ps| ==> PairBelow(ps[i], ps[j])
  }

  lemma {:induction false} AscendingConcat(a: seq<(string, string)>, b: seq<(string, string)>)
    requires PairsAscending(a) && PairsAscending(b)
    requires forall x, y :: x in a && y in b ==> PairBelow(x, y)
    ensures PairsAscending(a + b)
  {
    forall i, j | 0 <= i < j < |a + b|
      ensures PairBelow((a + b)[i], (a + b)[j])
    {
      if i < |a| && j >= |a| {
        assert (a + b)[i] in a && (a + b)[j] in b;
      }
    }
  }

  lemma {:induction false} TechPairsAscending(f: seq<GenerationDataPoint>, key: Bucketing,
                                              periods: seq<string>, c: string, techs: seq<string>)
    requires StrictlyAscending(techs)
    ensures PairsAscending(TechPairs(f, key, periods, c, techs))
  {
    if techs != [] {
      var init, last := techs[..|techs| - 1], techs[|techs| - 1];
      TechPairsAscending(f, key, periods, c, init);
      TechPairsMembers(f, key, periods, c, init);
      forall x | x in TechPairs(f, key, periods, c, init)
        ensures PairBelow(x, (c, last))
      {
        var i :| 0 <= i < |init| && init[i] == x.1;
        assert Below(techs[i], techs[|techs| - 1]);
      }
      AscendingConcat(TechPairs(f, key, periods, c, init),
                      if AnyPositive(Column(f, key, periods, c, last)) then [(c, last)] else []);
    }
  }

  lemma {:induction false} PairsAscendingOrder(f: seq<GenerationDataPoint>, key: Bucketing,
                                               periods: seq<string>, countries: seq<string>, techs: seq<string>)
    requires StrictlyAscending(countries) && StrictlyAscending(techs)
    ensures PairsAscending(Pairs(f, key, periods, countries, techs))
  {
    if countries != [] {
      var init, last := countries[..|countries| - 1], countries[|countries| - 1];
      PairsAscendingOrder(f, key, periods, init, techs);
      TechPairsAscending(f, key, periods, last, techs);
      PairsMembers(f, key, periods, init, techs);
      TechPairsMembers(f, key, periods, last, techs);
      forall x, y | x in Pairs(f, key, periods, init, techs) && y in TechPairs(f, key, periods, last, techs)
        ensures PairBelow(x, y)
      {
        var i :| 0 <= i < |init| && init[i] == x.0;
        assert Below(countries[i], countries[|countries| - 1]);
      }
      AscendingConcat(Pairs(f, key, periods, init, techs), TechPairs(f, key, periods, last, techs));
    }
  }

  /** With no country selected twice, traces come in strictly ascending
      (country, technology) order. (A country selected twice gets its
      traces twice, since `sort()` keeps duplicates.) */
  lemma {:induction false} AggregateOrder(rows: seq<GenerationDataPoint>, request: AggregationRequest, parse: Parser)
    requires Distinct(request.selectedCountries)
    ensures PairsAscending(EmittedPairs(rows, request, parse))
  {
    var key, sel := BucketOf(parse, request.aggregationLevel), request.selectedCountries;
    var f := SelectedRows(rows, sel);
    if rows != [] && f != [] {
      SortOfDistinctIsStrict(sel);
      PairsAscendingOrder(f, key, SortedDistinct(PeriodKeys(f, key)), Sort(sel),
                          SortedDistinct(Technologies(f, key)));
    }
  }

  // ---- Edge cases ------------------------------------------------------

  /** No stored rows, no selected country, or no stored row of a selected
      country: the result is empty, not an error. */
  lemma {:induction false} AggregateEmpty(rows: seq<GenerationDataPoint>, request: AggregationRequest, parse: Parser)
    requires forall d :: d in rows ==> d.countryId !in request.selectedCountries
    ensures Aggregate(rows, request, parse) == []
  {
    assert EmittedPairs(rows, request, parse) == [];
  }

  lemma {:induction false} TechPairsWithoutTechs(f: seq<GenerationDataPoint>, key: Bucketing,
                                                 periods: seq<string>, countries: seq<string>)
    ensures Pairs(f, key, periods, countries, []) == []
  {
    if countries != [] {
      TechPairsWithoutTechs(f, key, periods, countries[..|countries| - 1]);
    }
  }

  /** The two early `return []`s agree with the general case. */
  lemma {:induction false} EmittedIsPairsOf(rows: seq<GenerationDataPoint>, request: AggregationRequest, parse: Parser)
    ensures EmittedPairs(rows, request, parse)
         == PairsOf(SelectedRows(rows, request.selectedCountries), request.selectedCountries, BucketOf(parse, request.aggregationLevel))
  {
    var f := SelectedRows(rows, request.selectedCountries);
    if f == [] {
      var key := BucketOf(parse, request.aggregationLevel);
      assert SortedDistinct(Technologies(f, key)) == [];
      TechPairsWithoutTechs(f, key, SortedDistinct(PeriodKeys(f, key)), Sort(request.selectedCountries));
    }
  }

  /** Pairs depend on the rows only through the columns. */
  lemma {:induction false} TechPairsCongruent(f1: seq<GenerationDataPoint>, f2: seq<GenerationDataPoint>, key: Bucketing, periods: seq<string>, c: string, techs: seq<string>)
    requires forall t :: Column(f1, key, periods, c, t) == Column(f2, key, periods, c, t)
    ensures TechPairs(f1, key, periods, c, techs) == TechPairs(f2, key, periods, c, techs)
  {
    if techs != [] {
      TechPairsCongruent(f1, f2, key, periods, c, techs[..|techs| - 1]);
    }
  }

  lemma {:induction false} PairsCongruent(f1: seq<GenerationDataPoint>, f2: seq<GenerationDataPoint>, key: Bucketing, periods: seq<string>, countries: seq<string>, techs: seq<string>)
    requires forall c, t :: Column(f1, key, periods, c, t) == Column(f2, key, periods, c, t)
    ensures Pairs(f1, key, periods, countries, techs) == Pairs(f2, key, periods, countries, techs)
  {
    if countries != [] {
      PairsCongruent(f1, f2, key, periods, countries[..|countries| - 1], techs);
      TechPairsCongruent(f1, f2, key, periods, countries[|countries| - 1], techs);
    }
  }

  /** A row the bucketing skips changes no key, technology or total. */
  lemma {:induction false} UnparseableRowAddsNothing(f: seq<GenerationDataPoint>, r: GenerationDataPoint, key: Bucketing)
    requires key(r).None?
    ensures PeriodKeys(f + [r], key) == PeriodKeys(f, key)
    ensures Technologies(f + [r], key) == Technologies(f, key)
    ensures forall periods, c, t :: Column(f + [r], key, periods, c, t) == Column(f, key, periods, c, t)
  {
    assert (f + [r])[..|f|] == f;
    forall periods, c, t
      ensures Column(f + [r], key, periods, c, t) == Column(f, key, periods, c, t)
    {
      forall k | 0 <= k < |periods|
        ensures Total(f + [r], key, periods[k], c, t) == Total(f, key, periods[k], c, t)
      {
        TotalAppend(f, r, key, periods[k], c, t);
      }
    }
  }

  /** The result depends on the stored rows only through the selected
      rows' period keys, technologies and columns. */
  lemma {:induction false} AggregateFromColumns(rows1: seq<GenerationDataPoint>, rows2: seq<GenerationDataPoint>,
                                                request: AggregationRequest, parse: Parser)
    requires var f1, f2 := SelectedRows(rows1, request.selectedCountries), SelectedRows(rows2, request.selectedCountries);
      && PeriodKeys(f1, BucketOf(parse, request.aggregationLevel)) == PeriodKeys(f2, BucketOf(parse, request.aggregationLevel))
      && Technologies(f1, BucketOf(parse, request.aggregationLevel)) == Technologies(f2, BucketOf(parse, request.aggregationLevel))
      && forall periods, c, t :: Column(f1, BucketOf(parse, request.aggregationLevel), periods, c, t)
                              == Column(f2, BucketOf(parse, request.aggregationLevel), periods, c, t)
    ensures Aggregate(rows1, request, parse) == Aggregate(rows2, request, parse)
  {
    var key, sel := BucketOf(parse, request.aggregationLevel), request.selectedCountries;
    var f1, f2 := SelectedRows(rows1, sel), SelectedRows(rows2, sel);
    var periods := SortedDistinct(PeriodKeys(f1, key));
    PairsCongruent(f1, f2, key, periods, Sort(sel), SortedDistinct(Technologies(f1, key)));
    EmittedIsPairsOf(rows1, request, parse);
    EmittedIsPairsOf(rows2, request, parse);
    var ps := EmittedPairs(rows1, request, parse);
    assert ps == EmittedPairs(rows2, request, parse);
    forall k | 0 <= k < |ps|
      ensures TraceFor(f1, key, periods, ps[k].0, ps[k].1) == TraceFor(f2, key, periods, ps[k].0, ps[k].1)
    {
      assert Column(f1, key, periods, ps[k].0, ps[k].1) == Column(f2, key, periods, ps[k].0, ps[k].1);
    }
  }

  /** An unparseable row never aborts a request and never changes its
      result. */
  lemma {:induction false} UnparseableRowIgnored(rows: seq<GenerationDataPoint>, r: GenerationDataPoint,
                                                 request: AggregationRequest, parse: Parser)
    requires parse(r.datetime).None?
    ensures Aggregate(rows + [r], request, parse) == Aggregate(rows, request, parse)
  {
    var sel := request.selectedCountries;
    var f1, f2 := SelectedRows(rows, sel), SelectedRows(rows + [r], sel);
    assert (rows + [r])[..|rows|] == rows;
    if r.countryId in sel {
      assert f2 == f1 + [r];
      assert BucketOf(parse, request.aggregationLevel)(r).None?;
      UnparseableRowAddsNothing(f1, r, BucketOf(parse, request.aggregationLevel));
    } else {
      assert f2 == f1;
    }
    AggregateFromColumns(rows + [r], rows, request, parse);
  }

  // ---- Period keys -----------------------------------------------------

  /** Keys of the form `a-b` with equal-width heads compare head first. */
  lemma {:induction false} DashJoinOrder(a1: string, b1: string, a2: string, b2: string)
    requires |a1| == |a2|
    ensures Below(a1 + "-" + b1, a2 + "-" + b2) <==> Below(a1, a2) || (a1 == a2 && Below(b1, b2))
    ensures a1 + "-" + b1 == a2 + "-" + b2 <==> a1 == a2 && b1 == b2
  {
    assert a1 + "-" + b1 == a1 + ("-" + b1);
    assert a2 + "-" + b2 == a2 + ("-" + b2);
    BelowConcat(a1, "-" + b1, a2, "-" + b2);
    BelowConcat("-", b1, "-", b2);
    BelowIrreflexive("-");
    if a1 + "-" + b1 == a2 + "-" + b2 {
      assert a1 == (a1 + ("-" + b1))[..|a1|];
      assert a2 == (a2 + ("-" + b2))[..|a2|];
      assert b1 == (a1 + ("-" + b1))[|a1| + 1..];
      assert b2 == (a2 + ("-" + b2))[|a2| + 1..];
    }
  }

  lemma {:induction false} FourDigitYear(year: int)
    requires 1000 <= year <= 9999
    ensures IntToString(year) == Digits(year, 4)
  {
    assert Pow10(3) == 1000 && Pow10(4) == 10000 by {
      assert Pow10(1) == 10 && Pow10(2) == 100;
    }
    FullWidthIsDigits(year, 4);
  }

  lemma {:induction false} TwoDigits(n: nat)
    requires n < 100
    ensures Pad2(n) == Digits(n, 2)
  {
    assert Pow10(2) == 100 by {
      assert Pow10(1) == 10;
    }
    PaddedIsDigits(n, 2);
  }

  /** For four-digit years, string order on yearly keys is the order of
      the years. */
  lemma {:induction false} YearlyKeysChronological(t1: Instant, t2: Instant)
    requires 1000 <= t1.year <= 9999 && 1000 <= t2.year <= 9999
    ensures Below(PeriodKey(Yearly, t1), PeriodKey(Yearly, t2)) <==> t1.year < t2.year
    ensures PeriodKey(Yearly, t1) == PeriodKey(Yearly, t2) <==> t1.year == t2.year
  {
    FourDigitYear(t1.year);
    FourDigitYear(t2.year);
    assert Pow10(4) == 10000 by {
      assert Pow10(1) == 10 && Pow10(2) == 100 && Pow10(3) == 1000;
    }
    DigitsOrder(t1.year, t2.year, 4);
  }

  /** `YYYY-MM`-shaped keys built from fixed-width digits compare as
      (year, month) pairs. */
  lemma {:induction false} DigitPairOrder(y1: nat, m1: nat, y2: nat, m2: nat, wy: nat, wm: nat)
    requires y1 < Pow10(wy) && y2 < Pow10(wy) && m1 < Pow10(wm) && m2 < Pow10(wm)
    ensures Below(Digits(y1, wy) + "-" + Digits(m1, wm), Digits(y2, wy) + "-" + Digits(m2, wm))
        <==> y1 < y2 || (y1 == y2 && m1 < m2)
    ensures Digits(y1, wy) + "-" + Digits(m1, wm) == Digits(y2, wy) + "-" + Digits(m2, wm)
        <==> y1 == y2 && m1 == m2
  {
    DigitsOrder(y1, y2, wy);
    DigitsOrder(m1, m2, wm);
    DashJoinOrder(Digits(y1, wy), Digits(m1, wm), Digits(y2, wy), Digits(m2, wm));
  }

  /** For four-digit years, string order on monthly keys is chronological
      order of (year, month). */
  lemma {:induction false} MonthlyKeysChronological(t1: Instant, t2: Instant)
    requires 1000 <= t1.year <= 9999 && 1000 <= t2.year <= 9999
    ensures Below(PeriodKey(Monthly, t1), PeriodKey(Monthly, t2))
        <==> t1.year < t2.year || (t1.year == t2.year && t1.month < t2.month)
    ensures PeriodKey(Monthly, t1) == PeriodKey(Monthly, t2) <==> t1.year == t2.year && t1.month == t2.month
  {
    FourDigitYear(t1.year);
    FourDigitYear(t2.year);
    TwoDigits(t1.month);
    TwoDigits(t2.month);
    assert PeriodKey(Monthly, t1) == Digits(t1.year, 4) + "-" + Digits(t1.month, 2);
    assert PeriodKey(Monthly, t2) == Digits(t2.year, 4) + "-" + Digits(t2.month, 2);
    assert Pow10(2) == 100 && Pow10(4) == 10000 by {
      assert Pow10(1) == 10 && Pow10(3) == 1000;
    }
    DigitPairOrder(t1.year, t1.month, t2.year, t2.month, 4, 2);
  }

  lemma {:induction false} IsoYearDigits(year: int)
    requires 0 <= year <= 9999
    ensures IsoYear(year) == Digits(year, 4)
  {
    assert Pow10(4) == 10000 by {
      assert Pow10(1) == 10 && Pow10(2) == 100 && Pow10(3) == 1000;
    }
    PaddedIsDigits(year, 4);
  }

  lemma {:induction false} IsoDateDigits(t: Instant)
    requires 0 <= t.year <= 9999
    ensures IsoDate(t) == Digits(t.year, 4) + "-" + (Digits(t.month, 2) + "-" + Digits(t.day, 2))
  {
    IsoYearDigits(t.year);
    TwoDigits(t.month);
    TwoDigits(t.day);
  }

  /** For years 0 to 9999, string order on daily keys is chronological
      order of (year, month, day). */
  lemma {:induction false} DailyKeysChronological(t1: Instant, t2: Instant)
    requires 0 <= t1.year <= 9999 && 0 <= t2.year <= 9999
    ensures Below(PeriodKey(Daily, t1), PeriodKey(Daily, t2))
        <==> t1.year < t2.year || (t1.year == t2.year && (t1.month < t2.month || (t1.month == t2.month && t1.day < t2.day)))
    ensures PeriodKey(Daily, t1) == PeriodKey(Daily, t2)
        <==> t1.year == t2.year && t1.month == t2.month && t1.day == t2.day
  {
    IsoDateDigits(t1);
    IsoDateDigits(t2);
    assert Pow10(2) == 100 && Pow10(4) == 10000 by {
      assert Pow10(1) == 10 && Pow10(3) == 1000;
    }
    var md1 := Digits(t1.month, 2) + "-" + Digits(t1.day, 2);
    var md2 := Digits(t2.month, 2) + "-" + Digits(t2.day, 2);
    DigitPairOrder(t1.month, t1.day, t2.month, t2.day, 2, 2);
    DigitsOrder(t1.year, t2.year, 4);
    DashJoinOrder(Digits(t1.year, 4), md1, Digits(t2.year, 4), md2);
  }

  /** The monthly key is the yearly key, a dash and the two-digit
      month. */
  lemma {:induction false} MonthlyKeyExtendsYearly(t: Instant)
    ensures PeriodKey(Yearly, t) == IntToString(t.year)
    ensures PeriodKey(Monthly, t) == PeriodKey(Yearly, t) + "-" + Pad2(t.month)
  {
  }
}
