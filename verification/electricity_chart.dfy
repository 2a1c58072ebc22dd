/** The trace building of the electricity chart component: the rows of the
    first row's country, grouped into one bar trace per technology in order
    of first appearance. */
module ElectricityChart {

  import opened Sequences
  import opened Plotly
  import opened Generation
  import opened Grouping

  const NO_ELECTRICITY_DATA := "No Electricity Generation data available to display."

  function Technology(d: GenerationDataPoint): string
  {
    d.technology
  }

  function Datetime(d: GenerationDataPoint): string
  {
    d.datetime
  }

  function GenerationOf(d: GenerationDataPoint): int
  {
    d.generation
  }

  function CountryTechnology(d: GenerationDataPoint): (string, string)
  {
    (d.countryId, d.technology)
  }

  /** `data.filter(d => d.country_id === data[0].country_id)`. */
  function FirstCountryRows(data: seq<GenerationDataPoint>): (r: seq<GenerationDataPoint>)
    requires data != []
    ensures forall d :: d in r <==> d in data && d.countryId == data[0].countryId
  {
    Where(data, CountryId, data[0].countryId)
  }

  /** What the component renders: the message for no data, otherwise a
      plot of the first country's technologies. */
  function BuildElectricityChart(data: seq<GenerationDataPoint>): (chart: Chart<string>)
    ensures chart.Message? <==> data == []
    ensures chart.Message? ==> chart.text == NO_ELECTRICITY_DATA
  {
    if data == [] then Message(NO_ELECTRICITY_DATA)
    else Plot(GroupBy(FirstCountryRows(data), Technology, Datetime, GenerationOf))
  }

  /** One trace per technology of the first country's rows, each
      technology once, in order of first appearance. */
  lemma {:induction false} ElectricityTraceNames(data: seq<GenerationDataPoint>)
    requires data != []
    ensures var traces := BuildElectricityChart(data).traces;
      && (forall i, j :: 0 <= i < j < |traces| ==> traces[i].name != traces[j].name)
      && (forall t :: t in Names(traces) <==> exists d :: d in FirstCountryRows(data) && d.technology == t)
      && (forall i, j :: 0 <= i < j < |traces| ==>
            FirstIndex(Map(FirstCountryRows(data), Technology), traces[i].name)
              < FirstIndex(Map(FirstCountryRows(data), Technology), traces[j].name))
  {
    GroupByNames(FirstCountryRows(data), Technology, Datetime, GenerationOf);
  }

  /** The points number exactly the first country's rows: none is lost or
      plotted twice. */
  lemma {:induction false} ElectricityPointCount(data: seq<GenerationDataPoint>)
    requires data != []
    ensures PointCount(BuildElectricityChart(data).traces) == |FirstCountryRows(data)|
  {
    GroupByPartition(FirstCountryRows(data), Technology, Datetime, GenerationOf);
  }

  /** Every trace lists exactly the rows of `data` with the first row's
      country and the trace's technology, each once, in input order, with
      `x` and `y` from the same row. */
  lemma {:induction false} ElectricityRowsInOrder(data: seq<GenerationDataPoint>)
    requires data != []
    ensures var traces := BuildElectricityChart(data).traces;
      forall k :: 0 <= k < |traces| ==>
        RowsInOrder(traces[k], data, CountryTechnology, (data[0].countryId, traces[k].name), Datetime, GenerationOf)
  {
    var rows := FirstCountryRows(data);
    var traces := BuildElectricityChart(data).traces;
    var techs := Dedup(Map(rows, Technology));
    forall k | 0 <= k < |traces|
      ensures RowsInOrder(traces[k], data, CountryTechnology, (data[0].countryId, traces[k].name), Datetime, GenerationOf)
    {
      var t := techs[k];
      assert traces[k] == Series(rows, Technology, t, Datetime, GenerationOf);
      WhereWhere(data, CountryId, data[0].countryId, Technology, t, CountryTechnology);
      WhereByIndices(data, CountryTechnology, (data[0].countryId, t));
    }
  }
}
