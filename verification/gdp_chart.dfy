/** The trace building of the GDP chart component: one bar trace per
    distinct country label, built in a loop over the labels in order of
    first appearance. */
module GdpChart {

  import opened Sequences
  import opened Plotly
  import opened Gdp
  import opened Grouping

  const NO_GDP_DATA := "No GDP data available to display."

  function Label(d: GdpDataPoint): string
  {
    d.countryLabel
  }

  function Year(d: GdpDataPoint): int
  {
    d.year
  }

  function GdpOf(d: GdpDataPoint): int
  {
    d.gdp
  }

  /** What the component renders: the message for no data, otherwise a
      plot of its traces. */
  method BuildGdpChart(data: seq<GdpDataPoint>) returns (chart: Chart<int>)
    ensures chart.Message? <==> data == []
    ensures chart.Message? ==> chart.text == NO_GDP_DATA
    ensures chart.Plot? ==> chart.traces == GroupBy(data, Label, Year, GdpOf)
  {
    if data == [] {
      return Message(NO_GDP_DATA);
    }
    var traces: seq<Trace<int>> := [];
    var countries := Dedup(Map(data, Label));
    for i := 0 to |countries|
      invariant traces == SeriesList(data, Label, countries[..i], Year, GdpOf)
    {
      var country := countries[i];
      var countryData := Where(data, Label, country);
      traces := traces + [Trace(Map(countryData, Year), Map(countryData, GdpOf), country, BAR)];
    }
    assert countries[..|countries|] == countries;
    return Plot(traces);
  }
}
