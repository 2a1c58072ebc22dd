/** The shape the charting library consumes: a trace with aligned `x` and
    `y` arrays, a legend `name` and a `type`; and what a chart component
    renders, either a message or a plot of traces. Layout and rendering are
    the library's business and are not part of this model. */
module Plotly {

  const BAR := "bar"

  datatype Trace<X> = Trace(x: seq<X>, y: seq<int>, name: string, kind: string)

  datatype Chart<X> = Message(text: string) | Plot(traces: seq<Trace<X>>)

  /** The legend names, in trace order. */
  function Names<X>(traces: seq<Trace<X>>): (names: seq<string>)
    ensures |names| == |traces|
  {
    seq(|traces|, k requires 0 <= k < |traces| => traces[k].name)
  }

  /** The number of plotted points, summed over all traces. */
  function PointCount<X>(traces: seq<Trace<X>>): nat
  {
    if traces == [] then 0 else PointCount(traces[..|traces| - 1]) + |traces[|traces| - 1].y|
  }
}
