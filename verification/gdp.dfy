/** One row of the GDP dataset (`GDPDataPoint`); `gdp` is in euros. */
module Gdp {

  datatype GdpDataPoint = GdpDataPoint(year: int, countryId: string, countryLabel: string, gdp: int)
}
