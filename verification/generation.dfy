/** One decoded row of the electricity-generation dataset
    (`GenerationDataPoint`). The worker never checks the country and
    technology columns against their declared enumerations, so both are
    strings here; `generation` is a whole number of MWh. */
module Generation {

  datatype GenerationDataPoint = GenerationDataPoint(
    year: int,
    datetime: string,
    countryId: string,
    countryLabel: string,
    technology: string,
    generation: int)

  /** `d.country_id`, the key both the summary and the electricity chart use. */
  function CountryId(d: GenerationDataPoint): string
  {
    d.countryId
  }
}
