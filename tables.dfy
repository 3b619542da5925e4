/** The records that flow through the dashboard's data pipeline, one datatype
    per table shape, and the pipeline's failure value. */
module Tables {

  datatype Option<T> = None | Some(value: T)

  /** A calendar date as produced by date parsing. */
  datatype Date = Date(year: int, month: int, day: int)

  /** A row of the wide confirmed-cases table as it is loaded:
      Province/State, Country/Region, Lat, Long and one count per date
      column. A missing province is `None`. */
  datatype RawCaseRow = RawCaseRow(
    province: Option<string>,
    country: string,
    lat: real,
    long: real,
    counts: seq<int>)

  /** The wide table: the date column headers, in column order, and the rows. */
  datatype RawCaseTable = RawCaseTable(dateHeaders: seq<string>, rows: seq<RawCaseRow>)

  /** A row after Province/State, Lat and Long are dropped. */
  datatype CountryRow = CountryRow(country: string, counts: seq<int>)

  datatype CountryTable = CountryTable(dateHeaders: seq<string>, rows: seq<CountryRow>)

  /** A long-form record right after the unpivot: the Date column still holds
      the column header text. */
  datatype MeltedRecord = MeltedRecord(country: string, header: string, confirmed: int)

  /** A long-form record whose Date column has been parsed. */
  datatype DatedRecord = DatedRecord(country: string, date: Date, confirmed: int)

  /** A long-form record with the derived Year column. */
  datatype TidyRecord = TidyRecord(country: string, date: Date, confirmed: int, year: int)

  /** A row of the economic table (Country, Year, GDP, Unemployment); GDP and
      Unemployment are carried through unchanged. */
  datatype EconRecord = EconRecord(country: string, year: int, gdp: real, unemployment: real)

  /** A row of the joined table: Country/Region, Date, Confirmed, Year from the
      case side; Country, GDP, Unemployment from the economic side. */
  datatype MergedRecord = MergedRecord(
    countryRegion: string,
    date: Date,
    confirmed: int,
    year: int,
    country: string,
    gdp: real,
    unemployment: real)

  /** A date header that date parsing rejects. */
  datatype Error = ParseError(header: string)

  datatype Result<T> = Ok(value: T) | Err(error: Error)
}
