/** The reshape stage: the wide confirmed-cases table becomes one record per
    (row, date column), with a parsed date and a derived year, restricted to
    the years the dashboard covers. Date parsing belongs to the dataframe
    library and enters as the parameter `toDate`. */
module Reshape {
  import opened Tables
  import opened Seqs

  /** The years kept by the year filter. */
  const SupportedYears: set<int> := {2020, 2021, 2022}

  /** Every row has one count per date column. */
  predicate RawRectangular(t: RawCaseTable) {
    forall r <- t.rows :: |r.counts| == |t.dateHeaders|
  }

  predicate Rectangular(t: CountryTable) {
    forall r <- t.rows :: |r.counts| == |t.dateHeaders|
  }

  /** Drop the Province/State, Lat and Long columns. */
  function DropColumns(t: RawCaseTable): (d: CountryTable)
    ensures d.dateHeaders == t.dateHeaders && |d.rows| == |t.rows|
    ensures forall i :: 0 <= i < |t.rows| ==>
      d.rows[i].country == t.rows[i].country && d.rows[i].counts == t.rows[i].counts
    ensures RawRectangular(t) <==> Rectangular(d)
  {
    var rows := seq(|t.rows|, i requires 0 <= i < |t.rows| => CountryRow(t.rows[i].country, t.rows[i].counts));
    assert forall r <- rows :: exists i :: 0 <= i < |t.rows| && r == rows[i];
    CountryTable(t.dateHeaders, rows)
  }

  /** The record for row `i` and date column `j`. */
  function CellRecord(t: CountryTable, i: nat, j: nat): MeltedRecord
    requires Rectangular(t) && i < |t.rows| && j < |t.dateHeaders|
  {
    MeltedRecord(t.rows[i].country, t.dateHeaders[j], t.rows[i].counts[j])
  }

  /** The records of date column `j`, one per row, in row order. */
  function MeltColumn(t: CountryTable, j: nat): seq<MeltedRecord>
    requires Rectangular(t) && j < |t.dateHeaders|
  {
    seq(|t.rows|, i requires 0 <= i < |t.rows| => CellRecord(t, i, j))
  }

  /** The records of date columns `j` and later, column after column. */
  function MeltFrom(t: CountryTable, j: nat): seq<MeltedRecord>
    requires Rectangular(t) && j <= |t.dateHeaders|
    decreases |t.dateHeaders| - j
  {
    if j == |t.dateHeaders| then [] else MeltColumn(t, j) + MeltFrom(t, j + 1)
  }

  /** Unpivot with Country/Region as the identifier: every other column
      becomes one record per row, the header going to Date and the cell to
      Confirmed. */
  function Melt(t: CountryTable): seq<MeltedRecord>
    requires Rectangular(t)
  {
    MeltFrom(t, 0)
  }

  /** `a` blocks of `n` records, written without multiplication so that the
      index reasoning below stays linear. */
  function Blocks(a: nat, n: nat): nat {
    if a == 0 then 0 else n + Blocks(a - 1, n)
  }

  lemma {:induction false} BlocksIsProduct(a: nat, n: nat)
    ensures Blocks(a, n) == a * n
  {
    if a > 0 {
      BlocksIsProduct(a - 1, n);
      assert a * n == (a - 1) * n + n;
    }
  }

  /** One more block of `n`, or none; kept apart so that the column
      induction below reasons about it in a small context. */
  lemma BlocksStep(b: bool, a: nat, n: nat)
    ensures Blocks((if b then 1 else 0) + a, n) == (if b then n else 0) + Blocks(a, n)
  {
  }

  lemma {:induction false} MeltFromLength(t: CountryTable, j: nat)
    requires Rectangular(t) && j <= |t.dateHeaders|
    ensures |MeltFrom(t, j)| == Blocks(|t.dateHeaders| - j, |t.rows|)
    decreases |t.dateHeaders| - j
  {
    if j < |t.dateHeaders| {
      MeltFromLength(t, j + 1);
    }
  }

  /** The record of row `i` and column `c` sits after the `c - j` full
      columns that precede it. */
  lemma {:induction false} MeltFromAt(t: CountryTable, j: nat, i: nat, c: nat)
    requires Rectangular(t) && i < |t.rows| && j <= c < |t.dateHeaders|
    ensures Blocks(c - j, |t.rows|) + i < |MeltFrom(t, j)|
    ensures MeltFrom(t, j)[Blocks(c - j, |t.rows|) + i] == CellRecord(t, i, c)
    decreases c - j
  {
    var n := |t.rows|;
    var col, rest := MeltColumn(t, j), MeltFrom(t, j + 1);
    assert MeltFrom(t, j) == col + rest;
    MeltFromLength(t, j + 1);
    if c == j {
      assert (col + rest)[i] == col[i];
    } else {
      MeltFromAt(t, j + 1, i, c);
      var k := Blocks(c - (j + 1), n) + i;
      assert Blocks(c - j, n) == n + Blocks(c - (j + 1), n);
      assert (col + rest)[n + k] == rest[k];
    }
  }

  lemma {:induction false} MeltFromProvenance(t: CountryTable, j: nat)
    requires Rectangular(t) && j <= |t.dateHeaders|
    ensures forall rec :: rec in MeltFrom(t, j) ==>
      exists i, c :: 0 <= i < |t.rows| && j <= c < |t.dateHeaders| && rec == CellRecord(t, i, c)
    decreases |t.dateHeaders| - j
  {
    if j < |t.dateHeaders| {
      MeltFromProvenance(t, j + 1);
      forall rec | rec in MeltFrom(t, j)
        ensures exists i, c :: 0 <= i < |t.rows| && j <= c < |t.dateHeaders| && rec == CellRecord(t, i, c)
      {
        if rec in MeltColumn(t, j) {
          var i :| 0 <= i < |t.rows| && MeltColumn(t, j)[i] == rec;
          assert rec == CellRecord(t, i, j);
        } else {
          assert rec in MeltFrom(t, j + 1);
        }
      }
    }
  }

  /** C rows and D date columns melt into exactly C×D records. */
  lemma {:induction false} MeltLength(t: CountryTable)
    requires Rectangular(t)
    ensures |Melt(t)| == |t.rows| * |t.dateHeaders|
  {
    MeltFromLength(t, 0);
    BlocksIsProduct(|t.dateHeaders|, |t.rows|);
  }

  /** The record at position j·C + i carries row i's Country/Region, column
      j's header as Date and row i's count in column j as Confirmed. */
  lemma {:induction false} MeltAt(t: CountryTable, i: nat, j: nat)
    requires Rectangular(t) && i < |t.rows| && j < |t.dateHeaders|
    ensures j * |t.rows| + i < |Melt(t)|
    ensures Melt(t)[j * |t.rows| + i] == MeltedRecord(t.rows[i].country, t.dateHeaders[j], t.rows[i].counts[j])
  {
    MeltFromAt(t, 0, i, j);
    BlocksIsProduct(j, |t.rows|);
  }

  /** Every melted record is the record of some (row, date column) pair. */
  lemma {:induction false} MeltProvenance(t: CountryTable)
    requires Rectangular(t)
    ensures forall rec :: rec in Melt(t) ==>
      exists i, j :: 0 <= i < |t.rows| && 0 <= j < |t.dateHeaders| &&
        rec == MeltedRecord(t.rows[i].country, t.dateHeaders[j], t.rows[i].counts[j])
  {
    MeltFromProvenance(t, 0);
  }

  /** The position of the first record at or after `from` whose header does
      not parse, or |m| when all of them parse. */
  function FirstUnparsed(m: seq<MeltedRecord>, toDate: string -> Option<Date>, from: nat): (k: nat)
    requires from <= |m|
    ensures from <= k <= |m|
    ensures k < |m| ==> toDate(m[k].header).None?
    ensures forall q :: from <= q < k ==> toDate(m[q].header).Some?
    decreases |m| - from
  {
    if from == |m| then |m|
    else if toDate(m[from].header).None? then from
    else FirstUnparsed(m, toDate, from + 1)
  }

  /** Parse the Date column. Parsing fails as a whole, naming the first header
      (in record order) that does not parse; otherwise every record gets its
      header's date. */
  function ToDatetime(m: seq<MeltedRecord>, toDate: string -> Option<Date>): (r: Result<seq<DatedRecord>>)
    ensures r.Err? <==> exists k :: 0 <= k < |m| && toDate(m[k].header).None?
    ensures r.Err? ==> exists k ::
      && 0 <= k < |m| && m[k].header == r.error.header && toDate(m[k].header).None?
      && forall q :: 0 <= q < k ==> toDate(m[q].header).Some?
    ensures r.Ok? ==> |r.value| == |m| && forall k :: 0 <= k < |m| ==>
      toDate(m[k].header).Some? &&
      r.value[k] == DatedRecord(m[k].country, toDate(m[k].header).value, m[k].confirmed)
  {
    var bad := FirstUnparsed(m, toDate, 0);
    if bad < |m| then Err(ParseError(m[bad].header))
    else Ok(seq(|m|, k requires 0 <= k < |m| =>
      DatedRecord(m[k].country, toDate(m[k].header).value, m[k].confirmed)))
  }

  /** Add the Year column: the calendar year of each record's date. */
  function AddYear(d: seq<DatedRecord>): (t: seq<TidyRecord>)
    ensures |t| == |d|
    ensures forall k :: 0 <= k < |d| ==>
      t[k].year == d[k].date.year &&
      t[k].country == d[k].country && t[k].date == d[k].date && t[k].confirmed == d[k].confirmed
  {
    seq(|d|, k requires 0 <= k < |d| => TidyRecord(d[k].country, d[k].date, d[k].confirmed, d[k].date.year))
  }

  predicate HasSupportedYear(r: TidyRecord) {
    r.year in SupportedYears
  }

  /** Keep the records whose Year is 2020, 2021 or 2022, in order, each
      repeated record as often as it occurs. */
  function FilterYears(t: seq<TidyRecord>): (f: seq<TidyRecord>)
    ensures forall r :: r in f <==> r in t && r.year in SupportedYears
    ensures forall r <- f :: r.year in SupportedYears
    ensures IsSubseq(f, t)
  {
    FilterIsSubseq(t, HasSupportedYear);
    Filter(t, HasSupportedYear)
  }

  /** A record that occurs several times with a kept year is kept as often as
      it occurs; a record of any other year is not kept at all. */
  lemma {:induction false} FilterYearsMultiplicity(t: seq<TidyRecord>)
    ensures forall r :: multiset(FilterYears(t))[r] == if r.year in SupportedYears then multiset(t)[r] else 0
  {
    FilterMultiplicity(t, HasSupportedYear);
  }

  /** The whole reshape stage: drop, melt, parse dates, derive year, filter. */
  function TidyCases(raw: RawCaseTable, toDate: string -> Option<Date>): Result<seq<TidyRecord>>
    requires RawRectangular(raw)
  {
    match ToDatetime(Melt(DropColumns(raw)), toDate)
    case Err(e) => Err(e)
    case Ok(d) => Ok(FilterYears(AddYear(d)))
  }

  /** True when date header `h` parses to a year the filter keeps. */
  predicate HeaderInSupportedYears(h: string, toDate: string -> Option<Date>) {
    toDate(h).Some? && toDate(h).value.year in SupportedYears
  }

  /** How many of the date headers parse to a supported year. */
  function SupportedHeaderCount(hs: seq<string>, toDate: string -> Option<Date>): (n: nat)
    ensures n <= |hs|
  {
    if hs == [] then 0
    else (if HeaderInSupportedYears(hs[0], toDate) then 1 else 0) + SupportedHeaderCount(hs[1..], toDate)
  }

  /** The year mask expressed on melted records, through their headers. */
  function HeaderMask(toDate: string -> Option<Date>): MeltedRecord -> bool {
    (rec: MeltedRecord) => HeaderInSupportedYears(rec.header, toDate)
  }

  lemma {:induction false} SupportedHeaderCountStep(hs: seq<string>, j: nat, toDate: string -> Option<Date>)
    requires j < |hs|
    ensures SupportedHeaderCount(hs[j..], toDate) ==
      (if HeaderInSupportedYears(hs[j], toDate) then 1 else 0) + SupportedHeaderCount(hs[j + 1..], toDate)
  {
    assert hs[j..][1..] == hs[j + 1..];
  }

  /** The mask keeps a whole date column or none of it. */
  lemma {:induction false} ColumnMaskCount(t: CountryTable, j: nat, toDate: string -> Option<Date>)
    requires Rectangular(t) && j < |t.dateHeaders|
    ensures |Filter(MeltColumn(t, j), HeaderMask(toDate))| ==
      if HeaderInSupportedYears(t.dateHeaders[j], toDate) then |t.rows| else 0
  {
    var col := MeltColumn(t, j);
    var p := HeaderMask(toDate);
    assert forall rec :: rec in col ==> rec.header == t.dateHeaders[j];
    if HeaderInSupportedYears(t.dateHeaders[j], toDate) {
      FilterKeepsAll(col, p);
    } else {
      FilterKeepsNone(col, p);
    }
  }

  /** Column by column, the mask keeps a block of |rows| records per
      supported header. */
  lemma {:induction false} MeltFromMaskCount(t: CountryTable, j: nat, toDate: string -> Option<Date>)
    requires Rectangular(t) && j <= |t.dateHeaders|
    ensures |Filter(MeltFrom(t, j), HeaderMask(toDate))| ==
      Blocks(SupportedHeaderCount(t.dateHeaders[j..], toDate), |t.rows|)
    decreases |t.dateHeaders| - j
  {
    if j < |t.dateHeaders| {
      var p := HeaderMask(toDate);
      var col, rest := MeltColumn(t, j), MeltFrom(t, j + 1);
      var b := HeaderInSupportedYears(t.dateHeaders[j], toDate);
      var a := SupportedHeaderCount(t.dateHeaders[j + 1..], toDate);
      assert MeltFrom(t, j) == col + rest;
      FilterAppend(col, rest, p);
      assert |Filter(MeltFrom(t, j), p)| == |Filter(col, p)| + |Filter(rest, p)|;
      ColumnMaskCount(t, j, toDate);
      MeltFromMaskCount(t, j + 1, toDate);
      SupportedHeaderCountStep(t.dateHeaders, j, toDate);
      BlocksStep(b, a, |t.rows|);
    } else {
      assert t.dateHeaders[j..] == [];
    }
  }
}

/** What the whole reshape stage guarantees: when it fails, how many records
    it keeps, and which ones. */
module ReshapeFacts {
  import opened Tables
  import opened Seqs
  import opened Reshape

  lemma {:induction false} FailureHasBadHeader(raw: RawCaseTable, toDate: string -> Option<Date>)
    requires RawRectangular(raw) && TidyCases(raw, toDate).Err?
    ensures |raw.rows| > 0 && exists j :: 0 <= j < |raw.dateHeaders| && toDate(raw.dateHeaders[j]).None?
  {
    var t := DropColumns(raw);
    var m := Melt(t);
    var k :| 0 <= k < |m| && toDate(m[k].header).None?;
    MeltProvenance(t);
    assert m[k] in m;
    var i, j :| 0 <= i < |t.rows| && 0 <= j < |t.dateHeaders| &&
      m[k] == MeltedRecord(t.rows[i].country, t.dateHeaders[j], t.rows[i].counts[j]);
    assert toDate(raw.dateHeaders[j]).None?;
  }

  lemma {:induction false} BadHeaderFails(raw: RawCaseTable, toDate: string -> Option<Date>, j: nat)
    requires RawRectangular(raw) && |raw.rows| > 0
    requires j < |raw.dateHeaders| && toDate(raw.dateHeaders[j]).None?
    ensures TidyCases(raw, toDate).Err?
  {
    var t := DropColumns(raw);
    var m := Melt(t);
    MeltFromAt(t, 0, 0, j);
    assert m[Blocks(j, |t.rows|)].header == raw.dateHeaders[j];
  }

  /** Reshaping fails exactly when the table has at least one row and some
      date header does not parse (with no rows, nothing is parsed). */
  lemma {:induction false} ReshapeFails(raw: RawCaseTable, toDate: string -> Option<Date>)
    requires RawRectangular(raw)
    ensures TidyCases(raw, toDate).Err? <==>
      |raw.rows| > 0 && exists j :: 0 <= j < |raw.dateHeaders| && toDate(raw.dateHeaders[j]).None?
  {
    if TidyCases(raw, toDate).Err? {
      FailureHasBadHeader(raw, toDate);
    }
    if |raw.rows| > 0 && exists j :: 0 <= j < |raw.dateHeaders| && toDate(raw.dateHeaders[j]).None? {
      var j :| 0 <= j < |raw.dateHeaders| && toDate(raw.dateHeaders[j]).None?;
      BadHeaderFails(raw, toDate, j);
    }
  }

  /** After filtering, C rows contribute exactly C records per date column
      whose year is 2020, 2021 or 2022. */
  lemma {:induction false} ReshapeCount(raw: RawCaseTable, toDate: string -> Option<Date>)
    requires RawRectangular(raw)
    requires TidyCases(raw, toDate).Ok?
    ensures |TidyCases(raw, toDate).value| == |raw.rows| * SupportedHeaderCount(raw.dateHeaders, toDate)
  {
    var t := DropColumns(raw);
    var m := Melt(t);
    var d := ToDatetime(m, toDate).value;
    var tidy := AddYear(d);
    FilterLengthPointwise(tidy, HasSupportedYear, m, HeaderMask(toDate));
    MeltFromMaskCount(t, 0, toDate);
    assert t.dateHeaders[0..] == raw.dateHeaders;
    BlocksIsProduct(SupportedHeaderCount(raw.dateHeaders, toDate), |raw.rows|);
  }

  /** The tidy record of row `i` and date column `j`. */
  function TidyCell(raw: RawCaseTable, toDate: string -> Option<Date>, i: nat, j: nat): TidyRecord
    requires RawRectangular(raw) && i < |raw.rows| && j < |raw.dateHeaders|
    requires toDate(raw.dateHeaders[j]).Some?
  {
    var date := toDate(raw.dateHeaders[j]).value;
    TidyRecord(raw.rows[i].country, date, raw.rows[i].counts[j], date.year)
  }

  lemma {:induction false} SurvivorHasCell(raw: RawCaseTable, toDate: string -> Option<Date>, r: TidyRecord)
    requires RawRectangular(raw) && TidyCases(raw, toDate).Ok?
    requires r in TidyCases(raw, toDate).value
    ensures exists i, j ::
      0 <= i < |raw.rows| && 0 <= j < |raw.dateHeaders| &&
      HeaderInSupportedYears(raw.dateHeaders[j], toDate) && r == TidyCell(raw, toDate, i, j)
  {
    var t := DropColumns(raw);
    var m := Melt(t);
    var tidy := AddYear(ToDatetime(m, toDate).value);
    assert r in tidy;
    var k :| 0 <= k < |tidy| && tidy[k] == r;
    MeltProvenance(t);
    assert m[k] in m;
    var i, j :| 0 <= i < |t.rows| && 0 <= j < |t.dateHeaders| &&
      m[k] == MeltedRecord(t.rows[i].country, t.dateHeaders[j], t.rows[i].counts[j]);
    assert r == TidyCell(raw, toDate, i, j);
  }

  /** The tidy record at position k comes from the melted record at k. */
  lemma {:induction false} TidyAt(m: seq<MeltedRecord>, toDate: string -> Option<Date>, k: nat)
    requires ToDatetime(m, toDate).Ok? && k < |m|
    ensures toDate(m[k].header).Some?
    ensures k < |AddYear(ToDatetime(m, toDate).value)|
    ensures AddYear(ToDatetime(m, toDate).value)[k] ==
      TidyRecord(m[k].country, toDate(m[k].header).value, m[k].confirmed, toDate(m[k].header).value.year)
  {
  }

  lemma {:induction false} CellSurvives(raw: RawCaseTable, toDate: string -> Option<Date>, i: nat, j: nat)
    requires RawRectangular(raw) && TidyCases(raw, toDate).Ok?
    requires i < |raw.rows| && j < |raw.dateHeaders| && HeaderInSupportedYears(raw.dateHeaders[j], toDate)
    ensures TidyCell(raw, toDate, i, j) in TidyCases(raw, toDate).value
  {
    var t := DropColumns(raw);
    var m := Melt(t);
    var tidy := AddYear(ToDatetime(m, toDate).value);
    MeltFromAt(t, 0, i, j);
    var k := Blocks(j, |t.rows|) + i;
    assert m[k] == CellRecord(t, i, j);
    TidyAt(m, toDate, k);
    assert tidy[k] == TidyCell(raw, toDate, i, j);
    assert tidy[k] in tidy;
  }

  /** A record survives reshaping exactly when it is the record of some row
      and date column whose header parses to a supported year: that row's
      country and count, that column's date, and that date's year. */
  lemma {:induction false} ReshapeMembership(raw: RawCaseTable, toDate: string -> Option<Date>, r: TidyRecord)
    requires RawRectangular(raw)
    requires TidyCases(raw, toDate).Ok?
    ensures r in TidyCases(raw, toDate).value <==>
      exists i, j :: 0 <= i < |raw.rows| && 0 <= j < |raw.dateHeaders| &&
        HeaderInSupportedYears(raw.dateHeaders[j], toDate) && r == TidyCell(raw, toDate, i, j)
  {
    if r in TidyCases(raw, toDate).value {
      SurvivorHasCell(raw, toDate, r);
    }
    if exists i, j :: 0 <= i < |raw.rows| && 0 <= j < |raw.dateHeaders| &&
        HeaderInSupportedYears(raw.dateHeaders[j], toDate) && r == TidyCell(raw, toDate, i, j)
    {
      var i, j :| 0 <= i < |raw.rows| && 0 <= j < |raw.dateHeaders| &&
        HeaderInSupportedYears(raw.dateHeaders[j], toDate) && r == TidyCell(raw, toDate, i, j);
      CellSurvives(raw, toDate, i, j);
    }
  }
}
