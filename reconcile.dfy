/** The reconcile stage: an inner join of the tidy case records with the
    economic records on the exact pair (country, year). */
module Reconcile {
  import opened Tables
  import opened Reshape
  import ReshapeFacts

  /** The join key: a country name compared character by character, and an
      integer year. */
  datatype Key = Key(country: string, year: int)

  function TidyKey(x: TidyRecord): Key {
    Key(x.country, x.year)
  }

  function EconKey(y: EconRecord): Key {
    Key(y.country, y.year)
  }

  function MergedKey(r: MergedRecord): Key {
    Key(r.countryRegion, r.year)
  }

  /** How many records of `s` have key `k`. */
  function CountKey<T>(s: seq<T>, key: T -> Key, k: Key): (n: nat)
    ensures n <= |s|
  {
    if s == [] then 0 else (if key(s[0]) == k then 1 else 0) + CountKey(s[1..], key, k)
  }

  /** The joined row of a matching pair: the case columns of `x`, then
      Country, GDP and Unemployment of `y`; Year appears once. */
  function Combine(x: TidyRecord, y: EconRecord): MergedRecord
    requires TidyKey(x) == EconKey(y)
  {
    MergedRecord(x.country, x.date, x.confirmed, x.year, y.country, y.gdp, y.unemployment)
  }

  /** The joined rows of one tidy record, one per matching economic row in
      the economic table's order. */
  function Matches(x: TidyRecord, e: seq<EconRecord>): seq<MergedRecord> {
    if e == [] then []
    else (if TidyKey(x) == EconKey(e[0]) then [Combine(x, e[0])] else []) + Matches(x, e[1..])
  }

  /** The inner join, in the order of the tidy records. */
  function Merge(t: seq<TidyRecord>, e: seq<EconRecord>): seq<MergedRecord> {
    if t == [] then [] else Matches(t[0], e) + Merge(t[1..], e)
  }

  /** Reshape the case table, then join it with the economic table. */
  function MergedTable(raw: RawCaseTable, eco: seq<EconRecord>, toDate: string -> Option<Date>): Result<seq<MergedRecord>>
    requires RawRectangular(raw)
  {
    match TidyCases(raw, toDate)
    case Err(err) => Err(err)
    case Ok(t) => Ok(Merge(t, eco))
  }

  lemma {:induction false} CountKeyAppend<T>(a: seq<T>, b: seq<T>, key: T -> Key, k: Key)
    ensures CountKey(a + b, key, k) == CountKey(a, key, k) + CountKey(b, key, k)
  {
    if a == [] {
      assert a + b == b;
    } else {
      assert (a + b)[1..] == a[1..] + b;
      CountKeyAppend(a[1..], b, key, k);
    }
  }

  lemma {:induction false} MatchesCount(x: TidyRecord, e: seq<EconRecord>, k: Key)
    ensures CountKey(Matches(x, e), MergedKey, k) == if TidyKey(x) == k then CountKey(e, EconKey, k) else 0
  {
    if e != [] {
      var head := if TidyKey(x) == EconKey(e[0]) then [Combine(x, e[0])] else [];
      MatchesCount(x, e[1..], k);
      CountKeyAppend(head, Matches(x, e[1..]), MergedKey, k);
      if head != [] {
        assert head[1..] == [];
      }
    }
  }

  /** A key with m tidy rows and n economic rows yields exactly m×n joined
      rows: duplicates on either side fan out. */
  lemma {:induction false} MergeCardinality(t: seq<TidyRecord>, e: seq<EconRecord>, k: Key)
    ensures CountKey(Merge(t, e), MergedKey, k) == CountKey(t, TidyKey, k) * CountKey(e, EconKey, k)
  {
    if t != [] {
      MergeCardinality(t[1..], e, k);
      MatchesCount(t[0], e, k);
      CountKeyAppend(Matches(t[0], e), Merge(t[1..], e), MergedKey, k);
      if TidyKey(t[0]) == k {
        ProductStep(CountKey(t[1..], TidyKey, k), CountKey(e, EconKey, k));
      }
    }
  }

  /** Kept apart from MergeCardinality so that its nonlinear step is proved
      in a small context. */
  lemma ProductStep(m: nat, n: nat)
    ensures (m + 1) * n == n + m * n
  {
  }

  /** A key present on only one side contributes no joined rows; there is no
      null-filled row. */
  lemma {:induction false} UnmatchedKeyDropped(t: seq<TidyRecord>, e: seq<EconRecord>, k: Key)
    requires CountKey(t, TidyKey, k) == 0 || CountKey(e, EconKey, k) == 0
    ensures CountKey(Merge(t, e), MergedKey, k) == 0
    ensures forall r :: r in Merge(t, e) ==> MergedKey(r) != k
  {
    MergeCardinality(t, e, k);
    CountKeyZero(Merge(t, e), MergedKey, k);
  }

  lemma {:induction false} CountKeyZero<T>(s: seq<T>, key: T -> Key, k: Key)
    requires CountKey(s, key, k) == 0
    ensures forall x :: x in s ==> key(x) != k
  {
    if s != [] {
      CountKeyZero(s[1..], key, k);
      assert s == [s[0]] + s[1..];
    }
  }

  lemma {:induction false} MatchesProvenance(x: TidyRecord, e: seq<EconRecord>, r: MergedRecord)
    ensures r in Matches(x, e) <==> exists y :: y in e && TidyKey(x) == EconKey(y) && r == Combine(x, y)
  {
    if e != [] {
      MatchesProvenance(x, e[1..], r);
      assert e == [e[0]] + e[1..];
    }
  }

  /** Every joined row is the combination of one tidy record and one economic
      record with the same key, and every such pair is joined: nothing is
      invented and nothing matching is lost. */
  lemma {:induction false} MergeProvenance(t: seq<TidyRecord>, e: seq<EconRecord>, r: MergedRecord)
    ensures r in Merge(t, e) <==>
      exists x, y :: x in t && y in e && TidyKey(x) == EconKey(y) && r == Combine(x, y)
  {
    if t != [] {
      MergeProvenance(t[1..], e, r);
      MatchesProvenance(t[0], e, r);
      assert t == [t[0]] + t[1..];
    }
  }

  /** Joined rows agree on the key: Country/Region equals Country, and the
      Year is one both sides had. */
  lemma {:induction false} MergeKeyAgrees(t: seq<TidyRecord>, e: seq<EconRecord>)
    ensures forall r :: r in Merge(t, e) ==>
      r.countryRegion == r.country &&
      (exists x :: x in t && TidyKey(x) == MergedKey(r)) &&
      (exists y :: y in e && EconKey(y) == MergedKey(r))
  {
    forall r | r in Merge(t, e)
      ensures r.countryRegion == r.country
      ensures exists x :: x in t && TidyKey(x) == MergedKey(r)
      ensures exists y :: y in e && EconKey(y) == MergedKey(r)
    {
      MergeProvenance(t, e, r);
      var x, y :| x in t && y in e && TidyKey(x) == EconKey(y) && r == Combine(x, y);
      assert TidyKey(x) == MergedKey(r);
    }
  }

  /** The year filter runs before the join, so every joined row's Year is
      2020, 2021 or 2022. */
  lemma {:induction false} MergedYearsSupported(raw: RawCaseTable, eco: seq<EconRecord>, toDate: string -> Option<Date>)
    requires RawRectangular(raw) && MergedTable(raw, eco, toDate).Ok?
    ensures forall r <- MergedTable(raw, eco, toDate).value :: r.year in SupportedYears
  {
    var t := TidyCases(raw, toDate).value;
    var e := eco;
    forall r | r in Merge(t, e) ensures r.year in SupportedYears {
      MergeProvenance(t, e, r);
      var x, y :| x in t && y in e && TidyKey(x) == EconKey(y) && r == Combine(x, y);
      assert x.year in SupportedYears;
    }
  }

  /** The combined pipeline fails exactly when reshaping does. */
  lemma {:induction false} MergedTableFails(raw: RawCaseTable, eco: seq<EconRecord>, toDate: string -> Option<Date>)
    requires RawRectangular(raw)
    ensures MergedTable(raw, eco, toDate).Err? <==>
      |raw.rows| > 0 && exists j :: 0 <= j < |raw.dateHeaders| && toDate(raw.dateHeaders[j]).None?
  {
    ReshapeFacts.ReshapeFails(raw, toDate);
  }
}
