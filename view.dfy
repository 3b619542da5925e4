/** The year-filtered view and the data of the trend chart: the joined rows of
    the selected year, the five countries with the largest peak Confirmed
    count among them, and those countries' rows. */
module View {
  import opened Tables
  import opened Seqs

  /** The number of countries the trend chart shows. */
  const TopCount: nat := 5

  /** filtered_df: the joined rows whose Year is the selected year, in order,
      each repeated row kept as often as it occurs. */
  function SelectYear(m: seq<MergedRecord>, year: int): (f: seq<MergedRecord>)
    ensures forall r :: r in f <==> r in m && r.year == year
    ensures IsSubseq(f, m)
    ensures (forall r <- m :: r.year != year) ==> f == []
    ensures forall r :: multiset(f)[r] == if r.year == year then multiset(m)[r] else 0
  {
    var p := (r: MergedRecord) => r.year == year;
    FilterIsSubseq(m, p);
    FilterMultiplicity(m, p);
    var f := Filter(m, p);
    assert f != [] ==> f[0] in f;
    f
  }

  /** The Country/Region values that occur in `rows`. */
  function Countries(rows: seq<MergedRecord>): set<string> {
    set r | r in rows :: r.countryRegion
  }

  /** The largest Confirmed count among the rows of country `c`. */
  function CountryMax(rows: seq<MergedRecord>, c: string): (v: int)
    requires c in Countries(rows)
    ensures exists r :: r in rows && r.countryRegion == c && r.confirmed == v
    ensures forall r :: r in rows && r.countryRegion == c ==> r.confirmed <= v
  {
    assert rows == [rows[0]] + rows[1..];
    if rows[0].countryRegion != c then
      assert c in Countries(rows[1..]);
      CountryMax(rows[1..], c)
    else if c !in Countries(rows[1..]) then rows[0].confirmed
    else
      var rest := CountryMax(rows[1..], c);
      if rows[0].confirmed >= rest then rows[0].confirmed else rest
  }

  /** The distinct countries of `rows`, in order of first appearance (the
      groups of a group-by on Country/Region). */
  function GroupKeys(rows: seq<MergedRecord>): (cs: seq<string>)
    ensures Distinct(cs)
    ensures forall c :: c in cs <==> c in Countries(rows)
  {
    if rows == [] then []
    else
      var init := rows[..|rows| - 1];
      var c := rows[|rows| - 1].countryRegion;
      var cs := GroupKeys(init);
      assert rows == init + [rows[|rows| - 1]];
      assert Countries(rows) == Countries(init) + {c};
      if c in cs then cs else cs + [c]
  }

  /** One group of the group-by: a country and its peak Confirmed count. */
  datatype Group = Group(country: string, peak: int)

  /** No country names two groups. */
  ghost predicate UniqueCountries(g: seq<Group>) {
    forall i, j :: 0 <= i < j < |g| ==> g[i].country != g[j].country
  }

  /** groupby('Country/Region')['Confirmed'].max(): one group per country of
      `rows`, holding that country's largest Confirmed count. */
  function GroupMax(rows: seq<MergedRecord>): (g: seq<Group>)
    ensures UniqueCountries(g)
    ensures |g| == |Countries(rows)|
    ensures forall c :: c in Countries(rows) <==> exists x :: x in g && x.country == c
    ensures forall x :: x in g ==> x.country in Countries(rows) && x.peak == CountryMax(rows, x.country)
  {
    var cs := GroupKeys(rows);
    var g := seq(|cs|, i requires 0 <= i < |cs| => Group(cs[i], CountryMax(rows, cs[i])));
    assert |g| == |Countries(rows)| by {
      DistinctCardinality(cs);
      assert (set c | c in cs) == Countries(rows);
    }
    assert UniqueCountries(g) by {
      forall i, j | 0 <= i < j < |g| ensures g[i].country != g[j].country {
        assert g[i].country == cs[i] && g[j].country == cs[j];
      }
    }
    assert forall c :: c in Countries(rows) ==> exists x :: x in g && x.country == c by {
      forall c | c in Countries(rows) ensures exists x :: x in g && x.country == c {
        var i :| 0 <= i < |cs| && cs[i] == c;
        assert g[i] in g;
      }
    }
    assert forall x :: x in g ==> x.country in Countries(rows) && x.peak == CountryMax(rows, x.country) by {
      forall x | x in g ensures x.country in Countries(rows) && x.peak == CountryMax(rows, x.country) {
        var i :| 0 <= i < |g| && g[i] == x;
      }
    }
    g
  }

  /** The position of the first group with the largest peak. */
  function ArgMax(g: seq<Group>): (i: nat)
    requires |g| > 0
    ensures i < |g|
    ensures forall j :: 0 <= j < |g| ==> g[j].peak <= g[i].peak
    ensures forall j :: 0 <= j < i ==> g[j].peak < g[i].peak
  {
    if |g| == 1 then 0
    else
      var j := ArgMax(g[1..]);
      if g[0].peak >= g[1 + j].peak then 0 else 1 + j
  }

  function RemoveAt(g: seq<Group>, i: nat): (h: seq<Group>)
    requires i < |g|
    ensures |h| == |g| - 1
    ensures forall x :: x in h ==> x in g
    ensures forall x :: x in g && x != g[i] ==> x in h
    ensures UniqueCountries(g) ==> UniqueCountries(h) && forall x :: x in h ==> x.country != g[i].country
  {
    var h := g[..i] + g[i + 1..];
    assert forall k :: 0 <= k < |h| ==> h[k] == if k < i then g[k] else g[k + 1];
    assert forall x :: x in g && x != g[i] ==> exists k :: 0 <= k < |g| && k != i && g[k] == x;
    h
  }

  /** nlargest(k): k groups with the largest peaks, largest first; a group
      left out never has a larger peak than one chosen. */
  function TopK(g: seq<Group>, k: nat): (top: seq<Group>)
    ensures |top| == if k <= |g| then k else |g|
    ensures forall x :: x in top ==> x in g
    ensures forall x, y :: x in top && y in g && y !in top ==> y.peak <= x.peak
    ensures UniqueCountries(g) ==> UniqueCountries(top)
    decreases k
  {
    if k == 0 || g == [] then []
    else
      var i := ArgMax(g);
      var rest := RemoveAt(g, i);
      var top := [g[i]] + TopK(rest, k - 1);
      assert forall x :: x in top ==> x == g[i] || x in TopK(rest, k - 1);
      top
  }

  /** The country of each group, in the groups' order. */
  function Names(g: seq<Group>): (cs: seq<string>)
    ensures |cs| == |g|
    ensures forall i :: 0 <= i < |g| ==> cs[i] == g[i].country
    ensures forall c :: c in cs <==> exists x :: x in g && x.country == c
    ensures UniqueCountries(g) ==> Distinct(cs)
  {
    var cs := seq(|g|, i requires 0 <= i < |g| => g[i].country);
    assert forall c :: c in cs ==> exists i :: 0 <= i < |g| && g[i].country == c;
    assert forall x :: x in g ==> exists i :: 0 <= i < |g| && g[i] == x;
    cs
  }

  /** top_countries: the countries of the five largest groups. It holds
      min(5, number of countries) distinct countries, all present in
      `filtered`, and no country left out has a larger peak Confirmed count
      than a country kept. */
  function TopCountries(filtered: seq<MergedRecord>): (tc: seq<string>)
    ensures |tc| == if TopCount <= |Countries(filtered)| then TopCount else |Countries(filtered)|
    ensures Distinct(tc)
    ensures forall c :: c in tc ==> c in Countries(filtered)
    ensures forall c, d :: c in tc && d in Countries(filtered) && d !in tc ==>
      CountryMax(filtered, d) <= CountryMax(filtered, c)
  {
    Names(TopK(GroupMax(filtered), TopCount))
  }

  /** line_data: the rows of `filtered` whose country is one of `top`, in
      order. */
  function LineData(filtered: seq<MergedRecord>, top: seq<string>): (line: seq<MergedRecord>)
    ensures forall r :: r in line <==> r in filtered && r.countryRegion in top
    ensures IsSubseq(line, filtered)
    ensures forall r :: multiset(line)[r] == if r.countryRegion in top then multiset(filtered)[r] else 0
  {
    var p := (r: MergedRecord) => r.countryRegion in top;
    FilterIsSubseq(filtered, p);
    FilterMultiplicity(filtered, p);
    Filter(filtered, p)
  }
}
