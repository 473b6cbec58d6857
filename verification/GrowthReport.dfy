/** Aggregate growth reports: what the producer builds from accepted exports, and the validator
    that re-reads reports. Dividing counts is an abstract operation, so that it may round. */
module GrowthReport {
  import opened Wrappers

  const MAX_CELL := 1_000_000_000_000
  const MAX_SAFE := 9_007_199_254_740_991

  // ---------- Metrics ----------

  datatype Engine = Google | Bing

  datatype Field = Clicks | Impressions | BrandClicks | NonbrandClicks

  datatype Name =
    | Search(engine: Engine, field: Field)
    | Visits | Signups | Activated | SignupRate | ActivationRate | AiCitations
    | Unlisted(text: string)

  const METRICS: set<Name> := {
    Search(Google, Clicks), Search(Google, Impressions), Search(Google, BrandClicks), Search(Google, NonbrandClicks),
    Search(Bing, Clicks), Search(Bing, Impressions), Search(Bing, BrandClicks), Search(Bing, NonbrandClicks),
    Visits, Signups, Activated, SignupRate, ActivationRate, AiCitations
  }

  datatype Value = Count(n: int) | Rate(q: real) | Other

  datatype Status = Unknown | ExportDerived | OtherStatus

  datatype Metric = Metric(value: Option<Value>, status: Status)

  type Metrics = map<Name, Metric>

  const BLANK := Metric(None, Unknown)

  function Derived(v: Value): Metric {
    Metric(Some(v), ExportDerived)
  }

  // ---------- Reading exports ----------

  /** What the digits-only pattern makes of a stripped cell. */
  datatype Cell = Digits(n: nat) | NotDigits

  function ReadCount(c: Cell): Option<nat> {
    match c
    case Digits(n) => if n > MAX_CELL then None else Some(n)
    case NotDigits => None
  }

  /** A row of a search export; each query column may be absent. */
  datatype SearchRow = SearchRow(query: Option<string>, topQueries: Option<string>, clicks: Cell, impressions: Cell)

  datatype FunnelRow = FunnelRow(channel: string, visits: Cell, signups: Cell, activated: Cell)

  /** How text is classified: blank once stripped, or naming the brand. */
  datatype Text = Text(isBlank: string -> bool, isBrand: string -> bool)

  datatype SearchTotals = SearchTotals(clicks: nat, impressions: nat, brand: nat, nonbrand: nat)

  datatype FunnelTotals = FunnelTotals(visits: nat, signups: nat, activated: nat)

  ghost predicate SearchConsistent(t: SearchTotals) {
    t.brand + t.nonbrand == t.clicks && t.clicks <= t.impressions && t.impressions <= MAX_SAFE
  }

  ghost predicate FunnelConsistent(t: FunnelTotals) {
    t.activated <= t.signups <= t.visits <= MAX_SAFE
  }

  function Query(r: SearchRow): string
    requires r.query.Some? || r.topQueries.Some?
  {
    if r.query.Some? then r.query.value else r.topQueries.value
  }

  predicate QueryUsable(text: Text, r: SearchRow) {
    && !(r.query.Some? && r.topQueries.Some?)
    && (r.query.Some? || r.topQueries.Some?)
    && !text.isBlank(Query(r))
  }

  /** One row of a search export is acceptable on its own. */
  predicate SearchRowOk(text: Text, r: SearchRow) {
    && QueryUsable(text, r)
    && ReadCount(r.clicks).Some? && ReadCount(r.impressions).Some?
    && ReadCount(r.clicks).value <= ReadCount(r.impressions).value
  }

  function AddSearch(text: Text, t: SearchTotals, r: SearchRow): SearchTotals
    requires SearchRowOk(text, r)
  {
    var clicks, impressions := ReadCount(r.clicks).value, ReadCount(r.impressions).value;
    if text.isBrand(Query(r))
    then SearchTotals(t.clicks + clicks, t.impressions + impressions, t.brand + clicks, t.nonbrand)
    else SearchTotals(t.clicks + clicks, t.impressions + impressions, t.brand, t.nonbrand + clicks)
  }

  ghost predicate SearchRowsOk(text: Text, rows: seq<SearchRow>) {
    forall i :: 0 <= i < |rows| ==> SearchRowOk(text, rows[i])
  }

  ghost function SumSearch(text: Text, rows: seq<SearchRow>): SearchTotals
    requires SearchRowsOk(text, rows)
  {
    if rows == [] then SearchTotals(0, 0, 0, 0)
    else AddSearch(text, SumSearch(text, rows[..|rows| - 1]), rows[|rows| - 1])
  }

  /** An export that is read to the end. */
  ghost predicate SearchAccepted(text: Text, rows: seq<SearchRow>) {
    rows != [] && SearchRowsOk(text, rows) && SumSearch(text, rows).impressions <= MAX_SAFE
  }

  lemma {:induction false} SumSearchBalances(text: Text, rows: seq<SearchRow>)
    requires SearchRowsOk(text, rows)
    ensures var t := SumSearch(text, rows); t.brand + t.nonbrand == t.clicks <= t.impressions
  {
    if rows != [] {
      SumSearchBalances(text, rows[..|rows| - 1]);
    }
  }

  lemma NextSearchRow(text: Text, rows: seq<SearchRow>, k: nat)
    requires k < |rows| && SearchRowsOk(text, rows[..k]) && SearchRowOk(text, rows[k])
    ensures SearchRowsOk(text, rows[..k + 1])
    ensures SumSearch(text, rows[..k + 1]) == AddSearch(text, SumSearch(text, rows[..k]), rows[k])
  {
    assert rows[..k + 1][..k] == rows[..k];
  }

  // ---------- Totals and acceptance, in terms of the rows alone ----------

  /** The count a cell stands for. */
  ghost predicate Reads(c: Cell, n: nat) {
    c == Digits(n) && n <= 1_000_000_000_000
  }

  /** The row's one query. */
  ghost predicate Asks(r: SearchRow, query: string) {
    (r.query == Some(query) && r.topQueries == None) || (r.query == None && r.topQueries == Some(query))
  }

  ghost predicate SearchRowFine(text: Text, r: SearchRow) {
    && (exists query :: Asks(r, query) && !text.isBlank(query))
    && (exists clicks, impressions :: Reads(r.clicks, clicks) && Reads(r.impressions, impressions)
          && clicks <= impressions)
  }

  lemma SearchRowMeaning(text: Text, r: SearchRow)
    ensures SearchRowFine(text, r) <==> SearchRowOk(text, r)
  {
    if SearchRowOk(text, r) {
      assert Asks(r, Query(r));
      assert Reads(r.clicks, r.clicks.n) && Reads(r.impressions, r.impressions.n);
    }
  }

  /** A cell's count; zero for a cell that is none. */
  ghost function CellCount(c: Cell): nat {
    if c.Digits? then c.n else 0
  }

  ghost function SumClicks(rows: seq<SearchRow>): nat {
    if rows == [] then 0 else SumClicks(rows[..|rows| - 1]) + CellCount(rows[|rows| - 1].clicks)
  }

  ghost function SumImpressions(rows: seq<SearchRow>): nat {
    if rows == [] then 0 else SumImpressions(rows[..|rows| - 1]) + CellCount(rows[|rows| - 1].impressions)
  }

  /** The clicks of the rows whose query names the brand, or of those whose query does not. */
  ghost function SumClicksOf(text: Text, rows: seq<SearchRow>, brand: bool): nat {
    if rows == [] then 0
    else
      var last := rows[|rows| - 1];
      SumClicksOf(text, rows[..|rows| - 1], brand)
      + if exists query :: Asks(last, query) && text.isBrand(query) == brand then CellCount(last.clicks) else 0
  }

  lemma {:induction false} SearchSums(text: Text, rows: seq<SearchRow>)
    requires SearchRowsOk(text, rows)
    ensures SumSearch(text, rows) == SearchTotals(SumClicks(rows), SumImpressions(rows),
                                                  SumClicksOf(text, rows, true), SumClicksOf(text, rows, false))
  {
    if rows != [] {
      var last := rows[|rows| - 1];
      SearchSums(text, rows[..|rows| - 1]);
      assert SearchRowOk(text, last);
      assert Asks(last, Query(last));
    }
  }

  /** The export is accepted, and these are its totals. */
  ghost predicate SearchTotalled(text: Text, rows: seq<SearchRow>, t: SearchTotals) {
    && rows != [] && (forall i :: 0 <= i < |rows| ==> SearchRowFine(text, rows[i]))
    && SumImpressions(rows) <= 9_007_199_254_740_991
    && t == SearchTotals(SumClicks(rows), SumImpressions(rows),
                         SumClicksOf(text, rows, true), SumClicksOf(text, rows, false))
  }

  lemma SearchAcceptedMeaning(text: Text, rows: seq<SearchRow>)
    ensures SearchAccepted(text, rows) <==> exists t :: SearchTotalled(text, rows, t)
    ensures SearchAccepted(text, rows) ==> SearchTotalled(text, rows, SumSearch(text, rows))
  {
    forall i | 0 <= i < |rows| ensures SearchRowFine(text, rows[i]) <==> SearchRowOk(text, rows[i]) {
      SearchRowMeaning(text, rows[i]);
    }
    if SearchRowsOk(text, rows) {
      SearchSums(text, rows);
      assert SearchAccepted(text, rows) ==> SearchTotalled(text, rows, SumSearch(text, rows));
    }
    if t :| SearchTotalled(text, rows, t) {
      assert SearchRowsOk(text, rows);
    }
    assert MAX_SAFE == 9_007_199_254_740_991;
  }

  ghost predicate FunnelRowFine(r: FunnelRow) {
    && r.channel == "organic_search"
    && exists visits, signups, activated :: Reads(r.visits, visits) && Reads(r.signups, signups)
         && Reads(r.activated, activated) && activated <= signups <= visits
  }

  lemma FunnelRowMeaning(r: FunnelRow)
    ensures FunnelRowFine(r) <==> FunnelRowOk(r)
  {
    if FunnelRowOk(r) {
      assert Reads(r.visits, r.visits.n) && Reads(r.signups, r.signups.n) && Reads(r.activated, r.activated.n);
    }
  }

  ghost function SumCells(rows: seq<FunnelRow>, cell: FunnelRow -> Cell): nat {
    if rows == [] then 0 else SumCells(rows[..|rows| - 1], cell) + CellCount(cell(rows[|rows| - 1]))
  }

  ghost function CohortTotals(rows: seq<FunnelRow>): FunnelTotals {
    FunnelTotals(SumCells(rows, (r: FunnelRow) => r.visits), SumCells(rows, (r: FunnelRow) => r.signups),
                 SumCells(rows, (r: FunnelRow) => r.activated))
  }

  lemma {:induction false} FunnelSums(
    rows: seq<FunnelRow>, visits: FunnelRow -> Cell, signups: FunnelRow -> Cell, activated: FunnelRow -> Cell)
    requires forall i :: 0 <= i < |rows| ==> FunnelRowOk(rows[i])
    requires forall r :: visits(r) == r.visits && signups(r) == r.signups && activated(r) == r.activated
    ensures SumFunnel(rows) == FunnelTotals(SumCells(rows, visits), SumCells(rows, signups), SumCells(rows, activated))
  {
    if rows != [] {
      assert FunnelRowOk(rows[|rows| - 1]);
      FunnelSums(rows[..|rows| - 1], visits, signups, activated);
    }
  }

  lemma FunnelSumsAre(rows: seq<FunnelRow>)
    requires forall i :: 0 <= i < |rows| ==> FunnelRowOk(rows[i])
    ensures SumFunnel(rows) == CohortTotals(rows)
  {
    FunnelSums(rows, (r: FunnelRow) => r.visits, (r: FunnelRow) => r.signups, (r: FunnelRow) => r.activated);
  }

  ghost predicate FunnelTotalled(rows: seq<FunnelRow>, t: FunnelTotals) {
    && rows != [] && (forall i :: 0 <= i < |rows| ==> FunnelRowFine(rows[i]))
    && t == CohortTotals(rows) && t.visits <= 9_007_199_254_740_991
  }

  lemma FunnelAcceptedMeaning(rows: seq<FunnelRow>)
    ensures FunnelAccepted(rows) <==> exists t :: FunnelTotalled(rows, t)
    ensures FunnelAccepted(rows) ==> FunnelTotalled(rows, SumFunnel(rows))
  {
    forall i | 0 <= i < |rows| ensures FunnelRowFine(rows[i]) <==> FunnelRowOk(rows[i]) {
      FunnelRowMeaning(rows[i]);
    }
    if forall i :: 0 <= i < |rows| ==> FunnelRowOk(rows[i]) {
      FunnelSumsAre(rows);
      assert FunnelAccepted(rows) ==> FunnelTotalled(rows, SumFunnel(rows));
    }
    if t :| FunnelTotalled(rows, t) {
      assert forall i :: 0 <= i < |rows| ==> FunnelRowOk(rows[i]);
    }
    assert MAX_SAFE == 9_007_199_254_740_991;
  }

  /** Adds up one search export; stops at the first unusable row or unsafe total. An export
      without rows proves nothing and is refused. */
  method TotalSearch(text: Text, rows: seq<SearchRow>) returns (t: Option<SearchTotals>)
    ensures t.Some? <==> SearchAccepted(text, rows)
    ensures t.Some? ==> t.value == SumSearch(text, rows) && SearchConsistent(t.value)
  {
    if rows == [] { return None; }
    var clicks: nat, impressions: nat, brand: nat, nonbrand: nat := 0, 0, 0, 0;
    for k := 0 to |rows|
      invariant SearchRowsOk(text, rows[..k])
      invariant SearchTotals(clicks, impressions, brand, nonbrand) == SumSearch(text, rows[..k])
      invariant SearchConsistent(SearchTotals(clicks, impressions, brand, nonbrand))
    {
      if !SearchRowOk(text, rows[k]) { return None; }
      NextSearchRow(text, rows, k);
      var rowClicks := ReadCount(rows[k].clicks).value;
      clicks := clicks + rowClicks;
      impressions := impressions + ReadCount(rows[k].impressions).value;
      if text.isBrand(Query(rows[k])) {
        brand := brand + rowClicks;
      } else {
        nonbrand := nonbrand + rowClicks;
      }
      if clicks > MAX_SAFE || impressions > MAX_SAFE || brand > MAX_SAFE || nonbrand > MAX_SAFE {
        UnsafeTotalsRefused(text, rows, k + 1);
        return None;
      }
    }
    assert rows[..|rows|] == rows;
    t := Some(SearchTotals(clicks, impressions, brand, nonbrand));
  }

  lemma UnsafeTotalsRefused(text: Text, rows: seq<SearchRow>, k: nat)
    requires k <= |rows| && SearchRowsOk(text, rows[..k]) && SumSearch(text, rows[..k]).impressions > MAX_SAFE
    ensures !SearchAccepted(text, rows)
  {
    if SearchRowsOk(text, rows) {
      SearchTotalsGrow(text, rows, k);
    }
  }

  lemma {:induction false} SearchTotalsGrow(text: Text, rows: seq<SearchRow>, k: nat)
    requires k <= |rows| && SearchRowsOk(text, rows)
    ensures SumSearch(text, rows[..k]).impressions <= SumSearch(text, rows).impressions
    decreases |rows| - k
  {
    if k == |rows| {
      assert rows[..k] == rows;
    } else {
      SearchTotalsGrow(text, rows, k + 1);
      NextSearchRow(text, rows, k);
    }
  }

  predicate FunnelRowOk(r: FunnelRow) {
    && r.channel == "organic_search"
    && ReadCount(r.visits).Some? && ReadCount(r.signups).Some? && ReadCount(r.activated).Some?
    && ReadCount(r.activated).value <= ReadCount(r.signups).value <= ReadCount(r.visits).value
  }

  ghost predicate FunnelAccepted(rows: seq<FunnelRow>) {
    && rows != [] && (forall i :: 0 <= i < |rows| ==> FunnelRowOk(rows[i]))
    && SumFunnel(rows).visits <= MAX_SAFE
  }

  function SumFunnel(rows: seq<FunnelRow>): FunnelTotals
    requires forall i :: 0 <= i < |rows| ==> FunnelRowOk(rows[i])
  {
    if rows == [] then FunnelTotals(0, 0, 0)
    else
      assert FunnelRowOk(rows[|rows| - 1]);
      var t, r := SumFunnel(rows[..|rows| - 1]), rows[|rows| - 1];
      FunnelTotals(t.visits + ReadCount(r.visits).value, t.signups + ReadCount(r.signups).value,
                   t.activated + ReadCount(r.activated).value)
  }

  lemma {:induction false} FunnelTotalsGrow(rows: seq<FunnelRow>, k: nat)
    requires k <= |rows| && forall i :: 0 <= i < |rows| ==> FunnelRowOk(rows[i])
    ensures SumFunnel(rows[..k]).visits <= SumFunnel(rows).visits
    decreases |rows| - k
  {
    if k == |rows| {
      assert rows[..k] == rows;
    } else {
      FunnelTotalsGrow(rows, k + 1);
      assert rows[..k + 1][..k] == rows[..k];
    }
  }

  method TotalFunnel(rows: seq<FunnelRow>) returns (t: Option<FunnelTotals>)
    ensures t.Some? <==> FunnelAccepted(rows)
    ensures t.Some? ==> t.value == SumFunnel(rows) && FunnelConsistent(t.value)
  {
    if rows == [] { return None; }
    var sum := FunnelTotals(0, 0, 0);
    for k := 0 to |rows|
      invariant forall i :: 0 <= i < k ==> FunnelRowOk(rows[i])
      invariant sum == SumFunnel(rows[..k])
      invariant FunnelConsistent(sum)
    {
      if !FunnelRowOk(rows[k]) { return None; }
      assert rows[..k + 1][..k] == rows[..k];
      sum := FunnelTotals(sum.visits + ReadCount(rows[k].visits).value, sum.signups + ReadCount(rows[k].signups).value,
                          sum.activated + ReadCount(rows[k].activated).value);
      if sum.visits > MAX_SAFE || sum.signups > MAX_SAFE || sum.activated > MAX_SAFE {
        if forall i :: 0 <= i < |rows| ==> FunnelRowOk(rows[i]) {
          FunnelTotalsGrow(rows, k + 1);
        }
        return None;
      }
    }
    assert rows[..|rows|] == rows;
    t := Some(sum);
  }

  // ---------- Building a report ----------

  /** The quotient of two counts as a machine number. */
  type Division = (int, int) -> real

  /** All that matters of its rounding: it takes no proportion out of the unit interval. */
  ghost predicate KeepsProportions(div: Division) {
    forall part, whole :: 0 <= part <= whole && 0 < whole ==> 0.0 <= div(part, whole) <= 1.0
  }

  const EXACT_DIVISION: Division := (part, whole) => if whole == 0 then 0.0 else part as real / whole as real

  /** Exact division is one such operation. */
  lemma ExactDivisionKeepsProportions()
    ensures KeepsProportions(EXACT_DIVISION)
  {
    forall part, whole | 0 <= part <= whole && 0 < whole ensures 0.0 <= EXACT_DIVISION(part, whole) <= 1.0 {
      assert EXACT_DIVISION(part, whole) * whole as real == part as real;
    }
  }

  function Ratio(div: Division, part: int, whole: int): Metric {
    if whole == 0 then BLANK else Derived(Rate(div(part, whole)))
  }

  function SearchMetric(t: Option<SearchTotals>, field: Field): Metric {
    match t
    case None => BLANK
    case Some(totals) =>
      match field
      case Clicks => Derived(Count(totals.clicks))
      case Impressions => Derived(Count(totals.impressions))
      case BrandClicks => Derived(Count(totals.brand))
      case NonbrandClicks => Derived(Count(totals.nonbrand))
  }

  /** Each name's metric: from the export that covers it, or unknown. */
  function MetricFor(
    div: Division, google: Option<SearchTotals>, bing: Option<SearchTotals>, funnel: Option<FunnelTotals>, name: Name)
    : Metric
  {
    match name
    case Search(engine, field) => SearchMetric(if engine == Google then google else bing, field)
    case Visits => if funnel.Some? then Derived(Count(funnel.value.visits)) else BLANK
    case Signups => if funnel.Some? then Derived(Count(funnel.value.signups)) else BLANK
    case Activated => if funnel.Some? then Derived(Count(funnel.value.activated)) else BLANK
    case SignupRate => if funnel.Some? then Ratio(div, funnel.value.signups, funnel.value.visits) else BLANK
    case ActivationRate => if funnel.Some? then Ratio(div, funnel.value.activated, funnel.value.signups) else BLANK
    case _ => BLANK
  }

  function Assemble(
    div: Division, google: Option<SearchTotals>, bing: Option<SearchTotals>, funnel: Option<FunnelTotals>): Metrics
  {
    map name | name in METRICS :: MetricFor(div, google, bing, funnel, name)
  }

  /** An ISO date as a day number, or text that does not parse. */
  datatype DateText = Iso(day: int) | NotADate

  predicate IntervalOk(start: Option<DateText>, end: Option<DateText>, anyExport: bool) {
    && start.Some? == end.Some?
    && (start.Some? ==> start.value.Iso? && end.value.Iso? && start.value.day <= end.value.day)
    && (anyExport ==> start.Some?)
  }

  /** The totals of an export, where it was supplied. */
  ghost function SearchTotalsOf(text: Text, rows: Option<seq<SearchRow>>): Option<SearchTotals>
    requires rows.Some? ==> SearchAccepted(text, rows.value)
  {
    if rows.Some? then Some(SumSearch(text, rows.value)) else None
  }

  ghost function FunnelTotalsOf(rows: Option<seq<FunnelRow>>): Option<FunnelTotals>
    requires rows.Some? ==> FunnelAccepted(rows.value)
  {
    if rows.Some? then Some(SumFunnel(rows.value)) else None
  }

  // ---------- A report, in terms of the exports alone ----------

  /** No dates and no export, or two ISO dates in order. */
  ghost predicate IntervalFine(start: Option<DateText>, end: Option<DateText>, anyExport: bool) {
    || (start == None && end == None && !anyExport)
    || exists first, last :: start == Some(Iso(first)) && end == Some(Iso(last)) && first <= last
  }

  ghost function Known(v: Value): Metric {
    Metric(Some(v), ExportDerived)
  }

  /** One engine's four metrics: what its own export adds up to, or unknown without one. */
  ghost predicate EngineShown(m: Metrics, text: Text, engine: Engine, rows: Option<seq<SearchRow>>)
    requires forall field: Field :: Search(engine, field) in m
  {
    match rows
    case None => forall field: Field :: m[Search(engine, field)] == Metric(None, Unknown)
    case Some(rows) =>
      && m[Search(engine, Clicks)] == Known(Count(SumClicks(rows)))
      && m[Search(engine, Impressions)] == Known(Count(SumImpressions(rows)))
      && m[Search(engine, BrandClicks)] == Known(Count(SumClicksOf(text, rows, true)))
      && m[Search(engine, NonbrandClicks)] == Known(Count(SumClicksOf(text, rows, false)))
  }

  /** A rate of two totals, unknown where there is nothing to divide by. */
  ghost function RateOf(div: Division, part: nat, whole: nat): Metric {
    if whole == 0 then Metric(None, Unknown) else Known(Rate(div(part, whole)))
  }

  ghost predicate CohortShown(div: Division, m: Metrics, rows: Option<seq<FunnelRow>>)
    requires Visits in m && Signups in m && Activated in m && SignupRate in m && ActivationRate in m
  {
    match rows
    case None => forall name :: name in {Visits, Signups, Activated, SignupRate, ActivationRate} ==>
                   m[name] == Metric(None, Unknown)
    case Some(rows) =>
      var t := CohortTotals(rows);
      && m[Visits] == Known(Count(t.visits)) && m[Signups] == Known(Count(t.signups))
      && m[Activated] == Known(Count(t.activated))
      && m[SignupRate] == RateOf(div, t.signups, t.visits)
      && m[ActivationRate] == RateOf(div, t.activated, t.signups)
  }

  /** Every metric of a report, by name. */
  ghost predicate ReportShows(
    div: Division, text: Text, google: Option<seq<SearchRow>>, bing: Option<seq<SearchRow>>,
    funnel: Option<seq<FunnelRow>>, m: Metrics)
  {
    && (forall name :: name in m <==> !name.Unlisted?)
    && EngineShown(m, text, Google, google) && EngineShown(m, text, Bing, bing)
    && CohortShown(div, m, funnel) && m[AiCitations] == Metric(None, Unknown)
  }

  lemma AllNamesListed(name: Name)
    ensures name in METRICS <==> !name.Unlisted?
  {
    match name
    case Search(engine, field) => SearchNamesListed(engine, field);
    case _ =>
  }

  lemma EngineAssembled(m: Metrics, text: Text, engine: Engine, rows: Option<seq<SearchRow>>)
    requires rows.Some? ==> SearchAccepted(text, rows.value)
    requires forall field: Field ::
               Search(engine, field) in m && m[Search(engine, field)] == SearchMetric(SearchTotalsOf(text, rows), field)
    ensures EngineShown(m, text, engine, rows)
  {
    hide SumClicks, SumImpressions, SumClicksOf, SumSearch, SearchAccepted;
    if rows.Some? {
      SearchAcceptedMeaning(text, rows.value);
    }
  }

  lemma CohortAssembled(div: Division, m: Metrics, rows: Option<seq<FunnelRow>>)
    requires rows.Some? ==> FunnelAccepted(rows.value)
    requires forall name :: name in {Visits, Signups, Activated, SignupRate, ActivationRate} ==>
               name in m && m[name] == MetricFor(div, None, None, FunnelTotalsOf(rows), name)
    ensures Visits in m && Signups in m && Activated in m && SignupRate in m && ActivationRate in m
    ensures CohortShown(div, m, rows)
  {
    hide CohortTotals, SumFunnel, FunnelAccepted;
    if rows.Some? {
      FunnelAcceptedMeaning(rows.value);
    }
  }

  lemma AssembledShows(
    div: Division, text: Text, google: Option<seq<SearchRow>>, bing: Option<seq<SearchRow>>,
    funnel: Option<seq<FunnelRow>>)
    requires google.Some? ==> SearchAccepted(text, google.value)
    requires bing.Some? ==> SearchAccepted(text, bing.value)
    requires funnel.Some? ==> FunnelAccepted(funnel.value)
    ensures ReportShows(div, text, google, bing, funnel,
                        Assemble(div, SearchTotalsOf(text, google), SearchTotalsOf(text, bing), FunnelTotalsOf(funnel)))
  {
    hide SearchTotalsOf, FunnelTotalsOf, SearchAccepted, FunnelAccepted, EngineShown, CohortShown, SearchMetric;
    forall name ensures name in METRICS <==> !name.Unlisted? {
      AllNamesListed(name);
    }
    var m := Assemble(div, SearchTotalsOf(text, google), SearchTotalsOf(text, bing), FunnelTotalsOf(funnel));
    EngineAssembled(m, text, Google, google);
    EngineAssembled(m, text, Bing, bing);
    CohortAssembled(div, m, funnel);
  }

  /** The interval is proper and every export that is there adds up. */
  ghost predicate InputsFine(
    text: Text, start: Option<DateText>, end: Option<DateText>,
    google: Option<seq<SearchRow>>, bing: Option<seq<SearchRow>>, funnel: Option<seq<FunnelRow>>)
  {
    && IntervalFine(start, end, google.Some? || bing.Some? || funnel.Some?)
    && (google.Some? ==> exists t :: SearchTotalled(text, google.value, t))
    && (bing.Some? ==> exists t :: SearchTotalled(text, bing.value, t))
    && (funnel.Some? ==> exists t :: FunnelTotalled(funnel.value, t))
  }

  lemma InputsMeaning(
    text: Text, start: Option<DateText>, end: Option<DateText>,
    google: Option<seq<SearchRow>>, bing: Option<seq<SearchRow>>, funnel: Option<seq<FunnelRow>>)
    ensures InputsFine(text, start, end, google, bing, funnel) <==>
              && IntervalOk(start, end, google.Some? || bing.Some? || funnel.Some?)
              && (google.Some? ==> SearchAccepted(text, google.value))
              && (bing.Some? ==> SearchAccepted(text, bing.value))
              && (funnel.Some? ==> FunnelAccepted(funnel.value))
  {
    hide SearchTotalled, FunnelTotalled, SearchAccepted, FunnelAccepted;
    if google.Some? { SearchAcceptedMeaning(text, google.value); }
    if bing.Some? { SearchAcceptedMeaning(text, bing.value); }
    if funnel.Some? { FunnelAcceptedMeaning(funnel.value); }
  }

  /** Builds the metrics of a report from the exports that were supplied; None where it raises.
      Whatever it builds, the validator accepts unchanged. */
  method BuildReport(
    div: Division, text: Text, start: Option<DateText>, end: Option<DateText>,
    google: Option<seq<SearchRow>>, bing: Option<seq<SearchRow>>, funnel: Option<seq<FunnelRow>>)
    returns (metrics: Option<Metrics>)
    requires KeepsProportions(div)
    ensures metrics.Some? <==>
              && IntervalOk(start, end, google.Some? || bing.Some? || funnel.Some?)
              && (google.Some? ==> SearchAccepted(text, google.value))
              && (bing.Some? ==> SearchAccepted(text, bing.value))
              && (funnel.Some? ==> FunnelAccepted(funnel.value))
    ensures metrics.Some? ==>
              metrics.value ==
                Assemble(div, SearchTotalsOf(text, google), SearchTotalsOf(text, bing), FunnelTotalsOf(funnel))
    ensures metrics.Some? ==> Validated(div, metrics.value) == Some(metrics.value)
    ensures metrics.Some? <==> InputsFine(text, start, end, google, bing, funnel)
    ensures metrics.Some? ==> ReportShows(div, text, google, bing, funnel, metrics.value)
  {
    hide InputsFine, ReportShows;
    InputsMeaning(text, start, end, google, bing, funnel);
    if !IntervalOk(start, end, google.Some? || bing.Some? || funnel.Some?) { return None; }
    var g: Option<SearchTotals>, b: Option<SearchTotals>, f: Option<FunnelTotals> := None, None, None;
    if google.Some? {
      g := TotalSearch(text, google.value);
      if g.None? { return None; }
    }
    if bing.Some? {
      b := TotalSearch(text, bing.value);
      if b.None? { return None; }
    }
    if funnel.Some? {
      f := TotalFunnel(funnel.value);
      if f.None? { return None; }
    }
    AssembledIsValid(div, g, b, f);
    AssembledShows(div, text, google, bing, funnel);
    metrics := Some(Assemble(div, g, b, f));
  }

  // ---------- Validating a report ----------

  predicate IsRate(name: Name) {
    name == SignupRate || name == ActivationRate
  }

  /** One metric is acceptable under its name. */
  predicate MetricOk(name: Name, m: Metric) {
    || m == BLANK
    || (m.status == ExportDerived && m.value.Some?
        && match m.value.value
           case Count(n) => 0 <= n <= MAX_SAFE && (IsRate(name) ==> n <= 1)
           case Rate(q) => IsRate(name) && 0.0 <= q <= 1.0
           case Other => false)
  }

  function Counted(m: Metrics, name: Name): Option<int>
    requires name in m
  {
    match m[name].value
    case Some(Count(n)) => Some(n)
    case _ => None
  }

  lemma SearchNamesListed(engine: Engine, field: Field)
    ensures Search(engine, field) in METRICS
  {
  }

  predicate SearchOk(m: Metrics, engine: Engine)
    requires forall field: Field :: Search(engine, field) in m
  {
    var clicks, impressions := Counted(m, Search(engine, Clicks)), Counted(m, Search(engine, Impressions));
    var brand, nonbrand := Counted(m, Search(engine, BrandClicks)), Counted(m, Search(engine, NonbrandClicks));
    && (clicks.Some? && impressions.Some? ==> clicks.value <= impressions.value)
    && (clicks.Some? && brand.Some? && nonbrand.Some? ==> brand.value + nonbrand.value == clicks.value)
  }

  function Abs(x: real): real {
    if x < 0.0 then -x else x
  }

  /** Within a billionth of the larger, or within a trillionth. */
  predicate IsClose(a: real, b: real) {
    || Abs(a - b) <= 0.000000001 * (if Abs(a) < Abs(b) then Abs(b) else Abs(a))
    || Abs(a - b) <= 0.000000000001
  }

  /** Both counts are known, and the number is close to their quotient. */
  predicate IsQuotient(div: Division, m: Metrics, part: Name, whole: Name, q: real)
    requires part in m && whole in m
  {
    var p, w := Counted(m, part), Counted(m, whole);
    p.Some? && w.Some? && w.value != 0 && IsClose(q, div(p.value, w.value))
  }

  /** A rate needs its cohort and is close to it; the cohort's own counts are nested. */
  predicate RateOk(div: Division, m: Metrics, rate: Name, part: Name, whole: Name)
    requires rate in m && part in m && whole in m
  {
    match m[rate].value
    case None => true
    case Some(Rate(q)) => IsQuotient(div, m, part, whole, q)
    case Some(Count(n)) => IsQuotient(div, m, part, whole, n as real)
    case Some(Other) => false
  }

  predicate CohortOk(div: Division, m: Metrics)
    requires Visits in m && Signups in m && Activated in m && SignupRate in m && ActivationRate in m
  {
    var visits, signups, activated := Counted(m, Visits), Counted(m, Signups), Counted(m, Activated);
    && (visits.Some? && signups.Some? && activated.Some? ==> activated.value <= signups.value <= visits.value)
    && RateOk(div, m, SignupRate, Signups, Visits)
    && RateOk(div, m, ActivationRate, Activated, Signups)
  }

  /** The listed metrics, with absent names filled in as unknown. */
  function Filled(m: Metrics): (filled: Metrics)
    ensures filled.Keys == METRICS
  {
    map name | name in METRICS :: if name in m then m[name] else BLANK
  }

  /** The sanitised metrics; None where the validator raises. */
  function Validated(div: Division, m: Metrics): (clean: Option<Metrics>)
    ensures clean.Some? ==> clean.value == Filled(m) && m.Keys <= METRICS
  {
    var filled := Filled(m);
    assert forall engine: Engine, field: Field :: Search(engine, field) in filled by {
      forall engine: Engine, field: Field ensures Search(engine, field) in METRICS {
        SearchNamesListed(engine, field);
      }
    }
    if !(m.Keys <= METRICS) then None
    else if !(forall name :: name in METRICS ==> MetricOk(name, filled[name])) then None
    else if SearchOk(filled, Google) && SearchOk(filled, Bing) && CohortOk(div, filled) then Some(filled)
    else None
  }

  lemma AssembledMetricOk(
    div: Division, g: Option<SearchTotals>, b: Option<SearchTotals>, f: Option<FunnelTotals>, name: Name)
    requires KeepsProportions(div)
    requires (g.Some? ==> SearchConsistent(g.value)) && (b.Some? ==> SearchConsistent(b.value))
    requires f.Some? ==> FunnelConsistent(f.value)
    ensures MetricOk(name, MetricFor(div, g, b, f, name))
  {
  }

  lemma AssembledSearchOk(m: Metrics, t: Option<SearchTotals>, engine: Engine)
    requires t.Some? ==> SearchConsistent(t.value)
    requires forall field: Field :: Search(engine, field) in m && m[Search(engine, field)] == SearchMetric(t, field)
    ensures SearchOk(m, engine)
  {
  }

  lemma AssembledCohortOk(div: Division, m: Metrics, f: Option<FunnelTotals>)
    requires f.Some? ==> FunnelConsistent(f.value)
    requires Visits in m && Signups in m && Activated in m && SignupRate in m && ActivationRate in m
    requires m[Visits] == MetricFor(div, None, None, f, Visits)
    requires m[Signups] == MetricFor(div, None, None, f, Signups)
    requires m[Activated] == MetricFor(div, None, None, f, Activated)
    requires m[SignupRate] == MetricFor(div, None, None, f, SignupRate)
    requires m[ActivationRate] == MetricFor(div, None, None, f, ActivationRate)
    ensures CohortOk(div, m)
  {
  }

  /** Every report built from accepted exports is accepted unchanged. */
  lemma AssembledIsValid(
    div: Division, g: Option<SearchTotals>, b: Option<SearchTotals>, f: Option<FunnelTotals>)
    requires KeepsProportions(div)
    requires (g.Some? ==> SearchConsistent(g.value)) && (b.Some? ==> SearchConsistent(b.value))
    requires f.Some? ==> FunnelConsistent(f.value)
    ensures Validated(div, Assemble(div, g, b, f)) == Some(Assemble(div, g, b, f))
  {
    var m := Assemble(div, g, b, f);
    assert Filled(m) == m;
    forall name | name in METRICS ensures MetricOk(name, m[name]) {
      AssembledMetricOk(div, g, b, f, name);
    }
    forall engine: Engine, field: Field ensures Search(engine, field) in METRICS {
      SearchNamesListed(engine, field);
    }
    AssembledSearchOk(m, g, Google);
    AssembledSearchOk(m, b, Bing);
    AssembledCohortOk(div, m, f);
  }

  // ---------- What the validator refuses, in terms of the report alone ----------

  /** The metric is there with this count. */
  ghost predicate CountIs(m: Metrics, name: Name, n: int) {
    name in m && m[name].value == Some(Count(n))
  }

  /** The metric is there with this number, written as a count or not. */
  ghost predicate NumberIs(m: Metrics, name: Name, q: real) {
    name in m && (m[name].value == Some(Rate(q)) || exists n :: m[name].value == Some(Count(n)) && q == n as real)
  }

  /** Unknown, or derived from an export with a number of the right kind and size. */
  ghost predicate ValueFine(name: Name, m: Metric) {
    || m == Metric(None, Unknown)
    || (m.status == ExportDerived
        && if name in {SignupRate, ActivationRate}
           then m.value in {Some(Count(0)), Some(Count(1))} || exists q :: m.value == Some(Rate(q)) && 0.0 <= q <= 1.0
           else exists n :: m.value == Some(Count(n)) && 0 <= n <= 9_007_199_254_740_991)
  }

  /** Clicks within impressions, and split between brand and nonbrand, where all are known. */
  ghost predicate EngineFine(m: Metrics, engine: Engine) {
    && (forall clicks, impressions ::
          CountIs(m, Search(engine, Clicks), clicks) && CountIs(m, Search(engine, Impressions), impressions) ==>
            clicks <= impressions)
    && (forall clicks, brand, nonbrand ::
          && CountIs(m, Search(engine, Clicks), clicks) && CountIs(m, Search(engine, BrandClicks), brand)
          && CountIs(m, Search(engine, NonbrandClicks), nonbrand) ==>
            brand + nonbrand == clicks)
  }

  ghost predicate Within(gap: real, bound: real) {
    -bound <= gap <= bound
  }

  /** Within a trillionth, or within a billionth of the size of either. */
  ghost predicate Near(a: real, b: real) {
    || Within(a - b, 0.000000000001)
    || Within(a - b, 0.000000001 * a) || Within(a - b, -0.000000001 * a)
    || Within(a - b, 0.000000001 * b) || Within(a - b, -0.000000001 * b)
  }

  /** Both counts are known, and this is their quotient up to the tolerance. */
  ghost predicate FromCounts(div: Division, m: Metrics, part: Name, whole: Name, q: real) {
    exists p, w :: CountIs(m, part, p) && CountIs(m, whole, w) && w != 0 && Near(q, div(p, w))
  }

  /** A known rate has both its counts, and is theirs up to the tolerance. */
  ghost predicate RateFine(div: Division, m: Metrics, rate: Name, part: Name, whole: Name) {
    forall q :: NumberIs(m, rate, q) ==> FromCounts(div, m, part, whole, q)
  }

  ghost predicate ReportFine(div: Division, m: Metrics) {
    && (forall name :: name in m ==> !name.Unlisted? && ValueFine(name, m[name]))
    && EngineFine(m, Google) && EngineFine(m, Bing)
    && (forall visits, signups, activated ::
          CountIs(m, Visits, visits) && CountIs(m, Signups, signups) && CountIs(m, Activated, activated) ==>
            activated <= signups <= visits)
    && RateFine(div, m, SignupRate, Signups, Visits) && RateFine(div, m, ActivationRate, Activated, Signups)
  }

  lemma ValueMeaning(name: Name, m: Metric)
    ensures ValueFine(name, m) <==> MetricOk(name, m)
  {
    assert MAX_SAFE == 9_007_199_254_740_991;
  }

  lemma NearMeaning(a: real, b: real)
    ensures Near(a, b) <==> IsClose(a, b)
  {
  }

  lemma CountMeaning(m: Metrics, name: Name, n: int)
    requires name in METRICS
    ensures CountIs(m, name, n) <==> Counted(Filled(m), name) == Some(n)
  {
  }

  /** What a known rate of the filled metrics comes from. */
  lemma RateIsNumber(m: Metrics, rate: Name)
    requires rate in METRICS && (rate in m ==> MetricOk(rate, m[rate]))
    ensures match Filled(m)[rate].value
            case None => forall q :: !NumberIs(m, rate, q)
            case Some(Rate(r)) => forall q :: NumberIs(m, rate, q) <==> q == r
            case Some(Count(n)) => forall q :: NumberIs(m, rate, q) <==> q == n as real
            case Some(Other) => false
  {
    hide METRICS;
  }

  lemma FromCountsMeaning(div: Division, m: Metrics, part: Name, whole: Name, q: real)
    requires part in METRICS && whole in METRICS
    ensures FromCounts(div, m, part, whole, q) <==> IsQuotient(div, Filled(m), part, whole, q)
  {
    hide METRICS, Near, IsClose, CountIs, Filled, Counted;
    forall n ensures CountIs(m, part, n) <==> Counted(Filled(m), part) == Some(n) {
      CountMeaning(m, part, n);
    }
    forall n ensures CountIs(m, whole, n) <==> Counted(Filled(m), whole) == Some(n) {
      CountMeaning(m, whole, n);
    }
    var p, w := Counted(Filled(m), part), Counted(Filled(m), whole);
    if p.Some? && w.Some? {
      assert CountIs(m, part, p.value) && CountIs(m, whole, w.value);
      NearMeaning(q, div(p.value, w.value));
    }
  }

  lemma NoNumber(div: Division, m: Metrics, rate: Name, part: Name, whole: Name)
    requires forall q :: !NumberIs(m, rate, q)
    ensures RateFine(div, m, rate, part, whole)
  {
    hide NumberIs;
  }

  /** Only the one number a rate has matters. */
  lemma OneNumber(div: Division, m: Metrics, rate: Name, part: Name, whole: Name, r: real)
    requires forall q :: NumberIs(m, rate, q) <==> q == r
    ensures RateFine(div, m, rate, part, whole) <==> FromCounts(div, m, part, whole, r)
  {
    hide NumberIs, FromCounts;
    assert NumberIs(m, rate, r);
  }

  lemma RateMeaning(div: Division, m: Metrics, rate: Name, part: Name, whole: Name)
    requires rate in METRICS && (rate in m ==> MetricOk(rate, m[rate]))
    requires part in METRICS && whole in METRICS
    ensures RateFine(div, m, rate, part, whole) <==> RateOk(div, Filled(m), rate, part, whole)
  {
    hide METRICS, MetricOk, NumberIs, FromCounts, IsQuotient, Filled, RateFine;
    RateIsNumber(m, rate);
    match Filled(m)[rate].value {
      case None =>
        NoNumber(div, m, rate, part, whole);
      case Some(Rate(q)) =>
        OneNumber(div, m, rate, part, whole, q);
        FromCountsMeaning(div, m, part, whole, q);
      case Some(Count(n)) =>
        OneNumber(div, m, rate, part, whole, n as real);
        FromCountsMeaning(div, m, part, whole, n as real);
    }
  }

  lemma EngineMeaning(m: Metrics, engine: Engine)
    requires forall field: Field :: Search(engine, field) in METRICS
    ensures EngineFine(m, engine) <==> SearchOk(Filled(m), engine)
  {
    if !SearchOk(Filled(m), engine) {
      var f := Filled(m);
      var clicks, impressions := Counted(f, Search(engine, Clicks)), Counted(f, Search(engine, Impressions));
      var brand, nonbrand := Counted(f, Search(engine, BrandClicks)), Counted(f, Search(engine, NonbrandClicks));
      if clicks.Some? && impressions.Some? && clicks.value > impressions.value {
        assert CountIs(m, Search(engine, Clicks), clicks.value);
        assert CountIs(m, Search(engine, Impressions), impressions.value);
      } else {
        assert CountIs(m, Search(engine, Clicks), clicks.value);
        assert CountIs(m, Search(engine, BrandClicks), brand.value);
        assert CountIs(m, Search(engine, NonbrandClicks), nonbrand.value);
      }
    }
  }

  lemma CohortMeaning(div: Division, m: Metrics)
    requires m.Keys <= METRICS && forall name :: name in m ==> MetricOk(name, m[name])
    ensures CohortOk(div, Filled(m)) <==>
              && (forall visits, signups, activated ::
                    CountIs(m, Visits, visits) && CountIs(m, Signups, signups) && CountIs(m, Activated, activated) ==>
                      activated <= signups <= visits)
              && RateFine(div, m, SignupRate, Signups, Visits)
              && RateFine(div, m, ActivationRate, Activated, Signups)
  {
    hide RateFine, RateOk;
    RateMeaning(div, m, SignupRate, Signups, Visits);
    RateMeaning(div, m, ActivationRate, Activated, Signups);
    var f := Filled(m);
    var visits, signups, activated := Counted(f, Visits), Counted(f, Signups), Counted(f, Activated);
    if visits.Some? && signups.Some? && activated.Some? && !(activated.value <= signups.value <= visits.value) {
      assert CountIs(m, Visits, visits.value) && CountIs(m, Signups, signups.value);
      assert CountIs(m, Activated, activated.value);
    }
  }

  /** Exactly which reports the validator accepts, and what it makes of them: the same metrics, with
      those that are absent filled in as unknown. */
  lemma ValidatedExactly(div: Division, m: Metrics)
    ensures Validated(div, m).Some? <==> ReportFine(div, m)
    ensures Validated(div, m).Some? ==>
              && (forall name :: name in Validated(div, m).value <==> !name.Unlisted?)
              && forall name :: name in Validated(div, m).value ==>
                   Validated(div, m).value[name] == if name in m then m[name] else Metric(None, Unknown)
  {
    hide MetricOk, ValueFine, SearchOk, EngineFine, CohortOk, RateFine;
    forall name ensures name in METRICS <==> !name.Unlisted? {
      AllNamesListed(name);
    }
    forall name, value ensures ValueFine(name, value) <==> MetricOk(name, value) {
      ValueMeaning(name, value);
    }
    BlankIsOk();
    EngineMeaning(m, Google);
    EngineMeaning(m, Bing);
    if m.Keys <= METRICS && forall name :: name in m ==> MetricOk(name, m[name]) {
      CohortMeaning(div, m);
    }
    assert (forall name :: name in METRICS ==> MetricOk(name, Filled(m)[name])) <==>
           (forall name :: name in m && name in METRICS ==> MetricOk(name, m[name]));
  }

  lemma BlankIsOk()
    ensures forall name :: MetricOk(name, BLANK)
  {
  }
}
