/**
 * filter_query (app.py:451-528) and the default view computed at start-up (app.py:78-105):
 * which records feed each output, how they are grouped, and when no update is sent.
 */
module Query {
  import opened Wrappers
  import opened Ledger
  import opened Aggregates
  import opened Grouping
  import opened Selection
  import opened Series
  import opened Rates

  const CASES_TAB := "cases"
  const METRO_MANILA := "METRO MANILA"

  /** The store filter_query fills: 'cases', 'deaths' and 'aggs'. */
  datatype Data = Data(cases: seq<Point>, deaths: seq<RateRow>, aggs: seq<Group>)

  /**
   * Prevented: another tab is active (PreventUpdate). NoDates: the count table is empty
   * and dates[0] raises IndexError. Update: the new contents of the store.
   */
  datatype Reply = Prevented | NoDates | Update(data: Data)

  /** The inputs of filter_query besides the ledger; n_clicks only triggers the callback. */
  datatype Inputs = Inputs(
    allChecked: bool, filters: seq<Breakdown>, activeTab: string,
    regions: seq<string>, provinces: seq<string>, summed: bool)

  /** The province selection applies: the national box is unticked and both lists are non-empty. */
  predicate Selecting(q: Inputs) {
    !q.allChecked && q.regions != [] && q.provinces != []
  }

  /** line_df: the selection, merged into one pseudo-province when asked; otherwise every case. */
  function QueryLine(q: Inputs, cases: seq<Case>): seq<Case> {
    if Selecting(q) then
      var kept := Selected(cases, q.regions, q.provinces);
      if q.summed then Relabelled(kept, ProvincesLabel(|q.provinces|), PooledPop(kept)) else kept
    else cases
  }

  /** The grouping of the aggregate table. */
  function TableDims(q: Inputs): seq<Dim> {
    if Selecting(q) then [Province] + AsDims(q.filters)
    else if q.filters != [] then AsDims(q.filters)
    else [Country]
  }

  /** filters with 'HealthStatus' removed (app.py:475). */
  function WithoutHealth(filters: seq<Breakdown>): seq<Breakdown> {
    if filters == [] then []
    else
      var f := filters[|filters| - 1];
      WithoutHealth(filters[..|filters| - 1]) + (if f != HealthStatus then [f] else [])
  }

  function ModeOf(q: Inputs): Mode {
    if q.allChecked then National else Provincial
  }

  /** filter_query over the case ledger and NATIONAL_POP. */
  function FilterQuerySpec(q: Inputs, cases: seq<Case>, nationalPop: int): Reply {
    if q.activeTab != CASES_TAB then Prevented
    else
      var line := QueryLine(q, cases);
      var series := SeriesOf(line, ModeOf(q), WithoutHealth(q.filters), nationalPop);
      if series.None? then NoDates
      else Update(Data(series.value, RatesOf(line, ModeOf(q), WithoutHealth(q.filters)), GroupAggregate(line, TableDims(q))))
  }

  method DropHealth(filters: seq<Breakdown>) returns (kept: seq<Breakdown>)
    ensures kept == WithoutHealth(filters)
  {
    kept := [];
    var i := 0;
    while i < |filters|
      invariant 0 <= i <= |filters|
      invariant kept == WithoutHealth(filters[..i])
    {
      assert filters[..i + 1][..i] == filters[..i];
      if filters[i] != HealthStatus {
        kept := kept + [filters[i]];
      }
      i := i + 1;
    }
    assert filters[..|filters|] == filters;
  }

  /** The callback, step by step as app.py takes them. */
  method FilterQuery(q: Inputs, cases: seq<Case>, nationalPop: int) returns (reply: Reply)
    ensures reply == FilterQuerySpec(q, cases, nationalPop)
  {
    if q.activeTab != CASES_TAB {
      return Prevented;
    }
    var line := cases;
    if Selecting(q) {
      line := Select(cases, q.regions, q.provinces);
      if q.summed {
        line := MergeProvinces(line, |q.provinces|);
      }
    }
    var aggs := GroupBy(line, TableDims(q));
    var filters := DropHealth(q.filters);
    var mode := if q.allChecked then National else Provincial;
    var series := BuildSeries(line, mode, filters, nationalPop);
    if series.None? {
      return NoDates;
    }
    var rates := ComputeRates(line, mode, filters);
    reply := Update(Data(series.value, rates, aggs));
  }

  // ---------------------------------------------------------------------------------------
  // The default view.

  function MetroManila(cases: seq<Case>): seq<Case> {
    if cases == [] then []
    else
      var x := cases[|cases| - 1];
      MetroManila(cases[..|cases| - 1]) + (if x.province == Some(METRO_MANILA) then [x] else [])
  }

  /** default_data: None where dates[0] would raise at start-up. */
  function DefaultDataSpec(cases: seq<Case>): Option<Data> {
    var line := MetroManila(cases);
    var series := SeriesOf(line, Provincial, [], 0);
    if series.None? then None
    else Some(Data(series.value, RatesOf(line, Provincial, []), GroupAggregate(line, [Province])))
  }

  method DefaultData(cases: seq<Case>) returns (data: Option<Data>)
    ensures data == DefaultDataSpec(cases)
  {
    var line: seq<Case> := [];
    var i := 0;
    while i < |cases|
      invariant 0 <= i <= |cases|
      invariant line == MetroManila(cases[..i])
    {
      assert cases[..i + 1][..i] == cases[..i];
      if cases[i].province == Some(METRO_MANILA) {
        line := line + [cases[i]];
      }
      i := i + 1;
    }
    assert cases[..|cases|] == cases;
    var aggs := GroupBy(line, [Province]);
    var series := BuildSeries(line, Provincial, [], 0);
    if series.None? {
      return None;
    }
    var rates := ComputeRates(line, Provincial, []);
    data := Some(Data(series.value, rates, aggs));
  }
}
