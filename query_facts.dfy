/** What filter_query and the default view promise, stated over the case ledger. */
module QueryFacts {
  import opened Wrappers
  import opened Ledger
  import opened Aggregates
  import opened Grouping
  import opened Selection
  import opened Series
  import opened SeriesFacts
  import opened SeriesLedger
  import opened Rates
  import opened Query

  /** PreventUpdate is raised exactly when another tab is active. */
  lemma PreventedExactly(q: Inputs, cases: seq<Case>, nationalPop: int)
    ensures FilterQuerySpec(q, cases, nationalPop).Prevented? <==> q.activeTab != CASES_TAB
  {
  }

  /**
   * With the national box ticked, or with no region or no province chosen, the query
   * runs on every case: the selection and the summed switch change nothing.
   */
  lemma SelectionIgnored(q: Inputs, cases: seq<Case>, nationalPop: int)
    requires !Selecting(q)
    ensures QueryLine(q, cases) == cases
    ensures FilterQuerySpec(q, cases, nationalPop) == FilterQuerySpec(q.(regions := [], provinces := [], summed := false), cases, nationalPop)
  {
  }

  /** The filters without 'HealthStatus': the others, in their order. */
  lemma {:induction false} WithoutHealthSpec(filters: seq<Breakdown>)
    ensures HealthStatus !in WithoutHealth(filters)
    ensures forall b :: b in WithoutHealth(filters) <==> b in filters && b != HealthStatus
    ensures HealthStatus !in filters ==> WithoutHealth(filters) == filters
  {
    if filters != [] {
      var init, f := filters[..|filters| - 1], filters[|filters| - 1];
      WithoutHealthSpec(init);
      assert filters == init + [f];
    }
  }

  /** Removing HealthStatus twice is removing it once. */
  lemma WithoutHealthIdempotent(filters: seq<Breakdown>)
    ensures WithoutHealth(WithoutHealth(filters)) == WithoutHealth(filters)
  {
    WithoutHealthSpec(filters);
    WithoutHealthSpec(WithoutHealth(filters));
  }

  /** Only the aggregate table is grouped by HealthStatus: the series and the rates are as if it were not chosen. */
  lemma HealthOnlyInAggs(q: Inputs, cases: seq<Case>, nationalPop: int)
    ensures var r := FilterQuerySpec(q, cases, nationalPop);
      var r' := FilterQuerySpec(q.(filters := WithoutHealth(q.filters)), cases, nationalPop);
      && (r.Update? <==> r'.Update?)
      && (r.Update? ==> r.data.cases == r'.data.cases && r.data.deaths == r'.data.deaths)
  {
    WithoutHealthIdempotent(q.filters);
  }

  /** The records line_df holds. */
  lemma QueryLineSpec(q: Inputs, cases: seq<Case>)
    ensures Selecting(q) && !q.summed ==>
      forall x :: x in QueryLine(q, cases) <==> x in cases && InSelection(x, q.regions, q.provinces)
    ensures Selecting(q) && q.summed ==>
      var kept := Selected(cases, q.regions, q.provinces);
      forall x :: x in QueryLine(q, cases) <==>
        exists i :: 0 <= i < |kept| && x == kept[i].(province := Some(ProvincesLabel(|q.provinces|)), pop2015 := PooledPop(kept))
    ensures !Selecting(q) ==> QueryLine(q, cases) == cases
  {
    SelectedSpec(cases, q.regions, q.provinces);
    if Selecting(q) && q.summed {
      var kept := Selected(cases, q.regions, q.provinces);
      var name, pop := ProvincesLabel(|q.provinces|), PooledPop(kept);
      var line := Relabelled(kept, name, pop);
      forall x ensures x in line <==> exists i :: 0 <= i < |kept| && x == kept[i].(province := Some(name), pop2015 := pop) {
        if exists i :: 0 <= i < |kept| && x == kept[i].(province := Some(name), pop2015 := pop) {
          var i :| 0 <= i < |kept| && x == kept[i].(province := Some(name), pop2015 := pop);
          assert line[i] == x;
        }
      }
    }
  }

  /** Every record of line carries the province name and the population pop. */
  predicate Uniform(line: seq<Case>, name: string, pop: Option<int>) {
    forall x :: x in line ==> x.province == Some(name) && x.pop2015 == pop
  }

  lemma RelabelledUniform(rows: seq<Case>, name: string, pop: Option<int>)
    ensures Uniform(Relabelled(rows, name, pop), name, pop)
  {
  }

  /** The query's line keeps one population per province: a selection keeps records, the sum relabels all of them alike. */
  lemma QueryLineOnePop(q: Inputs, cases: seq<Case>)
    requires OnePopPerProvince(cases)
    ensures OnePopPerProvince(QueryLine(q, cases))
  {
    if Selecting(q) {
      var kept := Selected(cases, q.regions, q.provinces);
      SelectedSpec(cases, q.regions, q.provinces);
      if q.summed {
        RelabelledUniform(kept, ProvincesLabel(|q.provinces|), PooledPop(kept));
      }
    }
  }

  /** A key over ['Province'] + fs starts with the record's province. */
  lemma ProvinceFirst(x: Case, fs: seq<Dim>)
    requires KeyOf(x, [Province] + fs).Some?
    ensures |KeyOf(x, [Province] + fs).value| > 0 && KeyOf(x, [Province] + fs).value[0] == S(x.province.value)
  {
    KeyOfCells(x, [Province] + fs);
  }

  lemma UniformAggKeys(line: seq<Case>, fs: seq<Dim>, name: string, pop: Option<int>)
    requires Uniform(line, name, pop)
    ensures var t := GroupAggregate(line, [Province] + fs);
      forall i :: 0 <= i < |t| ==> |t[i].key| > 0 && t[i].key[0] == S(name)
  {
    var dims := [Province] + fs;
    var t := GroupAggregate(line, dims);
    var ks := GroupKeys(line, dims);
    GroupKeysSpec(line, dims);
    forall i | 0 <= i < |t| ensures |t[i].key| > 0 && t[i].key[0] == S(name) {
      assert t[i].key == ks[i] && ks[i] in ks;
      var x :| x in line && KeyOf(x, dims) == Some(ks[i]);
      ProvinceFirst(x, fs);
    }
  }

  /** A provincial count row of a uniform line has the line's province and population. */
  lemma UniformDay(line: seq<Case>, filters: seq<Breakdown>, name: string, pop: Option<int>, j: nat)
    requires Uniform(line, name, pop) && j < |CountTable(line, Provincial, filters)|
    ensures var d := CountTable(line, Provincial, filters)[j];
      |d.group| > 0 && d.group[0] == S(name) && d.pop == pop
  {
    var d := CountTable(line, Provincial, filters)[j];
    CountRow(line, Provincial, filters, j);
    var m := DayMembers(line, d, Provincial, filters);
    DayMembersSpec(line, d, Provincial, filters);
    assert m[0] in m;
    assert TotalDims(Provincial, filters) == [Province] + AsDims(filters);
    ProvinceFirst(m[0], AsDims(filters));
  }

  /** Each point of the provincial series of a uniform line has its province, and pop is what Per100k divides by. */
  lemma UniformSeries(line: seq<Case>, filters: seq<Breakdown>, nationalPop: int, name: string, pop: Option<int>)
    requires Uniform(line, name, pop) && SeriesOf(line, Provincial, filters, nationalPop).Some?
    ensures forall p :: p in SeriesOf(line, Provincial, filters, nationalPop).value ==>
      && |p.group| > 0 && p.group[0] == S(name) && pop.Some? && pop.value != 0
      && p.per100k == p.total as real / pop.value as real * 100000.0
  {
    forall p | p in SeriesOf(line, Provincial, filters, nationalPop).value
      ensures |p.group| > 0 && p.group[0] == S(name) && pop.Some? && pop.value != 0
      ensures p.per100k == p.total as real / pop.value as real * 100000.0
    {
      UniformPoint(line, filters, nationalPop, name, pop, p);
    }
  }

  lemma UniformPoint(line: seq<Case>, filters: seq<Breakdown>, nationalPop: int, name: string, pop: Option<int>, p: Point)
    requires Uniform(line, name, pop) && SeriesOf(line, Provincial, filters, nationalPop).Some?
    requires p in SeriesOf(line, Provincial, filters, nationalPop).value
    ensures |p.group| > 0 && p.group[0] == S(name) && pop.Some? && pop.value != 0
    ensures p.per100k == p.total as real / pop.value as real * 100000.0
  {
    var days := CountTable(line, Provincial, filters);
    var j := PointReports(line, Provincial, filters, nationalPop, p);
    UniformDay(line, filters, name, pop, j);
  }

  lemma UniformRates(line: seq<Case>, filters: seq<Breakdown>, name: string, pop: Option<int>)
    requires Uniform(line, name, pop)
    ensures forall r :: r in RatesOf(line, Provincial, filters) ==> |r.key| > 0 && r.key[0] == S(name)
  {
    var dims := TotalDims(Provincial, filters);
    assert dims == [Province] + AsDims(filters);
    forall r | r in RatesOf(line, Provincial, filters) ensures |r.key| > 0 && r.key[0] == S(name) {
      RateRowSpec(line, Provincial, filters, r);
      var x :| x in line && x.healthStatus == Some(DIED) && KeyOf(x, dims) == Some(r.key);
      ProvinceFirst(x, AsDims(filters));
    }
  }

  /** Under the summed switch the aggregate table, the series and the rates have one province, "<n> PROVINCES". */
  lemma SummedKeys(q: Inputs, cases: seq<Case>, nationalPop: int)
    requires Selecting(q) && q.summed && FilterQuerySpec(q, cases, nationalPop).Update?
    ensures var d := FilterQuerySpec(q, cases, nationalPop).data;
      var tag := S(ProvincesLabel(|q.provinces|));
      && (forall i :: 0 <= i < |d.aggs| ==> |d.aggs[i].key| > 0 && d.aggs[i].key[0] == tag)
      && (forall p :: p in d.cases ==> |p.group| > 0 && p.group[0] == tag)
      && (forall r :: r in d.deaths ==> |r.key| > 0 && r.key[0] == tag)
  {
    var kept := Selected(cases, q.regions, q.provinces);
    var name, pop := ProvincesLabel(|q.provinces|), PooledPop(kept);
    var line := QueryLine(q, cases);
    var filters := WithoutHealth(q.filters);
    assert line == Relabelled(kept, name, pop);
    RelabelledUniform(kept, name, pop);
    UniformAggKeys(line, AsDims(q.filters), name, pop);
    UniformSeries(line, filters, nationalPop, name, pop);
    UniformRates(line, filters, name, pop);
  }

  /** Under the summed switch Per100k divides by the sum of the distinct populations of the selection. */
  lemma SummedPer100k(q: Inputs, cases: seq<Case>, nationalPop: int)
    requires Selecting(q) && q.summed && FilterQuerySpec(q, cases, nationalPop).Update?
    ensures var kept := Selected(cases, q.regions, q.provinces);
      forall p :: p in FilterQuerySpec(q, cases, nationalPop).data.cases ==>
        Sum(DistinctPops(kept)) != 0 && p.per100k == p.total as real / Sum(DistinctPops(kept)) as real * 100000.0
  {
    var kept := Selected(cases, q.regions, q.provinces);
    var name, pop := ProvincesLabel(|q.provinces|), PooledPop(kept);
    var line := QueryLine(q, cases);
    var filters := WithoutHealth(q.filters);
    assert line == Relabelled(kept, name, pop);
    RelabelledUniform(kept, name, pop);
    UniformSeries(line, filters, nationalPop, name, pop);
    PooledPopSpec(kept);
    if exists r :: r in kept && r.pop2015.None? {
      var r :| r in kept && r.pop2015.None?;
      PooledPopMissing(kept, r);
    }
  }

  /** Under the summed switch one selected record without a population leaves no count row, so dates[0] raises. */
  lemma SummedMissingPopulation(q: Inputs, cases: seq<Case>, nationalPop: int, y: Case)
    requires Selecting(q) && q.summed && q.activeTab == CASES_TAB
    requires y in Selected(cases, q.regions, q.provinces) && y.pop2015.None?
    ensures FilterQuerySpec(q, cases, nationalPop) == NoDates
  {
    var kept := Selected(cases, q.regions, q.provinces);
    PooledPopMissing(kept, y);
    SeriesMissing(QueryLine(q, cases), Provincial, WithoutHealth(q.filters), nationalPop);
  }

  // ---------------------------------------------------------------------------------------
  // The default view is filter_query on METRO MANILA.

  lemma {:induction false} MetroManilaIsSelected(cases: seq<Case>, regions: seq<string>)
    requires forall x :: x in cases && x.province == Some(METRO_MANILA) ==> x.region.Some? && x.region.value in regions
    ensures MetroManila(cases) == Selected(cases, regions, [METRO_MANILA])
  {
    if cases != [] {
      var init := cases[..|cases| - 1];
      assert forall x :: x in init ==> x in cases;
      assert cases[|cases| - 1] in cases;
      MetroManilaIsSelected(init, regions);
    }
  }

  /** The provincial Total and Per100k do not depend on NATIONAL_POP. */
  lemma {:induction false} ProvincialIgnoresNationalPop(rows: seq<Row>, a: int, b: int)
    ensures Cumulate(rows, Provincial, a) == Cumulate(rows, Provincial, b)
  {
    if rows != [] {
      ProvincialIgnoresNationalPop(rows[..|rows| - 1], a, b);
    }
  }

  /**
   * default_data is what filter_query sends on the cases tab for the province METRO MANILA
   * with no filter and no summing, whenever its region is among those selected.
   */
  lemma DefaultIsQuery(cases: seq<Case>, regions: seq<string>, nationalPop: int)
    requires regions != []
    requires forall x :: x in cases && x.province == Some(METRO_MANILA) ==> x.region.Some? && x.region.value in regions
    ensures var q := Inputs(false, [], CASES_TAB, regions, [METRO_MANILA], false);
      FilterQuerySpec(q, cases, nationalPop) ==
        match DefaultDataSpec(cases)
        case None => NoDates
        case Some(d) => Update(d)
  {
    var q := Inputs(false, [], CASES_TAB, regions, [METRO_MANILA], false);
    MetroManilaIsSelected(cases, regions);
    assert QueryLine(q, cases) == MetroManila(cases);
    assert TableDims(q) == [Province];
    assert WithoutHealth([]) == [];
    var days := CountTable(MetroManila(cases), Provincial, []);
    if days != [] {
      ProvincialIgnoresNationalPop(Calendar(MinDate(days), MaxDate(days), days), nationalPop, 0);
    }
  }
}
