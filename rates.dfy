/**
 * The death rates of filter_query (app.py:504-521): the Cases count per group, the Deaths
 * count per group of the Died records, their inner merge on the group, and Deaths / Cases.
 */
module Rates {
  import opened Wrappers
  import opened Ledger
  import opened Aggregates
  import opened Grouping
  import opened Series

  /** One row of the rates frame. Rate is missing (NaN) when Cases is 0. */
  datatype RateRow = RateRow(key: Key, cases: nat, deaths: nat, rate: Option<real>)

  /** query("`HealthStatus` == 'Died'"): a NaN status is not equal to 'Died'. */
  function Died(line: seq<Case>): seq<Case> {
    if line == [] then []
    else
      var x := line[|line| - 1];
      Died(line[..|line| - 1]) + (if x.healthStatus == Some(DIED) then [x] else [])
  }

  /** Deaths / Cases, NaN for 0 / 0. */
  function Ratio(deaths: nat, cases: nat): Option<real> {
    if cases != 0 then Some(deaths as real / cases as real) else None
  }

  /** The Cases of the first row of table whose key is k. */
  function Find(table: seq<Group>, k: Key): Option<nat> {
    if table == [] then None
    else if table[0].key == k then Some(table[0].agg.cases)
    else Find(table[1..], k)
  }

  /** A totals row joined with its Deaths, and the Rate column. */
  function Joined(g: Group, deaths: nat): RateRow {
    RateRow(g.key, g.agg.cases, deaths, Ratio(deaths, g.agg.cases))
  }

  /** totals.merge(deaths, on=...): the totals rows whose key the deaths table has, in totals order. */
  function InnerMerge(totals: seq<Group>, deaths: seq<Group>): seq<RateRow> {
    if totals == [] then []
    else
      var g := totals[|totals| - 1];
      var d := Find(deaths, g.key);
      InnerMerge(totals[..|totals| - 1], deaths) + (if d.Some? then [Joined(g, d.value)] else [])
  }

  function RateKeys(rows: seq<RateRow>): seq<Key> {
    seq(|rows|, i requires 0 <= i < |rows| => rows[i].key)
  }

  /** The rates frame: grouped by ['Country'] + filters or ['Province'] + filters. */
  function RatesOf(line: seq<Case>, mode: Mode, filters: seq<Breakdown>): seq<RateRow> {
    var dims := TotalDims(mode, filters);
    InnerMerge(GroupAggregate(line, dims), GroupAggregate(Died(line), dims))
  }

  // ---------------------------------------------------------------------------------------
  // As app.py runs it.

  method SelectDied(line: seq<Case>) returns (died: seq<Case>)
    ensures died == Died(line)
  {
    died := [];
    var i := 0;
    while i < |line|
      invariant 0 <= i <= |line|
      invariant died == Died(line[..i])
    {
      assert line[..i + 1][..i] == line[..i];
      if line[i].healthStatus == Some(DIED) {
        died := died + [line[i]];
      }
      i := i + 1;
    }
    assert line[..|line|] == line;
  }

  lemma FindSnoc(table: seq<Group>, g: Group, k: Key)
    ensures Find(table + [g], k) == if Find(table, k).Some? then Find(table, k) else if g.key == k then Some(g.agg.cases) else None
  {
    if table != [] {
      assert (table + [g])[1..] == table[1..] + [g];
      FindSnoc(table[1..], g, k);
    } else {
      assert ([g])[1..] == [];
    }
  }

  /** The hash side of the merge: key to Deaths, the first row winning. */
  method IndexDeaths(deaths: seq<Group>) returns (index: map<Key, nat>)
    ensures forall k :: (k in index <==> Find(deaths, k).Some?) && (k in index ==> Find(deaths, k) == Some(index[k]))
  {
    index := map[];
    var i := 0;
    while i < |deaths|
      invariant 0 <= i <= |deaths|
      invariant forall k :: (k in index <==> Find(deaths[..i], k).Some?) && (k in index ==> Find(deaths[..i], k) == Some(index[k]))
    {
      var g := deaths[i];
      assert deaths[..i + 1] == deaths[..i] + [g];
      forall k {
        FindSnoc(deaths[..i], g, k);
      }
      if g.key !in index {
        index := index[g.key := g.agg.cases];
      }
      i := i + 1;
    }
    assert deaths[..|deaths|] == deaths;
  }

  method MergeRates(totals: seq<Group>, deaths: seq<Group>) returns (rows: seq<RateRow>)
    ensures rows == InnerMerge(totals, deaths)
  {
    var index := IndexDeaths(deaths);
    rows := [];
    var i := 0;
    while i < |totals|
      invariant 0 <= i <= |totals|
      invariant rows == InnerMerge(totals[..i], deaths)
    {
      var g := totals[i];
      assert totals[..i + 1][..i] == totals[..i];
      if g.key in index {
        rows := rows + [Joined(g, index[g.key])];
      }
      i := i + 1;
    }
    assert totals[..|totals|] == totals;
  }

  /** app.py:504-521. */
  method ComputeRates(line: seq<Case>, mode: Mode, filters: seq<Breakdown>) returns (rows: seq<RateRow>)
    ensures rows == RatesOf(line, mode, filters)
  {
    var dims := TotalDims(mode, filters);
    var died := SelectDied(line);
    var totals := GroupBy(line, dims);
    var deaths := GroupBy(died, dims);
    rows := MergeRates(totals, deaths);
  }

  // ---------------------------------------------------------------------------------------
  // What the rates frame holds.

  lemma {:induction false} DiedSpec(line: seq<Case>)
    ensures forall x :: x in Died(line) <==> x in line && x.healthStatus == Some(DIED)
  {
    if line != [] {
      var init := line[..|line| - 1];
      DiedSpec(init);
      assert line == init + [line[|line| - 1]];
    }
  }

  /** Counting the CaseCodes of the Died records gives the Deaths of case_aggregates. */
  lemma {:induction false} DiedCounts(rows: seq<Case>)
    ensures CaseAggregates(Died(rows)).cases == CaseAggregates(rows).deaths
  {
    if rows != [] {
      var init, x := rows[..|rows| - 1], rows[|rows| - 1];
      DiedCounts(init);
      assert CaseAggregates(rows) == Plus(CaseAggregates(init), Contribution(x));
      if x.healthStatus == Some(DIED) {
        assert Died(rows) == Died(init) + [x];
        CaseAggregatesSnoc(Died(init), x);
      } else {
        assert Died(rows) == Died(init);
      }
    }
  }

  /** Taking the Died records and taking a group's records commute. */
  lemma {:induction false} DiedMembers(line: seq<Case>, dims: seq<Dim>, k: Key)
    ensures Members(Died(line), dims, k) == Died(Members(line, dims, k))
  {
    if line != [] {
      var init, x := line[..|line| - 1], line[|line| - 1];
      DiedMembers(init, dims, k);
      var m, dl := Members(init, dims, k), Died(init);
      assert line == init + [x];
      MembersSnoc(init, x, dims, k);
      DiedSnoc(init, x);
      var died, keyed := x.healthStatus == Some(DIED), KeyOf(x, dims) == Some(k);
      if died {
        assert Died(line) == dl + [x];
        MembersSnoc(dl, x, dims, k);
      } else {
        assert Died(line) == dl;
      }
      if keyed {
        assert Members(line, dims, k) == m + [x];
        DiedSnoc(m, x);
      } else {
        assert Members(line, dims, k) == m;
      }
    }
  }

  lemma DiedSnoc(rows: seq<Case>, x: Case)
    ensures Died(rows + [x]) == Died(rows) + (if x.healthStatus == Some(DIED) then [x] else [])
  {
    assert (rows + [x])[..|rows|] == rows;
  }

  /** In a table with distinct keys, Find returns the Cases of the one row with key k. */
  lemma {:induction false} FindSpec(table: seq<Group>, k: Key)
    requires Distinct(TableKeys(table))
    ensures Find(table, k).Some? <==> k in TableKeys(table)
    ensures forall j :: 0 <= j < |table| && table[j].key == k ==> Find(table, k) == Some(table[j].agg.cases)
  {
    if table != [] {
      var rest, keys := table[1..], TableKeys(table);
      assert keys == [table[0].key] + TableKeys(rest);
      assert TableKeys(rest) == keys[1..];
      FindSpec(rest, k);
      assert forall j :: 1 <= j < |table| ==> table[j] == rest[j - 1];
      if table[0].key == k {
        assert k == keys[0];
        forall j | 0 < j < |table| ensures table[j].key != k {
          assert keys[0] != keys[j];
        }
      }
    }
  }

  /** The merge holds a joined row for each totals row whose key the deaths table has, and nothing else. */
  lemma {:induction false} InnerMergeRows(totals: seq<Group>, deaths: seq<Group>)
    ensures forall r :: r in InnerMerge(totals, deaths) <==>
      exists i :: 0 <= i < |totals| && Find(deaths, totals[i].key).Some? && r == Joined(totals[i], Find(deaths, totals[i].key).value)
  {
    if totals != [] {
      var n := |totals| - 1;
      var init := totals[..n];
      InnerMergeRows(init, deaths);
      assert forall i :: 0 <= i < n ==> init[i] == totals[i];
      forall r | exists i :: 0 <= i < |totals| && Find(deaths, totals[i].key).Some? && r == Joined(totals[i], Find(deaths, totals[i].key).value)
        ensures r in InnerMerge(totals, deaths)
      {
        var i :| 0 <= i < |totals| && Find(deaths, totals[i].key).Some? && r == Joined(totals[i], Find(deaths, totals[i].key).value);
        if i < n {
          assert r in InnerMerge(init, deaths);
        }
      }
    }
  }

  /** Distinct totals keys give distinct rates keys. */
  lemma {:induction false} InnerMergeDistinct(totals: seq<Group>, deaths: seq<Group>)
    requires Distinct(TableKeys(totals))
    ensures Distinct(RateKeys(InnerMerge(totals, deaths)))
  {
    if totals != [] {
      var n := |totals| - 1;
      var init := totals[..n];
      assert TableKeys(init) == TableKeys(totals)[..n];
      InnerMergeDistinct(init, deaths);
      InnerMergeRows(init, deaths);
      var before := InnerMerge(init, deaths);
      var g := totals[n];
      var d := Find(deaths, g.key);
      if d.Some? {
        var after := before + [Joined(g, d.value)];
        assert InnerMerge(totals, deaths) == after;
        forall a, b | 0 <= a < b < |after| ensures RateKeys(after)[a] != RateKeys(after)[b] {
          assert after[a] == before[a];
          if b < |before| {
            assert after[b] == before[b];
            assert RateKeys(before)[a] != RateKeys(before)[b];
          } else {
            assert after[b].key == g.key;
            assert before[a] in before;
            var i :| 0 <= i < n && Find(deaths, init[i].key).Some? && before[a] == Joined(init[i], Find(deaths, init[i].key).value);
            assert TableKeys(totals)[i] != TableKeys(totals)[n];
          }
        }
      } else {
        assert InnerMerge(totals, deaths) == before;
      }
    }
  }

  /** A rates row reports the Cases and the Deaths of its group, and Deaths / Cases. */
  lemma RateRowSpec(line: seq<Case>, mode: Mode, filters: seq<Breakdown>, r: RateRow)
    requires r in RatesOf(line, mode, filters)
    ensures var m := Members(line, TotalDims(mode, filters), r.key);
      && r.cases == CaseAggregates(m).cases
      && r.deaths == CaseAggregates(m).deaths
      && (exists x :: x in line && x.healthStatus == Some(DIED) && KeyOf(x, TotalDims(mode, filters)) == Some(r.key))
      && r.rate == Ratio(r.deaths, r.cases)
  {
    var dims := TotalDims(mode, filters);
    var totals, deaths := GroupAggregate(line, dims), GroupAggregate(Died(line), dims);
    InnerMergeRows(totals, deaths);
    var i :| 0 <= i < |totals| && Find(deaths, totals[i].key).Some? && r == Joined(totals[i], Find(deaths, totals[i].key).value);
    var k := totals[i].key;
    AggregateTableSpec(line, dims);
    AggregateTableSpec(Died(line), dims);
    FindSpec(deaths, k);
    var j :| 0 <= j < |deaths| && TableKeys(deaths)[j] == k;
    DiedMembers(line, dims, k);
    DiedCounts(Members(line, dims, k));
    assert deaths[j].key == k;
    var x :| x in Died(line) && KeyOf(x, dims) == Some(k);
    DiedSpec(line);
  }

  /** A group has a rates row exactly when one of its records is Died. */
  lemma RateKeySpec(line: seq<Case>, mode: Mode, filters: seq<Breakdown>, k: Key)
    ensures (exists r :: r in RatesOf(line, mode, filters) && r.key == k) <==>
      exists x :: x in line && x.healthStatus == Some(DIED) && KeyOf(x, TotalDims(mode, filters)) == Some(k)
  {
    var dims := TotalDims(mode, filters);
    var totals, deaths := GroupAggregate(line, dims), GroupAggregate(Died(line), dims);
    InnerMergeRows(totals, deaths);
    GroupKeysSpec(line, dims);
    GroupKeysSpec(Died(line), dims);
    assert TableKeys(totals) == GroupKeys(line, dims);
    assert TableKeys(deaths) == GroupKeys(Died(line), dims);
    FindSpec(deaths, k);
    DiedSpec(line);
    if exists x :: x in line && x.healthStatus == Some(DIED) && KeyOf(x, dims) == Some(k) {
      var x :| x in line && x.healthStatus == Some(DIED) && KeyOf(x, dims) == Some(k);
      assert x in Died(line);
      assert k in TableKeys(totals);
      var i :| 0 <= i < |totals| && TableKeys(totals)[i] == k;
      assert Joined(totals[i], Find(deaths, k).value) in RatesOf(line, mode, filters);
    }
  }

  /**
   * The rates frame has one row per group with a Died record, in the aggregate table's
   * order, holding the group's Cases and Deaths and Rate = Deaths / Cases: a fraction
   * between 0 and 1, missing only when none of the group's records has a CaseCode.
   */
  lemma RatesSpec(line: seq<Case>, mode: Mode, filters: seq<Breakdown>)
    ensures var rows := RatesOf(line, mode, filters);
      && Distinct(RateKeys(rows))
      && (forall r :: r in rows ==>
            && r.cases == CaseAggregates(Members(line, TotalDims(mode, filters), r.key)).cases
            && r.deaths == CaseAggregates(Members(line, TotalDims(mode, filters), r.key)).deaths
            && r.deaths <= r.cases
            && (r.rate.Some? <==> r.cases > 0)
            && (r.rate.Some? ==> 0.0 <= r.rate.value <= 1.0))
      && (forall k :: (exists r :: r in rows && r.key == k) <==>
            exists x :: x in line && x.healthStatus == Some(DIED) && KeyOf(x, TotalDims(mode, filters)) == Some(k))
  {
    var dims := TotalDims(mode, filters);
    AggregateTableSpec(line, dims);
    InnerMergeDistinct(GroupAggregate(line, dims), GroupAggregate(Died(line), dims));
    forall r | r in RatesOf(line, mode, filters)
      ensures r.cases == CaseAggregates(Members(line, dims, r.key)).cases
      ensures r.deaths == CaseAggregates(Members(line, dims, r.key)).deaths
      ensures r.deaths <= r.cases
      ensures r.rate.Some? <==> r.cases > 0
      ensures r.rate.Some? ==> 0.0 <= r.rate.value <= 1.0
    {
      RateRowSpec(line, mode, filters, r);
      RatioBounds(r.deaths, r.cases);
    }
    forall k {
      RateKeySpec(line, mode, filters, k);
    }
  }

  lemma RatioBounds(deaths: nat, cases: nat)
    requires deaths <= cases
    ensures Ratio(deaths, cases).Some? <==> cases > 0
    ensures Ratio(deaths, cases).Some? ==> 0.0 <= Ratio(deaths, cases).value <= 1.0
  {
    if cases > 0 {
      assert deaths as real / cases as real <= cases as real / cases as real;
    }
  }

  /** When every record has a CaseCode, every group in the rates frame has at least one death. */
  lemma RatesCountDeaths(line: seq<Case>, mode: Mode, filters: seq<Breakdown>, r: RateRow)
    requires forall x :: x in line ==> x.caseCode.Some?
    requires r in RatesOf(line, mode, filters)
    ensures 1 <= r.deaths <= r.cases && r.rate.Some?
  {
    var dims := TotalDims(mode, filters);
    RateRowSpec(line, mode, filters, r);
    var x :| x in line && x.healthStatus == Some(DIED) && KeyOf(x, dims) == Some(r.key);
    var m := Members(line, dims, r.key);
    MembersHaveKey(line, dims, r.key);
    assert x in m;
    DiedCounts(m);
    DiedSpec(m);
    assert x in Died(m);
    CountsCoded(Died(m));
  }

  /** When every record has a CaseCode, a non-empty partition has a positive Cases count. */
  lemma {:induction false} CountsCoded(rows: seq<Case>)
    requires forall x :: x in rows ==> x.caseCode.Some?
    ensures CaseAggregates(rows).cases == |rows|
  {
    if rows != [] {
      var init := rows[..|rows| - 1];
      assert forall x :: x in init ==> x in rows;
      assert rows[|rows| - 1] in rows;
      CountsCoded(init);
    }
  }
}
