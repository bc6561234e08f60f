/**
 * The province selection of filter_query: the region and province query, and the
 * optional merge of the kept rows into one "<n> PROVINCES" pseudo-province.
 */
module Selection {
  import opened Wrappers
  import opened Ledger
  import opened Grouping

  /** query("Region in @input_regions").query("Province in @input_provinces"): a NaN cell is in no list. */
  predicate InSelection(r: Case, regions: seq<string>, provinces: seq<string>) {
    && r.region.Some? && r.region.value in regions
    && r.province.Some? && r.province.value in provinces
  }

  function Selected(cases: seq<Case>, regions: seq<string>, provinces: seq<string>): seq<Case> {
    if cases == [] then []
    else
      var r := cases[|cases| - 1];
      Selected(cases[..|cases| - 1], regions, provinces) + (if InSelection(r, regions, provinces) then [r] else [])
  }

  /** A record is kept exactly when its region and its province are both selected; order is kept. */
  lemma {:induction false} SelectedSpec(cases: seq<Case>, regions: seq<string>, provinces: seq<string>)
    ensures forall r :: r in Selected(cases, regions, provinces) <==> r in cases && InSelection(r, regions, provinces)
    ensures |Selected(cases, regions, provinces)| <= |cases|
  {
    if cases != [] {
      SelectedSpec(cases[..|cases| - 1], regions, provinces);
      assert forall x :: x in cases <==> x in cases[..|cases| - 1] || x == cases[|cases| - 1];
    }
  }

  method Select(cases: seq<Case>, regions: seq<string>, provinces: seq<string>) returns (rows: seq<Case>)
    ensures rows == Selected(cases, regions, provinces)
  {
    rows := [];
    var i := 0;
    while i < |cases|
      invariant 0 <= i <= |cases|
      invariant rows == Selected(cases[..i], regions, provinces)
    {
      assert cases[..i + 1][..i] == cases[..i];
      if InSelection(cases[i], regions, provinces) {
        rows := rows + [cases[i]];
      }
      i := i + 1;
    }
    assert cases[..|cases|] == cases;
  }

  /** Decimal digits of n, as str() writes them: no leading zero. */
  function NatToString(n: nat): (s: string)
    ensures |s| > 0 && forall i :: 0 <= i < |s| ==> '0' <= s[i] <= '9'
    ensures n > 0 ==> s[0] != '0'
  {
    var digit := ('0' as int + n % 10) as char;
    if n < 10 then [digit] else NatToString(n / 10) + [digit]
  }

  /** The number a string of decimal digits denotes, as int() reads it. */
  function DigitsValue(s: string): nat
    requires forall i :: 0 <= i < |s| ==> '0' <= s[i] <= '9'
  {
    if s == [] then 0 else DigitsValue(s[..|s| - 1]) * 10 + (s[|s| - 1] as int - '0' as int)
  }

  /** Reading the digits back gives n. */
  lemma {:induction false} NatToStringValue(n: nat)
    ensures DigitsValue(NatToString(n)) == n
  {
    if n >= 10 {
      NatToStringValue(n / 10);
      var s := NatToString(n);
      assert s[..|s| - 1] == NatToString(n / 10);
    }
  }

  /** Different counts give different labels. */
  lemma ProvincesLabelInjective(a: nat, b: nat)
    ensures ProvincesLabel(a) == ProvincesLabel(b) ==> a == b
  {
    if ProvincesLabel(a) == ProvincesLabel(b) {
      var sa, sb := NatToString(a), NatToString(b);
      assert |sa| == |sb|;
      assert sa == ProvincesLabel(a)[..|sa|];
      assert sb == ProvincesLabel(b)[..|sb|];
      NatToStringValue(a);
      NatToStringValue(b);
    }
  }

  /** "{} PROVINCES".format(n) */
  function ProvincesLabel(n: nat): string {
    NatToString(n) + " PROVINCES"
  }

  /** Series.unique() on pop_2015: the distinct cells in order of first appearance, NaN included. */
  function UniquePops(rows: seq<Case>): seq<Option<int>> {
    if rows == [] then []
    else
      var init := UniquePops(rows[..|rows| - 1]);
      var p := rows[|rows| - 1].pop2015;
      if p in init then init else init + [p]
  }

  /** ndarray.sum(): NaN as soon as one element is NaN. */
  function SumCells(cells: seq<Option<int>>): Option<int> {
    if cells == [] then Some(0)
    else
      var init := SumCells(cells[..|cells| - 1]);
      var c := cells[|cells| - 1];
      if init.Some? && c.Some? then Some(init.value + c.value) else None
  }

  function Sum(xs: seq<int>): int {
    if xs == [] then 0 else Sum(xs[..|xs| - 1]) + xs[|xs| - 1]
  }

  /** The population the merged pseudo-province gets (app.py:462). */
  function PooledPop(rows: seq<Case>): Option<int> {
    SumCells(UniquePops(rows))
  }

  /** The distinct present populations, in order of first appearance. */
  function DistinctPops(rows: seq<Case>): seq<int> {
    if rows == [] then []
    else
      var init := DistinctPops(rows[..|rows| - 1]);
      var p := rows[|rows| - 1].pop2015;
      if p.Some? && p.value !in init then init + [p.value] else init
  }

  function Cells(xs: seq<int>): seq<Option<int>> {
    seq(|xs|, i requires 0 <= i < |xs| => Some(xs[i]))
  }

  lemma {:induction false} UniquePopsSpec(rows: seq<Case>)
    ensures forall c :: c in UniquePops(rows) <==> exists r :: r in rows && r.pop2015 == c
    ensures (forall r :: r in rows ==> r.pop2015.Some?) ==> UniquePops(rows) == Cells(DistinctPops(rows))
  {
    if rows != [] {
      var init := rows[..|rows| - 1];
      UniquePopsSpec(init);
      assert forall x :: x in rows <==> x in init || x == rows[|rows| - 1];
      if forall r :: r in rows ==> r.pop2015.Some? {
        assert forall r :: r in init ==> r.pop2015.Some?;
        var p := rows[|rows| - 1].pop2015;
        var d := DistinctPops(init);
        assert p.Some?;
        assert (p in UniquePops(init)) <==> (p.value in d) by {
          if p in UniquePops(init) {
            var i :| 0 <= i < |UniquePops(init)| && UniquePops(init)[i] == p;
            assert d[i] == p.value;
          }
          if p.value in d {
            var i :| 0 <= i < |d| && d[i] == p.value;
            assert UniquePops(init)[i] == p;
          }
        }
      }
    }
  }

  lemma {:induction false} DistinctPopsSpec(rows: seq<Case>)
    ensures Distinct(DistinctPops(rows))
    ensures forall p :: p in DistinctPops(rows) <==> exists r :: r in rows && r.pop2015 == Some(p)
  {
    if rows != [] {
      var init := rows[..|rows| - 1];
      DistinctPopsSpec(init);
      assert forall x :: x in rows <==> x in init || x == rows[|rows| - 1];
    }
  }

  lemma {:induction false} SumCellsPresent(xs: seq<int>)
    ensures SumCells(Cells(xs)) == Some(Sum(xs))
  {
    if xs != [] {
      var cells := Cells(xs);
      var init := xs[..|xs| - 1];
      SumCellsPresent(init);
      assert cells[..|cells| - 1] == Cells(init);
    }
  }

  lemma {:induction false} SumCellsMissing(cells: seq<Option<int>>)
    requires None in cells
    ensures SumCells(cells) == None
  {
    var init := cells[..|cells| - 1];
    if cells[|cells| - 1] != None {
      assert None in init;
      SumCellsMissing(init);
    }
  }

  lemma {:induction false} SumPositive(xs: seq<int>)
    requires xs != [] && forall i :: 0 <= i < |xs| ==> xs[i] > 0
    ensures Sum(xs) > 0
  {
    if |xs| > 1 {
      SumPositive(xs[..|xs| - 1]);
    }
  }

  lemma PooledPopMissing(rows: seq<Case>, r: Case)
    requires r in rows && r.pop2015.None?
    ensures PooledPop(rows) == None
  {
    UniquePopsSpec(rows);
    assert None in UniquePops(rows);
    SumCellsMissing(UniquePops(rows));
  }

  lemma PooledPopPresent(rows: seq<Case>)
    requires forall r :: r in rows ==> r.pop2015.Some?
    ensures PooledPop(rows) == Some(Sum(DistinctPops(rows)))
  {
    UniquePopsSpec(rows);
    SumCellsPresent(DistinctPops(rows));
  }

  lemma PooledPopPositive(rows: seq<Case>)
    requires rows != [] && forall r :: r in rows ==> r.pop2015.Some? && r.pop2015.value > 0
    ensures Sum(DistinctPops(rows)) > 0
  {
    DistinctPopsSpec(rows);
    var d := DistinctPops(rows);
    assert rows[0] in rows;
    assert rows[0].pop2015.value in d;
    forall i | 0 <= i < |d| ensures d[i] > 0 {
      assert d[i] in d;
    }
    SumPositive(d);
  }

  /**
   * The pooled population is NaN when any kept row lacks a population, and otherwise the
   * sum of the distinct populations among the kept rows (a population two provinces
   * share is counted once); it is positive when the rows are and there is at least one.
   */
  lemma PooledPopSpec(rows: seq<Case>)
    ensures (exists r :: r in rows && r.pop2015.None?) ==> PooledPop(rows) == None
    ensures (forall r :: r in rows ==> r.pop2015.Some?) ==> PooledPop(rows) == Some(Sum(DistinctPops(rows)))
    ensures Distinct(DistinctPops(rows))
    ensures forall p :: p in DistinctPops(rows) <==> exists r :: r in rows && r.pop2015 == Some(p)
    ensures rows != [] && (forall r :: r in rows ==> r.pop2015.Some? && r.pop2015.value > 0) ==>
      PooledPop(rows).Some? && PooledPop(rows).value > 0
  {
    DistinctPopsSpec(rows);
    if exists r :: r in rows && r.pop2015.None? {
      var r :| r in rows && r.pop2015.None?;
      PooledPopMissing(rows, r);
    } else {
      PooledPopPresent(rows);
      if rows != [] && (forall r :: r in rows ==> r.pop2015.Some? && r.pop2015.value > 0) {
        PooledPopPositive(rows);
      }
    }
  }

  /** The rows after the two column overwrites of app.py:461-462. */
  function Relabelled(rows: seq<Case>, name: string, pop: Option<int>): seq<Case> {
    seq(|rows|, i requires 0 <= i < |rows| => rows[i].(province := Some(name), pop2015 := pop))
  }

  /** The merge of app.py:460-462 as a pass that computes the pooled population, then one that rewrites the rows. */
  method MergeProvinces(rows: seq<Case>, nProvinces: nat) returns (merged: seq<Case>)
    ensures merged == Relabelled(rows, ProvincesLabel(nProvinces), PooledPop(rows))
  {
    var cells: seq<Option<int>> := [];
    var i := 0;
    while i < |rows|
      invariant 0 <= i <= |rows|
      invariant cells == UniquePops(rows[..i])
    {
      assert rows[..i + 1][..i] == rows[..i];
      if rows[i].pop2015 !in cells {
        cells := cells + [rows[i].pop2015];
      }
      i := i + 1;
    }
    assert rows[..|rows|] == rows;
    var total: Option<int> := Some(0);
    var j := 0;
    while j < |cells|
      invariant 0 <= j <= |cells|
      invariant total == SumCells(cells[..j])
    {
      assert cells[..j + 1][..j] == cells[..j];
      if total.Some? && cells[j].Some? {
        total := Some(total.value + cells[j].value);
      } else {
        total := None;
      }
      j := j + 1;
    }
    assert cells[..|cells|] == cells;
    var name := ProvincesLabel(nProvinces);
    merged := [];
    var k := 0;
    while k < |rows|
      invariant 0 <= k <= |rows|
      invariant |merged| == k
      invariant forall m :: 0 <= m < k ==> merged[m] == rows[m].(province := Some(name), pop2015 := total)
    {
      merged := merged + [rows[k].(province := Some(name), pop2015 := total)];
      k := k + 1;
    }
  }
}
