/**
 * The daily-count time series of filter_query (app.py:475-501): count per report date and
 * group, left-join onto a one-range calendar, running Total per group, Per100k, dropna.
 */
module Series {
  import opened Wrappers
  import opened Ledger
  import opened Aggregates
  import opened Grouping

  /** National: the nationwide check box is ticked; Provincial: it is not. */
  datatype Mode = National | Provincial

  function GeoDims(mode: Mode): seq<Dim> {
    if mode.National? then [Country] else [Province]
  }

  /** The cumsum key: ['Country'] + filters or ['Province'] + filters (app.py:494, 498). */
  function TotalDims(mode: Mode, filters: seq<Breakdown>): seq<Dim> {
    GeoDims(mode) + AsDims(filters)
  }

  /** The count key: ['DateRepConf', 'Country'] + filters or ['DateRepConf', 'Province', 'pop_2015'] + filters. */
  function CountDims(mode: Mode, filters: seq<Breakdown>): seq<Dim> {
    if mode.National? then [DateRepConf, Country] + AsDims(filters)
    else [DateRepConf, Province, Pop2015] + AsDims(filters)
  }

  /** One row of the count table: report date, the group's key over TotalDims, its population, Cases. */
  datatype DayCount = DayCount(date: int, group: Key, pop: Option<int>, cases: nat)

  /** The DateRepConf cell of a count key. */
  function DateOf(k: Key): int {
    if |k| > 0 && k[0].N? then k[0].num else 0
  }

  /** The cells of a count key over TotalDims: all but the date, and all but pop_2015. */
  function GroupOf(k: Key, mode: Mode): Key {
    if mode.National? then (if |k| > 0 then k[1..] else [])
    else if |k| >= 3 then [k[1]] + k[3..] else []
  }

  /** The pop_2015 cell of a provincial count key; the national count has no such column. */
  function PopOf(k: Key, mode: Mode): Option<int> {
    if mode.Provincial? && |k| >= 3 && k[2].N? then Some(k[2].num) else None
  }

  /** Reads a row of groupby(CountDims)['CaseCode'].count() back into its columns. */
  function ToDayCount(g: Group, mode: Mode): DayCount {
    DayCount(DateOf(g.key), GroupOf(g.key, mode), PopOf(g.key, mode), g.agg.cases)
  }

  /** The count key holding a report date, a group and a population: what ToDayCount reads back. */
  function EncodeCountKey(date: int, group: Key, pop: Option<int>, mode: Mode): Key {
    if mode.Provincial? && |group| > 0 && pop.Some? then [N(date), group[0], N(pop.value)] + group[1..]
    else [N(date)] + group
  }

  function DayCounts(table: seq<Group>, mode: Mode): seq<DayCount> {
    seq(|table|, i requires 0 <= i < |table| => ToDayCount(table[i], mode))
  }

  /** The count table of app.py:477-483. */
  function CountTable(line: seq<Case>, mode: Mode, filters: seq<Breakdown>): seq<DayCount> {
    DayCounts(GroupAggregate(line, CountDims(mode, filters)), mode)
  }

  /** dates[0]: the earliest report date of the count table. */
  function MinDate(days: seq<DayCount>): (m: int)
    requires |days| > 0
    ensures exists i :: 0 <= i < |days| && days[i].date == m
    ensures forall i :: 0 <= i < |days| ==> m <= days[i].date
  {
    if |days| == 1 then days[0].date
    else
      var m' := MinDate(days[..|days| - 1]);
      var d := days[|days| - 1].date;
      assert forall i :: 0 <= i < |days| - 1 ==> days[..|days| - 1][i] == days[i];
      if d < m' then d else m'
  }

  /** dates[-1]: the latest report date of the count table. */
  function MaxDate(days: seq<DayCount>): (m: int)
    requires |days| > 0
    ensures exists i :: 0 <= i < |days| && days[i].date == m
    ensures forall i :: 0 <= i < |days| ==> days[i].date <= m
  {
    if |days| == 1 then days[0].date
    else
      var m' := MaxDate(days[..|days| - 1]);
      var d := days[|days| - 1].date;
      assert forall i :: 0 <= i < |days| - 1 ==> days[..|days| - 1][i] == days[i];
      if d > m' then d else m'
  }

  /**
   * A row of the frame after the calendar merge. A calendar date no count matches gives a
   * row whose group, population, Total and Per100k are NaN (None) and whose Cases is 0.
   */
  datatype Row = Row(date: int, group: Option<Key>, pop: Option<int>, cases: nat, total: Option<nat>, per100k: Option<real>)

  function Hit(d: DayCount): Row {
    Row(d.date, Some(d.group), d.pop, d.cases, None, None)
  }

  function Filler(date: int): Row {
    Row(date, None, None, 0, None, None)
  }

  /** The count rows of one date, in count-table order. */
  function HitsOn(date: int, days: seq<DayCount>): seq<Row> {
    if days == [] then []
    else
      var d := days[|days| - 1];
      HitsOn(date, days[..|days| - 1]) + (if d.date == date then [Hit(d)] else [])
  }

  /** What the left merge makes of one calendar date. */
  function DayRows(date: int, days: seq<DayCount>): seq<Row> {
    var hits := HitsOn(date, days);
    if hits == [] then [Filler(date)] else hits
  }

  /** pd.date_range(lo, hi) left-merged with the count table on the date (app.py:488-492). */
  function Calendar(lo: int, hi: int, days: seq<DayCount>): seq<Row>
    decreases hi - lo
  {
    if hi < lo then [] else Calendar(lo, hi - 1, days) + DayRows(hi, days)
  }

  /** Sum of the Cases of the rows of group g. */
  function RunningSum(rows: seq<Row>, g: Key): nat {
    if rows == [] then 0
    else
      var r := rows[|rows| - 1];
      RunningSum(rows[..|rows| - 1], g) + (if r.group == Some(g) then r.cases else 0)
  }

  /** Total / pop * 100000; a zero population gives no finite value. */
  function Per100k(total: nat, pop: int): Option<real> {
    if pop != 0 then Some(total as real / pop as real * 100000.0) else None
  }

  /** A row once its Total is known: Per100k over NATIONAL_POP, or over the row's own pop_2015. */
  function Totalled(r: Row, total: Option<nat>, mode: Mode, nationalPop: int): Row {
    var rate :=
      if total.None? then None
      else if mode.National? then Per100k(total.value, nationalPop)
      else if r.pop.Some? then Per100k(total.value, r.pop.value)
      else None;
    r.(total := total, per100k := rate)
  }

  /** groupby(TotalDims)['Cases'].cumsum() and the Per100k column (app.py:493-499). */
  function Cumulate(rows: seq<Row>, mode: Mode, nationalPop: int): (out: seq<Row>)
    ensures |out| == |rows|
  {
    if rows == [] then []
    else
      var r := rows[|rows| - 1];
      var total := if r.group.Some? then Some(RunningSum(rows, r.group.value)) else None;
      Cumulate(rows[..|rows| - 1], mode, nationalPop) + [Totalled(r, total, mode, nationalPop)]
  }

  /** A row of the finished series: Date, the group's columns, Cases, Total, Per100k. */
  datatype Point = Point(date: int, group: Key, cases: nat, total: nat, per100k: real)

  predicate Complete(r: Row) {
    r.group.Some? && r.total.Some? && r.per100k.Some?
  }

  function ToPoint(r: Row): Point
    requires Complete(r)
  {
    Point(r.date, r.group.value, r.cases, r.total.value, r.per100k.value)
  }

  /** dropna(): keeps the rows with no missing cell. */
  function DropNa(rows: seq<Row>): seq<Point> {
    if rows == [] then []
    else
      var r := rows[|rows| - 1];
      DropNa(rows[..|rows| - 1]) + (if Complete(r) then [ToPoint(r)] else [])
  }

  /**
   * The series of filter_query: None when the count table is empty, where dates[0]
   * raises IndexError (app.py:486).
   */
  function SeriesOf(line: seq<Case>, mode: Mode, filters: seq<Breakdown>, nationalPop: int): Option<seq<Point>> {
    var days := CountTable(line, mode, filters);
    if days == [] then None
    else Some(DropNa(Cumulate(Calendar(MinDate(days), MaxDate(days), days), mode, nationalPop)))
  }

  // ---------------------------------------------------------------------------------------
  // The steps as app.py runs them, each proved to compute its specification function.

  lemma MinDateSnoc(days: seq<DayCount>, i: nat)
    requires 1 <= i < |days|
    ensures MinDate(days[..i + 1]) == if days[i].date < MinDate(days[..i]) then days[i].date else MinDate(days[..i])
  {
    assert days[..i + 1][..i] == days[..i];
  }

  lemma MaxDateSnoc(days: seq<DayCount>, i: nat)
    requires 1 <= i < |days|
    ensures MaxDate(days[..i + 1]) == if days[i].date > MaxDate(days[..i]) then days[i].date else MaxDate(days[..i])
  {
    assert days[..i + 1][..i] == days[..i];
  }

  /** dates[0] of the sorted DateRepConf column: the earliest report date. */
  method FirstDate(days: seq<DayCount>) returns (lo: int)
    requires |days| > 0
    ensures lo == MinDate(days)
  {
    lo := days[0].date;
    assert |days[..1]| == 1 && days[..1][0] == days[0];
    var i := 1;
    while i < |days|
      invariant 1 <= i <= |days|
      invariant lo == MinDate(days[..i])
    {
      MinDateSnoc(days, i);
      if days[i].date < lo {
        lo := days[i].date;
      }
      i := i + 1;
    }
    assert days[..|days|] == days;
  }

  /** dates[-1] of the sorted DateRepConf column: the latest report date. */
  method LastDate(days: seq<DayCount>) returns (hi: int)
    requires |days| > 0
    ensures hi == MaxDate(days)
  {
    hi := days[0].date;
    assert |days[..1]| == 1 && days[..1][0] == days[0];
    var i := 1;
    while i < |days|
      invariant 1 <= i <= |days|
      invariant hi == MaxDate(days[..i])
    {
      MaxDateSnoc(days, i);
      if days[i].date > hi {
        hi := days[i].date;
      }
      i := i + 1;
    }
    assert days[..|days|] == days;
  }

  /** The count rows of one date, in table order. */
  method CollectHits(date: int, days: seq<DayCount>) returns (hits: seq<Row>)
    ensures hits == HitsOn(date, days)
  {
    hits := [];
    var j := 0;
    while j < |days|
      invariant 0 <= j <= |days|
      invariant hits == HitsOn(date, days[..j])
    {
      assert days[..j + 1][..j] == days[..j];
      if days[j].date == date {
        hits := hits + [Hit(days[j])];
      }
      j := j + 1;
    }
    assert days[..|days|] == days;
  }

  /** The left merge: for each calendar date in turn, its count rows, or one NaN row. */
  method MergeCalendar(lo: int, hi: int, days: seq<DayCount>) returns (rows: seq<Row>)
    ensures rows == Calendar(lo, hi, days)
  {
    rows := [];
    if hi < lo {
      return;
    }
    var date := lo;
    while date <= hi
      invariant lo <= date <= hi + 1
      invariant rows == Calendar(lo, date - 1, days)
    {
      var hits := CollectHits(date, days);
      assert Calendar(lo, date, days) == Calendar(lo, date - 1, days) + DayRows(date, days);
      if hits == [] {
        rows := rows + [Filler(date)];
      } else {
        rows := rows + hits;
      }
      date := date + 1;
    }
  }

  /** cumsum with a running total per group, then Per100k. */
  method CumulativeTotals(rows: seq<Row>, mode: Mode, nationalPop: int) returns (out: seq<Row>)
    ensures out == Cumulate(rows, mode, nationalPop)
  {
    out := [];
    var running: map<Key, nat> := map[];
    var i := 0;
    while i < |rows|
      invariant 0 <= i <= |rows|
      invariant out == Cumulate(rows[..i], mode, nationalPop)
      invariant forall g :: RunningSum(rows[..i], g) == if g in running then running[g] else 0
    {
      var r := rows[i];
      assert rows[..i + 1][..i] == rows[..i];
      var total: Option<nat> := None;
      if r.group.Some? {
        var g := r.group.value;
        var t := (if g in running then running[g] else 0) + r.cases;
        running := running[g := t];
        total := Some(t);
      }
      out := out + [Totalled(r, total, mode, nationalPop)];
      i := i + 1;
    }
    assert rows[..|rows|] == rows;
  }

  method DropMissing(rows: seq<Row>) returns (points: seq<Point>)
    ensures points == DropNa(rows)
  {
    points := [];
    var i := 0;
    while i < |rows|
      invariant 0 <= i <= |rows|
      invariant points == DropNa(rows[..i])
    {
      assert rows[..i + 1][..i] == rows[..i];
      if Complete(rows[i]) {
        points := points + [ToPoint(rows[i])];
      }
      i := i + 1;
    }
    assert rows[..|rows|] == rows;
  }

  /** app.py:476-501 as a sequence of frame-building steps. */
  method BuildSeries(line: seq<Case>, mode: Mode, filters: seq<Breakdown>, nationalPop: int)
    returns (series: Option<seq<Point>>)
    ensures series == SeriesOf(line, mode, filters, nationalPop)
  {
    var table := GroupBy(line, CountDims(mode, filters));
    var days := DayCounts(table, mode);
    if days == [] {
      return None;
    }
    var lo := FirstDate(days);
    var hi := LastDate(days);
    var merged := MergeCalendar(lo, hi, days);
    var totalled := CumulativeTotals(merged, mode, nationalPop);
    var points := DropMissing(totalled);
    series := Some(points);
  }
}
