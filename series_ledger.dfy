/**
 * The time series of filter_query read against the case ledger: what each count row
 * counts, which (date, group) pairs survive dropna, and where the running totals end.
 */
module SeriesLedger {
  import opened Wrappers
  import opened Ledger
  import opened Aggregates
  import opened Grouping
  import opened Series
  import opened SeriesFacts

  /** The record has every cell the count key needs besides the group's: a report date, and pop_2015 when provincial. */
  predicate Dated(x: Case, mode: Mode) {
    x.dateRepConf.Some? && (mode.Provincial? ==> x.pop2015.Some?)
  }

  /**
   * A record's count key exists exactly when it is dated and has a full group key, and
   * it then reads back as the record's date, its group and its population; encoding those
   * again gives the same key.
   */
  lemma CountKeyDecodes(x: Case, mode: Mode, filters: seq<Breakdown>)
    ensures var c, t := KeyOf(x, CountDims(mode, filters)), KeyOf(x, TotalDims(mode, filters));
      && (c.Some? <==> Dated(x, mode) && t.Some?)
      && (c.Some? ==>
            && DateOf(c.value) == x.dateRepConf.value
            && GroupOf(c.value, mode) == t.value
            && PopOf(c.value, mode) == (if mode.National? then None else x.pop2015)
            && EncodeCountKey(DateOf(c.value), GroupOf(c.value, mode), PopOf(c.value, mode), mode) == c.value)
  {
    var fs := AsDims(filters);
    if mode.National? {
      var total := TotalDims(mode, filters);
      assert CountDims(mode, filters) == [DateRepConf] + total;
      KeyOfAppend(x, [DateRepConf], total);
      assert [DateRepConf][1..] == [];
      var t := KeyOf(x, total);
      if x.dateRepConf.Some? && t.Some? {
        var c := [N(x.dateRepConf.value)] + t.value;
        assert c[1..] == t.value;
      }
    } else {
      var head := [DateRepConf, Province, Pop2015];
      assert CountDims(mode, filters) == head + fs;
      assert TotalDims(mode, filters) == [Province] + fs;
      KeyOfAppend(x, head, fs);
      KeyOfAppend(x, [Province], fs);
      KeyOfCells(x, head);
      KeyOfCells(x, [Province]);
      var kf := KeyOf(x, fs);
      if Dated(x, mode) && x.province.Some? && kf.Some? {
        var kh := KeyOf(x, head).value;
        var c := kh + kf.value;
        assert kh == [N(x.dateRepConf.value), S(x.province.value), N(x.pop2015.value)];
        assert c[3..] == kf.value;
        assert [c[1]] + c[3..] == KeyOf(x, [Province]).value + kf.value;
      }
    }
  }

  /** The records a count row counts: those with its date, its group and, when provincial, its population. */
  predicate MatchesDay(x: Case, d: DayCount, mode: Mode, filters: seq<Breakdown>) {
    && x.dateRepConf == Some(d.date)
    && KeyOf(x, TotalDims(mode, filters)) == Some(d.group)
    && (mode.Provincial? ==> d.pop.Some? && x.pop2015 == d.pop)
  }

  /** A record has the count key of a table row exactly when it matches the row's date, group and population. */
  lemma SameCountKey(x: Case, y: Case, a: Agg, mode: Mode, filters: seq<Breakdown>)
    requires KeyOf(y, CountDims(mode, filters)).Some?
    ensures var k := KeyOf(y, CountDims(mode, filters)).value;
      KeyOf(x, CountDims(mode, filters)) == Some(k) <==> MatchesDay(x, ToDayCount(Group(k, a), mode), mode, filters)
  {
    CountKeyDecodes(x, mode, filters);
    CountKeyDecodes(y, mode, filters);
  }

  /** The records that count row d counts, in ledger order. */
  function DayMembers(line: seq<Case>, d: DayCount, mode: Mode, filters: seq<Breakdown>): seq<Case> {
    if line == [] then []
    else
      var x := line[|line| - 1];
      DayMembers(line[..|line| - 1], d, mode, filters) + (if MatchesDay(x, d, mode, filters) then [x] else [])
  }

  lemma {:induction false} DayMembersAreMembers(line: seq<Case>, y: Case, a: Agg, mode: Mode, filters: seq<Breakdown>)
    requires KeyOf(y, CountDims(mode, filters)).Some?
    ensures var k := KeyOf(y, CountDims(mode, filters)).value;
      Members(line, CountDims(mode, filters), k) == DayMembers(line, ToDayCount(Group(k, a), mode), mode, filters)
  {
    if line != [] {
      DayMembersAreMembers(line[..|line| - 1], y, a, mode, filters);
      SameCountKey(line[|line| - 1], y, a, mode, filters);
    }
  }

  /** Row i of the count table: what it counts, and the key it was read from. */
  lemma CountRow(line: seq<Case>, mode: Mode, filters: seq<Breakdown>, i: nat)
    requires i < |CountTable(line, mode, filters)|
    ensures var d := CountTable(line, mode, filters)[i];
      && DayMembers(line, d, mode, filters) != []
      && d.cases == CaseAggregates(DayMembers(line, d, mode, filters)).cases
      && EncodeCountKey(d.date, d.group, d.pop, mode) == GroupAggregate(line, CountDims(mode, filters))[i].key
  {
    var dims := CountDims(mode, filters);
    var t := GroupAggregate(line, dims);
    var ks := GroupKeys(line, dims);
    var k := ks[i];
    var g := Group(k, CaseAggregates(Members(line, dims, k)));
    assert t[i] == g;
    var d := ToDayCount(g, mode);
    assert CountTable(line, mode, filters)[i] == d;
    GroupKeysSpec(line, dims);
    assert k in ks;
    var y :| y in line && KeyOf(y, dims) == Some(k);
    DayMembersAreMembers(line, y, g.agg, mode, filters);
    CountKeyDecodes(y, mode, filters);
    MembersHaveKey(line, dims, k);
    assert y in Members(line, dims, k);
  }

  /** A dated record with a full group key is counted by some row. */
  lemma CountRowOf(line: seq<Case>, mode: Mode, filters: seq<Breakdown>, x: Case)
    requires x in line && Dated(x, mode) && KeyOf(x, TotalDims(mode, filters)).Some?
    ensures var days := CountTable(line, mode, filters);
      exists i :: 0 <= i < |days| && MatchesDay(x, days[i], mode, filters)
  {
    var dims := CountDims(mode, filters);
    var t := GroupAggregate(line, dims);
    var ks := GroupKeys(line, dims);
    CountKeyDecodes(x, mode, filters);
    var k := KeyOf(x, dims).value;
    KeyListed(line, dims, x);
    var i :| 0 <= i < |ks| && ks[i] == k;
    var g := Group(k, CaseAggregates(Members(line, dims, k)));
    assert t[i] == g;
    SameCountKey(x, x, g.agg, mode, filters);
    assert CountTable(line, mode, filters)[i] == ToDayCount(g, mode);
  }

  /** No two rows of the count table share date, group and population. */
  lemma CountRowsDistinct(line: seq<Case>, mode: Mode, filters: seq<Breakdown>, i: nat, j: nat)
    requires i < j < |CountTable(line, mode, filters)|
    ensures var days := CountTable(line, mode, filters);
      days[i].date != days[j].date || days[i].group != days[j].group || days[i].pop != days[j].pop
  {
    var t := GroupAggregate(line, CountDims(mode, filters));
    AggregateTableSpec(line, CountDims(mode, filters));
    CountRow(line, mode, filters, i);
    CountRow(line, mode, filters, j);
    assert TableKeys(t)[i] != TableKeys(t)[j];
  }

  /**
   * Every row of the count table counts at least one record and its Cases is the
   * case_aggregates count of exactly the records matching it; every dated record with a
   * full group key is matched by a row; and no two rows share date, group and population.
   */
  lemma CountTableSpec(line: seq<Case>, mode: Mode, filters: seq<Breakdown>)
    ensures var days := CountTable(line, mode, filters);
      && (forall i :: 0 <= i < |days| ==>
            DayMembers(line, days[i], mode, filters) != [] &&
            days[i].cases == CaseAggregates(DayMembers(line, days[i], mode, filters)).cases)
      && (forall x :: x in line && Dated(x, mode) && KeyOf(x, TotalDims(mode, filters)).Some? ==>
            exists i :: 0 <= i < |days| && MatchesDay(x, days[i], mode, filters))
      && (forall i, j :: 0 <= i < j < |days| ==>
            days[i].date != days[j].date || days[i].group != days[j].group || days[i].pop != days[j].pop)
  {
    var days := CountTable(line, mode, filters);
    forall i | 0 <= i < |days|
      ensures DayMembers(line, days[i], mode, filters) != []
      ensures days[i].cases == CaseAggregates(DayMembers(line, days[i], mode, filters)).cases
    {
      CountRow(line, mode, filters, i);
    }
    forall x | x in line && Dated(x, mode) && KeyOf(x, TotalDims(mode, filters)).Some?
      ensures exists i :: 0 <= i < |days| && MatchesDay(x, days[i], mode, filters)
    {
      CountRowOf(line, mode, filters, x);
    }
    forall i, j | 0 <= i < j < |days|
      ensures days[i].date != days[j].date || days[i].group != days[j].group || days[i].pop != days[j].pop
    {
      CountRowsDistinct(line, mode, filters, i, j);
    }
  }

  /** x counts towards DayMembers of d exactly when it is a ledger record matching d. */
  lemma {:induction false} DayMembersSpec(line: seq<Case>, d: DayCount, mode: Mode, filters: seq<Breakdown>)
    ensures forall x :: x in DayMembers(line, d, mode, filters) <==> x in line && MatchesDay(x, d, mode, filters)
  {
    if line != [] {
      var init := line[..|line| - 1];
      DayMembersSpec(init, d, mode, filters);
      assert line == init + [line[|line| - 1]];
    }
  }

  // ---------------------------------------------------------------------------------------
  // The finished series.

  /** The Per100k column is finite: NATIONAL_POP, or the row's pop_2015, is present and not zero. */
  predicate Rated(d: DayCount, mode: Mode, nationalPop: int) {
    if mode.National? then nationalPop != 0 else d.pop.Some? && d.pop.value != 0
  }

  /** The population Per100k divides by. */
  function Population(d: DayCount, mode: Mode, nationalPop: int): int {
    if mode.National? then nationalPop else if d.pop.Some? then d.pop.value else 0
  }

  /** Point p reports count row d: its date, group and Cases, and Per100k from its Total. */
  predicate Reports(p: Point, d: DayCount, mode: Mode, nationalPop: int) {
    && p.date == d.date && p.group == d.group && p.cases == d.cases
    && Rated(d, mode, nationalPop)
    && p.per100k == p.total as real / Population(d, mode, nationalPop) as real * 100000.0
  }

  /** The records whose cases make up group g's curve: dated, with group key g. */
  function GroupRecords(line: seq<Case>, mode: Mode, filters: seq<Breakdown>, g: Key): seq<Case> {
    RowsWhere(line, CountDims(mode, filters), GroupIs(mode, g))
  }

  function GroupTotal(line: seq<Case>, mode: Mode, filters: seq<Breakdown>, g: Key): nat {
    CaseAggregates(GroupRecords(line, mode, filters, g)).cases
  }

  lemma GroupRecordsSpec(line: seq<Case>, mode: Mode, filters: seq<Breakdown>, g: Key)
    ensures forall x :: x in GroupRecords(line, mode, filters, g) <==>
      x in line && Dated(x, mode) && KeyOf(x, TotalDims(mode, filters)) == Some(g)
  {
    RowsWhereSpec(line, CountDims(mode, filters), GroupIs(mode, g));
    forall x {
      CountKeyDecodes(x, mode, filters);
    }
  }

  /** The frame before dropna: the merged calendar with Total and Per100k. */
  function Merged(days: seq<DayCount>): seq<Row>
    requires |days| > 0
  {
    Calendar(MinDate(days), MaxDate(days), days)
  }

  /** The Total and Per100k of a count row: complete exactly when its Per100k is finite, and then reporting it. */
  lemma TotalledHit(d: DayCount, total: nat, mode: Mode, nationalPop: int)
    ensures var u := Totalled(Hit(d), Some(total), mode, nationalPop);
      && (Complete(u) <==> Rated(d, mode, nationalPop))
      && (Complete(u) ==> Reports(ToPoint(u), d, mode, nationalPop) && ToPoint(u).total == total)
  {
  }

  lemma CumulateAt(rows: seq<Row>, mode: Mode, nationalPop: int, i: nat)
    requires i < |rows|
    ensures Cumulate(rows, mode, nationalPop)[i] == Totalled(rows[i], TotalAt(rows, i), mode, nationalPop)
  {
    CumulateSpec(rows, mode, nationalPop);
  }

  lemma MergedRow(days: seq<DayCount>, i: nat)
    requires |days| > 0 && i < |Merged(days)| && Merged(days)[i].group.Some?
    ensures exists j :: 0 <= j < |days| && Merged(days)[i] == Hit(days[j])
  {
    var c := Merged(days);
    CalendarRows(MinDate(days), MaxDate(days), days);
    assert c[i] in c;
  }

  lemma MergedHit(days: seq<DayCount>, j: nat)
    requires j < |days|
    ensures exists i :: 0 <= i < |Merged(days)| && Merged(days)[i] == Hit(days[j])
  {
    CalendarRows(MinDate(days), MaxDate(days), days);
    assert Hit(days[j]) in Merged(days);
  }

  /** A surviving row of the frame is a count row that has a finite Per100k. */
  lemma CompleteRowReports(days: seq<DayCount>, mode: Mode, nationalPop: int, i: nat)
    requires |days| > 0 && i < |Merged(days)|
    requires Complete(Cumulate(Merged(days), mode, nationalPop)[i])
    ensures exists j :: 0 <= j < |days| && Reports(ToPoint(Cumulate(Merged(days), mode, nationalPop)[i]), days[j], mode, nationalPop)
  {
    var c := Merged(days);
    CumulateAt(c, mode, nationalPop, i);
    MergedRow(days, i);
    var j :| 0 <= j < |days| && c[i] == Hit(days[j]);
    TotalledHit(days[j], TotalAt(c, i).value, mode, nationalPop);
  }

  /** A count row with a finite Per100k survives dropna. */
  lemma RatedRowSurvives(days: seq<DayCount>, mode: Mode, nationalPop: int, j: nat)
    requires j < |days| && Rated(days[j], mode, nationalPop)
    ensures var u := Cumulate(Merged(days), mode, nationalPop);
      exists i :: 0 <= i < |u| && Complete(u[i]) && Reports(ToPoint(u[i]), days[j], mode, nationalPop)
  {
    var c := Merged(days);
    MergedHit(days, j);
    var i :| 0 <= i < |c| && c[i] == Hit(days[j]);
    CumulateAt(c, mode, nationalPop, i);
    TotalledHit(days[j], TotalAt(c, i).value, mode, nationalPop);
  }

  /** The Total of a row lies between its own Cases and its group's sum over the whole frame. */
  lemma TotalBounds(rows: seq<Row>, mode: Mode, nationalPop: int, i: nat)
    requires i < |rows| && Complete(Cumulate(rows, mode, nationalPop)[i])
    ensures var u := Cumulate(rows, mode, nationalPop)[i];
      u.cases <= u.total.value <= RunningSum(rows, u.group.value)
  {
    CumulateSpec(rows, mode, nationalPop);
    var g := rows[i].group.value;
    assert rows[..i + 1][..i] == rows[..i];
    assert rows[..i + 1][i] == rows[i];
    RunningSumGrows(rows, i + 1, |rows|, g);
    assert rows[..|rows|] == rows;
  }

  /** Group g's daily counts over the whole count table add up to its coded records. */
  lemma GroupTotalDays(line: seq<Case>, mode: Mode, filters: seq<Breakdown>, g: Key)
    requires |CountTable(line, mode, filters)| > 0
    ensures var days := CountTable(line, mode, filters);
      DaySum(days, g, MinDate(days), MaxDate(days)) == GroupTotal(line, mode, filters, g)
  {
    var days := CountTable(line, mode, filters);
    var lo, hi := MinDate(days), MaxDate(days);
    var t := GroupAggregate(line, CountDims(mode, filters));
    forall i | 0 <= i < |t| ensures lo <= DateOf(t[i].key) <= hi {
      assert days[i].date == DateOf(t[i].key);
    }
    DaySumIsCasesWhere(t, mode, g, lo, hi);
    GroupedCasesWhere(line, CountDims(mode, filters), GroupIs(mode, g));
  }

  /** Over the whole merged calendar, group g's Cases sum to the coded records of g. */
  lemma MergedTotal(line: seq<Case>, mode: Mode, filters: seq<Breakdown>, g: Key)
    requires |CountTable(line, mode, filters)| > 0
    ensures RunningSum(Merged(CountTable(line, mode, filters)), g) == GroupTotal(line, mode, filters, g)
  {
    var days := CountTable(line, mode, filters);
    CalendarSum(MinDate(days), MaxDate(days), days, g);
    GroupTotalDays(line, mode, filters, g);
  }

  /** A point of the series reports one count row, the one returned. */
  lemma PointReports(line: seq<Case>, mode: Mode, filters: seq<Breakdown>, nationalPop: int, p: Point) returns (j: nat)
    requires SeriesOf(line, mode, filters, nationalPop).Some? && p in SeriesOf(line, mode, filters, nationalPop).value
    ensures j < |CountTable(line, mode, filters)| && Reports(p, CountTable(line, mode, filters)[j], mode, nationalPop)
  {
    var days := CountTable(line, mode, filters);
    var u := Cumulate(Merged(days), mode, nationalPop);
    assert SeriesOf(line, mode, filters, nationalPop).value == DropNa(u);
    DropNaSpec(u);
    var i :| 0 <= i < |u| && Complete(u[i]) && p == ToPoint(u[i]);
    CompleteRowReports(days, mode, nationalPop, i);
    j :| 0 <= j < |days| && Reports(p, days[j], mode, nationalPop);
  }

  /** The Total of a point lies between its Cases and the number of coded records of its group. */
  lemma PointBounds(line: seq<Case>, mode: Mode, filters: seq<Breakdown>, nationalPop: int, p: Point)
    requires SeriesOf(line, mode, filters, nationalPop).Some? && p in SeriesOf(line, mode, filters, nationalPop).value
    ensures p.cases <= p.total <= GroupTotal(line, mode, filters, p.group)
  {
    var days := CountTable(line, mode, filters);
    var c := Merged(days);
    var u := Cumulate(c, mode, nationalPop);
    assert SeriesOf(line, mode, filters, nationalPop).value == DropNa(u);
    DropNaSpec(u);
    var i :| 0 <= i < |u| && Complete(u[i]) && p == ToPoint(u[i]);
    TotalBounds(c, mode, nationalPop, i);
    MergedTotal(line, mode, filters, p.group);
  }

  /** The series is in date order. */
  lemma SeriesSorted(line: seq<Case>, mode: Mode, filters: seq<Breakdown>, nationalPop: int)
    requires SeriesOf(line, mode, filters, nationalPop).Some?
    ensures PointsSorted(SeriesOf(line, mode, filters, nationalPop).value)
  {
    var days := CountTable(line, mode, filters);
    var c := Merged(days);
    var u := Cumulate(c, mode, nationalPop);
    assert SeriesOf(line, mode, filters, nationalPop).value == DropNa(u);
    CalendarSorted(MinDate(days), MaxDate(days), days);
    CumulateSpec(c, mode, nationalPop);
    assert RowsSorted(u) by {
      assert forall i :: 0 <= i < |u| ==> u[i].date == c[i].date;
    }
    DropNaSorted(u);
  }

  /** A count row with a finite Per100k is reported by a point of the series. */
  lemma RatedReported(line: seq<Case>, mode: Mode, filters: seq<Breakdown>, nationalPop: int, j: nat)
    requires SeriesOf(line, mode, filters, nationalPop).Some?
    requires j < |CountTable(line, mode, filters)| && Rated(CountTable(line, mode, filters)[j], mode, nationalPop)
    ensures exists p :: p in SeriesOf(line, mode, filters, nationalPop).value && Reports(p, CountTable(line, mode, filters)[j], mode, nationalPop)
  {
    var days := CountTable(line, mode, filters);
    var u := Cumulate(Merged(days), mode, nationalPop);
    assert SeriesOf(line, mode, filters, nationalPop).value == DropNa(u);
    DropNaSpec(u);
    RatedRowSurvives(days, mode, nationalPop, j);
    var i :| 0 <= i < |u| && Complete(u[i]) && Reports(ToPoint(u[i]), days[j], mode, nationalPop);
    assert ToPoint(u[i]) in DropNa(u);
  }

  // ---------------------------------------------------------------------------------------
  // The running totals.

  /** The coded records of group g reported no later than date: what g's Total should be on that date. */
  function CasesUpTo(line: seq<Case>, mode: Mode, filters: seq<Breakdown>, g: Key, date: int): nat {
    CaseAggregates(RowsWhere(line, CountDims(mode, filters), GroupUpTo(mode, g, date))).cases
  }

  lemma CasesUpToSpec(line: seq<Case>, mode: Mode, filters: seq<Breakdown>, g: Key, date: int)
    ensures forall x :: x in RowsWhere(line, CountDims(mode, filters), GroupUpTo(mode, g, date)) <==>
      x in line && Dated(x, mode) && KeyOf(x, TotalDims(mode, filters)) == Some(g) && x.dateRepConf.value <= date
  {
    RowsWhereSpec(line, CountDims(mode, filters), GroupUpTo(mode, g, date));
    forall x {
      CountKeyDecodes(x, mode, filters);
    }
  }

  /** From the first date of the count table, g's daily counts up to date add up to CasesUpTo. */
  lemma DaysUpTo(line: seq<Case>, mode: Mode, filters: seq<Breakdown>, g: Key, date: int)
    requires |CountTable(line, mode, filters)| > 0
    ensures var days := CountTable(line, mode, filters);
      DaySum(days, g, MinDate(days), date) == CasesUpTo(line, mode, filters, g, date)
  {
    var days := CountTable(line, mode, filters);
    var t := GroupAggregate(line, CountDims(mode, filters));
    forall i | 0 <= i < |t| ensures MinDate(days) <= DateOf(t[i].key) {
      assert days[i].date == DateOf(t[i].key);
    }
    DaySumUpTo(t, mode, g, MinDate(days), date);
    GroupedCasesWhere(line, CountDims(mode, filters), GroupUpTo(mode, g, date));
  }

  /** Every province has one pop_2015, as the merge of the population table by province name gives (app.py:73). */
  predicate OnePopPerProvince(line: seq<Case>) {
    forall x, y :: x in line && y in line && x.province == y.province ==> x.pop2015 == y.pop2015
  }

  /** The first cell of a provincial group key is the province. */
  lemma ProvinceCell(x: Case, filters: seq<Breakdown>, g: Key)
    requires KeyOf(x, TotalDims(Provincial, filters)) == Some(g)
    ensures |g| > 0 && x.province.Some? && g[0] == S(x.province.value)
  {
    assert TotalDims(Provincial, filters) == [Province] + AsDims(filters);
    KeyOfCells(x, [Province] + AsDims(filters));
  }

  /** Two count rows of one group have one population, nationally or when every province has one. */
  lemma GroupPop(line: seq<Case>, mode: Mode, filters: seq<Breakdown>, j: nat, k: nat)
    requires mode.National? || OnePopPerProvince(line)
    requires j < |CountTable(line, mode, filters)| && k < |CountTable(line, mode, filters)|
    requires CountTable(line, mode, filters)[j].group == CountTable(line, mode, filters)[k].group
    ensures CountTable(line, mode, filters)[j].pop == CountTable(line, mode, filters)[k].pop
  {
    var days := CountTable(line, mode, filters);
    if mode.Provincial? {
      CountRow(line, mode, filters, j);
      CountRow(line, mode, filters, k);
      var mj, mk := DayMembers(line, days[j], mode, filters), DayMembers(line, days[k], mode, filters);
      DayMembersSpec(line, days[j], mode, filters);
      DayMembersSpec(line, days[k], mode, filters);
      assert mj[0] in mj && mk[0] in mk;
      ProvinceCell(mj[0], filters, days[j].group);
      ProvinceCell(mk[0], filters, days[k].group);
    }
  }

  /** Nationally, or when every province has one population, a group has one count row per date. */
  lemma OneRowPerDay(line: seq<Case>, mode: Mode, filters: seq<Breakdown>, j: nat)
    requires mode.National? || OnePopPerProvince(line)
    requires j < |CountTable(line, mode, filters)|
    ensures var days := CountTable(line, mode, filters);
      forall k :: 0 <= k < |days| && k != j && days[k].group == days[j].group ==> days[k].date != days[j].date
  {
    var days := CountTable(line, mode, filters);
    forall k | 0 <= k < |days| && k != j && days[k].group == days[j].group
      ensures days[k].date != days[j].date
    {
      GroupPop(line, mode, filters, j, k);
      if k < j {
        CountRowsDistinct(line, mode, filters, k, j);
      } else {
        CountRowsDistinct(line, mode, filters, j, k);
      }
    }
  }

  /** Row i of a frame has group g, the date and the Cases given, and total is g's running sum up to it. */
  predicate RowAt(c: seq<Row>, i: nat, g: Key, date: int, cases: nat, total: nat) {
    i < |c| && c[i].group == Some(g) && c[i].date == date && c[i].cases == cases && total == RunningSum(c[..i + 1], g)
  }

  /** A point comes from row i of the merged calendar, and its Total is the running sum up to that row. */
  lemma PointRow(line: seq<Case>, mode: Mode, filters: seq<Breakdown>, nationalPop: int, p: Point) returns (i: nat)
    requires SeriesOf(line, mode, filters, nationalPop).Some? && p in SeriesOf(line, mode, filters, nationalPop).value
    ensures RowAt(Merged(CountTable(line, mode, filters)), i, p.group, p.date, p.cases, p.total)
  {
    var days := CountTable(line, mode, filters);
    var c := Merged(days);
    var u := Cumulate(c, mode, nationalPop);
    assert SeriesOf(line, mode, filters, nationalPop).value == DropNa(u);
    DropNaSpec(u);
    i :| 0 <= i < |u| && Complete(u[i]) && p == ToPoint(u[i]);
    CumulateAt(c, mode, nationalPop, i);
  }

  /**
   * Point p's Total is its group's cumulative count: at least the group's records reported
   * before p's date plus p's Cases, and at most those reported up to p's date.
   */
  predicate Accumulates(line: seq<Case>, mode: Mode, filters: seq<Breakdown>, p: Point) {
    CasesUpTo(line, mode, filters, p.group, p.date - 1) + p.cases <= p.total <= CasesUpTo(line, mode, filters, p.group, p.date)
  }

  /** Point p's Total is exactly its group's records reported up to p's date. */
  predicate CountsToDate(line: seq<Case>, mode: Mode, filters: seq<Breakdown>, p: Point) {
    p.total == CasesUpTo(line, mode, filters, p.group, p.date)
  }

  /** Row i of the merged calendar, of group g: its running sum is g's cumulative count on its date. */
  lemma RowAccumulates(line: seq<Case>, mode: Mode, filters: seq<Breakdown>, i: nat, g: Key, date: int, cases: nat, total: nat)
    requires |CountTable(line, mode, filters)| > 0
    requires RowAt(Merged(CountTable(line, mode, filters)), i, g, date, cases, total)
    ensures CasesUpTo(line, mode, filters, g, date - 1) + cases <= total <= CasesUpTo(line, mode, filters, g, date)
  {
    var days := CountTable(line, mode, filters);
    CalendarPrefixSum(MinDate(days), MaxDate(days), days, i, g, date, cases);
    DaysUpTo(line, mode, filters, g, date - 1);
    DaysUpTo(line, mode, filters, g, date);
  }

  lemma RowAccumulatesAt(line: seq<Case>, mode: Mode, filters: seq<Breakdown>, i: nat, p: Point)
    requires |CountTable(line, mode, filters)| > 0
    requires RowAt(Merged(CountTable(line, mode, filters)), i, p.group, p.date, p.cases, p.total)
    ensures Accumulates(line, mode, filters, p)
  {
    RowAccumulates(line, mode, filters, i, p.group, p.date, p.cases, p.total);
  }

  /** Every point's Total is its group's cumulative count. */
  lemma PointTotal(line: seq<Case>, mode: Mode, filters: seq<Breakdown>, nationalPop: int, p: Point)
    requires SeriesOf(line, mode, filters, nationalPop).Some? && p in SeriesOf(line, mode, filters, nationalPop).value
    ensures Accumulates(line, mode, filters, p)
  {
    var i := PointRow(line, mode, filters, nationalPop, p);
    RowAccumulatesAt(line, mode, filters, i, p);
  }

  /** A cumulative count on the date of a count row that is alone in its group on that date is exact. */
  lemma SingleRowCounts(line: seq<Case>, mode: Mode, filters: seq<Breakdown>, j: nat, g: Key, date: int, cases: nat, total: nat)
    requires mode.National? || OnePopPerProvince(line)
    requires CasesUpTo(line, mode, filters, g, date - 1) + cases <= total <= CasesUpTo(line, mode, filters, g, date)
    requires j < |CountTable(line, mode, filters)|
    requires var d := CountTable(line, mode, filters)[j]; d.group == g && d.date == date && d.cases == cases
    ensures total == CasesUpTo(line, mode, filters, g, date)
  {
    var days := CountTable(line, mode, filters);
    OneRowPerDay(line, mode, filters, j);
    DaySumOnDate(days, g, MinDate(days), j, date, cases);
    DaysUpTo(line, mode, filters, g, date - 1);
    DaysUpTo(line, mode, filters, g, date);
  }

  lemma SingleRowCountsAt(line: seq<Case>, mode: Mode, filters: seq<Breakdown>, nationalPop: int, j: nat, p: Point)
    requires mode.National? || OnePopPerProvince(line)
    requires Accumulates(line, mode, filters, p)
    requires j < |CountTable(line, mode, filters)| && Reports(p, CountTable(line, mode, filters)[j], mode, nationalPop)
    ensures CountsToDate(line, mode, filters, p)
  {
    SingleRowCounts(line, mode, filters, j, p.group, p.date, p.cases, p.total);
  }

  /** Nationally, or when every province has one population, a point's Total is exactly its group's records reported up to its date. */
  lemma PointTotalExact(line: seq<Case>, mode: Mode, filters: seq<Breakdown>, nationalPop: int, p: Point)
    requires SeriesOf(line, mode, filters, nationalPop).Some? && p in SeriesOf(line, mode, filters, nationalPop).value
    requires mode.National? || OnePopPerProvince(line)
    ensures CountsToDate(line, mode, filters, p)
  {
    PointTotal(line, mode, filters, nationalPop, p);
    var j := PointReports(line, mode, filters, nationalPop, p);
    SingleRowCountsAt(line, mode, filters, nationalPop, j, p);
  }

  /** More records are reported up to a later date. */
  lemma CasesUpToGrows(line: seq<Case>, mode: Mode, filters: seq<Breakdown>, g: Key, a: int, b: int)
    requires |CountTable(line, mode, filters)| > 0 && a <= b
    ensures CasesUpTo(line, mode, filters, g, a) <= CasesUpTo(line, mode, filters, g, b)
  {
    var days := CountTable(line, mode, filters);
    DaysUpTo(line, mode, filters, g, a);
    DaysUpTo(line, mode, filters, g, b);
    DaySumMono(days, g, MinDate(days), a, b);
  }

  /** Two cumulative counts of one group are in date order; on one date too when the later is exact. */
  lemma AccumulatesInOrder(line: seq<Case>, mode: Mode, filters: seq<Breakdown>, g: Key,
                           d1: int, c1: nat, t1: nat, d2: int, c2: nat, t2: nat)
    requires |CountTable(line, mode, filters)| > 0
    requires CasesUpTo(line, mode, filters, g, d1 - 1) + c1 <= t1 <= CasesUpTo(line, mode, filters, g, d1)
    requires CasesUpTo(line, mode, filters, g, d2 - 1) + c2 <= t2 <= CasesUpTo(line, mode, filters, g, d2)
    ensures d1 < d2 ==> t1 <= t2
    ensures t2 == CasesUpTo(line, mode, filters, g, d2) && d1 <= d2 ==> t1 <= t2
  {
    if d1 < d2 {
      CasesUpToGrows(line, mode, filters, g, d1, d2 - 1);
    }
    if d1 <= d2 {
      CasesUpToGrows(line, mode, filters, g, d1, d2);
    }
  }

  lemma AccumulatesInOrderAt(line: seq<Case>, mode: Mode, filters: seq<Breakdown>, p: Point, q: Point)
    requires |CountTable(line, mode, filters)| > 0 && p.group == q.group
    requires Accumulates(line, mode, filters, p) && Accumulates(line, mode, filters, q)
    ensures p.date < q.date ==> p.total <= q.total
    ensures CountsToDate(line, mode, filters, q) && p.date <= q.date ==> p.total <= q.total
  {
    AccumulatesInOrder(line, mode, filters, p.group, p.date, p.cases, p.total, q.date, q.cases, q.total);
  }

  /**
   * Totals accumulate: of two points of one group, the later one has at least the earlier
   * one's Total; on the same date too, nationally or when every province has one population.
   */
  lemma PointsAccumulate(line: seq<Case>, mode: Mode, filters: seq<Breakdown>, nationalPop: int, p: Point, q: Point)
    requires SeriesOf(line, mode, filters, nationalPop).Some?
    requires p in SeriesOf(line, mode, filters, nationalPop).value && q in SeriesOf(line, mode, filters, nationalPop).value
    requires p.group == q.group
    ensures p.date < q.date ==> p.total <= q.total
    ensures (mode.National? || OnePopPerProvince(line)) && p.date <= q.date ==> p.total <= q.total
  {
    PointTotal(line, mode, filters, nationalPop, p);
    PointTotal(line, mode, filters, nationalPop, q);
    if mode.National? || OnePopPerProvince(line) {
      PointTotalExact(line, mode, filters, nationalPop, q);
    }
    AccumulatesInOrderAt(line, mode, filters, p, q);
  }

  /** No count row of a group is later than the group's last point, nationally or when every province has one population. */
  lemma NoLaterRow(line: seq<Case>, mode: Mode, filters: seq<Breakdown>, nationalPop: int, p: Point)
    requires SeriesOf(line, mode, filters, nationalPop).Some? && p in SeriesOf(line, mode, filters, nationalPop).value
    requires mode.National? || OnePopPerProvince(line)
    requires forall q :: q in SeriesOf(line, mode, filters, nationalPop).value && q.group == p.group ==> q.date <= p.date
    ensures var days := CountTable(line, mode, filters);
      forall j :: 0 <= j < |days| && days[j].group == p.group ==> days[j].date <= p.date
  {
    var days := CountTable(line, mode, filters);
    var j0 := PointReports(line, mode, filters, nationalPop, p);
    forall j | 0 <= j < |days| && days[j].group == p.group
      ensures days[j].date <= p.date
    {
      GroupPop(line, mode, filters, j0, j);
      RatedReported(line, mode, filters, nationalPop, j);
    }
  }

  /** A count up to a date that no count row of the group passes is the group's whole count. */
  lemma LastRowCounts(line: seq<Case>, mode: Mode, filters: seq<Breakdown>, j: nat, g: Key, date: int, total: nat)
    requires total == CasesUpTo(line, mode, filters, g, date)
    requires j < |CountTable(line, mode, filters)| && CountTable(line, mode, filters)[j].date == date
    requires var days := CountTable(line, mode, filters);
      forall k :: 0 <= k < |days| && days[k].group == g ==> days[k].date <= date
    ensures total == GroupTotal(line, mode, filters, g)
  {
    var days := CountTable(line, mode, filters);
    var lo, hi := MinDate(days), MaxDate(days);
    DaysUpTo(line, mode, filters, g, date);
    DaySumNone(days, g, date + 1, hi);
    DaySumCut(days, g, lo, date, hi);
    GroupTotalDays(line, mode, filters, g);
  }

  lemma LastRowCountsAt(line: seq<Case>, mode: Mode, filters: seq<Breakdown>, nationalPop: int, j: nat, p: Point)
    requires CountsToDate(line, mode, filters, p)
    requires j < |CountTable(line, mode, filters)| && Reports(p, CountTable(line, mode, filters)[j], mode, nationalPop)
    requires var days := CountTable(line, mode, filters);
      forall k :: 0 <= k < |days| && days[k].group == p.group ==> days[k].date <= p.date
    ensures p.total == GroupTotal(line, mode, filters, p.group)
  {
    LastRowCounts(line, mode, filters, j, p.group, p.date, p.total);
  }

  /**
   * The last point of a group carries the group's whole count, nationally or when every
   * province has one population.
   */
  lemma LastPointTotal(line: seq<Case>, mode: Mode, filters: seq<Breakdown>, nationalPop: int, p: Point)
    requires SeriesOf(line, mode, filters, nationalPop).Some? && p in SeriesOf(line, mode, filters, nationalPop).value
    requires mode.National? || OnePopPerProvince(line)
    requires forall q :: q in SeriesOf(line, mode, filters, nationalPop).value && q.group == p.group ==> q.date <= p.date
    ensures p.total == GroupTotal(line, mode, filters, p.group)
  {
    PointTotalExact(line, mode, filters, nationalPop, p);
    NoLaterRow(line, mode, filters, nationalPop, p);
    var j := PointReports(line, mode, filters, nationalPop, p);
    LastRowCountsAt(line, mode, filters, nationalPop, j, p);
  }

  /**
   * The series is in date order; each of its points reports one count row, with a Total
   * that is its group's cumulative count (at least its Cases and at most its group's number
   * of coded records), exact nationally or when every province has one population; of two
   * points of one group the later has the larger Total; and every count row with a finite
   * Per100k is reported.
   */
  lemma SeriesSpec(line: seq<Case>, mode: Mode, filters: seq<Breakdown>, nationalPop: int)
    requires SeriesOf(line, mode, filters, nationalPop).Some?
    ensures var points, days := SeriesOf(line, mode, filters, nationalPop).value, CountTable(line, mode, filters);
      && PointsSorted(points)
      && (forall p :: p in points ==>
            && (exists j :: 0 <= j < |days| && Reports(p, days[j], mode, nationalPop))
            && p.cases <= p.total <= GroupTotal(line, mode, filters, p.group)
            && Accumulates(line, mode, filters, p)
            && (mode.National? || OnePopPerProvince(line) ==> CountsToDate(line, mode, filters, p)))
      && (forall p, q :: p in points && q in points && p.group == q.group && p.date < q.date ==> p.total <= q.total)
      && (forall j :: 0 <= j < |days| && Rated(days[j], mode, nationalPop) ==>
            exists p :: p in points && Reports(p, days[j], mode, nationalPop))
  {
    var points, days := SeriesOf(line, mode, filters, nationalPop).value, CountTable(line, mode, filters);
    SeriesSorted(line, mode, filters, nationalPop);
    forall p | p in points
      ensures exists j :: 0 <= j < |days| && Reports(p, days[j], mode, nationalPop)
      ensures p.cases <= p.total <= GroupTotal(line, mode, filters, p.group)
      ensures Accumulates(line, mode, filters, p)
      ensures mode.National? || OnePopPerProvince(line) ==> CountsToDate(line, mode, filters, p)
    {
      var j := PointReports(line, mode, filters, nationalPop, p);
      PointBounds(line, mode, filters, nationalPop, p);
      PointTotal(line, mode, filters, nationalPop, p);
      if mode.National? || OnePopPerProvince(line) {
        PointTotalExact(line, mode, filters, nationalPop, p);
      }
    }
    forall p, q | p in points && q in points && p.group == q.group && p.date < q.date
      ensures p.total <= q.total
    {
      PointsAccumulate(line, mode, filters, nationalPop, p, q);
    }
    forall j | 0 <= j < |days| && Rated(days[j], mode, nationalPop)
      ensures exists p :: p in points && Reports(p, days[j], mode, nationalPop)
    {
      RatedReported(line, mode, filters, nationalPop, j);
    }
  }

  /** dates[0] raises exactly when no record is dated with a full group key. */
  lemma SeriesMissing(line: seq<Case>, mode: Mode, filters: seq<Breakdown>, nationalPop: int)
    ensures SeriesOf(line, mode, filters, nationalPop).None? <==>
      forall x :: x in line ==> !(Dated(x, mode) && KeyOf(x, TotalDims(mode, filters)).Some?)
  {
    var dims := CountDims(mode, filters);
    GroupKeysSpec(line, dims);
    forall x {
      CountKeyDecodes(x, mode, filters);
    }
    var ks := GroupKeys(line, dims);
    if ks != [] {
      assert ks[0] in ks;
    }
  }
}
