/** What the time series of filter_query promises: calendar order, running totals, dropna. */
module SeriesFacts {
  import opened Wrappers
  import opened Ledger
  import opened Aggregates
  import opened Grouping
  import opened Series

  /** No count row falls on date. */
  predicate NoCountOn(date: int, days: seq<DayCount>) {
    forall i :: 0 <= i < |days| ==> days[i].date != date
  }

  predicate RowsSorted(rows: seq<Row>) {
    forall i, j :: 0 <= i < j < |rows| ==> rows[i].date <= rows[j].date
  }

  predicate PointsSorted(points: seq<Point>) {
    forall i, j :: 0 <= i < j < |points| ==> points[i].date <= points[j].date
  }

  /** The merge matches a date with exactly the count rows of that date. */
  lemma {:induction false} HitsOnSpec(date: int, days: seq<DayCount>)
    ensures forall x :: x in HitsOn(date, days) <==>
      exists i :: 0 <= i < |days| && days[i].date == date && x == Hit(days[i])
  {
    if days != [] {
      var n := |days| - 1;
      var init := days[..n];
      HitsOnSpec(date, init);
      assert forall i :: 0 <= i < n ==> init[i] == days[i];
      forall x | exists i :: 0 <= i < |days| && days[i].date == date && x == Hit(days[i])
        ensures x in HitsOn(date, days)
      {
        var i :| 0 <= i < |days| && days[i].date == date && x == Hit(days[i]);
        if i < n {
          assert x in HitsOn(date, init);
        }
      }
    }
  }

  /** A date has no count rows exactly when no count row falls on it. */
  lemma {:induction false} HitsOnEmpty(date: int, days: seq<DayCount>)
    ensures HitsOn(date, days) == [] <==> NoCountOn(date, days)
  {
    if days != [] {
      var n := |days| - 1;
      var init := days[..n];
      HitsOnEmpty(date, init);
      assert HitsOn(date, days) == HitsOn(date, init) + (if days[n].date == date then [Hit(days[n])] else []);
      assert NoCountOn(date, days) <==> NoCountOn(date, init) && days[n].date != date by {
        assert forall i :: 0 <= i < n ==> init[i] == days[i];
      }
    }
  }

  /**
   * The merged calendar holds, for each date from lo to hi, every count row of that date,
   * or a single row of NaN with Cases 0 when there is none; and nothing else.
   */
  lemma {:induction false} CalendarRows(lo: int, hi: int, days: seq<DayCount>)
    ensures forall x :: x in Calendar(lo, hi, days) <==>
      lo <= x.date <= hi &&
      ((exists i :: 0 <= i < |days| && x == Hit(days[i])) || (x == Filler(x.date) && NoCountOn(x.date, days)))
    decreases hi - lo
  {
    if lo <= hi {
      CalendarRows(lo, hi - 1, days);
      HitsOnSpec(hi, days);
      HitsOnEmpty(hi, days);
      var hits := HitsOn(hi, days);
      if hits != [] {
        assert hits[0] in hits;
      }
    }
  }

  /** Every date from lo to hi has at least one row. */
  lemma {:induction false} CalendarCovers(lo: int, hi: int, days: seq<DayCount>, date: int)
    requires lo <= date <= hi
    ensures exists x :: x in Calendar(lo, hi, days) && x.date == date
    decreases hi - lo
  {
    var c, before, rows := Calendar(lo, hi, days), Calendar(lo, hi - 1, days), DayRows(hi, days);
    assert c == before + rows;
    if date < hi {
      CalendarCovers(lo, hi - 1, days, date);
      var x :| x in before && x.date == date;
      assert x in c;
    } else {
      HitsOnSpec(hi, days);
      assert rows[0] in rows;
      assert rows[0] in c;
    }
  }

  /** The merge is in date order (pd.date_range is ascending). */
  lemma {:induction false} CalendarSorted(lo: int, hi: int, days: seq<DayCount>)
    ensures RowsSorted(Calendar(lo, hi, days))
    decreases hi - lo
  {
    if lo <= hi {
      var before, today := Calendar(lo, hi - 1, days), DayRows(hi, days);
      CalendarSorted(lo, hi - 1, days);
      CalendarRows(lo, hi - 1, days);
      HitsOnSpec(hi, days);
      var all := before + today;
      forall i, j | 0 <= i < j < |all| ensures all[i].date <= all[j].date {
        if j < |before| {
          assert all[i] == before[i] && all[j] == before[j];
        } else if i < |before| {
          assert all[i] in before;
          assert all[j] in today;
        } else {
          assert all[i] in today && all[j] in today;
        }
      }
    }
  }

  /** The Total of row i once cumsum has run: the group's Cases up to and including row i. */
  function TotalAt(rows: seq<Row>, i: nat): Option<nat>
    requires i < |rows|
  {
    if rows[i].group.Some? then Some(RunningSum(rows[..i + 1], rows[i].group.value)) else None
  }

  /** cumsum keeps the frame's rows in place and gives each row its group's running sum. */
  lemma {:induction false} CumulateSpec(rows: seq<Row>, mode: Mode, nationalPop: int)
    ensures forall i :: 0 <= i < |rows| ==>
      Cumulate(rows, mode, nationalPop)[i] == Totalled(rows[i], TotalAt(rows, i), mode, nationalPop)
  {
    if rows != [] {
      var n := |rows| - 1;
      var init := rows[..n];
      CumulateSpec(init, mode, nationalPop);
      forall i | 0 <= i < n ensures TotalAt(init, i) == TotalAt(rows, i) {
        assert init[..i + 1] == rows[..i + 1];
      }
      assert rows[..n + 1] == rows;
    }
  }

  /** A longer prefix never has a smaller running sum. */
  lemma {:induction false} RunningSumGrows(rows: seq<Row>, i: nat, j: nat, g: Key)
    requires i <= j <= |rows|
    ensures RunningSum(rows[..i], g) <= RunningSum(rows[..j], g)
    decreases j - i
  {
    if i < j {
      RunningSumGrows(rows, i, j - 1, g);
      assert rows[..j][..j - 1] == rows[..j - 1];
    }
  }

  /** Within a group the Total column never decreases down the frame. */
  lemma TotalsNondecreasing(rows: seq<Row>, mode: Mode, nationalPop: int, i: nat, j: nat)
    requires i < j < |rows| && rows[i].group.Some? && rows[j].group == rows[i].group
    ensures var c := Cumulate(rows, mode, nationalPop);
      c[i].total.Some? && c[j].total.Some? && c[i].total.value <= c[j].total.value
  {
    CumulateSpec(rows, mode, nationalPop);
    RunningSumGrows(rows, i + 1, j + 1, rows[i].group.value);
  }

  /** dropna keeps exactly the rows with no missing cell. */
  lemma {:induction false} DropNaSpec(rows: seq<Row>)
    ensures |DropNa(rows)| <= |rows|
    ensures forall p :: p in DropNa(rows) <==>
      exists i :: 0 <= i < |rows| && Complete(rows[i]) && p == ToPoint(rows[i])
  {
    if rows != [] {
      var n := |rows| - 1;
      var init := rows[..n];
      DropNaSpec(init);
      assert forall i :: 0 <= i < n ==> init[i] == rows[i];
      forall p | exists i :: 0 <= i < |rows| && Complete(rows[i]) && p == ToPoint(rows[i])
        ensures p in DropNa(rows)
      {
        var i :| 0 <= i < |rows| && Complete(rows[i]) && p == ToPoint(rows[i]);
        if i < n {
          assert p in DropNa(init);
        }
      }
    }
  }

  /** dropna keeps the frame's order. */
  lemma {:induction false} DropNaSorted(rows: seq<Row>)
    requires RowsSorted(rows)
    ensures PointsSorted(DropNa(rows))
  {
    if rows != [] {
      var n := |rows| - 1;
      var init := rows[..n];
      assert RowsSorted(init);
      DropNaSorted(init);
      DropNaSpec(init);
      var kept := DropNa(init);
      if Complete(rows[n]) {
        var all := kept + [ToPoint(rows[n])];
        forall i, j | 0 <= i < j < |all| ensures all[i].date <= all[j].date {
          if j < |kept| {
            assert all[i] == kept[i] && all[j] == kept[j];
          } else {
            assert all[i] in kept;
          }
        }
      }
    }
  }

  // ---------------------------------------------------------------------------------------
  // Where each group's running total ends.

  /** The Cases of the count rows of group g dated from lo to hi. */
  function DaySum(days: seq<DayCount>, g: Key, lo: int, hi: int): nat {
    if days == [] then 0
    else
      var d := days[|days| - 1];
      DaySum(days[..|days| - 1], g, lo, hi) + (if d.group == g && lo <= d.date <= hi then d.cases else 0)
  }

  lemma {:induction false} RunningSumAppend(a: seq<Row>, b: seq<Row>, g: Key)
    ensures RunningSum(a + b, g) == RunningSum(a, g) + RunningSum(b, g)
  {
    if b == [] {
      assert a + b == a;
    } else {
      var b', x := b[..|b| - 1], b[|b| - 1];
      assert b == b' + [x];
      assert a + b == (a + b') + [x];
      assert (a + b)[..|a + b| - 1] == a + b';
      RunningSumAppend(a, b', g);
    }
  }

  lemma RunningSumSingle(r: Row, g: Key)
    ensures RunningSum([r], g) == if r.group == Some(g) then r.cases else 0
  {
    assert [r][..0] == [];
  }

  lemma {:induction false} HitsOnSum(date: int, days: seq<DayCount>, g: Key)
    ensures RunningSum(HitsOn(date, days), g) == DaySum(days, g, date, date)
  {
    if days != [] {
      var n := |days| - 1;
      var init, d := days[..n], days[n];
      HitsOnSum(date, init, g);
      var extra := if d.date == date then [Hit(d)] else [];
      assert HitsOn(date, days) == HitsOn(date, init) + extra;
      assert DaySum(days, g, date, date) == DaySum(init, g, date, date) + (if d.group == g && d.date == date then d.cases else 0);
      RunningSumAppend(HitsOn(date, init), extra, g);
      if d.date == date {
        RunningSumSingle(Hit(d), g);
      } else {
        assert extra == [];
      }
    }
  }

  lemma {:induction false} DaySumSplit(days: seq<DayCount>, g: Key, lo: int, hi: int)
    requires lo <= hi
    ensures DaySum(days, g, lo, hi) == DaySum(days, g, lo, hi - 1) + DaySum(days, g, hi, hi)
  {
    if days != [] {
      DaySumSplit(days[..|days| - 1], g, lo, hi);
    }
  }

  /** Over the whole calendar, group g's Cases add up to those of its count rows from lo to hi. */
  lemma {:induction false} CalendarSum(lo: int, hi: int, days: seq<DayCount>, g: Key)
    ensures RunningSum(Calendar(lo, hi, days), g) == DaySum(days, g, lo, hi)
    decreases hi - lo
  {
    if hi < lo {
      DaySumEmpty(days, g, lo, hi);
    } else {
      CalendarSum(lo, hi - 1, days, g);
      RunningSumAppend(Calendar(lo, hi - 1, days), DayRows(hi, days), g);
      HitsOnSum(hi, days, g);
      DaySumSplit(days, g, lo, hi);
      if HitsOn(hi, days) == [] {
        RunningSumSingle(Filler(hi), g);
      }
    }
  }

  lemma {:induction false} DaySumEmpty(days: seq<DayCount>, g: Key, lo: int, hi: int)
    requires hi < lo
    ensures DaySum(days, g, lo, hi) == 0
  {
    if days != [] {
      DaySumEmpty(days[..|days| - 1], g, lo, hi);
    }
  }

  /** The count rows' keys whose group cells are g. */
  function GroupIs(mode: Mode, g: Key): Key -> bool {
    k => GroupOf(k, mode) == g
  }

  /** When lo and hi bracket every date, DaySum is the filtered Cases column of the count table. */
  lemma {:induction false} DaySumIsCasesWhere(table: seq<Group>, mode: Mode, g: Key, lo: int, hi: int)
    requires forall i :: 0 <= i < |table| ==> lo <= DateOf(table[i].key) <= hi
    ensures DaySum(DayCounts(table, mode), g, lo, hi) == CasesWhere(table, GroupIs(mode, g))
  {
    if table != [] {
      var n := |table| - 1;
      var init := table[..n];
      assert forall i :: 0 <= i < n ==> init[i] == table[i];
      DaySumIsCasesWhere(init, mode, g, lo, hi);
      var days := DayCounts(table, mode);
      assert days[..n] == DayCounts(init, mode);
      assert days[n] == ToDayCount(table[n], mode);
    }
  }

  // ---------------------------------------------------------------------------------------
  // The running total on each date.

  /** The count keys of group g dated no later than hi. */
  function GroupUpTo(mode: Mode, g: Key, hi: int): Key -> bool {
    k => GroupOf(k, mode) == g && DateOf(k) <= hi
  }

  /** When no count row is dated before lo, DaySum from lo to hi is the Cases of g's count-table rows dated up to hi. */
  lemma {:induction false} DaySumUpTo(table: seq<Group>, mode: Mode, g: Key, lo: int, hi: int)
    requires forall i :: 0 <= i < |table| ==> lo <= DateOf(table[i].key)
    ensures DaySum(DayCounts(table, mode), g, lo, hi) == CasesWhere(table, GroupUpTo(mode, g, hi))
  {
    if table != [] {
      var n := |table| - 1;
      var init := table[..n];
      assert forall i :: 0 <= i < n ==> init[i] == table[i];
      DaySumUpTo(init, mode, g, lo, hi);
      var days := DayCounts(table, mode);
      assert days[..n] == DayCounts(init, mode);
      assert days[n] == ToDayCount(table[n], mode);
    }
  }

  /** A later end date never gives a smaller DaySum. */
  lemma {:induction false} DaySumMono(days: seq<DayCount>, g: Key, lo: int, a: int, b: int)
    requires a <= b
    ensures DaySum(days, g, lo, a) <= DaySum(days, g, lo, b)
  {
    if days != [] {
      DaySumMono(days[..|days| - 1], g, lo, a, b);
    }
  }

  /** Cutting the date range in two splits DaySum in two. */
  lemma {:induction false} DaySumCut(days: seq<DayCount>, g: Key, lo: int, m: int, hi: int)
    requires lo - 1 <= m <= hi
    ensures DaySum(days, g, lo, hi) == DaySum(days, g, lo, m) + DaySum(days, g, m + 1, hi)
  {
    if days != [] {
      DaySumCut(days[..|days| - 1], g, lo, m, hi);
    }
  }

  /** No count row of g in the range: nothing to sum. */
  lemma {:induction false} DaySumNone(days: seq<DayCount>, g: Key, lo: int, hi: int)
    requires forall j :: 0 <= j < |days| && days[j].group == g ==> !(lo <= days[j].date <= hi)
    ensures DaySum(days, g, lo, hi) == 0
  {
    if days != [] {
      var n := |days| - 1;
      var init := days[..n];
      assert forall j :: 0 <= j < n ==> init[j] == days[j];
      DaySumNone(init, g, lo, hi);
    }
  }

  /** A date on which g has a single count row: that row's Cases is g's sum for the date. */
  lemma {:induction false} DaySumSingle(days: seq<DayCount>, g: Key, date: int, j: nat)
    requires j < |days| && days[j].group == g && days[j].date == date
    requires forall k :: 0 <= k < |days| && k != j && days[k].group == g ==> days[k].date != date
    ensures DaySum(days, g, date, date) == days[j].cases
  {
    var n := |days| - 1;
    var init := days[..n];
    assert forall k :: 0 <= k < n ==> init[k] == days[k];
    if j == n {
      DaySumNone(init, g, date, date);
    } else {
      DaySumSingle(init, g, date, j);
    }
  }

  /** A date on which g has a single count row: summing through that date adds the row's Cases to the sum before it. */
  lemma DaySumOnDate(days: seq<DayCount>, g: Key, lo: int, j: nat, date: int, cases: nat)
    requires j < |days| && days[j].group == g && days[j].date == date && days[j].cases == cases && lo <= date
    requires forall k :: 0 <= k < |days| && k != j && days[k].group == g ==> days[k].date != date
    ensures DaySum(days, g, lo, date) == DaySum(days, g, lo, date - 1) + cases
  {
    DaySumSingle(days, g, date, j);
    DaySumCut(days, g, lo, date - 1, date);
  }

  /**
   * Row i of the calendar, a row of group g on the date given with the Cases given: the
   * running sum up to it is at least g's counts before that date plus the row's own Cases,
   * and at most g's counts up to that date.
   */
  lemma {:induction false} CalendarPrefixSum(lo: int, hi: int, days: seq<DayCount>, i: nat, g: Key, date: int, cases: nat)
    requires i < |Calendar(lo, hi, days)| && Calendar(lo, hi, days)[i].group == Some(g)
    requires Calendar(lo, hi, days)[i].date == date && Calendar(lo, hi, days)[i].cases == cases
    ensures lo <= date <= hi
    ensures DaySum(days, g, lo, date - 1) + cases <= RunningSum(Calendar(lo, hi, days)[..i + 1], g)
    ensures RunningSum(Calendar(lo, hi, days)[..i + 1], g) <= DaySum(days, g, lo, date)
    decreases hi - lo
  {
    if i < |Calendar(lo, hi - 1, days)| {
      CalendarEarlier(lo, hi, days, i);
      CalendarPrefixSum(lo, hi - 1, days, i, g, date, cases);
    } else {
      CalendarLastDay(lo, hi, days, i, g, date, cases);
    }
  }

  /** A row before the calendar's last date is the same row, with the same prefix, of the calendar one day shorter. */
  lemma CalendarEarlier(lo: int, hi: int, days: seq<DayCount>, i: nat)
    requires i < |Calendar(lo, hi - 1, days)| && lo <= hi
    ensures i < |Calendar(lo, hi, days)|
    ensures Calendar(lo, hi, days)[i] == Calendar(lo, hi - 1, days)[i]
    ensures Calendar(lo, hi, days)[..i + 1] == Calendar(lo, hi - 1, days)[..i + 1]
  {
    var before := Calendar(lo, hi - 1, days);
    assert Calendar(lo, hi, days) == before + DayRows(hi, days);
  }

  /** A row of some group past the calendar one day shorter is one of the last date's hits. */
  lemma LastDayRows(lo: int, hi: int, days: seq<DayCount>, i: nat)
    requires |Calendar(lo, hi - 1, days)| <= i < |Calendar(lo, hi, days)| && Calendar(lo, hi, days)[i].group.Some?
    ensures lo <= hi && i - |Calendar(lo, hi - 1, days)| < |HitsOn(hi, days)|
    ensures Calendar(lo, hi, days) == Calendar(lo, hi - 1, days) + HitsOn(hi, days)
    ensures Calendar(lo, hi, days)[i] == HitsOn(hi, days)[i - |Calendar(lo, hi - 1, days)|]
    ensures Calendar(lo, hi, days)[i].date == hi
  {
    var c, before, hits := Calendar(lo, hi, days), Calendar(lo, hi - 1, days), HitsOn(hi, days);
    assert c == before + DayRows(hi, days);
    assert hits != [];
    HitsOnSpec(hi, days);
    assert hits[i - |before|] in hits;
  }

  /** The step of CalendarPrefixSum for a row on the calendar's last date. */
  lemma CalendarLastDay(lo: int, hi: int, days: seq<DayCount>, i: nat, g: Key, date: int, cases: nat)
    requires |Calendar(lo, hi - 1, days)| <= i < |Calendar(lo, hi, days)| && Calendar(lo, hi, days)[i].group == Some(g)
    requires Calendar(lo, hi, days)[i].date == date && Calendar(lo, hi, days)[i].cases == cases
    ensures lo <= date == hi
    ensures DaySum(days, g, lo, date - 1) + cases <= RunningSum(Calendar(lo, hi, days)[..i + 1], g)
    ensures RunningSum(Calendar(lo, hi, days)[..i + 1], g) <= DaySum(days, g, lo, date)
  {
    var before, hits := Calendar(lo, hi - 1, days), HitsOn(hi, days);
    LastDayRows(lo, hi, days, i);
    CalendarSum(lo, hi - 1, days, g);
    LastDaySum(before, hits, i - |before|, g, lo, hi, days, cases);
  }

  /** The running sum over the calendar one day shorter followed by some of the last date's hits. */
  lemma LastDaySum(before: seq<Row>, hits: seq<Row>, k: nat, g: Key, lo: int, hi: int, days: seq<DayCount>, cases: nat)
    requires hits == HitsOn(hi, days) && RunningSum(before, g) == DaySum(days, g, lo, hi - 1) && lo <= hi
    requires k < |hits| && hits[k].group == Some(g) && hits[k].cases == cases
    ensures DaySum(days, g, lo, hi - 1) + cases <= RunningSum((before + hits)[..|before| + k + 1], g)
    ensures RunningSum((before + hits)[..|before| + k + 1], g) <= DaySum(days, g, lo, hi)
  {
    PrefixAppend(before, hits, k, g);
    HitsPrefixSum(hi, days, k, g);
    DaySumSplit(days, g, lo, hi);
  }

  /** The running sum over a prefix reaching into the second part of a concatenation. */
  lemma PrefixAppend(a: seq<Row>, b: seq<Row>, k: nat, g: Key)
    requires k < |b|
    ensures RunningSum((a + b)[..|a| + k + 1], g) == RunningSum(a, g) + RunningSum(b[..k + 1], g)
  {
    assert (a + b)[..|a| + k + 1] == a + b[..k + 1];
    RunningSumAppend(a, b[..k + 1], g);
  }

  /** Hit k of a date, of group g: the running sum of the date's hits up to it is at least its Cases, at most g's sum for the date. */
  lemma HitsPrefixSum(date: int, days: seq<DayCount>, k: nat, g: Key)
    requires k < |HitsOn(date, days)| && HitsOn(date, days)[k].group == Some(g)
    ensures var hits := HitsOn(date, days);
      && hits[k].date == date
      && hits[k].cases <= RunningSum(hits[..k + 1], g) <= DaySum(days, g, date, date)
  {
    var hits := HitsOn(date, days);
    HitsOnSpec(date, days);
    assert hits[k] in hits;
    assert hits[..k + 1][..k] == hits[..k];
    RunningSumGrows(hits, k + 1, |hits|, g);
    assert hits[..|hits|] == hits;
    HitsOnSum(date, days, g);
  }
}
