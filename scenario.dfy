/**
 * A worked example: three cases of province A (population 1,000,000), two reported on
 * day 1 (one died, one active) and one on day 2 (recovered), queried for province A.
 */
module Scenario {
  import opened Wrappers
  import opened Ledger
  import opened Aggregates
  import opened Grouping
  import opened Selection
  import opened Series
  import opened Rates
  import opened Query

  const POP_A: int := 1000000

  function Record(code: string, status: string, day: int): Case {
    Case(Some(code), Some("R"), Some("A"), None, None, Some(status), Some(day), None, None, None, Some(POP_A))
  }

  const X1: Case := Record("C1", DIED, 1)
  const X2: Case := Record("C2", "Active", 1)
  const X3: Case := Record("C3", RECOVERED, 2)

  /** The query for province A of region R, no breakdown, not summed. */
  const AskA: Inputs := Inputs(false, [], CASES_TAB, ["R"], ["A"], false)

  const A: Key := [S("A")]
  const K1: Key := [N(1), S("A"), N(POP_A)]
  const K2: Key := [N(2), S("A"), N(POP_A)]
  const DAYS: seq<DayCount> := [DayCount(1, A, Some(POP_A), 2), DayCount(2, A, Some(POP_A), 1)]

  lemma Contributions()
    ensures Contribution(X1) == Agg(1, 1, 0) && Contribution(X2) == Agg(1, 0, 0) && Contribution(X3) == Agg(1, 0, 1)
  {
    assert DIED[0] != RECOVERED[0] && "Active"[0] != DIED[0] && "Active"[0] != RECOVERED[0];
  }

  /** The key of a record of province A over dims, cell by cell. */
  lemma KeyCells(x: Case, dims: seq<Dim>, k: Key)
    requires |k| == |dims| && forall i :: 0 <= i < |dims| ==> Val(x, dims[i]) == Some(k[i])
    ensures KeyOf(x, dims) == Some(k)
  {
    KeyOfCells(x, dims);
    assert KeyOf(x, dims).value == k;
  }

  lemma Keys()
    ensures KeyOf(X1, [Province]) == Some(A) && KeyOf(X2, [Province]) == Some(A) && KeyOf(X3, [Province]) == Some(A)
    ensures CountDims(Provincial, []) == [DateRepConf, Province, Pop2015]
    ensures KeyOf(X1, CountDims(Provincial, [])) == Some(K1)
    ensures KeyOf(X2, CountDims(Provincial, [])) == Some(K1)
    ensures KeyOf(X3, CountDims(Provincial, [])) == Some(K2)
  {
    assert AsDims([]) == [];
    var dims := [DateRepConf, Province, Pop2015];
    KeyCells(X1, [Province], A);
    KeyCells(X2, [Province], A);
    KeyCells(X3, [Province], A);
    KeyCells(X1, dims, K1);
    KeyCells(X2, dims, K1);
    KeyCells(X3, dims, K2);
  }

  lemma Line()
    ensures QueryLine(AskA, [X1, X2, X3]) == [X1, X2, X3]
  {
    var l := [X1, X2, X3];
    assert l[..2] == [X1, X2] && [X1, X2][..1] == [X1] && [X1][..0] == [];
    assert Selected([X1], ["R"], ["A"]) == [X1];
    assert Selected([X1, X2], ["R"], ["A"]) == [X1, X2];
    assert Selected(l, ["R"], ["A"]) == l;
  }

  lemma TotalGroup1()
    ensures GroupAggregate([X1], [Province]) == [Group(A, Agg(1, 1, 0))]
  {
    Keys();
    Contributions();
    assert [] + [X1] == [X1];
    GroupAggregateSnocNew([], X1, [Province]);
  }

  lemma TotalGroup2()
    ensures GroupAggregate([X1, X2], [Province]) == [Group(A, Agg(2, 1, 0))]
  {
    Keys();
    Contributions();
    TotalGroup1();
    assert [X1] + [X2] == [X1, X2];
    GroupAggregateSnocKnown([X1], X2, [Province], 0);
  }

  /** Three records of one province make one totals row. */
  lemma TotalGroups()
    ensures GroupAggregate([X1, X2, X3], [Province]) == [Group(A, Agg(3, 1, 1))]
  {
    Keys();
    Contributions();
    TotalGroup2();
    assert [X1, X2] + [X3] == [X1, X2, X3];
    GroupAggregateSnocKnown([X1, X2], X3, [Province], 0);
  }

  lemma CountGroup1()
    ensures GroupAggregate([X1], [DateRepConf, Province, Pop2015]) == [Group(K1, Agg(1, 1, 0))]
  {
    Keys();
    assert [] + [X1] == [X1];
    GroupAggregateSnocNew([], X1, [DateRepConf, Province, Pop2015]);
  }

  lemma CountGroup2()
    ensures GroupAggregate([X1, X2], [DateRepConf, Province, Pop2015]) == [Group(K1, Agg(2, 1, 0))]
  {
    Keys();
    Contributions();
    CountGroup1();
    assert [X1] + [X2] == [X1, X2];
    GroupAggregateSnocKnown([X1], X2, [DateRepConf, Province, Pop2015], 0);
  }

  lemma CountGroups()
    ensures GroupAggregate([X1, X2, X3], [DateRepConf, Province, Pop2015]) == [Group(K1, Agg(2, 1, 0)), Group(K2, Agg(1, 0, 1))]
  {
    Keys();
    CountGroup2();
    assert [X1, X2] + [X3] == [X1, X2, X3];
    assert K1[0] != K2[0];
    GroupAggregateSnocNew([X1, X2], X3, [DateRepConf, Province, Pop2015]);
  }

  lemma DayCountsPair(t: seq<Group>, mode: Mode)
    requires |t| == 2
    ensures DayCounts(t, mode) == [ToDayCount(t[0], mode), ToDayCount(t[1], mode)]
  {
  }

  lemma CountRows()
    ensures CountTable([X1, X2, X3], Provincial, []) == DAYS
  {
    Keys();
    CountGroups();
    var t := [Group(K1, Agg(2, 1, 0)), Group(K2, Agg(1, 0, 1))];
    assert GroupOf(K1, Provincial) == A && GroupOf(K2, Provincial) == A by {
      assert K1[3..] == [] && K2[3..] == [];
    }
    assert DateOf(K1) == 1 && DateOf(K2) == 2;
    assert PopOf(K1, Provincial) == Some(POP_A) && PopOf(K2, Provincial) == Some(POP_A);
    DayCountsPair(t, Provincial);
  }

  lemma HitsA()
    ensures HitsOn(1, DAYS) == [Hit(DAYS[0])] && HitsOn(2, DAYS) == [Hit(DAYS[1])]
  {
    var d1 := DAYS[..1];
    assert DAYS[..|DAYS| - 1] == d1 && d1[..|d1| - 1] == [];
    assert HitsOn(1, d1) == [Hit(DAYS[0])];
    assert HitsOn(2, d1) == [];
  }

  lemma Frame()
    ensures MinDate(DAYS) == 1 && MaxDate(DAYS) == 2
    ensures Calendar(1, 2, DAYS) == [Hit(DAYS[0]), Hit(DAYS[1])]
  {
    HitsA();
    assert Calendar(1, 0, DAYS) == [];
    assert Calendar(1, 1, DAYS) == [Hit(DAYS[0])];
  }

  lemma Points()
    ensures DropNa(Cumulate([Hit(DAYS[0]), Hit(DAYS[1])], Provincial, 0)) ==
      [Point(1, A, 2, 2, 0.2), Point(2, A, 1, 3, 0.3)]
  {
    var rows := [Hit(DAYS[0]), Hit(DAYS[1])];
    var r1 := rows[..1];
    assert rows[..|rows| - 1] == r1 && r1[..|r1| - 1] == [];
    assert RunningSum(r1, A) == 2;
    assert RunningSum(rows, A) == 3;
    var t0 := Totalled(rows[0], Some(2), Provincial, 0);
    var t1 := Totalled(rows[1], Some(3), Provincial, 0);
    assert Per100k(2, POP_A) == Some(0.2) && Per100k(3, POP_A) == Some(0.3);
    assert Complete(t0) && ToPoint(t0) == Point(1, A, 2, 2, 0.2);
    assert Complete(t1) && ToPoint(t1) == Point(2, A, 1, 3, 0.3);
    assert Cumulate(r1, Provincial, 0) == [t0];
    var u := Cumulate(rows, Provincial, 0);
    assert u == [t0, t1];
    assert u[..|u| - 1] == [t0] && [t0][..0] == [];
    assert DropNa([t0]) == [ToPoint(t0)];
  }

  lemma DiedA()
    ensures Died([X1, X2, X3]) == [X1]
  {
    Contributions();
    assert [] + [X1] == [X1] && [X1] + [X2] == [X1, X2] && [X1, X2] + [X3] == [X1, X2, X3];
    DiedSnoc([], X1);
    DiedSnoc([X1], X2);
    DiedSnoc([X1, X2], X3);
  }

  lemma MergeA(g: Group, d: Group)
    requires g.key == A && d.key == A && g.agg.cases == 3 && d.agg.cases == 1
    ensures InnerMerge([g], [d]) == [RateRow(A, 3, 1, Some(1.0 / 3.0))]
  {
    assert Find([d], A) == Some(1);
    assert [g][..0] == [];
  }

  lemma RatesA()
    ensures RatesOf([X1, X2, X3], Provincial, []) == [RateRow(A, 3, 1, Some(1.0 / 3.0))]
  {
    assert AsDims([]) == [];
    assert TotalDims(Provincial, []) == [Province];
    TotalGroups();
    DiedA();
    TotalGroup1();
    MergeA(Group(A, Agg(3, 1, 1)), Group(A, Agg(1, 1, 0)));
  }

  /**
   * The outcome for the example: the series is (day 1, Cases 2, Total 2, Per100k 0.2)
   * and (day 2, Cases 1, Total 3, Per100k 0.3); the rates frame is (A, 3, 1, 1/3); the
   * aggregate table is (A, 3, 1, 1).
   */
  lemma ScenarioResult()
    ensures FilterQuerySpec(AskA, [X1, X2, X3], 0) == Update(Data(
      [Point(1, A, 2, 2, 0.2), Point(2, A, 1, 3, 0.3)],
      [RateRow(A, 3, 1, Some(1.0 / 3.0))],
      [Group(A, Agg(3, 1, 1))]))
  {
    Line();
    Keys();
    assert TableDims(AskA) == [Province];
    TotalGroups();
    assert WithoutHealth([]) == [];
    CountRows();
    Frame();
    Points();
    RatesA();
  }
}
