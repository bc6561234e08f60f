/**
 * pandas' groupby over the ledger: a key tuple per record, the rows that share a key,
 * and the table of one aggregate row per key.
 */
module Grouping {
  import opened Wrappers
  import opened Ledger
  import opened Aggregates

  /** The breakdown switches of the dashboard: filters is a list of these. */
  datatype Breakdown = AgeGroup | Sex | HealthStatus

  /** A column that can take part in a group key. */
  datatype Dim = DateRepConf | Country | Province | Pop2015 | By(breakdown: Breakdown)

  /** One cell of a key: a text column or a numeric (date, population) column. */
  datatype KeyVal = S(text: string) | N(num: int)

  type Key = seq<KeyVal>

  /** One row of a grouped table: the key and the case_aggregates of its partition. */
  datatype Group = Group(key: Key, agg: Agg)

  function AsDims(filters: seq<Breakdown>): seq<Dim> {
    seq(|filters|, i requires 0 <= i < |filters| => By(filters[i]))
  }

  function Text(o: Option<string>): Option<KeyVal> {
    if o.Some? then Some(S(o.value)) else None
  }

  function Num(o: Option<int>): Option<KeyVal> {
    if o.Some? then Some(N(o.value)) else None
  }

  /** A record's cell in one column; None is a NaN cell. */
  function Val(r: Case, d: Dim): Option<KeyVal> {
    match d
    case DateRepConf => Num(r.dateRepConf)
    case Country => Some(S(COUNTRY))
    case Province => Text(r.province)
    case Pop2015 => Num(r.pop2015)
    case By(b) => match b
      case AgeGroup => Text(r.ageGroup)
      case Sex => Text(r.sex)
      case HealthStatus => Text(r.healthStatus)
  }

  /** A record's key over dims, or None when a key cell is NaN. */
  function KeyOf(r: Case, dims: seq<Dim>): Option<Key>
    decreases |dims|
  {
    if dims == [] then Some([])
    else
      var v, rest := Val(r, dims[0]), KeyOf(r, dims[1..]);
      if v.Some? && rest.Some? then Some([v.value] + rest.value) else None
  }

  /**
   * groupby drops a record with a NaN in any key column: the key exists exactly when
   * every cell is present, and then it lists the cells in the order of dims.
   */
  lemma {:induction false} KeyOfCells(r: Case, dims: seq<Dim>)
    ensures KeyOf(r, dims).Some? <==> forall i :: 0 <= i < |dims| ==> Val(r, dims[i]).Some?
    ensures KeyOf(r, dims).Some? ==>
      |KeyOf(r, dims).value| == |dims| && forall i :: 0 <= i < |dims| ==> KeyOf(r, dims).value[i] == Val(r, dims[i]).value
    decreases |dims|
  {
    if dims != [] {
      KeyOfCells(r, dims[1..]);
      assert forall i :: 1 <= i < |dims| ==> dims[1..][i - 1] == dims[i];
    }
  }

  /** The key of a concatenation of column lists is the concatenation of the keys. */
  lemma {:induction false} KeyOfAppend(r: Case, a: seq<Dim>, b: seq<Dim>)
    ensures KeyOf(r, a + b) == if KeyOf(r, a).Some? && KeyOf(r, b).Some? then Some(KeyOf(r, a).value + KeyOf(r, b).value) else None
    decreases |a|
  {
    if a == [] {
      assert a + b == b;
      if KeyOf(r, b).Some? {
        assert [] + KeyOf(r, b).value == KeyOf(r, b).value;
      }
    } else {
      assert (a + b)[0] == a[0] && (a + b)[1..] == a[1..] + b;
      KeyOfAppend(r, a[1..], b);
      var v, ka, kb := Val(r, a[0]), KeyOf(r, a[1..]), KeyOf(r, b);
      if v.Some? && ka.Some? && kb.Some? {
        assert [v.value] + (ka.value + kb.value) == ([v.value] + ka.value) + kb.value;
      }
    }
  }

  /** The records groupby keeps: those with a full key. */
  function Grouped(rows: seq<Case>, dims: seq<Dim>): seq<Case> {
    if rows == [] then []
    else
      var r := rows[|rows| - 1];
      Grouped(rows[..|rows| - 1], dims) + (if KeyOf(r, dims).Some? then [r] else [])
  }

  /** The partition of key k, in ledger order. */
  function Members(rows: seq<Case>, dims: seq<Dim>, k: Key): seq<Case> {
    if rows == [] then []
    else
      var r := rows[|rows| - 1];
      Members(rows[..|rows| - 1], dims, k) + (if KeyOf(r, dims) == Some(k) then [r] else [])
  }

  /** The partition of k holds exactly the records whose key is k. */
  lemma {:induction false} MembersHaveKey(rows: seq<Case>, dims: seq<Dim>, k: Key)
    ensures forall r :: r in Members(rows, dims, k) <==> r in rows && KeyOf(r, dims) == Some(k)
  {
    if rows != [] {
      MembersHaveKey(rows[..|rows| - 1], dims, k);
      assert forall x :: x in rows <==> x in rows[..|rows| - 1] || x == rows[|rows| - 1];
    }
  }

  /** The keys present in rows in order of first appearance. */
  function GroupKeys(rows: seq<Case>, dims: seq<Dim>): seq<Key> {
    if rows == [] then []
    else
      var init := GroupKeys(rows[..|rows| - 1], dims);
      var k := KeyOf(rows[|rows| - 1], dims);
      if k.Some? && k.value !in init then init + [k.value] else init
  }

  /** Each key present in the rows is listed exactly once. */
  lemma {:induction false} GroupKeysSpec(rows: seq<Case>, dims: seq<Dim>)
    ensures Distinct(GroupKeys(rows, dims))
    ensures forall k :: k in GroupKeys(rows, dims) <==> exists r :: r in rows && KeyOf(r, dims) == Some(k)
  {
    if rows != [] {
      var r := rows[|rows| - 1];
      var init := GroupKeys(rows[..|rows| - 1], dims);
      GroupKeysSpec(rows[..|rows| - 1], dims);
      var ks := GroupKeys(rows, dims);
      forall k' | k' in ks ensures exists x :: x in rows && KeyOf(x, dims) == Some(k') {
        if k' in init {
          var x :| x in rows[..|rows| - 1] && KeyOf(x, dims) == Some(k');
          assert x in rows;
        } else {
          assert KeyOf(r, dims) == Some(k');
        }
      }
      forall k' | exists x :: x in rows && KeyOf(x, dims) == Some(k') ensures k' in ks {
        var x :| x in rows && KeyOf(x, dims) == Some(k');
        if x != r {
          assert x in rows[..|rows| - 1];
        }
      }
    }
  }

  /** groupby(dims).apply(case_aggregates): one row per key, in GroupKeys order. */
  function GroupAggregate(rows: seq<Case>, dims: seq<Dim>): seq<Group> {
    var ks := GroupKeys(rows, dims);
    seq(|ks|, i requires 0 <= i < |ks| => Group(ks[i], CaseAggregates(Members(rows, dims, ks[i]))))
  }

  function TableKeys(table: seq<Group>): seq<Key> {
    seq(|table|, i requires 0 <= i < |table| => table[i].key)
  }

  lemma MembersSnoc(rows: seq<Case>, r: Case, dims: seq<Dim>, k: Key)
    ensures Members(rows + [r], dims, k) == Members(rows, dims, k) + (if KeyOf(r, dims) == Some(k) then [r] else [])
  {
    assert (rows + [r])[..|rows|] == rows;
  }

  lemma CaseAggregatesMembersSnoc(rows: seq<Case>, r: Case, dims: seq<Dim>, k: Key)
    ensures CaseAggregates(Members(rows + [r], dims, k)) ==
      if KeyOf(r, dims) == Some(k) then Plus(CaseAggregates(Members(rows, dims, k)), Contribution(r))
      else CaseAggregates(Members(rows, dims, k))
  {
    var m, m' := Members(rows, dims, k), Members(rows + [r], dims, k);
    MembersSnoc(rows, r, dims, k);
    if KeyOf(r, dims) == Some(k) {
      assert m' == m + [r];
      CaseAggregatesSnoc(m, r);
    } else {
      assert m' == m;
    }
  }

  lemma GroupKeysSnoc(rows: seq<Case>, r: Case, dims: seq<Dim>)
    ensures GroupKeys(rows + [r], dims) ==
      if KeyOf(r, dims).Some? && KeyOf(r, dims).value !in GroupKeys(rows, dims)
      then GroupKeys(rows, dims) + [KeyOf(r, dims).value] else GroupKeys(rows, dims)
  {
    assert (rows + [r])[..|rows|] == rows;
  }

  /** A record without a full key leaves the table unchanged. */
  lemma GroupAggregateSnocDropped(rows: seq<Case>, r: Case, dims: seq<Dim>)
    requires KeyOf(r, dims).None?
    ensures GroupAggregate(rows + [r], dims) == GroupAggregate(rows, dims)
  {
    GroupKeysSnoc(rows, r, dims);
    var before, after := GroupAggregate(rows, dims), GroupAggregate(rows + [r], dims);
    forall i | 0 <= i < |after| ensures after[i] == before[i] {
      CaseAggregatesMembersSnoc(rows, r, dims, after[i].key);
    }
  }

  /** A record whose key is at row j adds its contribution to that row only. */
  lemma GroupAggregateSnocKnown(rows: seq<Case>, r: Case, dims: seq<Dim>, j: nat)
    requires j < |GroupAggregate(rows, dims)|
    requires KeyOf(r, dims) == Some(GroupAggregate(rows, dims)[j].key)
    ensures var g := GroupAggregate(rows, dims)[j];
      GroupAggregate(rows + [r], dims) == GroupAggregate(rows, dims)[j := Group(g.key, Plus(g.agg, Contribution(r)))]
  {
    var before, after := GroupAggregate(rows, dims), GroupAggregate(rows + [r], dims);
    var ks := GroupKeys(rows, dims);
    var k := ks[j];
    assert before[j].key == k;
    GroupKeysSpec(rows, dims);
    assert k in ks;
    GroupKeysSnoc(rows, r, dims);
    assert GroupKeys(rows + [r], dims) == ks;
    var g := before[j];
    var expected := before[j := Group(g.key, Plus(g.agg, Contribution(r)))];
    assert |after| == |expected|;
    forall i | 0 <= i < |after| ensures after[i] == expected[i] {
      assert after[i].key == ks[i] && before[i].key == ks[i];
      CaseAggregatesMembersSnoc(rows, r, dims, ks[i]);
      if i != j {
        assert ks[i] != k;
      }
    }
  }

  /** The key of every record that has one is listed. */
  lemma KeyListed(rows: seq<Case>, dims: seq<Dim>, x: Case)
    requires x in rows
    ensures KeyOf(x, dims).Some? ==> KeyOf(x, dims).value in GroupKeys(rows, dims)
  {
    GroupKeysSpec(rows, dims);
  }

  /** A key no record has has no partition. */
  lemma {:induction false} MembersEmpty(rows: seq<Case>, dims: seq<Dim>, k: Key)
    requires forall x :: x in rows ==> KeyOf(x, dims) != Some(k)
    ensures Members(rows, dims, k) == []
  {
    if rows != [] {
      var init := rows[..|rows| - 1];
      assert forall x :: x in init ==> x in rows;
      assert rows[|rows| - 1] in rows;
      MembersEmpty(init, dims, k);
    }
  }

  /** A record with a new key appends one row holding its contribution. */
  lemma GroupAggregateSnocNew(rows: seq<Case>, r: Case, dims: seq<Dim>)
    requires KeyOf(r, dims).Some?
    requires forall j :: 0 <= j < |GroupAggregate(rows, dims)| ==> GroupAggregate(rows, dims)[j].key != KeyOf(r, dims).value
    ensures GroupAggregate(rows + [r], dims) == GroupAggregate(rows, dims) + [Group(KeyOf(r, dims).value, Contribution(r))]
  {
    var k := KeyOf(r, dims).value;
    var before, after := GroupAggregate(rows, dims), GroupAggregate(rows + [r], dims);
    var ks := GroupKeys(rows, dims);
    assert k !in ks by {
      forall i | 0 <= i < |ks| ensures ks[i] != k {
        assert before[i].key == ks[i];
      }
    }
    GroupKeysSnoc(rows, r, dims);
    assert GroupKeys(rows + [r], dims) == ks + [k];
    var m := Members(rows, dims, k);
    forall x | x in rows ensures KeyOf(x, dims) != Some(k) {
      KeyListed(rows, dims, x);
    }
    MembersEmpty(rows, dims, k);
    var expected := before + [Group(k, Contribution(r))];
    assert |after| == |expected|;
    var ks' := ks + [k];
    forall i | 0 <= i < |after| ensures after[i] == expected[i] {
      assert after[i].key == ks'[i];
      if i == |before| {
        CaseAggregatesMembersSnoc(rows, r, dims, k);
        assert after[i] == Group(k, Plus(CaseAggregates(m), Contribution(r)));
      } else {
        assert ks'[i] == ks[i] && before[i].key == ks[i];
        assert ks[i] in ks;
        CaseAggregatesMembersSnoc(rows, r, dims, ks[i]);
      }
    }
  }

  /** The Cases column summed over the rows whose key satisfies p. */
  function CasesWhere(table: seq<Group>, p: Key -> bool): nat {
    if table == [] then 0
    else
      var g := table[|table| - 1];
      CasesWhere(table[..|table| - 1], p) + (if p(g.key) then g.agg.cases else 0)
  }

  /** The grouped records whose key satisfies p, in ledger order. */
  function RowsWhere(rows: seq<Case>, dims: seq<Dim>, p: Key -> bool): seq<Case> {
    if rows == [] then []
    else
      var r := rows[|rows| - 1];
      var k := KeyOf(r, dims);
      RowsWhere(rows[..|rows| - 1], dims, p) + (if k.Some? && p(k.value) then [r] else [])
  }

  lemma CasesWhereSnoc(table: seq<Group>, g: Group, p: Key -> bool)
    ensures CasesWhere(table + [g], p) == CasesWhere(table, p) + (if p(g.key) then g.agg.cases else 0)
  {
    assert (table + [g])[..|table|] == table;
  }

  lemma {:induction false} CasesWhereUpdate(table: seq<Group>, j: nat, g: Group, p: Key -> bool)
    requires j < |table| && g.key == table[j].key
    ensures CasesWhere(table[j := g], p) + (if p(g.key) then table[j].agg.cases else 0)
         == CasesWhere(table, p) + (if p(g.key) then g.agg.cases else 0)
  {
    var n := |table| - 1;
    var t' := table[j := g];
    if j == n {
      assert t'[..n] == table[..n];
    } else {
      CasesWhereUpdate(table[..n], j, g, p);
      assert t'[..n] == table[..n][j := g];
    }
  }

  lemma RowsWhereSnoc(rows: seq<Case>, r: Case, dims: seq<Dim>, p: Key -> bool)
    ensures RowsWhere(rows + [r], dims, p) ==
      RowsWhere(rows, dims, p) + (if KeyOf(r, dims).Some? && p(KeyOf(r, dims).value) then [r] else [])
  {
    assert (rows + [r])[..|rows|] == rows;
  }

  /** RowsWhere keeps exactly the records that have a key satisfying p. */
  lemma {:induction false} RowsWhereSpec(rows: seq<Case>, dims: seq<Dim>, p: Key -> bool)
    ensures forall x :: x in RowsWhere(rows, dims, p) <==> x in rows && KeyOf(x, dims).Some? && p(KeyOf(x, dims).value)
  {
    if rows != [] {
      var init, r := rows[..|rows| - 1], rows[|rows| - 1];
      RowsWhereSpec(init, dims, p);
      assert rows == init + [r];
      RowsWhereSnoc(init, r, dims, p);
    }
  }

  /** Folding record r into the table moves the filtered Cases sum by r's contribution when r's key satisfies p. */
  lemma CasesWhereSnocRecord(rows: seq<Case>, r: Case, dims: seq<Dim>, p: Key -> bool)
    ensures CasesWhere(GroupAggregate(rows + [r], dims), p) ==
      CasesWhere(GroupAggregate(rows, dims), p) +
      (if KeyOf(r, dims).Some? && p(KeyOf(r, dims).value) then Contribution(r).cases else 0)
  {
    var before := GroupAggregate(rows, dims);
    var key := KeyOf(r, dims);
    if key.None? {
      GroupAggregateSnocDropped(rows, r, dims);
    } else {
      var k := key.value;
      var ks := GroupKeys(rows, dims);
      if k in ks {
        var j :| 0 <= j < |ks| && ks[j] == k;
        GroupAggregateSnocKnown(rows, r, dims, j);
        CasesWhereUpdate(before, j, Group(k, Plus(before[j].agg, Contribution(r))), p);
      } else {
        GroupAggregateSnocNew(rows, r, dims);
        CasesWhereSnoc(before, Group(k, Contribution(r)), p);
      }
    }
  }

  /**
   * Summing the Cases column of the grouped table over the keys that satisfy p counts
   * exactly the coded records whose key satisfies p.
   */
  lemma {:induction false} GroupedCasesWhere(rows: seq<Case>, dims: seq<Dim>, p: Key -> bool)
    ensures CasesWhere(GroupAggregate(rows, dims), p) == CaseAggregates(RowsWhere(rows, dims, p)).cases
  {
    if rows != [] {
      var init, r := rows[..|rows| - 1], rows[|rows| - 1];
      GroupedCasesWhere(init, dims, p);
      GroupedCasesWhereSnoc(init, r, dims, p);
      assert rows == init + [r];
    }
  }

  /** The inductive step of GroupedCasesWhere. */
  lemma GroupedCasesWhereSnoc(init: seq<Case>, r: Case, dims: seq<Dim>, p: Key -> bool)
    requires CasesWhere(GroupAggregate(init, dims), p) == CaseAggregates(RowsWhere(init, dims, p)).cases
    ensures CasesWhere(GroupAggregate(init + [r], dims), p) == CaseAggregates(RowsWhere(init + [r], dims, p)).cases
  {
    RowsWhereSnoc(init, r, dims, p);
    CasesWhereSnocRecord(init, r, dims, p);
    var k := KeyOf(r, dims);
    var before := RowsWhere(init, dims, p);
    if k.Some? && p(k.value) {
      assert RowsWhere(init + [r], dims, p) == before + [r];
      CaseAggregatesSnoc(before, r);
    } else {
      assert RowsWhere(init + [r], dims, p) == before;
    }
  }

  /** The Cases column summed over the whole table. */
  function SumCases(table: seq<Group>): nat {
    if table == [] then 0 else SumCases(table[..|table| - 1]) + table[|table| - 1].agg.cases
  }

  lemma {:induction false} SumCasesIsCasesWhere(table: seq<Group>, p: Key -> bool)
    requires forall k :: p(k)
    ensures SumCases(table) == CasesWhere(table, p)
  {
    if table != [] {
      SumCasesIsCasesWhere(table[..|table| - 1], p);
    }
  }

  lemma {:induction false} GroupedIsRowsWhere(rows: seq<Case>, dims: seq<Dim>, p: Key -> bool)
    requires forall k :: p(k)
    ensures Grouped(rows, dims) == RowsWhere(rows, dims, p)
  {
    if rows != [] {
      GroupedIsRowsWhere(rows[..|rows| - 1], dims, p);
    }
  }

  /**
   * The aggregate table has one row per distinct key present in the ledger, each row
   * holds the case_aggregates of exactly that key's records, and its Cases column sums
   * to the number of coded records groupby kept.
   */
  lemma AggregateTableSpec(rows: seq<Case>, dims: seq<Dim>)
    ensures var t := GroupAggregate(rows, dims);
      && Distinct(TableKeys(t))
      && (forall k :: k in TableKeys(t) <==> exists r :: r in rows && KeyOf(r, dims) == Some(k))
      && (forall i :: 0 <= i < |t| ==>
            |t[i].key| == |dims| && t[i].agg == CaseAggregates(Members(rows, dims, t[i].key))
            && (forall r :: r in Members(rows, dims, t[i].key) <==> r in rows && KeyOf(r, dims) == Some(t[i].key)))
      && SumCases(t) == CaseAggregates(Grouped(rows, dims)).cases
  {
    var t := GroupAggregate(rows, dims);
    GroupKeysSpec(rows, dims);
    assert TableKeys(t) == GroupKeys(rows, dims);
    forall i | 0 <= i < |t|
      ensures |t[i].key| == |dims|
      ensures forall r :: r in Members(rows, dims, t[i].key) <==> r in rows && KeyOf(r, dims) == Some(t[i].key)
    {
      assert t[i].key in GroupKeys(rows, dims);
      var r :| r in rows && KeyOf(r, dims) == Some(t[i].key);
      KeyOfCells(r, dims);
      MembersHaveKey(rows, dims, t[i].key);
    }
    var all := (k: Key) => true;
    GroupedCasesWhere(rows, dims, all);
    SumCasesIsCasesWhere(t, all);
    GroupedIsRowsWhere(rows, dims, all);
  }

  /** The dictionary from key to row index that GroupBy keeps beside its table. */
  ghost predicate Indexes(index: map<Key, nat>, table: seq<Group>) {
    && (forall k :: k in index ==> index[k] < |table| && table[index[k]].key == k)
    && (forall j :: 0 <= j < |table| ==> table[j].key in index)
  }

  lemma IndexesUpdate(index: map<Key, nat>, table: seq<Group>, j: nat, g: Group)
    requires Indexes(index, table) && j < |table| && g.key == table[j].key
    ensures Indexes(index, table[j := g])
  {
  }

  lemma IndexesAppend(index: map<Key, nat>, table: seq<Group>, g: Group)
    requires Indexes(index, table) && g.key !in index
    ensures Indexes(index[g.key := |table|], table + [g])
    ensures forall j :: 0 <= j < |table| ==> table[j].key != g.key
  {
  }

  /** One step of GroupBy: fold record r into the table of the rows before it. */
  method Absorb(table: seq<Group>, index: map<Key, nat>, r: Case, dims: seq<Dim>, ghost seen: seq<Case>)
    returns (table': seq<Group>, index': map<Key, nat>)
    requires table == GroupAggregate(seen, dims) && Indexes(index, table)
    ensures table' == GroupAggregate(seen + [r], dims) && Indexes(index', table')
  {
    table', index' := table, index;
    var key := KeyOf(r, dims);
    if key.None? {
      GroupAggregateSnocDropped(seen, r, dims);
    } else {
      var k := key.value;
      if k in index {
        var j := index[k];
        var g := Group(k, Plus(table[j].agg, Contribution(r)));
        GroupAggregateSnocKnown(seen, r, dims, j);
        IndexesUpdate(index, table, j, g);
        table' := table[j := g];
      } else {
        var g := Group(k, Contribution(r));
        IndexesAppend(index, table, g);
        GroupAggregateSnocNew(seen, r, dims);
        index' := index[k := |table|];
        table' := table + [g];
      }
    }
  }

  /**
   * groupby as a single pass over the ledger with a dictionary from key to row index:
   * a new key appends a row, a known key adds the record's contribution to its row.
   */
  method GroupBy(rows: seq<Case>, dims: seq<Dim>) returns (table: seq<Group>)
    ensures table == GroupAggregate(rows, dims)
  {
    table := [];
    var index: map<Key, nat> := map[];
    var i := 0;
    while i < |rows|
      invariant 0 <= i <= |rows|
      invariant table == GroupAggregate(rows[..i], dims)
      invariant Indexes(index, table)
    {
      assert rows[..i + 1] == rows[..i] + [rows[i]];
      table, index := Absorb(table, index, rows[i], dims, rows[..i]);
      i := i + 1;
    }
    assert rows[..|rows|] == rows;
  }
}
