/** case_aggregates: the (Cases, Deaths, Recoveries) reduction of one partition. */
module Aggregates {
  import opened Wrappers
  import opened Ledger

  datatype Agg = Agg(cases: nat, deaths: nat, recoveries: nat)

  function Plus(a: Agg, b: Agg): Agg {
    Agg(a.cases + b.cases, a.deaths + b.deaths, a.recoveries + b.recoveries)
  }

  /** count() on CaseCode counts the rows whose CaseCode is present. */
  predicate HasCode(c: Case) {
    c.caseCode.Some?
  }

  predicate IsDeath(c: Case) {
    c.caseCode.Some? && c.healthStatus == Some(DIED)
  }

  predicate IsRecovery(c: Case) {
    c.caseCode.Some? && c.healthStatus == Some(RECOVERED)
  }

  /** What one record adds to each of the three counts. */
  function Contribution(c: Case): Agg {
    Agg(if HasCode(c) then 1 else 0, if IsDeath(c) then 1 else 0, if IsRecovery(c) then 1 else 0)
  }

  /** The three counts of a partition; only a Died or a Recovered record with a code adds to Deaths or Recoveries. */
  function CaseAggregates(rows: seq<Case>): (r: Agg)
    ensures r.deaths + r.recoveries <= r.cases <= |rows|
  {
    if rows == [] then Agg(0, 0, 0)
    else Plus(CaseAggregates(rows[..|rows| - 1]), Contribution(rows[|rows| - 1]))
  }

  /** The three things case_aggregates counts. */
  datatype Tally = CodeTally | DeathTally | RecoveryTally

  predicate Counted(t: Tally, c: Case) {
    match t
    case CodeTally => HasCode(c)
    case DeathTally => IsDeath(c)
    case RecoveryTally => IsRecovery(c)
  }

  function Component(t: Tally, a: Agg): nat {
    match t
    case CodeTally => a.cases
    case DeathTally => a.deaths
    case RecoveryTally => a.recoveries
  }

  /** The positions of the rows that tally t counts. */
  function Positions(rows: seq<Case>, t: Tally): set<int> {
    set i | 0 <= i < |rows| && Counted(t, rows[i])
  }

  lemma PositionsSnoc(rows: seq<Case>, t: Tally)
    requires |rows| > 0
    ensures var n := |rows| - 1;
      Positions(rows, t) == Positions(rows[..n], t) + (if Counted(t, rows[n]) then {n} else {})
  {
    var n := |rows| - 1;
    assert forall i :: 0 <= i < n ==> rows[..n][i] == rows[i];
  }

  /**
   * Each count of case_aggregates is the number of positions its tally counts: Cases the
   * rows that have a CaseCode, Deaths those that also have status Died, Recoveries those
   * that also have status Recovered.
   */
  lemma {:induction false} CaseAggregatesCounts(rows: seq<Case>, t: Tally)
    ensures Component(t, CaseAggregates(rows)) == |Positions(rows, t)|
  {
    if rows != [] {
      var n := |rows| - 1;
      var init := rows[..n];
      CaseAggregatesCounts(init, t);
      PositionsSnoc(rows, t);
      assert n !in Positions(init, t);
      assert CaseAggregates(rows) == Plus(CaseAggregates(init), Contribution(rows[n]));
    }
  }

  /** The counts of a concatenation are the sums of the counts of the parts. */
  lemma {:induction false} CaseAggregatesAppend(a: seq<Case>, b: seq<Case>)
    ensures CaseAggregates(a + b) == Plus(CaseAggregates(a), CaseAggregates(b))
  {
    if b == [] {
      assert a + b == a;
    } else {
      var b', x := b[..|b| - 1], b[|b| - 1];
      assert b == b' + [x];
      assert a + b == (a + b') + [x];
      CaseAggregatesAppend(a, b');
      CaseAggregatesSnoc(a + b', x);
      CaseAggregatesSnoc(b', x);
    }
  }

  /** The counts of a partition extended by one record. */
  lemma CaseAggregatesSnoc(rows: seq<Case>, r: Case)
    ensures CaseAggregates(rows + [r]) == Plus(CaseAggregates(rows), Contribution(r))
  {
    assert (rows + [r])[..|rows|] == rows;
  }
}
