/** The case ledger: one record per confirmed case, as the dashboard holds it once loaded. */
module Ledger {
  import opened Wrappers

  /** Every record's Country column is this constant (app.py:64). */
  const COUNTRY: string := "PHILIPPINES"
  const DIED: string := "Died"
  const RECOVERED: string := "Recovered"

  /**
   * A case record after loading, cleaning and the population merge. Dates are day
   * numbers, a missing cell is None, and pop2015 is the population of the record's
   * province (None when the province has no population entry).
   */
  datatype Case = Case(
    caseCode: Option<string>,
    region: Option<string>,
    province: Option<string>,
    ageGroup: Option<string>,
    sex: Option<string>,
    healthStatus: Option<string>,
    dateRepConf: Option<int>,
    dateRepRem: Option<int>,
    dateDied: Option<int>,
    dateRecover: Option<int>,
    pop2015: Option<int>)

  /**
   * The removal date clean_dates gives a record: its date of death when it died and has
   * one, its date of recovery when it recovered and has one, and its reported removal
   * date otherwise.
   */
  function CleanDates(c: Case): (d: Option<int>)
    ensures c.healthStatus == Some(DIED) && c.dateDied.Some? ==> d == c.dateDied
    ensures c.healthStatus == Some(RECOVERED) && c.dateRecover.Some? ==> d == c.dateRecover
    ensures d != c.dateRepRem ==> d.Some? && (d == c.dateDied || d == c.dateRecover)
    ensures !(c.healthStatus == Some(DIED) && c.dateDied.Some?) && !(c.healthStatus == Some(RECOVERED) && c.dateRecover.Some?) ==>
      d == c.dateRepRem
  {
    if c.healthStatus == Some(DIED) && c.dateDied.Some? then c.dateDied
    else if c.healthStatus == Some(RECOVERED) && c.dateRecover.Some? then c.dateRecover
    else c.dateRepRem
  }

  /** A record with its removal date cleaned. */
  function Cleaned(c: Case): Case {
    c.(dateRepRem := CleanDates(c))
  }

  /** Cleaning only ever touches DateRepRem, so cleaning a cleaned record changes nothing. */
  lemma CleanDatesIdempotent(c: Case)
    ensures Cleaned(Cleaned(c)) == Cleaned(c)
    ensures Cleaned(c).(dateRepRem := c.dateRepRem) == c
  {
  }

  /** The ledger-wide apply of clean_dates, overwriting the DateRepRem column in place. */
  method CleanLedger(cases: array<Case>)
    modifies cases
    ensures forall i :: 0 <= i < cases.Length ==> cases[i] == Cleaned(old(cases[i]))
  {
    var i := 0;
    while i < cases.Length
      invariant 0 <= i <= cases.Length
      invariant forall j :: 0 <= j < i ==> cases[j] == Cleaned(old(cases[j]))
      invariant forall j :: i <= j < cases.Length ==> cases[j] == old(cases[j])
    {
      cases[i] := Cleaned(cases[i]);
      i := i + 1;
    }
  }
}
