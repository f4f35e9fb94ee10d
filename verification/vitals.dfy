/**
 The table of patient vitals and the two fixed threshold filters that pick out
 abnormal readings: hypertension (systolic above 140 or diastolic above 90) and
 high cholesterol (total cholesterol above 200). Both comparisons are strict.
 */
module Vitals {
  import opened Sequences

  const AgeColumn := "age"
  const SystolicColumn := "systolic_bp"
  const DiastolicColumn := "diastolic_bp"
  const CholesterolColumn := "total_cholesterol"
  const DateColumn := "date"

  const SystolicLimit: real := 140.0
  const DiastolicLimit: real := 90.0
  const CholesterolLimit: real := 200.0

  /** One cell of a numeric column. A missing cell compares false against every threshold. */
  datatype Reading = Value(v: real) | Missing

  /** One row of the table, restricted to the columns the analysis reads. */
  datatype Row = Row(age: Reading, systolicBp: Reading, diastolicBp: Reading, totalCholesterol: Reading)

  /** A loaded table: the names of its columns and its rows in file order.
      A field of `Row` whose column is absent from `columns` carries no meaning. */
  datatype Table = Table(columns: set<string>, rows: seq<Row>)

  /** Selecting rows by a column that the table lacks raises a key error naming that column. */
  datatype Selection = Selected(table: Table) | KeyError(column: string)

  /** Strict comparison of a cell against a threshold. */
  predicate Exceeds(r: Reading, limit: real)
  {
    r.Value? && r.v > limit
  }

  predicate IsHypertensive(row: Row)
  {
    Exceeds(row.systolicBp, SystolicLimit) || Exceeds(row.diastolicBp, DiastolicLimit)
  }

  predicate HasHighCholesterol(row: Row)
  {
    Exceeds(row.totalCholesterol, CholesterolLimit)
  }

  /** The abnormal blood pressure subset. The systolic column is read before the diastolic one,
      so a table lacking both reports the systolic column. */
  function HypertensionSubset(t: Table): (r: Selection)
    ensures r.KeyError? <==> SystolicColumn !in t.columns || DiastolicColumn !in t.columns
    ensures r.KeyError? ==> r.column !in t.columns && r.column in {SystolicColumn, DiastolicColumn}
    ensures r.KeyError? && SystolicColumn !in t.columns ==> r.column == SystolicColumn
    ensures r.Selected? ==> r.table.columns == t.columns
    ensures r.Selected? ==> forall row :: row in r.table.rows <==> row in t.rows && IsHypertensive(row)
  {
    if SystolicColumn !in t.columns then KeyError(SystolicColumn)
    else if DiastolicColumn !in t.columns then KeyError(DiastolicColumn)
    else Selected(Table(t.columns, Filter(t.rows, IsHypertensive)))
  }

  /** The high cholesterol subset. */
  function HighCholesterolSubset(t: Table): (r: Selection)
    ensures r.KeyError? <==> CholesterolColumn !in t.columns
    ensures r.KeyError? ==> r.column == CholesterolColumn
    ensures r.Selected? ==> r.table.columns == t.columns
    ensures r.Selected? ==> forall row :: row in r.table.rows <==> row in t.rows && HasHighCholesterol(row)
  {
    if CholesterolColumn !in t.columns then KeyError(CholesterolColumn)
    else Selected(Table(t.columns, Filter(t.rows, HasHighCholesterol)))
  }

  /** Readings exactly at a threshold are normal; readings above it are abnormal. */
  lemma ThresholdsAreStrict(age: Reading, other: Reading)
    ensures !IsHypertensive(Row(age, Value(140.0), Value(90.0), other))
    ensures IsHypertensive(Row(age, Value(140.5), Value(90.0), other))
    ensures IsHypertensive(Row(age, Value(140.0), Value(90.5), other))
    ensures !HasHighCholesterol(Row(age, other, other, Value(200.0)))
    ensures HasHighCholesterol(Row(age, other, other, Value(200.5)))
    ensures !IsHypertensive(Row(age, Missing, Missing, other)) && !HasHighCholesterol(Row(age, other, other, Missing))
  {
  }

  /** Each subset keeps exactly the qualifying rows of the source, read at increasing
      row positions, so relative order is preserved and it is a sub-sequence of the source. */
  lemma SubsetsAreOrderedSelections(t: Table)
    ensures HypertensionSubset(t).Selected? ==>
      var sub := HypertensionSubset(t).table.rows;
      && IsSubsequence(sub, t.rows)
      && SelectedAt(sub, t.rows, Positions(t.rows, IsHypertensive))
      && forall i :: 0 <= i < |t.rows| ==> (i in Positions(t.rows, IsHypertensive) <==> IsHypertensive(t.rows[i]))
    ensures HighCholesterolSubset(t).Selected? ==>
      var sub := HighCholesterolSubset(t).table.rows;
      && IsSubsequence(sub, t.rows)
      && SelectedAt(sub, t.rows, Positions(t.rows, HasHighCholesterol))
      && forall i :: 0 <= i < |t.rows| ==> (i in Positions(t.rows, HasHighCholesterol) <==> HasHighCholesterol(t.rows[i]))
  {
    FilterSelectsPositions(t.rows, IsHypertensive);
    FilterIsSubsequence(t.rows, IsHypertensive);
    FilterSelectsPositions(t.rows, HasHighCholesterol);
    FilterIsSubsequence(t.rows, HasHighCholesterol);
  }

  /** Applying a threshold filter to its own output gives the same subset. */
  lemma SubsetsAreIdempotent(t: Table)
    ensures HypertensionSubset(t).Selected? ==>
      HypertensionSubset(HypertensionSubset(t).table) == HypertensionSubset(t)
    ensures HighCholesterolSubset(t).Selected? ==>
      HighCholesterolSubset(HighCholesterolSubset(t).table) == HighCholesterolSubset(t)
  {
    FilterIdempotent(t.rows, IsHypertensive);
    FilterIdempotent(t.rows, HasHighCholesterol);
  }

  /** The two subsets are independent selections from one source: narrowing either subset
      by the other criterion yields the same rows. */
  lemma SubsetsAreIndependent(t: Table)
    requires HypertensionSubset(t).Selected? && HighCholesterolSubset(t).Selected?
    ensures HighCholesterolSubset(HypertensionSubset(t).table) == HypertensionSubset(HighCholesterolSubset(t).table)
  {
    FilterCommutes(t.rows, IsHypertensive, HasHighCholesterol);
  }

  /** The worked example: of a patient aged 30 with 130/80 and cholesterol 190 and one aged 50
      with 150/95 and cholesterol 210, only the second is in either subset. */
  lemma WorkedExample()
    ensures
      var first := Row(Value(30.0), Value(130.0), Value(80.0), Value(190.0));
      var second := Row(Value(50.0), Value(150.0), Value(95.0), Value(210.0));
      var t := Table({AgeColumn, SystolicColumn, DiastolicColumn, CholesterolColumn}, [first, second]);
      && HypertensionSubset(t) == Selected(Table(t.columns, [second]))
      && HighCholesterolSubset(t) == Selected(Table(t.columns, [second]))
  {
    var first := Row(Value(30.0), Value(130.0), Value(80.0), Value(190.0));
    var second := Row(Value(50.0), Value(150.0), Value(95.0), Value(210.0));
    assert [first, second][..1] == [first];
    assert [first][..0] == [];
  }
}
