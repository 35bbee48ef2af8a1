/**
 * Column reconciliation: splitting a flat table's columns into the columns
 * shared with the type table and the bookkeeping ones, and picking the
 * primary-key and foreign-key columns among the latter.
 */
module Reconciler {
  import opened Outcomes
  import opened ComplexTypes

  /** `typeObjTable.getColumn(name)` succeeds: the type table has a column of that name. */
  predicate HasColumnNamed(typeTable: seq<Column>, name: string) {
    exists i :: 0 <= i < |typeTable| && typeTable[i].name == name
  }

  /** The flat columns that the type table also has, in flat-table order. */
  function TypeColumns(typeTable: seq<Column>, flat: seq<Column>): seq<Column> {
    if flat == [] then []
    else
      var last := flat[|flat| - 1];
      TypeColumns(typeTable, flat[..|flat| - 1]) + (if HasColumnNamed(typeTable, last.name) then [last] else [])
  }

  /** The flat columns that the type table does not have, in flat-table order. */
  function OtherColumns(typeTable: seq<Column>, flat: seq<Column>): seq<Column> {
    if flat == [] then []
    else
      var last := flat[|flat| - 1];
      OtherColumns(typeTable, flat[..|flat| - 1]) + (if HasColumnNamed(typeTable, last.name) then [] else [last])
  }

  /**
   * `diffFlatColumns`: every flat column goes, in order, to the type columns
   * when the type table has a column of its name and to the other columns
   * otherwise.
   */
  method DiffFlatColumns(typeTable: seq<Column>, flat: seq<Column>) returns (typeCols: seq<Column>, otherCols: seq<Column>)
    ensures typeCols == TypeColumns(typeTable, flat)
    ensures otherCols == OtherColumns(typeTable, flat)
  {
    typeCols, otherCols := [], [];
    var i := 0;
    while i < |flat|
      invariant 0 <= i <= |flat|
      invariant typeCols == TypeColumns(typeTable, flat[..i])
      invariant otherCols == OtherColumns(typeTable, flat[..i])
    {
      var col := flat[i];
      var found := HasColumnNamed(typeTable, col.name);
      if found {
        typeCols := typeCols + [col];
      } else {
        otherCols := otherCols + [col];
      }
      assert flat[..i + 1][..i] == flat[..i];
      i := i + 1;
    }
    assert flat[..i] == flat;
  }

  /**
   * Every flat column lands in exactly one of the two lists: it is a type
   * column iff the type table has a column of its name, and the two lists
   * together hold the flat columns with their multiplicities.
   */
  lemma {:induction false} DiffFlatColumnsPartitions(typeTable: seq<Column>, flat: seq<Column>)
    ensures multiset(TypeColumns(typeTable, flat)) + multiset(OtherColumns(typeTable, flat)) == multiset(flat)
    ensures |TypeColumns(typeTable, flat)| + |OtherColumns(typeTable, flat)| == |flat|
    ensures forall c :: c in TypeColumns(typeTable, flat) <==> c in flat && HasColumnNamed(typeTable, c.name)
    ensures forall c :: c in OtherColumns(typeTable, flat) <==> c in flat && !HasColumnNamed(typeTable, c.name)
  {
    if flat != [] {
      var init, last := flat[..|flat| - 1], flat[|flat| - 1];
      DiffFlatColumnsPartitions(typeTable, init);
      assert flat == init + [last];
    }
  }

  /** A column `col.isAutoNumber()`: a primary-key candidate. */
  predicate IsPrimaryKeyCandidate(col: Column) {
    col.autoNumber
  }

  /** A column that is not auto-number and whose type is LONG: a foreign-key candidate. */
  predicate IsForeignKeyCandidate(col: Column) {
    !col.autoNumber && col.dataType == Long
  }

  /** The last column of `cols` that satisfies `p`, if any. */
  function LastWhere(cols: seq<Column>, p: Column -> bool): Option<Column> {
    if cols == [] then None
    else if p(cols[|cols| - 1]) then Some(cols[|cols| - 1])
    else LastWhere(cols[..|cols| - 1], p)
  }

  /** `LastWhere` picks a column satisfying `p` after which no column does, and finds none only when no column does. */
  lemma {:induction false} LastWhereIsLast(cols: seq<Column>, p: Column -> bool)
    ensures LastWhere(cols, p).None? <==> forall i :: 0 <= i < |cols| ==> !p(cols[i])
    ensures LastWhere(cols, p).Some? ==>
      exists i :: 0 <= i < |cols| && cols[i] == LastWhere(cols, p).value && p(cols[i]) &&
        forall j :: i < j < |cols| ==> !p(cols[j])
  {
    if cols != [] {
      var n := |cols| - 1;
      if p(cols[n]) {
        assert cols[n] == LastWhere(cols, p).value;
      } else {
        LastWhereIsLast(cols[..n], p);
        assert forall i :: 0 <= i < n ==> cols[..n][i] == cols[i];
        if LastWhere(cols, p).Some? {
          var i :| 0 <= i < n && cols[..n][i] == LastWhere(cols, p).value && p(cols[..n][i]) &&
            forall j :: i < j < n ==> !p(cols[..n][j]);
          assert cols[i] == LastWhere(cols, p).value && p(cols[i]);
        }
      }
    }
  }

  /**
   * The selection loop of the constructor: the primary key is the last
   * auto-number column and the foreign key the last non-auto-number LONG
   * column; the auto-number test is made first.
   */
  method SelectKeyColumns(otherCols: seq<Column>) returns (pkCol: Option<Column>, fkCol: Option<Column>)
    ensures pkCol == LastWhere(otherCols, IsPrimaryKeyCandidate)
    ensures fkCol == LastWhere(otherCols, IsForeignKeyCandidate)
  {
    pkCol, fkCol := None, None;
    for i := 0 to |otherCols|
      invariant pkCol == LastWhere(otherCols[..i], IsPrimaryKeyCandidate)
      invariant fkCol == LastWhere(otherCols[..i], IsForeignKeyCandidate)
    {
      var col := otherCols[i];
      if col.autoNumber {
        pkCol := Some(col);
      } else if col.dataType == Long {
        fkCol := Some(col);
      }
      assert otherCols[..i + 1][..i] == otherCols[..i];
    }
    assert otherCols[..|otherCols|] == otherCols;
  }

  /** The primary-key and foreign-key columns, when both are found, are different columns of `otherCols`. */
  lemma SelectedKeysDiffer(otherCols: seq<Column>)
    requires LastWhere(otherCols, IsPrimaryKeyCandidate).Some?
    requires LastWhere(otherCols, IsForeignKeyCandidate).Some?
    ensures LastWhere(otherCols, IsPrimaryKeyCandidate).value.autoNumber
    ensures !LastWhere(otherCols, IsForeignKeyCandidate).value.autoNumber
    ensures LastWhere(otherCols, IsForeignKeyCandidate).value.dataType == Long
    ensures LastWhere(otherCols, IsPrimaryKeyCandidate).value != LastWhere(otherCols, IsForeignKeyCandidate).value
    ensures LastWhere(otherCols, IsPrimaryKeyCandidate).value in otherCols
    ensures LastWhere(otherCols, IsForeignKeyCandidate).value in otherCols
  {
    LastWhereIsLast(otherCols, IsPrimaryKeyCandidate);
    LastWhereIsLast(otherCols, IsForeignKeyCandidate);
  }
}
