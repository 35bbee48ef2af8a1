/**
 * The complex-column store (`ComplexColumnInfo`): the reconciled schema of a
 * complex column's flat table, its two lazily built cursors and the CRUD
 * surface over the flat table, grouped by the integer foreign key.
 */
module ComplexColumnInfos {
  import opened Outcomes
  import opened ComplexTypes
  import opened Reconciler
  import opened FlatTables
  import opened ComplexValues

  /** An index cursor over the flat table, built on one column. */
  datatype IndexCursor = IndexCursor(indexColumn: Column)

  /**
   * `(Integer)_pkCol.getRowValue(rawValue)`: the integer in a raw row's key
   * cell, `null` when the row has no such cell, and a cast fault for the
   * `AUTO_NUMBER` marker.
   */
  function RawId(pk: Cell): Result<Option<int>, Fault> {
    match pk
    case IntCell(n) => Ok(Some(n))
    case Absent => Ok(None)
    case AutoNumber => Err(KeyNotAnInteger)
  }

  /**
   * Deleting the rows `ids` one after the other, stopping at the first id
   * with no row: the rows left and the number of deletions made.
   */
  function DeleteSequence(rows: map<int, Row>, ids: seq<int>): (r: (map<int, Row>, nat))
    ensures r.1 <= |ids|
  {
    if ids == [] || ids[0] !in rows then (rows, 0)
    else
      var (after, n) := DeleteSequence(rows - {ids[0]}, ids[1..]);
      (after, n + 1)
  }

  /**
   * A batch delete stops at the first id that has no row, which is either
   * an id never stored or one the batch has already deleted: it completes iff
   * every id has a row and no id repeats, and it removes exactly the ids it
   * got through.
   */
  lemma {:induction false} DeleteSequenceSpec(rows: map<int, Row>, ids: seq<int>)
    ensures DeleteSequence(rows, ids).0 == rows - Elems(ids[..DeleteSequence(rows, ids).1])
    ensures forall i :: 0 <= i < DeleteSequence(rows, ids).1 ==> ids[i] in rows
    ensures Distinct(ids[..DeleteSequence(rows, ids).1])
    ensures DeleteSequence(rows, ids).1 < |ids| ==>
      var n := DeleteSequence(rows, ids).1; ids[n] !in rows || ids[n] in ids[..n]
    ensures DeleteSequence(rows, ids).1 == |ids| <==> (forall i :: 0 <= i < |ids| ==> ids[i] in rows) && Distinct(ids)
  {
    if ids != [] && ids[0] in rows {
      var rest := ids[1..];
      var rows' := rows - {ids[0]};
      DeleteSequenceSpec(rows', rest);
      var (after, m) := DeleteSequence(rows', rest);
      assert DeleteSequence(rows, ids) == (after, m + 1);
      assert ids[..m + 1] == [ids[0]] + rest[..m];
      assert Elems(ids[..m + 1]) == {ids[0]} + Elems(rest[..m]);
      assert after == rows - Elems(ids[..m + 1]);
      forall i, j | 0 <= i < j < m + 1
        ensures ids[i] != ids[j]
      {
        assert ids[j] == rest[j - 1];
        if i == 0 {
          assert rest[j - 1] in rows';
        } else {
          assert ids[i] == rest[i - 1];
          assert rest[..m][i - 1] != rest[..m][j - 1];
        }
      }
      if m < |rest| {
        assert ids[m + 1] == rest[m];
        if rest[m] in rest[..m] {
          assert rest[m] in ids[..m + 1];
        } else {
          assert rest[m] !in rows';
          if rest[m] in rows {
            assert rest[m] == ids[0];
          }
        }
      }
      if (forall i :: 0 <= i < |ids| ==> ids[i] in rows) && Distinct(ids) {
        forall i | 0 <= i < |rest|
          ensures rest[i] in rows'
        {
          assert ids[i + 1] != ids[0];
        }
        assert Distinct(rest) by {
          forall i, j | 0 <= i < j < |rest|
            ensures rest[i] != rest[j]
          {
            assert ids[i + 1] != ids[j + 1];
          }
        }
      }
    } else if ids != [] {
      assert ids[..0] == [];
    }
  }

  /**
   * The ids a batch delete from `rows0` gets through are exactly the first
   * `n`: they are distinct keys of `rows0`, and the next id, if any, has no
   * row by then.
   */
  ghost predicate StopsAt(rows0: map<int, Row>, ids: seq<int>, n: nat) {
    && n <= |ids|
    && Distinct(ids[..n])
    && (forall j :: 0 <= j < n ==> ids[j] in rows0)
    && (n < |ids| ==> ids[n] !in rows0 || ids[n] in ids[..n])
  }

  /** After the first `i` deletions, id `i` still has a row exactly when the batch goes on past it. */
  lemma StopStep(rows0: map<int, Row>, ids: seq<int>, n: nat, i: nat)
    requires StopsAt(rows0, ids, n) && i <= n && i < |ids|
    ensures ids[i] in rows0 - Elems(ids[..i]) <==> i < n
  {
    if i < n {
      forall l | 0 <= l < i
        ensures ids[l] != ids[i]
      {
        assert ids[..n][l] == ids[l] && ids[..n][i] == ids[i];
      }
    } else if ids[i] in ids[..i] {
      assert ids[i] in Elems(ids[..i]);
    }
  }

  /**
   * Overwriting rows one after the other, stopping at the first key with no
   * row: the rows left and the number of updates made.
   */
  function UpdateSequence(rows: map<int, Row>, writes: seq<(int, Row)>): (r: (map<int, Row>, nat))
    ensures r.1 <= |writes|
  {
    if writes == [] || writes[0].0 !in rows then (rows, 0)
    else
      var (after, n) := UpdateSequence(rows[writes[0].0 := Stored(writes[0].0, writes[0].1)], writes[1..]);
      (after, n + 1)
  }

  /**
   * A batch update stops at the first key with no row, and never adds or
   * removes a row.
   */
  lemma {:induction false} UpdateSequenceReach(rows: map<int, Row>, writes: seq<(int, Row)>)
    ensures UpdateSequence(rows, writes).0.Keys == rows.Keys
    ensures forall i :: 0 <= i < UpdateSequence(rows, writes).1 ==> writes[i].0 in rows
    ensures UpdateSequence(rows, writes).1 < |writes| ==> writes[UpdateSequence(rows, writes).1].0 !in rows
  {
    if writes != [] && writes[0].0 in rows {
      var rows' := rows[writes[0].0 := Stored(writes[0].0, writes[0].1)];
      var rest := writes[1..];
      UpdateSequenceReach(rows', rest);
      var m := UpdateSequence(rows', rest).1;
      assert UpdateSequence(rows, writes).1 == m + 1;
      assert rows'.Keys == rows.Keys;
      forall i | 0 <= i < m + 1
        ensures writes[i].0 in rows
      {
        if i > 0 { assert writes[i] == rest[i - 1]; }
      }
      if m < |rest| {
        assert writes[m + 1] == rest[m];
      }
    }
  }

  /** A row the batch update does not reach keeps its contents. */
  lemma {:induction false} UpdateSequenceUntouched(rows: map<int, Row>, writes: seq<(int, Row)>, k: int)
    requires k in rows
    requires forall i :: 0 <= i < UpdateSequence(rows, writes).1 ==> writes[i].0 != k
    ensures k in UpdateSequence(rows, writes).0 && UpdateSequence(rows, writes).0[k] == rows[k]
  {
    UpdateSequenceReach(rows, writes);
    if writes != [] && writes[0].0 in rows {
      var rows' := rows[writes[0].0 := Stored(writes[0].0, writes[0].1)];
      var rest := writes[1..];
      var m := UpdateSequence(rows', rest).1;
      assert UpdateSequence(rows, writes) == (UpdateSequence(rows', rest).0, m + 1);
      assert writes[0].0 != k;
      forall i | 0 <= i < m
        ensures rest[i].0 != k
      {
        assert rest[i] == writes[i + 1];
      }
      UpdateSequenceUntouched(rows', rest, k);
    }
  }

  /** A row the batch update writes keeps the last write made to it. */
  lemma {:induction false} UpdateSequenceLastWrite(rows: map<int, Row>, writes: seq<(int, Row)>, i: nat)
    requires i < UpdateSequence(rows, writes).1
    requires forall j :: i < j < UpdateSequence(rows, writes).1 ==> writes[j].0 != writes[i].0
    ensures writes[i].0 in UpdateSequence(rows, writes).0
    ensures UpdateSequence(rows, writes).0[writes[i].0] == Stored(writes[i].0, writes[i].1)
  {
    UpdateSequenceReach(rows, writes);
    var rows' := rows[writes[0].0 := Stored(writes[0].0, writes[0].1)];
    var rest := writes[1..];
    var m := UpdateSequence(rows', rest).1;
    assert UpdateSequence(rows, writes) == (UpdateSequence(rows', rest).0, m + 1);
    if i == 0 {
      forall j | 0 <= j < m
        ensures rest[j].0 != writes[0].0
      {
        assert rest[j] == writes[j + 1];
      }
      UpdateSequenceUntouched(rows', rest, writes[0].0);
    } else {
      assert writes[i] == rest[i - 1];
      forall j | i - 1 < j < m
        ensures rest[j].0 != rest[i - 1].0
      {
        assert rest[j] == writes[j + 1];
      }
      UpdateSequenceLastWrite(rows', rest, i - 1);
    }
  }

  /** The `n` keys the auto-number counter hands out from `start`, in order. */
  function KeysFrom(start: int, n: nat): (keys: seq<int>)
    ensures |keys| == n
  {
    if n == 0 then [] else KeysFrom(start, n - 1) + [start + n - 1]
  }

  /** Handing out one more key appends it to the order. */
  lemma KeysFromStep(order0: seq<int>, start: int, n: nat)
    ensures (order0 + KeysFrom(start, n)) + [start + n] == order0 + KeysFrom(start, n + 1)
  {
    assert KeysFrom(start, n + 1) == KeysFrom(start, n) + [start + n];
  }

  /**
   * One more insert under the next key extends a batch insert by one row:
   * the table after it is the table the batch with that row describes.
   */
  ghost predicate BatchState(next: int, order: seq<int>, rows: map<int, Row>,
                             next0: int, order0: seq<int>, rows0: map<int, Row>, added: seq<Row>)
  {
    && next == next0 + |added|
    && order == order0 + KeysFrom(next0, |added|)
    && rows == Inserted(rows0, next0, added)
  }

  lemma BatchStep(rows0: map<int, Row>, order0: seq<int>, next0: int, added: seq<Row>, row: Row,
                  rows: map<int, Row>, order: seq<int>, next: int)
    requires BatchState(next, order, rows, next0, order0, rows0, added)
    ensures BatchState(next + 1, order + [next], rows[next := Stored(next, row)], next0, order0, rows0, added + [row])
  {
    KeysFromStep(order0, next0, |added|);
    InsertedStep(rows0, next0, added, row);
  }

  /**
   * The first `i` values were unbound (`ids0`) before the batch and now hold
   * (`ids`) the keys `next0`, `next0 + 1`, ...; every later value holds its
   * id from before the batch unless it is one of the first `i`.
   */
  ghost predicate PrefixBound<T>(values: seq<T>, ids: seq<int>, ids0: seq<int>, next0: int, i: nat) {
    && i <= |values| == |ids| == |ids0|
    && (forall j :: 0 <= j < i ==> ids0[j] == INVALID_ID && ids[j] == next0 + j)
    && (forall j :: i <= j < |values| ==> ids[j] == ids0[j] || values[j] in values[..i])
  }

  /** The ids after value `i` is bound to `key`: every occurrence of that value holds `key`. */
  ghost function Rebound<T>(values: seq<T>, ids: seq<int>, i: nat, key: int): (ids1: seq<int>)
    requires i < |values| == |ids|
    ensures |ids1| == |ids| && ids1[i] == key
    ensures forall j :: 0 <= j < |ids| ==> ids1[j] == if values[j] == values[i] then key else ids[j]
  {
    seq(|ids|, j requires 0 <= j < |ids| => if values[j] == values[i] then key else ids[j])
  }

  /**
   * The value at `i` may be bound only when it held no id: then it was
   * unbound before the batch and is none of the values already bound (a
   * repeated value holds the same id at each of its places).
   */
  lemma PrefixBoundCause<T>(values: seq<T>, ids: seq<int>, ids0: seq<int>, next0: int, i: nat)
    requires PrefixBound(values, ids, ids0, next0, i) && i < |values| && 1 <= next0
    requires forall l :: 0 <= l < i && values[l] == values[i] ==> ids[l] == ids[i]
    ensures ids[i] == INVALID_ID <==> ids0[i] == INVALID_ID && values[i] !in values[..i]
  {
    if values[i] in values[..i] {
      var l :| 0 <= l < i && values[..i][l] == values[i];
      assert ids[l] == next0 + l;
    }
  }

  /** Binding the value at `i`, which held no id, to key `next0 + i` extends the bound prefix by one. */
  lemma BindStep<T>(values: seq<T>, ids: seq<int>, ids1: seq<int>, ids0: seq<int>, next0: int, i: nat)
    requires PrefixBound(values, ids, ids0, next0, i) && i < |values| && 1 <= next0
    requires forall l :: 0 <= l < i && values[l] == values[i] ==> ids[l] == ids[i]
    requires ids[i] == INVALID_ID
    requires ids1 == Rebound(values, ids, i, next0 + i)
    ensures PrefixBound(values, ids1, ids0, next0, i + 1)
  {
    PrefixBoundCause(values, ids, ids0, next0, i);
    forall j | 0 <= j < i ensures values[j] != values[i] {
      assert ids[j] == next0 + j;
    }
    forall j | i < j < |values|
      ensures ids1[j] == ids0[j] || values[j] in values[..i + 1]
    {
      if values[j] == values[i] {
        assert values[..i + 1][i] == values[j];
      } else if values[j] in values[..i] {
        var l :| 0 <= l < i && values[..i][l] == values[j];
        assert values[..i + 1][l] == values[j];
      }
    }
  }

  /** The rows `rows0` with the rows `added` stored one after the other under the keys counted from `start`. */
  function Inserted(rows0: map<int, Row>, start: int, added: seq<Row>): map<int, Row> {
    if added == [] then rows0
    else
      var k := start + |added| - 1;
      Inserted(rows0, start, added[..|added| - 1])[k := Stored(k, added[|added| - 1])]
  }

  /** Inserting one more row stores it under the next key. */
  lemma InsertedStep(rows0: map<int, Row>, start: int, added: seq<Row>, row: Row)
    ensures Inserted(rows0, start, added + [row]) == Inserted(rows0, start, added)[start + |added| := Stored(start + |added|, row)]
  {
    assert (added + [row])[..|added|] == added;
  }

  /**
   * A batch insert under keys the table has not used yet keeps every earlier
   * row, stores the `j`-th added row under key `start + j`, and adds no other
   * key.
   */
  lemma {:induction false} InsertedSpec(rows0: map<int, Row>, start: int, added: seq<Row>)
    requires forall k :: k in rows0 ==> k < start
    ensures Inserted(rows0, start, added).Keys == rows0.Keys + Elems(KeysFrom(start, |added|))
    ensures forall k :: k in rows0 ==> Inserted(rows0, start, added)[k] == rows0[k]
    ensures forall k :: start <= k < start + |added| ==>
      k in Inserted(rows0, start, added) && Inserted(rows0, start, added)[k] == Stored(k, added[k - start])
  {
    if added != [] {
      var n := |added|;
      InsertedSpec(rows0, start, added[..n - 1]);
      assert KeysFrom(start, n) == KeysFrom(start, n - 1) + [start + n - 1];
      assert Elems(KeysFrom(start, n)) == Elems(KeysFrom(start, n - 1)) + {start + n - 1};
    }
    forall k | start <= k < start + |added|
      ensures k in Inserted(rows0, start, added) && Inserted(rows0, start, added)[k] == Stored(k, added[k - start])
    {
      InsertedAt(rows0, start, added, k - start);
    }
  }

  /** After a batch insert, the `j`-th added row is stored under key `start + j`. */
  lemma {:induction false} InsertedAt(rows0: map<int, Row>, start: int, added: seq<Row>, j: nat)
    requires j < |added|
    ensures start + j in Inserted(rows0, start, added) && Inserted(rows0, start, added)[start + j] == Stored(start + j, added[j])
  {
    var n := |added|;
    if j < n - 1 {
      var front := added[..n - 1];
      InsertedAt(rows0, start, front, j);
      assert front[j] == added[j];
    }
  }

  class ComplexColumnInfo {
    /** The owning complex column. */
    const column: Column
    const complexTypeId: int
    /** The variant (`getType()`). */
    const kind: ComplexDataType
    const flatTable: FlatTable
    const typeCols: seq<Column>
    const pkCol: Column
    const complexValFkCol: Column
    /** The variant codec: a value's content to the row's type cells, and back. */
    const encode: map<string, Value> -> map<string, Value>
    const decode: map<string, Value> -> map<string, Value>
    var pkCursor: Option<IndexCursor>
    var complexValIdCursor: Option<IndexCursor>
    /** How many times each cursor has been built. */
    ghost var pkCursorBuilds: nat
    ghost var complexValIdCursorBuilds: nat

    /** The table is consistent, and each cursor has been built at most once, over its own column. */
    ghost predicate Valid()
      reads this, flatTable
    {
      && flatTable.Valid()
      && pkCursorBuilds == (if pkCursor.Some? then 1 else 0)
      && complexValIdCursorBuilds == (if complexValIdCursor.Some? then 1 else 0)
      && (pkCursor.Some? ==> pkCursor.value == IndexCursor(pkCol))
      && (complexValIdCursor.Some? ==> complexValIdCursor.value == IndexCursor(complexValFkCol))
    }

    /** A cursor, once built, is kept and reused. */
    twostate predicate CursorsKept()
      reads this
    {
      && (old(pkCursor).Some? ==> pkCursor == old(pkCursor) && pkCursorBuilds == old(pkCursorBuilds))
      && (old(complexValIdCursor).Some? ==> complexValIdCursor == old(complexValIdCursor) && complexValIdCursorBuilds == old(complexValIdCursorBuilds))
    }

    constructor (column: Column, complexTypeId: int, kind: ComplexDataType, flatTable: FlatTable,
                 typeCols: seq<Column>, pkCol: Column, complexValFkCol: Column,
                 encode: map<string, Value> -> map<string, Value>, decode: map<string, Value> -> map<string, Value>)
      requires flatTable.Valid()
      ensures Valid()
      ensures this.column == column && this.complexTypeId == complexTypeId && this.kind == kind
      ensures this.flatTable == flatTable && this.typeCols == typeCols
      ensures this.pkCol == pkCol && this.complexValFkCol == complexValFkCol
      ensures this.encode == encode && this.decode == decode
      ensures pkCursor.None? && complexValIdCursor.None?
    {
      this.column, this.complexTypeId, this.kind, this.flatTable := column, complexTypeId, kind, flatTable;
      this.typeCols, this.pkCol, this.complexValFkCol := typeCols, pkCol, complexValFkCol;
      this.encode, this.decode := encode, decode;
      pkCursor, complexValIdCursor := None, None;
      pkCursorBuilds, complexValIdCursorBuilds := 0, 0;
    }

    /**
     * The constructor: the flat columns are split against the type table, the
     * primary key is the last auto-number other column and the foreign key the
     * last non-auto-number LONG one; if either is missing construction fails.
     */
    static method Open(column: Column, complexTypeId: int, kind: ComplexDataType, typeTable: seq<Column>,
                       flatTable: FlatTable, encode: map<string, Value> -> map<string, Value>,
                       decode: map<string, Value> -> map<string, Value>)
      returns (r: Result<ComplexColumnInfo, Fault>)
      requires flatTable.Valid()
      ensures var others := OtherColumns(typeTable, flatTable.columns);
        r.Ok? <==> LastWhere(others, IsPrimaryKeyCandidate).Some? && LastWhere(others, IsForeignKeyCandidate).Some?
      ensures r.Err? ==> r.error == MissingKeyColumns(flatTable.name, complexTypeId)
      ensures r.Ok? ==>
        && fresh(r.value) && r.value.Valid()
        && r.value.flatTable == flatTable && r.value.column == column && r.value.complexTypeId == complexTypeId
        && r.value.kind == kind && r.value.encode == encode && r.value.decode == decode
        && r.value.typeCols == TypeColumns(typeTable, flatTable.columns)
        && r.value.pkCol == LastWhere(OtherColumns(typeTable, flatTable.columns), IsPrimaryKeyCandidate).value
        && r.value.complexValFkCol == LastWhere(OtherColumns(typeTable, flatTable.columns), IsForeignKeyCandidate).value
        && r.value.pkCursor.None? && r.value.complexValIdCursor.None?
    {
      var typeCols, otherCols := DiffFlatColumns(typeTable, flatTable.columns);
      var pkCol, fkCol := SelectKeyColumns(otherCols);
      if pkCol.None? || fkCol.None? {
        return Err(MissingKeyColumns(flatTable.name, complexTypeId));
      }
      var info := new ComplexColumnInfo(column, complexTypeId, kind, flatTable, typeCols, pkCol.value, fkCol.value, encode, decode);
      r := Ok(info);
    }

    /** The lazy creation of the foreign-key cursor in `getComplexValFkIter`. */
    method BuildComplexValIdCursor()
      requires Valid()
      modifies this`complexValIdCursor, this`complexValIdCursorBuilds
      ensures Valid() && CursorsKept()
      ensures complexValIdCursor == Some(IndexCursor(complexValFkCol))
    {
      if complexValIdCursor.None? {
        complexValIdCursor := Some(IndexCursor(complexValFkCol));
        complexValIdCursorBuilds := complexValIdCursorBuilds + 1;
      }
    }

    /** The lazy creation of the primary-key cursor in `moveToRow`. */
    method BuildPkCursor()
      requires Valid()
      modifies this`pkCursor, this`pkCursorBuilds
      ensures Valid() && CursorsKept()
      ensures pkCursor == Some(IndexCursor(pkCol))
    {
      if pkCursor.None? {
        pkCursor := Some(IndexCursor(pkCol));
        pkCursorBuilds := pkCursorBuilds + 1;
      }
    }

    /**
     * `getRawValues`: the rows of group `complexValueFk` in the order the
     * foreign-key cursor visits them, and the empty list for an absent group.
     */
    method GetRawValues(complexValueFk: int) returns (values: seq<Row>)
      requires Valid()
      modifies this`complexValIdCursor, this`complexValIdCursorBuilds
      ensures Valid() && CursorsKept() && complexValIdCursor.Some?
      ensures values == flatTable.Entries(complexValueFk)
      ensures values == [] <==> GroupKeySet(flatTable.rows, complexValueFk) == {}
      ensures forall i :: 0 <= i < |values| ==> values[i].fk == IntCell(complexValueFk) && values[i] in flatTable.rows.Values
      ensures forall k :: k in flatTable.rows && flatTable.rows[k].fk == IntCell(complexValueFk) ==> flatTable.rows[k] in values
    {
      BuildComplexValIdCursor();
      GroupIsExactlyTheGroup(flatTable.order, flatTable.rows, complexValueFk);
      var entryIter := flatTable.Entries(complexValueFk);
      if entryIter == [] {
        return [];
      }
      values := CopyRows(entryIter);
    }

    /** The loop of `getRawValues` that collects the rows a scan yields. */
    static method CopyRows(entryIter: seq<Row>) returns (values: seq<Row>)
      ensures values == entryIter
    {
      values := [];
      var i := 0;
      while i < |entryIter|
        invariant 0 <= i <= |entryIter|
        invariant values == entryIter[..i]
      {
        values := values + [entryIter[i]];
        i := i + 1;
      }
    }

    /** `countValues`: the number of rows in group `complexValueFk`. */
    method CountValues(complexValueFk: int) returns (count: nat)
      requires Valid()
      modifies this`complexValIdCursor, this`complexValIdCursorBuilds
      ensures Valid() && CursorsKept() && complexValIdCursor.Some?
      ensures count == |flatTable.Entries(complexValueFk)|
      ensures count == 0 <==> GroupKeySet(flatTable.rows, complexValueFk) == {}
    {
      var values := GetRawValues(complexValueFk);
      count := |values|;
    }

    /** What the variant's `toValue` builds from a stored row: the row's key as id, the given handle, the decoded content. */
    function ToValue(complexValueFk: ComplexValueForeignKey, rawValue: Row): ValueState
      requires rawValue.pk.IntCell?
    {
      ValueState(kind, rawValue.pk.n, complexValueFk, decode(rawValue.payload))
    }

    /** `toValues`: one new value per raw row, in order. */
    method ToValues(complexValueFk: ComplexValueForeignKey, rawValues: seq<Row>) returns (values: seq<ComplexValueImpl>)
      requires forall i :: 0 <= i < |rawValues| ==> rawValues[i].pk.IntCell?
      ensures |values| == |rawValues|
      ensures forall i :: 0 <= i < |values| ==> fresh(values[i]) && values[i].State() == ToValue(complexValueFk, rawValues[i])
      ensures forall i, j :: 0 <= i < j < |values| ==> values[i] != values[j]
    {
      values := [];
      for i := 0 to |rawValues|
        invariant |values| == i
        invariant forall j :: 0 <= j < i ==> fresh(values[j]) && values[j].State() == ToValue(complexValueFk, rawValues[j])
        invariant forall j, l :: 0 <= j < l < i ==> values[j] != values[l]
      {
        var rawValue := rawValues[i];
        var value := new ComplexValueImpl(kind, rawValue.pk.n, complexValueFk, decode(rawValue.payload));
        values := values + [value];
      }
    }

    /**
     * `getValues`: the values of the handle's group, one per row in scan
     * order, each carrying the row's key and the handle; empty when the group
     * is.
     */
    method GetValues(complexValueFk: ComplexValueForeignKey) returns (values: seq<ComplexValueImpl>)
      requires Valid()
      modifies this`complexValIdCursor, this`complexValIdCursorBuilds
      ensures Valid() && CursorsKept() && complexValIdCursor.Some?
      ensures |values| == |flatTable.Entries(complexValueFk.Get())|
      ensures forall i :: 0 <= i < |values| ==>
        fresh(values[i]) && values[i].State() == ToValue(complexValueFk, flatTable.Entries(complexValueFk.Get())[i])
      ensures forall i, j :: 0 <= i < j < |values| ==> values[i] != values[j]
    {
      var rawValues := GetRawValues(complexValueFk.Get());
      if rawValues == [] {
        return [];
      }
      values := ToValues(complexValueFk, rawValues);
    }

    /** `asRow`: the row written for a value; a key cell holds the id or handle value, or `AUTO_NUMBER` when that is unset. */
    function AsRow(value: ComplexValueImpl): (row: Row)
      reads value
      ensures row.pk == KeyCell(value.id) && row.fk == KeyCell(value.complexValueFk.Get())
    {
      Row(KeyCell(value.id), KeyCell(value.complexValueFk.Get()), encode(value.fields))
    }

    /** `addRawValue`: the row is inserted under a newly generated key, which is returned. */
    method AddRawValue(rawValue: Row) returns (id: int)
      requires Valid()
      modifies flatTable
      ensures Valid()
      ensures id == old(flatTable.nextAutoNumber) && id !in old(flatTable.rows)
      ensures flatTable.rows == old(flatTable.rows)[id := Stored(id, rawValue)]
      ensures flatTable.order == old(flatTable.order) + [id]
      ensures flatTable.nextAutoNumber == id + 1
    {
      id := flatTable.AddRow(rawValue);
    }

    /**
     * `addValue`: the value's row is inserted under a newly generated key and
     * the key is bound to the value; a value already bound keeps its id and
     * the call faults, after its row has been inserted all the same.
     */
    method AddValue(value: ComplexValueImpl) returns (r: Result<int, Fault>)
      requires Valid()
      modifies flatTable, value`id
      ensures Valid()
      ensures old(flatTable.nextAutoNumber) !in old(flatTable.rows)
      ensures flatTable.rows == old(flatTable.rows)[old(flatTable.nextAutoNumber) :=
                Row(IntCell(old(flatTable.nextAutoNumber)), KeyCell(value.complexValueFk.Get()), encode(value.fields))]
      ensures flatTable.order == old(flatTable.order) + [old(flatTable.nextAutoNumber)]
      ensures flatTable.nextAutoNumber == old(flatTable.nextAutoNumber) + 1
      ensures old(value.id) == INVALID_ID ==> r == Ok(old(flatTable.nextAutoNumber)) && value.id == old(flatTable.nextAutoNumber)
      ensures old(value.id) != INVALID_ID ==> r == Err(IdMayNotBeReset) && value.id == old(value.id)
    {
      var row := AsRow(value);
      var id := flatTable.AddRow(row);
      var bound := value.SetId(id);
      if bound.Fail? {
        return Err(bound.error);
      }
      r := Ok(id);
    }

    /**
     * After `|added|` steps of `addValues` starting from the table state
     * `next0`, `order0`, `rows0`: the keys handed out follow `next0` in order
     * and the rows `added` are stored under them.
     */
    ghost predicate BatchInserted(next0: int, order0: seq<int>, rows0: map<int, Row>, added: seq<Row>)
      reads flatTable
    {
      BatchState(flatTable.nextAutoNumber, flatTable.order, flatTable.rows, next0, order0, rows0, added)
    }

    /** The rows `added` carry the foreign keys `fks` and the encoded fields `fields`, one for one. */
    ghost predicate RowsOfValues(added: seq<Row>, fks: seq<ComplexValueForeignKey>, fields: seq<map<string, Value>>) {
      && |added| <= |fks| && |added| <= |fields|
      && forall j :: 0 <= j < |added| ==> added[j].fk == KeyCell(fks[j].Get()) && added[j].payload == encode(fields[j])
    }

    /** One more row made from the next value's foreign key and fields keeps the rows matched to the values. */
    lemma RowsOfValuesStep(added: seq<Row>, row: Row, fks: seq<ComplexValueForeignKey>, fields: seq<map<string, Value>>)
      requires RowsOfValues(added, fks, fields) && |added| < |fks| && |added| < |fields|
      requires row.fk == KeyCell(fks[|added|].Get()) && row.payload == encode(fields[|added|])
      ensures RowsOfValues(added + [row], fks, fields)
    {
    }

    /** The values hold the ids `ids`, one for one. */
    ghost predicate HoldIds(values: seq<ComplexValueImpl>, ids: seq<int>)
      reads values
    {
      |values| == |ids| && forall j :: 0 <= j < |values| ==> values[j].id == ids[j]
    }

    /** `addValue` on `values[i]`, tracking the ids of the whole batch. */
    method AddBound(values: seq<ComplexValueImpl>, i: nat, value: ComplexValueImpl,
                         ghost ids0: seq<int>, ghost ids: seq<int>, ghost next0: int)
      returns (res: Result<int, Fault>, ghost ids1: seq<int>)
      requires Valid() && i < |values| && values[i] == value && 1 <= next0 && flatTable.nextAutoNumber == next0 + i
      requires HoldIds(values, ids) && PrefixBound(values, ids, ids0, next0, i)
      modifies flatTable, value`id
      ensures Valid()
      ensures flatTable.rows == old(flatTable.rows)[next0 + i := Stored(next0 + i, old(AsRow(value)))]
      ensures flatTable.order == old(flatTable.order) + [next0 + i] && flatTable.nextAutoNumber == next0 + i + 1
      ensures HoldIds(values, ids1)
      ensures res.Ok? ==> PrefixBound(values, ids1, ids0, next0, i + 1)
      ensures res.Err? ==> res.error == IdMayNotBeReset && (ids0[i] != INVALID_ID || values[i] in values[..i])
      ensures res.Err? ==> ids1 == ids
    {
      assert value.id == ids[i];
      PrefixBoundCause(values, ids, ids0, next0, i);
      res := AddValue(value);
      if res.Ok? {
        ids1 := Rebound(values, ids, i, next0 + i);
        BindStep(values, ids, ids1, ids0, next0, i);
      } else {
        ids1 := ids;
      }
    }

    /** One iteration of `addValues`: `addValue` on `values[i]`. */
    method AddValuesStep(values: seq<ComplexValueImpl>, i: nat, value: ComplexValueImpl,
                         ghost ids0: seq<int>, ghost ids: seq<int>,
                         ghost fks0: seq<ComplexValueForeignKey>, ghost fields0: seq<map<string, Value>>,
                         ghost next0: int, ghost order0: seq<int>, ghost rows0: map<int, Row>, ghost added: seq<Row>)
      returns (res: Result<int, Fault>, ghost ids1: seq<int>, ghost added1: seq<Row>)
      requires Valid() && i < |values| == |fks0| == |fields0| && values[i] == value && 1 <= next0 && |added| == i
      requires BatchInserted(next0, order0, rows0, added) && RowsOfValues(added, fks0, fields0)
      requires HoldIds(values, ids) && PrefixBound(values, ids, ids0, next0, i)
      requires value.complexValueFk == fks0[i] && value.fields == fields0[i]
      modifies flatTable, value`id
      ensures Valid()
      ensures BatchInserted(next0, order0, rows0, added1) && RowsOfValues(added1, fks0, fields0) && |added1| == i + 1
      ensures HoldIds(values, ids1)
      ensures res.Ok? ==> PrefixBound(values, ids1, ids0, next0, i + 1)
      ensures res.Err? ==> res.error == IdMayNotBeReset && (ids0[i] != INVALID_ID || values[i] in values[..i])
      ensures res.Err? ==> ids1 == ids
    {
      var row := AsRow(value);
      added1 := added + [row];
      BatchStep(rows0, order0, next0, added, row, flatTable.rows, flatTable.order, flatTable.nextAutoNumber);
      RowsOfValuesStep(added, row, fks0, fields0);
      res, ids1 := AddBound(values, i, value, ids0, ids, next0);
    }

    /** The values hold the foreign keys `fks` and the fields `fields`, one for one. */
    ghost predicate HoldContent(values: seq<ComplexValueImpl>, fks: seq<ComplexValueForeignKey>, fields: seq<map<string, Value>>)
      reads values
    {
      && |values| == |fks| == |fields|
      && forall j :: 0 <= j < |values| ==> values[j].complexValueFk == fks[j] && values[j].fields == fields[j]
    }

    /** The loop of `addValues`, stated over the values' ids, foreign keys and fields before the batch. */
    method AddValuesLoop(values: seq<ComplexValueImpl>, ghost ids0: seq<int>,
                         ghost fks0: seq<ComplexValueForeignKey>, ghost fields0: seq<map<string, Value>>)
      returns (r: Outcome<Fault>, ghost processed: nat, ghost added: seq<Row>, ghost ids: seq<int>)
      requires Valid() && HoldIds(values, ids0) && HoldContent(values, fks0, fields0)
      modifies flatTable, values`id
      ensures Valid() && processed <= |values| && (r.Pass? <==> processed == |values|)
      ensures |added| == (if r.Pass? then processed else processed + 1)
      ensures BatchState(flatTable.nextAutoNumber, flatTable.order, flatTable.rows,
                         old(flatTable.nextAutoNumber), old(flatTable.order), old(flatTable.rows), added)
      ensures RowsOfValues(added, fks0, fields0)
      ensures HoldIds(values, ids) && PrefixBound(values, ids, ids0, old(flatTable.nextAutoNumber), processed)
      ensures r.Fail? ==> processed < |values| && r.error == IdMayNotBeReset &&
                          (ids0[processed] != INVALID_ID || values[processed] in values[..processed])
    {
      ghost var next0, order0, rows0 := flatTable.nextAutoNumber, flatTable.order, flatTable.rows;
      ids := ids0;
      processed, added := 0, [];
      assert order0 + KeysFrom(next0, 0) == order0;
      var i := 0;
      r := Pass;
      while i < |values|
        invariant i == processed <= |values| == |fks0| == |fields0| && |added| == i
        invariant Valid() && BatchInserted(next0, order0, rows0, added) && RowsOfValues(added, fks0, fields0)
        invariant HoldIds(values, ids) && PrefixBound(values, ids, ids0, next0, i)
      {
        assert values[i].complexValueFk == fks0[i] && values[i].fields == fields0[i];
        var res;
        res, ids, added := AddValuesStep(values, i, values[i], ids0, ids, fks0, fields0, next0, order0, rows0, added);
        if res.Err? {
          r := Fail(res.error);
          break;
        }
        processed, i := processed + 1, i + 1;
      }
    }

    /**
     * `addValues`: `addValue` on each value in turn, with no rollback. The
     * batch stops at the first value that is already bound (before the call
     * or by an earlier element of the same batch); that value's row is
     * inserted too.
     */
    method AddValues(values: seq<ComplexValueImpl>) returns (r: Outcome<Fault>, ghost processed: nat, ghost added: seq<Row>)
      requires Valid()
      modifies flatTable, values`id
      ensures Valid()
      ensures processed <= |values| && (r.Pass? <==> processed == |values|)
      ensures forall i :: 0 <= i < processed ==> old(values[i].id) == INVALID_ID && values[i].id == old(flatTable.nextAutoNumber) + i
      ensures forall i, j :: 0 <= i < j < processed ==> values[i] != values[j]
      ensures r.Fail? ==>
                r.error == IdMayNotBeReset &&
                (old(values[processed].id) != INVALID_ID || values[processed] in values[..processed])
      ensures |added| == (if r.Pass? then processed else processed + 1)
      ensures forall i :: 0 <= i < |added| ==>
        added[i].fk == KeyCell(old(values[i].complexValueFk).Get()) && added[i].payload == encode(old(values[i].fields))
      ensures flatTable.nextAutoNumber == old(flatTable.nextAutoNumber) + |added|
      ensures flatTable.order == old(flatTable.order) + KeysFrom(old(flatTable.nextAutoNumber), |added|)
      ensures flatTable.rows == Inserted(old(flatTable.rows), old(flatTable.nextAutoNumber), added)
      ensures forall j :: processed <= j < |values| && values[j] !in values[..processed] ==> values[j].id == old(values[j].id)
    {
      ghost var ids0 := seq(|values|, j requires 0 <= j < |values| reads values => values[j].id);
      ghost var fks0 := seq(|values|, j requires 0 <= j < |values| reads values => values[j].complexValueFk);
      ghost var fields0 := seq(|values|, j requires 0 <= j < |values| reads values => values[j].fields);
      assert HoldIds(values, ids0) && HoldContent(values, fks0, fields0);
      ghost var ids;
      r, processed, added, ids := AddValuesLoop(values, ids0, fks0, fields0);
    }

    /** `moveToRow`: builds the primary-key cursor if needed and faults when no row has key `id`. */
    method MoveToRow(id: Option<int>) returns (r: Outcome<Fault>)
      requires Valid()
      modifies this`pkCursor, this`pkCursorBuilds
      ensures Valid() && CursorsKept() && pkCursor.Some?
      ensures r == (if id.Some? && id.value in flatTable.rows then Pass else Fail(RowNotFound(id)))
    {
      BuildPkCursor();
      var found := false;
      if id.Some? {
        found := flatTable.FindRowByEntry(id.value);
      }
      if !found {
        return Fail(RowNotFound(id));
      }
      r := Pass;
    }

    /** `updateRow`: the row with key `id` is overwritten in place (its key kept); a missing row faults and nothing changes. */
    method UpdateRow(id: Option<int>, row: Row) returns (r: Outcome<Fault>)
      requires Valid()
      modifies this`pkCursor, this`pkCursorBuilds, flatTable
      ensures Valid() && CursorsKept() && pkCursor.Some?
      ensures r.Pass? <==> id.Some? && id.value in old(flatTable.rows)
      ensures r.Fail? ==> r.error == RowNotFound(id) && flatTable.rows == old(flatTable.rows)
      ensures r.Pass? ==> flatTable.rows == old(flatTable.rows)[id.value := Stored(id.value, row)]
      ensures flatTable.order == old(flatTable.order) && flatTable.nextAutoNumber == old(flatTable.nextAutoNumber)
    {
      r := MoveToRow(id);
      if r.Pass? {
        flatTable.UpdateRow(id.value, row);
      }
    }

    /** `deleteRow`: the row with key `id` is removed; a missing row faults and nothing changes. */
    method DeleteRow(id: Option<int>) returns (r: Outcome<Fault>)
      requires Valid()
      modifies this`pkCursor, this`pkCursorBuilds, flatTable
      ensures Valid() && CursorsKept() && pkCursor.Some?
      ensures r.Pass? <==> id.Some? && id.value in old(flatTable.rows)
      ensures r.Fail? ==> r.error == RowNotFound(id) && flatTable.rows == old(flatTable.rows) && flatTable.order == old(flatTable.order)
      ensures r.Pass? ==> flatTable.rows == old(flatTable.rows) - {id.value} && flatTable.order == Without(old(flatTable.order), {id.value})
      ensures flatTable.nextAutoNumber == old(flatTable.nextAutoNumber)
    {
      r := MoveToRow(id);
      if r.Pass? {
        flatTable.DeleteRow(id.value);
      }
    }

    /**
     * `updateRawValue`: the row whose key the raw row carries is overwritten
     * and the key returned; a non-integer key cell or a missing row faults.
     */
    method UpdateRawValue(rawValue: Row) returns (r: Result<int, Fault>)
      requires Valid()
      modifies this`pkCursor, this`pkCursorBuilds, flatTable
      ensures Valid() && CursorsKept()
      ensures r.Ok? <==> rawValue.pk.IntCell? && rawValue.pk.n in old(flatTable.rows)
      ensures r.Ok? ==> r.value == rawValue.pk.n && flatTable.rows == old(flatTable.rows)[r.value := Stored(r.value, rawValue)]
      ensures r.Err? ==> flatTable.rows == old(flatTable.rows)
      ensures r.Err? ==> r.error == (if rawValue.pk.AutoNumber? then KeyNotAnInteger else RowNotFound(RawId(rawValue.pk).value))
      ensures flatTable.order == old(flatTable.order) && flatTable.nextAutoNumber == old(flatTable.nextAutoNumber)
    {
      var id := RawId(rawValue.pk);
      if id.Err? {
        return Err(id.error);
      }
      var updated := UpdateRow(id.value, rawValue);
      if updated.Fail? {
        return Err(updated.error);
      }
      r := Ok(id.value.value);
    }

    /**
     * `updateValue`: the row with the value's id is overwritten with the
     * value's row and the id returned; an unbound id or a missing row faults.
     */
    method UpdateValue(value: ComplexValueImpl) returns (r: Result<int, Fault>)
      requires Valid()
      modifies this`pkCursor, this`pkCursorBuilds, flatTable
      ensures Valid() && CursorsKept()
      ensures r.Ok? <==> value.id in old(flatTable.rows)
      ensures r.Ok? ==> r.value == value.id && flatTable.rows == old(flatTable.rows)[value.id := Stored(value.id, AsRow(value))]
      ensures r.Err? ==> r.error == RowNotFound(Some(value.id)) && flatTable.rows == old(flatTable.rows)
      ensures flatTable.order == old(flatTable.order) && flatTable.nextAutoNumber == old(flatTable.nextAutoNumber)
    {
      var id := value.id;
      var updated := UpdateRow(Some(id), AsRow(value));
      if updated.Fail? {
        return Err(updated.error);
      }
      r := Ok(id);
    }

    /** The writes a batch update makes: each value's id with the value's row. */
    ghost function UpdateWrites(values: seq<ComplexValueImpl>): seq<(int, Row)>
      reads values
    {
      seq(|values|, i requires 0 <= i < |values| reads values => (values[i].id, AsRow(values[i])))
    }

    /** One iteration of `updateValues`: `updateValue` on `values[i]`, the `i`-th write of the batch. */
    method UpdateValuesStep(values: seq<ComplexValueImpl>, i: nat, value: ComplexValueImpl,
                            ghost writes: seq<(int, Row)>, ghost target: (map<int, Row>, nat))
      returns (res: Result<int, Fault>)
      requires Valid() && i < |values| == |writes| && values[i] == value && writes[i] == (value.id, AsRow(value))
      requires UpdateSequence(flatTable.rows, writes[i..]) == (target.0, target.1 - i)
      modifies this`pkCursor, this`pkCursorBuilds, flatTable
      ensures Valid() && CursorsKept()
      ensures flatTable.order == old(flatTable.order) && flatTable.nextAutoNumber == old(flatTable.nextAutoNumber)
      ensures res.Err? ==> target == (flatTable.rows, i) && res.error == RowNotFound(Some(values[i].id))
      ensures res.Ok? ==> UpdateSequence(flatTable.rows, writes[i + 1..]) == (target.0, target.1 - (i + 1))
    {
      assert writes[i..][0] == writes[i] && writes[i..][1..] == writes[i + 1..];
      res := UpdateValue(value);
    }

    /** `updateValues`: `updateValue` on each value in turn, with no rollback, stopping at the first missing row. */
    method UpdateValues(values: seq<ComplexValueImpl>) returns (r: Outcome<Fault>)
      requires Valid()
      modifies this`pkCursor, this`pkCursorBuilds, flatTable
      ensures Valid() && CursorsKept()
      ensures flatTable.rows == UpdateSequence(old(flatTable.rows), UpdateWrites(values)).0
      ensures var n := UpdateSequence(old(flatTable.rows), UpdateWrites(values)).1;
        (r.Pass? <==> n == |values|) && (r.Fail? ==> n < |values| && r.error == RowNotFound(Some(values[n].id)))
      ensures flatTable.order == old(flatTable.order) && flatTable.nextAutoNumber == old(flatTable.nextAutoNumber)
    {
      ghost var writes := UpdateWrites(values);
      ghost var target := UpdateSequence(flatTable.rows, writes);
      assert writes[0..] == writes;
      var i := 0;
      r := Pass;
      while i < |values|
        invariant i <= |values| && Valid() && CursorsKept()
        invariant flatTable.order == old(flatTable.order) && flatTable.nextAutoNumber == old(flatTable.nextAutoNumber)
        invariant writes == UpdateWrites(values)
        invariant UpdateSequence(flatTable.rows, writes[i..]) == (target.0, target.1 - i)
      {
        var res := UpdateValuesStep(values, i, values[i], writes, target);
        if res.Err? {
          r := Fail(res.error);
          break;
        }
        i := i + 1;
      }
      if r.Pass? {
        assert writes[|values|..] == [];
      }
    }

    /** `deleteRawValue`: the row whose key the raw row carries is removed; a non-integer key cell or a missing row faults. */
    method DeleteRawValue(rawValue: Row) returns (r: Outcome<Fault>)
      requires Valid()
      modifies this`pkCursor, this`pkCursorBuilds, flatTable
      ensures Valid() && CursorsKept()
      ensures r.Pass? <==> rawValue.pk.IntCell? && rawValue.pk.n in old(flatTable.rows)
      ensures r.Pass? ==> flatTable.rows == old(flatTable.rows) - {rawValue.pk.n} && flatTable.order == Without(old(flatTable.order), {rawValue.pk.n})
      ensures flatTable.nextAutoNumber == old(flatTable.nextAutoNumber)
      ensures r.Fail? ==> flatTable.rows == old(flatTable.rows) && flatTable.order == old(flatTable.order)
      ensures r.Fail? ==> r.error == (if rawValue.pk.AutoNumber? then KeyNotAnInteger else RowNotFound(RawId(rawValue.pk).value))
    {
      var id := RawId(rawValue.pk);
      if id.Err? {
        return Fail(id.error);
      }
      r := DeleteRow(id.value);
    }

    /**
     * `deleteValue`: the row with the value's id is removed, and with it the
     * value from its group; every other group is unchanged. An unbound id or
     * a missing row faults.
     */
    method DeleteValue(value: ComplexValueImpl) returns (r: Outcome<Fault>)
      requires Valid()
      modifies this`pkCursor, this`pkCursorBuilds, flatTable
      ensures Valid() && CursorsKept()
      ensures r.Pass? <==> value.id in old(flatTable.rows)
      ensures r.Fail? ==> r.error == RowNotFound(Some(value.id)) && flatTable.rows == old(flatTable.rows) && flatTable.order == old(flatTable.order)
      ensures r.Pass? ==> flatTable.rows == old(flatTable.rows) - {value.id} && flatTable.order == Without(old(flatTable.order), {value.id})
      ensures r.Pass? ==> forall fk :: forall row :: row in flatTable.Entries(fk) ==> row in old(flatTable.Entries(fk)) && row.pk != IntCell(value.id)
      ensures r.Pass? ==> forall fk :: old(flatTable.rows)[value.id].fk != IntCell(fk) ==> flatTable.Entries(fk) == old(flatTable.Entries(fk))
      ensures flatTable.nextAutoNumber == old(flatTable.nextAutoNumber)
    {
      r := DeleteRow(Some(value.id));
      if r.Pass? {
        forall fk
          ensures (forall row :: row in flatTable.Entries(fk) ==> row in old(flatTable.Entries(fk)) && row.pk != IntCell(value.id))
          ensures old(flatTable.rows)[value.id].fk != IntCell(fk) ==> flatTable.Entries(fk) == old(flatTable.Entries(fk))
        {
          GroupAfterDelete(old(flatTable.order), old(flatTable.rows), value.id, fk);
        }
      }
    }

    /** The ids of a batch of values. */
    ghost function Ids(values: seq<ComplexValueImpl>): seq<int>
      reads values
    {
      seq(|values|, i requires 0 <= i < |values| reads values => values[i].id)
    }

    /**
     * One iteration of `deleteValues`: `deleteValue` on `values[i]`, whose id
     * is `ids[i]`, when the batch has removed the first `i` ids and stops
     * after `n`.
     */
    method DeleteValuesStep(values: seq<ComplexValueImpl>, i: nat, value: ComplexValueImpl, ghost ids: seq<int>,
                            ghost rows0: map<int, Row>, ghost order0: seq<int>, ghost n: nat)
      returns (res: Outcome<Fault>)
      requires Valid() && i < |values| == |ids| && values[i] == value && ids[i] == value.id && i <= n
      requires StopsAt(rows0, ids, n) && flatTable.DeletedPrefix(rows0, order0, ids, i)
      modifies this`pkCursor, this`pkCursorBuilds, flatTable
      ensures Valid() && CursorsKept()
      ensures res.Pass? <==> i < n
      ensures res.Fail? ==> res.error == RowNotFound(Some(values[i].id)) && flatTable.DeletedPrefix(rows0, order0, ids, i)
      ensures res.Pass? ==> flatTable.DeletedPrefix(rows0, order0, ids, i + 1)
      ensures flatTable.nextAutoNumber == old(flatTable.nextAutoNumber)
    {
      StopStep(rows0, ids, n, i);
      DeletePrefixStep(rows0, order0, ids, i);
      res := DeleteValue(value);
    }

    /** The loop of `deleteValues`, stated over the values' ids and the point `n` where the batch stops. */
    method DeleteValuesLoop(values: seq<ComplexValueImpl>, ghost ids: seq<int>,
                            ghost rows0: map<int, Row>, ghost order0: seq<int>, ghost n: nat)
      returns (r: Outcome<Fault>)
      requires Valid() && HoldIds(values, ids) && StopsAt(rows0, ids, n) && flatTable.DeletedPrefix(rows0, order0, ids, 0)
      modifies this`pkCursor, this`pkCursorBuilds, flatTable
      ensures Valid() && CursorsKept() && flatTable.DeletedPrefix(rows0, order0, ids, n)
      ensures (r.Pass? <==> n == |values|) && (r.Fail? ==> n < |values| && r.error == RowNotFound(Some(values[n].id)))
      ensures flatTable.nextAutoNumber == old(flatTable.nextAutoNumber)
    {
      var i := 0;
      r := Pass;
      while i < |values|
        invariant i <= n && Valid() && CursorsKept() && flatTable.DeletedPrefix(rows0, order0, ids, i)
        invariant flatTable.nextAutoNumber == old(flatTable.nextAutoNumber)
      {
        var res := DeleteValuesStep(values, i, values[i], ids, rows0, order0, n);
        if res.Fail? {
          r := res;
          break;
        }
        i := i + 1;
      }
    }

    /** `deleteValues`: `deleteValue` on each value in turn, with no rollback, stopping at the first missing row. */
    method DeleteValues(values: seq<ComplexValueImpl>) returns (r: Outcome<Fault>)
      requires Valid()
      modifies this`pkCursor, this`pkCursorBuilds, flatTable
      ensures Valid() && CursorsKept()
      ensures flatTable.rows == DeleteSequence(old(flatTable.rows), Ids(values)).0
      ensures var n := DeleteSequence(old(flatTable.rows), Ids(values)).1;
        (r.Pass? <==> n == |values|) && (r.Fail? ==> n < |values| && r.error == RowNotFound(Some(values[n].id)))
      ensures flatTable.order == Without(old(flatTable.order), old(flatTable.rows).Keys - flatTable.rows.Keys)
      ensures flatTable.nextAutoNumber == old(flatTable.nextAutoNumber)
    {
      ghost var rows0, order0 := flatTable.rows, flatTable.order;
      ghost var ids := Ids(values);
      ghost var n := DeleteSequence(rows0, ids).1;
      assert StopsAt(rows0, ids, n) && DeleteSequence(rows0, ids).0 == rows0 - Elems(ids[..n]) by {
        DeleteSequenceSpec(rows0, ids);
      }
      WithoutNothing(order0);
      assert ids[..0] == [] && Elems(ids[..0]) == {} && rows0 - {} == rows0;
      r := DeleteValuesLoop(values, ids, rows0, order0, n);
      assert rows0.Keys - flatTable.rows.Keys == Elems(ids[..n]);
    }

    /**
     * `deleteAllValues`: every row of group `complexValueFk` is removed
     * through the foreign-key scan; afterwards the group is empty and every
     * other group is as it was.
     */
    method DeleteAllValues(complexValueFk: int)
      requires Valid()
      modifies this`complexValIdCursor, this`complexValIdCursorBuilds, flatTable
      ensures Valid() && CursorsKept() && complexValIdCursor.Some?
      ensures flatTable.rows == old(flatTable.rows) - GroupKeySet(old(flatTable.rows), complexValueFk)
      ensures flatTable.order == Without(old(flatTable.order), GroupKeySet(old(flatTable.rows), complexValueFk))
      ensures flatTable.nextAutoNumber == old(flatTable.nextAutoNumber)
      ensures flatTable.Entries(complexValueFk) == []
      ensures forall other :: other != complexValueFk ==> flatTable.Entries(other) == old(flatTable.Entries(other))
    {
      BuildComplexValIdCursor();
      ghost var rows0, order0 := flatTable.rows, flatTable.order;
      var entryIter := GroupKeys(flatTable.order, flatTable.rows, complexValueFk);
      GroupKeysMembers(order0, rows0, complexValueFk);
      GroupKeysAreGroupKeySet(order0, rows0, complexValueFk);
      flatTable.DeleteRows(entryIter);
      forall other
        ensures flatTable.Entries(other) == if other == complexValueFk then [] else old(flatTable.Entries(other))
      {
        RemovingGroup(order0, rows0, complexValueFk, other);
      }
    }

    /** `deleteAllValues(ComplexValueForeignKey)`: the same for the handle's group. */
    method DeleteAllValuesFor(complexValueFk: ComplexValueForeignKey)
      requires Valid()
      modifies this`complexValIdCursor, this`complexValIdCursorBuilds, flatTable
      ensures Valid() && CursorsKept() && complexValIdCursor.Some?
      ensures flatTable.rows == old(flatTable.rows) - GroupKeySet(old(flatTable.rows), complexValueFk.Get())
      ensures flatTable.order == Without(old(flatTable.order), GroupKeySet(old(flatTable.rows), complexValueFk.Get()))
      ensures flatTable.nextAutoNumber == old(flatTable.nextAutoNumber)
      ensures flatTable.Entries(complexValueFk.Get()) == []
      ensures forall other :: other != complexValueFk.Get() ==> flatTable.Entries(other) == old(flatTable.Entries(other))
    {
      DeleteAllValues(complexValueFk.Get());
    }
  }
}
