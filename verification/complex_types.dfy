/**
 * The values shared by the complex-column store: flat-table columns, rows, the
 * foreign-key handle and the faults the store raises.
 */
module ComplexTypes {
  import opened Outcomes

  /** `ComplexColumnInfo.INVALID_ID`: an id that has not been assigned yet. */
  const INVALID_ID: int := -1

  /** The declared data types of a column (only `Long` matters to the store). */
  datatype DataType =
    | Boolean | Byte | Int | Long | Money | Float | Double | ShortDateTime
    | Binary | Text | Ole | Memo | Guid | Numeric | ComplexType

  /** A column of a table, as far as the store looks at it. */
  datatype Column = Column(name: string, dataType: DataType, autoNumber: bool)

  /** The variants of complex column (the concrete subclass of a value). */
  datatype ComplexDataType = Attachment | MultiValue | VersionHistory | Unsupported

  /** A cell value of a type column. */
  datatype Value = NullValue | IntValue(n: int) | TextValue(s: string) | BoolValue(b: bool) | BytesValue(bytes: seq<int>)

  /**
   * The contents of a key cell in a row being written or read: the cell is
   * missing from the row, holds `Column.AUTO_NUMBER` (the table is to generate
   * it), or holds an integer.
   */
  datatype Cell = Absent | AutoNumber | IntCell(n: int)

  /**
   * A flat-table row: the primary-key cell, the foreign-key cell and the cells
   * of the type columns keyed by (case-sensitive) column name.
   */
  datatype Row = Row(pk: Cell, fk: Cell, payload: map<string, Value>)

  /**
   * The handle correlating flat rows with their owning row: the integer group
   * id and the name of the owning column (a navigational reference only).
   */
  datatype ComplexValueForeignKey = ComplexValueForeignKey(column: Option<string>, value: int) {
    function Get(): int { value }
  }

  /** `ComplexColumnInfo.INVALID_COMPLEX_VALUE_ID`: the unset handle. */
  const INVALID_COMPLEX_VALUE_ID: ComplexValueForeignKey := ComplexValueForeignKey(None, INVALID_ID)

  /** The cell written for an id or group key: the key itself, or `AUTO_NUMBER` when it is unset. */
  function KeyCell(key: int): (c: Cell)
    ensures c == AutoNumber <==> key == INVALID_ID
    ensures c != AutoNumber ==> c == IntCell(key)
  {
    if key != INVALID_ID then IntCell(key) else AutoNumber
  }

  /** The faults of the store and of the value identity, one per Java exception it throws. */
  datatype Fault =
    | MissingKeyColumns(flatTableName: string, complexTypeId: int)  // IOException from the constructor
    | RowNotFound(id: Option<int>)                                  // IllegalArgumentException from moveToRow
    | KeyNotAnInteger                                               // ClassCastException on the `(Integer)` cast
    | IdMayNotBeReset                                               // IllegalStateException from setId
    | ForeignKeyMayNotBeReset                                       // IllegalStateException from setComplexValueForeignKey
}
