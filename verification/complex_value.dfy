/**
 * The identity every complex value carries (`ComplexValueImpl`): a row id and
 * a foreign-key handle, each of which can be set once away from its unset
 * sentinel, plus the equality and hash code built on them.
 */
module ComplexValues {
  import opened Outcomes
  import opened ComplexTypes
  import opened JavaInt

  /** The hash code of a foreign-key handle: the bit pattern of its wrapped integer. */
  function ForeignKeyHash(fk: ComplexValueForeignKey): bv32 {
    Bits32(fk.value)
  }

  /** `(id * 37) ^ fk.hashCode()` in 32-bit arithmetic. */
  function IdentityHash(id: int, fk: ComplexValueForeignKey): bv32 {
    (Bits32(id) * 37) ^ ForeignKeyHash(fk)
  }

  /** What a value holds: its variant, id, handle and content. */
  datatype ValueState = ValueState(kind: ComplexDataType, id: int, complexValueFk: ComplexValueForeignKey, fields: map<string, Value>)

  class ComplexValueImpl {
    /** The concrete variant (the Java class) of the value. */
    const kind: ComplexDataType
    var id: int
    var complexValueFk: ComplexValueForeignKey
    /** The variant-specific content, by type-column name. */
    var fields: map<string, Value>

    constructor (kind: ComplexDataType, id: int, complexValueFk: ComplexValueForeignKey, fields: map<string, Value>)
      ensures this.kind == kind && this.id == id && this.complexValueFk == complexValueFk && this.fields == fields
    {
      this.kind := kind;
      this.id := id;
      this.complexValueFk := complexValueFk;
      this.fields := fields;
    }

    function State(): ValueState
      reads this
    {
      ValueState(kind, id, complexValueFk, fields)
    }

    /** `setId`: allowed only while the id is `INVALID_ID`; afterwards it faults and keeps the id. */
    method SetId(newId: int) returns (r: Outcome<Fault>)
      modifies this`id
      ensures old(id) == INVALID_ID ==> r == Pass && id == newId
      ensures old(id) != INVALID_ID ==> r == Fail(IdMayNotBeReset) && id == old(id)
    {
      if id != INVALID_ID {
        return Fail(IdMayNotBeReset);
      }
      id := newId;
      r := Pass;
    }

    /** `setComplexValueForeignKey`: allowed only while the handle is the unset one; afterwards it faults and keeps the handle. */
    method SetComplexValueForeignKey(fk: ComplexValueForeignKey) returns (r: Outcome<Fault>)
      modifies this`complexValueFk
      ensures old(complexValueFk) == INVALID_COMPLEX_VALUE_ID ==> r == Pass && complexValueFk == fk
      ensures old(complexValueFk) != INVALID_COMPLEX_VALUE_ID ==> r == Fail(ForeignKeyMayNotBeReset) && complexValueFk == old(complexValueFk)
    {
      if complexValueFk != INVALID_COMPLEX_VALUE_ID {
        return Fail(ForeignKeyMayNotBeReset);
      }
      complexValueFk := fk;
      r := Pass;
    }

    /** `equals`: the same object, or a value of the same variant with an equal id and an equal handle. */
    predicate Equals(o: ComplexValueImpl?)
      reads this, o
    {
      this == o || (o != null && kind == o.kind && id == o.id && complexValueFk == o.complexValueFk)
    }

    /** `hashCode`, computed from the id and the handle only. */
    function HashCode(): bv32
      reads this
    {
      IdentityHash(id, complexValueFk)
    }
  }

  /** Two values are equal exactly when their variant, id and handle agree; the variant content plays no part. */
  lemma EqualsIffSameIdentity(a: ComplexValueImpl, b: ComplexValueImpl)
    ensures a.Equals(b) <==> a.kind == b.kind && a.id == b.id && a.complexValueFk == b.complexValueFk
  {
  }

  /** `equals` is an equivalence relation. */
  lemma EqualsIsEquivalence(a: ComplexValueImpl, b: ComplexValueImpl, c: ComplexValueImpl)
    ensures a.Equals(a)
    ensures a.Equals(b) ==> b.Equals(a)
    ensures a.Equals(b) && b.Equals(c) ==> a.Equals(c)
  {
  }

  /** Equal values hash equally. */
  lemma EqualValuesHashEqually(a: ComplexValueImpl, b: ComplexValueImpl)
    requires a.Equals(b)
    ensures a.HashCode() == b.HashCode()
  {
  }
}
