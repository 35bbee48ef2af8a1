/**
 * The flat table behind a complex column, as the store sees it through
 * `Table`, `CursorBuilder` and `IndexCursor`: rows keyed by their generated
 * primary key, an order in which an index scan visits them, and the counter
 * the table draws auto-numbers from.
 */
module FlatTables {
  import opened ComplexTypes

  predicate Distinct(s: seq<int>) {
    forall i, j :: 0 <= i < j < |s| ==> s[i] != s[j]
  }

  function Elems(s: seq<int>): set<int> {
    set k | k in s
  }

  /** The row stored under `k` belongs to the foreign-key group `fk`. */
  predicate InGroup(rows: map<int, Row>, k: int, fk: int) {
    k in rows && rows[k].fk == IntCell(fk)
  }

  /** The keys of every row in group `fk`. */
  function GroupKeySet(rows: map<int, Row>, fk: int): set<int> {
    set k | k in rows && rows[k].fk == IntCell(fk)
  }

  /** The keys of group `fk` in scan order: what an index cursor over the foreign-key column visits for entry `fk`. */
  function GroupKeys(order: seq<int>, rows: map<int, Row>, fk: int): seq<int> {
    if order == [] then []
    else (if InGroup(rows, order[0], fk) then [order[0]] else []) + GroupKeys(order[1..], rows, fk)
  }

  /** The row the table keeps when `row` is written under key `id`: the key cell holds the key. */
  function Stored(id: int, row: Row): Row {
    Row(IntCell(id), row.fk, row.payload)
  }

  /** The rows of group `fk` in scan order. */
  function Group(order: seq<int>, rows: map<int, Row>, fk: int): seq<Row> {
    if order == [] then []
    else (if InGroup(rows, order[0], fk) then [rows[order[0]]] else []) + Group(order[1..], rows, fk)
  }

  /** `order` with the keys in `s` taken out. */
  function Without(order: seq<int>, s: set<int>): seq<int> {
    if order == [] then []
    else (if order[0] in s then [] else [order[0]]) + Without(order[1..], s)
  }

  /** The invariant of the table: every row is visited once by a scan and holds its own key; keys are below the counter. */
  ghost predicate TableInvariant(rows: map<int, Row>, order: seq<int>, nextAutoNumber: int) {
    && 1 <= nextAutoNumber
    && Distinct(order)
    && Elems(order) == rows.Keys
    && (forall k :: k in rows ==> rows[k].pk == IntCell(k) && 0 < k < nextAutoNumber)
  }

  class FlatTable {
    const name: string
    const columns: seq<Column>
    var rows: map<int, Row>
    var order: seq<int>
    var nextAutoNumber: int

    ghost predicate Valid()
      reads this
    {
      TableInvariant(rows, order, nextAutoNumber)
    }

    constructor (name: string, columns: seq<Column>)
      ensures Valid()
      ensures this.name == name && this.columns == columns
      ensures rows == map[] && order == [] && nextAutoNumber == 1
    {
      this.name, this.columns := name, columns;
      rows, order, nextAutoNumber := map[], [], 1;
    }

    /** The rows an index cursor over the foreign-key column yields for entry `fk`. */
    function Entries(fk: int): (entries: seq<Row>)
      reads this
      ensures Valid() ==> forall i :: 0 <= i < |entries| ==> entries[i].pk.IntCell? && entries[i].fk == IntCell(fk)
    {
      GroupIsRowsOfKeys(order, rows, fk);
      Group(order, rows, fk)
    }

    /**
     * `Table.addRow`: the auto-number primary key is generated from the
     * table's counter (whatever the row's pk cell holds) and the row is stored
     * under it.
     */
    method AddRow(row: Row) returns (id: int)
      requires Valid()
      modifies this
      ensures Valid()
      ensures id == old(nextAutoNumber) && id !in old(rows)
      ensures rows == old(rows)[id := Stored(id, row)]
      ensures order == old(order) + [id]
      ensures nextAutoNumber == id + 1
    {
      id := nextAutoNumber;
      forall i | 0 <= i < |order|
        ensures order[i] < id
      {
        assert order[i] in Elems(order);
        assert order[i] in rows;
      }
      assert id !in Elems(order);
      assert Elems(order + [id]) == Elems(order) + {id};
      rows := rows[id := Stored(id, row)];
      order := order + [id];
      nextAutoNumber := nextAutoNumber + 1;
    }

    /** `IndexCursor.findFirstRowByEntry` on the primary-key index. */
    method FindRowByEntry(id: int) returns (found: bool)
      requires Valid()
      ensures found <==> id in rows
    {
      found := id in rows;
    }

    /** `IndexCursor.updateCurrentRow`: the auto-number key is kept, the other cells are overwritten. */
    method UpdateRow(id: int, row: Row)
      requires Valid() && id in rows
      modifies this
      ensures Valid()
      ensures rows == old(rows)[id := Stored(id, row)]
      ensures order == old(order) && nextAutoNumber == old(nextAutoNumber)
    {
      rows := rows[id := Stored(id, row)];
    }

    /** `IndexCursor.deleteCurrentRow` (and removal through a scan): the row leaves the table. */
    method DeleteRow(id: int)
      requires Valid() && id in rows
      modifies this
      ensures Valid()
      ensures rows == old(rows) - {id}
      ensures order == Without(old(order), {id})
      ensures nextAutoNumber == old(nextAutoNumber)
    {
      WithoutMembers(order, {id});
      WithoutDistinct(order, {id});
      rows := rows - {id};
      order := Without(order, {id});
    }

    /** The rows and the order are those of `rows0` and `order0` without the first `i` keys of `keys`. */
    ghost predicate DeletedPrefix(rows0: map<int, Row>, order0: seq<int>, keys: seq<int>, i: nat)
      reads this
    {
      && i <= |keys|
      && rows == rows0 - Elems(keys[..i])
      && order == Without(order0, Elems(keys[..i]))
    }

    /** One deletion of a scan over `keys`: the row with the next key leaves the table. */
    method DeleteNext(ghost rows0: map<int, Row>, ghost order0: seq<int>, keys: seq<int>, i: nat)
      requires Valid() && Distinct(keys) && i < |keys| && keys[i] in rows0
      requires DeletedPrefix(rows0, order0, keys, i)
      modifies this
      ensures Valid() && DeletedPrefix(rows0, order0, keys, i + 1)
      ensures nextAutoNumber == old(nextAutoNumber)
    {
      PrefixElems(keys, i);
      DeletePrefixStep(rows0, order0, keys, i);
      DeleteRow(keys[i]);
    }

    /**
     * Removing the rows with the given keys one after the other, as a scan
     * that calls `Cursor.deleteCurrentRow` at each row does.
     */
    method DeleteRows(keys: seq<int>)
      requires Valid() && Distinct(keys)
      requires forall k :: k in keys ==> k in rows
      modifies this
      ensures Valid()
      ensures rows == old(rows) - Elems(keys)
      ensures order == Without(old(order), Elems(keys))
      ensures nextAutoNumber == old(nextAutoNumber)
    {
      ghost var rows0, order0 := rows, order;
      WithoutNothing(order0);
      PrefixElems(keys, 0);
      for i := 0 to |keys|
        invariant Valid() && nextAutoNumber == old(nextAutoNumber)
        invariant DeletedPrefix(rows0, order0, keys, i)
      {
        DeleteNext(rows0, order0, keys, i);
      }
      PrefixElems(keys, |keys|);
    }
  }

  lemma {:induction false} WithoutMembers(order: seq<int>, s: set<int>)
    ensures forall k :: k in Without(order, s) <==> k in order && k !in s
  {
    if order != [] {
      WithoutMembers(order[1..], s);
    }
  }

  lemma {:induction false} WithoutDistinct(order: seq<int>, s: set<int>)
    requires Distinct(order)
    ensures Distinct(Without(order, s))
  {
    if order != [] {
      WithoutDistinct(order[1..], s);
      WithoutMembers(order[1..], s);
    }
  }

  /**
   * The keys of a prefix of a sequence without repeats: growing the prefix
   * by one adds exactly the next key, which is new.
   */
  lemma PrefixElems(s: seq<int>, i: nat)
    requires Distinct(s) && i <= |s|
    ensures i == 0 ==> Elems(s[..i]) == {}
    ensures i == |s| ==> Elems(s[..i]) == Elems(s)
    ensures i < |s| ==> s[i] in Elems(s) && s[i] !in Elems(s[..i]) && Elems(s[..i + 1]) == Elems(s[..i]) + {s[i]}
  {
    if i < |s| {
      assert s[..i + 1] == s[..i] + [s[i]];
    }
    if i == |s| {
      assert s[..i] == s;
    }
  }

  /** Removing the keys of a prefix one more key at a time, from the rows and from the order. */
  lemma DeletePrefixStep(rows0: map<int, Row>, order0: seq<int>, keys: seq<int>, i: nat)
    requires i < |keys|
    ensures Elems(keys[..i + 1]) == Elems(keys[..i]) + {keys[i]}
    ensures (rows0 - Elems(keys[..i])) - {keys[i]} == rows0 - Elems(keys[..i + 1])
    ensures Without(Without(order0, Elems(keys[..i])), {keys[i]}) == Without(order0, Elems(keys[..i + 1]))
  {
    assert keys[..i + 1] == keys[..i] + [keys[i]];
    WithoutWithout(order0, Elems(keys[..i]), {keys[i]});
  }

  /** Taking out no keys leaves the order as it is. */
  lemma {:induction false} WithoutNothing(order: seq<int>)
    ensures Without(order, {}) == order
  {
    if order != [] {
      WithoutNothing(order[1..]);
      assert Without(order, {}) == [order[0]] + order[1..];
    }
  }

  /** Taking keys out in two steps is taking out their union. */
  lemma {:induction false} WithoutWithout(order: seq<int>, s: set<int>, t: set<int>)
    ensures Without(Without(order, s), t) == Without(order, s + t)
  {
    if order != [] {
      WithoutWithout(order[1..], s, t);
      var rest := Without(order[1..], s);
      if order[0] in s {
        assert Without(order, s) == rest;
        assert Without(order, s + t) == Without(order[1..], s + t);
      } else {
        var once := [order[0]] + rest;
        assert Without(order, s) == once;
        assert once[0] == order[0] && once[1..] == rest;
        assert Without(once, t) == (if order[0] in t then [] else [order[0]]) + Without(rest, t);
      }
    }
  }

  /** The group keys and the group rows correspond position by position. */
  lemma {:induction false} GroupIsRowsOfKeys(order: seq<int>, rows: map<int, Row>, fk: int)
    ensures |Group(order, rows, fk)| == |GroupKeys(order, rows, fk)|
    ensures forall i :: 0 <= i < |GroupKeys(order, rows, fk)| ==>
      InGroup(rows, GroupKeys(order, rows, fk)[i], fk) && Group(order, rows, fk)[i] == rows[GroupKeys(order, rows, fk)[i]]
  {
    if order != [] {
      GroupIsRowsOfKeys(order[1..], rows, fk);
    }
  }

  /** The group keys are the keys of `order` in group `fk`, each once. */
  lemma {:induction false} GroupKeysMembers(order: seq<int>, rows: map<int, Row>, fk: int)
    requires Distinct(order)
    ensures Distinct(GroupKeys(order, rows, fk))
    ensures forall k :: k in GroupKeys(order, rows, fk) <==> k in order && InGroup(rows, k, fk)
  {
    if order != [] {
      GroupKeysMembers(order[1..], rows, fk);
    }
  }

  /**
   * A scan for `fk` yields exactly the stored rows of that group: each row it
   * yields has foreign key `fk`, every stored row with foreign key `fk` is
   * yielded, and the scan is empty iff no row has that foreign key.
   */
  lemma {:induction false} GroupIsExactlyTheGroup(order: seq<int>, rows: map<int, Row>, fk: int)
    requires Elems(order) == rows.Keys
    ensures forall r :: r in Group(order, rows, fk) ==> r.fk == IntCell(fk) && r in rows.Values
    ensures forall k :: k in rows && rows[k].fk == IntCell(fk) ==> rows[k] in Group(order, rows, fk)
    ensures Group(order, rows, fk) == [] <==> GroupKeySet(rows, fk) == {}
  {
    GroupIsRowsOfKeys(order, rows, fk);
    var keys := GroupKeys(order, rows, fk);
    var group := Group(order, rows, fk);
    forall r | r in group
      ensures r.fk == IntCell(fk) && r in rows.Values
    {
      var i :| 0 <= i < |group| && group[i] == r;
      assert InGroup(rows, keys[i], fk);
      assert rows[keys[i]] in rows.Values;
    }
    forall k | k in rows && rows[k].fk == IntCell(fk)
      ensures rows[k] in group
    {
      assert k in Elems(order);
      assert k in order;
      GroupKeysIn(order, rows, fk, k);
      var i :| 0 <= i < |keys| && keys[i] == k;
      assert group[i] == rows[k];
    }
    if group == [] {
      assert forall k :: k !in GroupKeySet(rows, fk);
    } else {
      assert InGroup(rows, keys[0], fk);
      assert keys[0] in GroupKeySet(rows, fk);
    }
  }

  /** The group keys are the keys of the stored rows with foreign key `fk`. */
  lemma GroupKeysAreGroupKeySet(order: seq<int>, rows: map<int, Row>, fk: int)
    requires Distinct(order) && Elems(order) == rows.Keys
    ensures Elems(GroupKeys(order, rows, fk)) == GroupKeySet(rows, fk)
  {
    GroupKeysMembers(order, rows, fk);
    forall k
      ensures k in Elems(GroupKeys(order, rows, fk)) <==> k in GroupKeySet(rows, fk)
    {
      if k in rows { assert k in Elems(order); }
    }
  }

  /** A key of `order` in group `fk` is among the group keys. */
  lemma {:induction false} GroupKeysIn(order: seq<int>, rows: map<int, Row>, fk: int, k: int)
    requires k in order && InGroup(rows, k, fk)
    ensures exists i :: 0 <= i < |GroupKeys(order, rows, fk)| && GroupKeys(order, rows, fk)[i] == k
  {
    var keys := GroupKeys(order, rows, fk);
    if k == order[0] {
      assert keys[0] == k;
    } else {
      assert k in order[1..];
      GroupKeysIn(order[1..], rows, fk, k);
      var head := if InGroup(rows, order[0], fk) then [order[0]] else [];
      var rest := GroupKeys(order[1..], rows, fk);
      var j :| 0 <= j < |rest| && rest[j] == k;
      assert keys == head + rest;
      assert keys[|head| + j] == k;
    }
  }

  /** Appending a fresh row to the table appends it to its own group and to no other. */
  lemma {:induction false} GroupAfterAppend(order: seq<int>, rows: map<int, Row>, id: int, row: Row, fk: int)
    requires id !in order
    ensures Group(order + [id], rows[id := row], fk)
         == Group(order, rows, fk) + (if row.fk == IntCell(fk) then [row] else [])
  {
    if order == [] {
      assert [] + [id] == [id];
    } else {
      GroupAfterAppend(order[1..], rows, id, row, fk);
      assert (order + [id])[1..] == order[1..] + [id];
      assert InGroup(rows[id := row], order[0], fk) == InGroup(rows, order[0], fk);
    }
  }

  /** Deleting one row takes it out of its group and leaves every other group as it was. */
  lemma {:induction false} GroupAfterDelete(order: seq<int>, rows: map<int, Row>, id: int, fk: int)
    requires id in rows
    requires forall k :: k in rows ==> rows[k].pk == IntCell(k)
    ensures rows[id].fk != IntCell(fk) ==> Group(Without(order, {id}), rows - {id}, fk) == Group(order, rows, fk)
    ensures forall r :: r in Group(Without(order, {id}), rows - {id}, fk) ==> r in Group(order, rows, fk) && r.pk != IntCell(id)
  {
    if order != [] {
      GroupAfterDelete(order[1..], rows, id, fk);
      var rest := Without(order[1..], {id});
      var head := if InGroup(rows, order[0], fk) then [rows[order[0]]] else [];
      assert Group(order, rows, fk) == head + Group(order[1..], rows, fk);
      if order[0] != id {
        var once := [order[0]] + rest;
        assert Without(order, {id}) == once;
        assert once[0] == order[0] && once[1..] == rest;
        assert InGroup(rows - {id}, order[0], fk) == InGroup(rows, order[0], fk);
        assert Group(once, rows - {id}, fk) == head + Group(rest, rows - {id}, fk);
      } else {
        assert Without(order, {id}) == rest;
      }
    }
  }

  /**
   * Removing the whole group `fk` (as `deleteAllValues` does) empties that
   * group and leaves every other group exactly as it was.
   */
  lemma {:induction false} RemovingGroup(order: seq<int>, rows: map<int, Row>, fk: int, other: int)
    ensures Group(Without(order, GroupKeySet(rows, fk)), rows - GroupKeySet(rows, fk), fk) == []
    ensures other != fk ==>
      Group(Without(order, GroupKeySet(rows, fk)), rows - GroupKeySet(rows, fk), other) == Group(order, rows, other)
  {
    var s := GroupKeySet(rows, fk);
    if order != [] {
      RemovingGroup(order[1..], rows, fk, other);
      var rest := Without(order[1..], s);
      if order[0] !in s {
        var once := [order[0]] + rest;
        assert Without(order, s) == once;
        assert once[0] == order[0] && once[1..] == rest;
        assert !InGroup(rows - s, order[0], fk);
        assert InGroup(rows - s, order[0], other) == InGroup(rows, order[0], other);
      } else {
        assert Without(order, s) == rest;
        assert other != fk ==> !InGroup(rows, order[0], other);
      }
    }
  }
}
