/** A table seen through a key function: at most one row per key, hence a finite map.
    Nothing here depends on which columns make up the key. */
module Tables {

  predicate Keyed<Ref, Row, Key(==)>(rows: map<Ref, Row>, part: Ref -> bool, key: Row -> Key, none: Key, r: Ref) {
    r in rows && part(r) && key(rows[r]) != none
  }

  /** Rows of `rows` inside `part` with equal keys are the same row; `none` is "has no key". */
  ghost predicate Unique<Ref(!new), Row, Key>(rows: map<Ref, Row>, part: Ref -> bool, key: Row -> Key, none: Key) {
    forall r1, r2 :: Keyed(rows, part, key, none, r1) && Keyed(rows, part, key, none, r2)
      ==> key(rows[r1]) == key(rows[r2]) ==> r1 == r2
  }

  ghost function KeyTable<Ref(!new), Row, Key>(rows: map<Ref, Row>, part: Ref -> bool, key: Row -> Key, none: Key)
    : map<Key, Row>
    requires Unique(rows, part, key, none)
  {
    map r | r in rows && Keyed(rows, part, key, none, r) :: key(rows[r]) := rows[r]
  }

  lemma EntryOf<Ref(!new), Row, Key>(rows: map<Ref, Row>, part: Ref -> bool, key: Row -> Key, none: Key, r: Ref)
    requires Unique(rows, part, key, none) && Keyed(rows, part, key, none, r)
    ensures key(rows[r]) in KeyTable(rows, part, key, none) && KeyTable(rows, part, key, none)[key(rows[r])] == rows[r]
  {
  }

  lemma RowOf<Ref(!new), Row, Key>(rows: map<Ref, Row>, part: Ref -> bool, key: Row -> Key, none: Key, k: Key)
    returns (r: Ref)
    requires Unique(rows, part, key, none) && k in KeyTable(rows, part, key, none)
    ensures Keyed(rows, part, key, none, r) && key(rows[r]) == k && KeyTable(rows, part, key, none)[k] == rows[r]
  {
    r :| r in rows && Keyed(rows, part, key, none, r) && key(rows[r]) == k;
  }

  /** No other row carries the key of `row`. */
  ghost predicate Free<Ref(!new), Row, Key>(
    rows: map<Ref, Row>, part: Ref -> bool, key: Row -> Key, none: Key, ref: Ref, row: Row)
  {
    part(ref) && forall r :: Keyed(rows, part, key, none, r) && key(rows[r]) == key(row) ==> r == ref
  }

  lemma WriteKeepsUnique<Ref(!new), Row, Key>(
    rows: map<Ref, Row>, part: Ref -> bool, key: Row -> Key, none: Key, ref: Ref, row: Row)
    requires Unique(rows, part, key, none) && Free(rows, part, key, none, ref, row)
    ensures Unique(rows[ref := row], part, key, none)
  {
    var rows' := rows[ref := row];
    forall r1, r2 | Keyed(rows', part, key, none, r1) && Keyed(rows', part, key, none, r2) && key(rows'[r1]) ==
      key(rows'[r2])
      ensures r1 == r2
    {
      assert r1 != ref ==> Keyed(rows, part, key, none, r1);
      assert r2 != ref ==> Keyed(rows, part, key, none, r2);
    }
  }

  /** The table once the row under `ref` no longer carries its old key. */
  ghost function Without<Ref(!new), Row, Key>(rows: map<Ref, Row>, part: Ref -> bool, key: Row -> Key, none: Key,
                             ref: Ref)
    : map<Key, Row>
    requires Unique(rows, part, key, none)
  {
    if Keyed(rows, part, key, none, ref) then KeyTable(rows, part, key, none) - {key(rows[ref])}
    else KeyTable(rows, part, key, none)
  }

  /** Writing one row that is the only one to carry its key moves the table's entry from the row's old
      key to its new one. */
  lemma WriteOne<Ref(!new), Row, Key>(
    rows: map<Ref, Row>, part: Ref -> bool, key: Row -> Key, none: Key, ref: Ref, row: Row)
    requires Unique(rows, part, key, none) && Free(rows, part, key, none, ref, row)
    ensures Unique(rows[ref := row], part, key, none)
    ensures KeyTable(rows[ref := row], part, key, none) ==
      if key(row) == none then Without(rows, part, key, none, ref)
      else Without(rows, part, key, none, ref)[key(row) := row]
  {
    hide Unique, KeyTable;
    var rows' := rows[ref := row];
    WriteKeepsUnique(rows, part, key, none, ref, row);
    var t, t', rest := KeyTable(rows, part, key, none), KeyTable(rows', part, key, none), Without(rows, part, key,
      none, ref);
    var want := if key(row) == none then rest else rest[key(row) := row];
    if key(row) != none {
      EntryOf(rows', part, key, none, ref);
    }
    forall k | k in rest && k != key(row) ensures k in t' && t'[k] == rest[k] {
      var r := RowOf(rows, part, key, none, k);
      assert Keyed(rows', part, key, none, r);
      EntryOf(rows', part, key, none, r);
    }
    forall k | k in rest ensures k != key(row) || key(row) != none {
      var r := RowOf(rows, part, key, none, k);
    }
    forall k | k in t' ensures k in want {
      var r := RowOf(rows', part, key, none, k);
      if r != ref {
        OtherStays(rows, part, key, none, ref, r);
      }
    }
    assert t' == want;
  }

  /** When the row keeps its key, or had and gets none, that is one update or nothing. */
  lemma WriteInPlace<Ref(!new), Row, Key>(
    rows: map<Ref, Row>, part: Ref -> bool, key: Row -> Key, none: Key, ref: Ref, row: Row)
    requires Unique(rows, part, key, none) && Free(rows, part, key, none, ref, row)
    requires Keyed(rows, part, key, none, ref) ==> key(row) == key(rows[ref])
    ensures Unique(rows[ref := row], part, key, none)
    ensures KeyTable(rows[ref := row], part, key, none) ==
      if key(row) == none then KeyTable(rows, part, key, none) else KeyTable(rows, part, key, none)[key(row) := row]
  {
    hide Unique, KeyTable;
    WriteOne(rows, part, key, none, ref, row);
  }

  lemma OtherStays<Ref(!new), Row, Key>(
    rows: map<Ref, Row>, part: Ref -> bool, key: Row -> Key, none: Key, ref: Ref, r: Ref)
    requires Unique(rows, part, key, none) && Keyed(rows, part, key, none, r) && r != ref
    ensures key(rows[r]) in Without(rows, part, key, none, ref)
  {
    EntryOf(rows, part, key, none, r);
  }
}
