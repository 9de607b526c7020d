/** The `faces` table: `name` is the primary key, each row also holds the
    face encoding and the registration timestamp.  The table is a sequence
    of rows in scan order (SQLite's rowid order), which is the order every
    `SELECT` without `ORDER BY` returns. */
module FaceStore {

  datatype Option<+T> = None | Some(value: T)

  /** A face encoding (a vector of 64-bit floats in the source). */
  type Encoding = seq<real>

  datatype Row = Row(name: string, encoding: Encoding, timestamp: string)

  /** A `(name, timestamp)` pair, as `SELECT name, timestamp` returns it. */
  datatype Registration = Registration(name: string, timestamp: string)

  /** The primary-key constraint. */
  ghost predicate UniqueNames(rows: seq<Row>)
  {
    forall i, j :: 0 <= i < j < |rows| ==> rows[i].name != rows[j].name
  }

  /** The row stored under `name`, if any. */
  function Lookup(rows: seq<Row>, name: string): (r: Option<Row>)
    ensures r.None? <==> forall i :: 0 <= i < |rows| ==> rows[i].name != name
    ensures r.Some? ==> r.value.name == name && r.value in rows
  {
    if rows == [] then None
    else if rows[0].name == name then Some(rows[0])
    else Lookup(rows[1..], name)
  }

  /** `DELETE FROM faces WHERE name = ?`: the rows of every other name, in
      their order. */
  function Remove(rows: seq<Row>, name: string): (r: seq<Row>)
    ensures forall k :: 0 <= k < |r| ==> r[k] in rows && r[k].name != name
    ensures forall k :: 0 <= k < |rows| && rows[k].name != name ==> rows[k] in r
  {
    if rows == [] then []
    else if rows[0].name == name then Remove(rows[1..], name)
    else [rows[0]] + Remove(rows[1..], name)
  }

  /** `REPLACE INTO faces`: the row that holds the same name is deleted and
      the new row is inserted with a fresh rowid, so it comes last. */
  function Upsert(rows: seq<Row>, row: Row): (r: seq<Row>)
    ensures |r| >= 1 && r[|r| - 1] == row
    ensures forall k :: 0 <= k < |r| - 1 ==> r[k].name != row.name && r[k] in rows
  {
    Remove(rows, row.name) + [row]
  }

  /** The delete is an order-preserving filter: deleting from a table made
      of two parts deletes from each part and keeps them in order. */
  lemma {:induction false} RemoveConcat(a: seq<Row>, b: seq<Row>, name: string)
    ensures Remove(a + b, name) == Remove(a, name) + Remove(b, name)
  {
    if a == [] {
      assert a + b == b;
    } else {
      assert (a + b)[1..] == a[1..] + b;
      RemoveConcat(a[1..], b, name);
    }
  }

  /** Deleting a name leaves no row for it and every other name's row as it was. */
  lemma {:induction false} RemoveLookup(rows: seq<Row>, name: string)
    ensures Lookup(Remove(rows, name), name).None?
    ensures forall other :: other != name ==> Lookup(Remove(rows, name), other) == Lookup(rows, other)
  {
    forall other | other != name
      ensures Lookup(Remove(rows, name), other) == Lookup(rows, other)
    {
      RemoveLookupOther(rows, name, other);
    }
  }

  lemma {:induction false} RemoveLookupOther(rows: seq<Row>, name: string, other: string)
    requires other != name
    ensures Lookup(Remove(rows, name), other) == Lookup(rows, other)
  {
    if rows != [] {
      RemoveLookupOther(rows[1..], name, other);
    }
  }

  /** Deleting a name that has no row changes nothing. */
  lemma {:induction false} RemoveAbsent(rows: seq<Row>, name: string)
    requires Lookup(rows, name).None?
    ensures Remove(rows, name) == rows
  {
    if rows != [] {
      RemoveAbsent(rows[1..], name);
    }
  }

  /** Deleting the same name twice is the same as deleting it once. */
  lemma {:induction false} RemoveIdempotent(rows: seq<Row>, name: string)
    ensures Remove(Remove(rows, name), name) == Remove(rows, name)
  {
    RemoveLookup(rows, name);
    RemoveAbsent(Remove(rows, name), name);
  }

  /** Deleting never breaks the primary key; the row count drops by one
      exactly when the name had a row. */
  lemma {:induction false} RemoveCount(rows: seq<Row>, name: string)
    requires UniqueNames(rows)
    ensures UniqueNames(Remove(rows, name))
    ensures |Remove(rows, name)| == if Lookup(rows, name).Some? then |rows| - 1 else |rows|
  {
    if rows != [] {
      var head, tail := rows[0], rows[1..];
      UniqueSplit(rows);
      RemoveCount(tail, name);
      if head.name == name {
        RemoveAbsent(tail, name);
      } else {
        RemoveLookupOther(tail, name, head.name);
        UniqueCons(head, Remove(tail, name));
      }
    }
  }

  /** A keyed table is its first row followed by a keyed table without that row's name. */
  lemma UniqueSplit(rows: seq<Row>)
    requires UniqueNames(rows) && rows != []
    ensures UniqueNames(rows[1..]) && Lookup(rows[1..], rows[0].name).None?
  {
    var tail := rows[1..];
    forall i, j | 0 <= i < j < |tail| ensures tail[i].name != tail[j].name {
      assert tail[i] == rows[i + 1] && tail[j] == rows[j + 1];
    }
    forall i | 0 <= i < |tail| ensures tail[i].name != rows[0].name {
      assert tail[i] == rows[i + 1];
    }
  }

  lemma UniqueCons(row: Row, rows: seq<Row>)
    requires UniqueNames(rows) && Lookup(rows, row.name).None?
    ensures UniqueNames([row] + rows)
  {
    var r := [row] + rows;
    forall i, j | 0 <= i < j < |r| ensures r[i].name != r[j].name {
      assert r[j] == rows[j - 1];
      if i > 0 {
        assert r[i] == rows[i - 1];
      }
    }
  }

  /** Saving leaves exactly one row for the name, holding the new encoding
      and timestamp, and every other name's row as it was. */
  lemma UpsertLookup(rows: seq<Row>, row: Row)
    ensures Lookup(Upsert(rows, row), row.name) == Some(row)
    ensures forall other :: other != row.name ==> Lookup(Upsert(rows, row), other) == Lookup(rows, other)
  {
    RemoveLookup(rows, row.name);
    forall other ensures Lookup(Upsert(rows, row), other) == if other == row.name then Some(row) else Lookup(rows, other) {
      LookupAppend(Remove(rows, row.name), row, other);
    }
  }

  lemma {:induction false} LookupAppend(rows: seq<Row>, row: Row, name: string)
    ensures Lookup(rows + [row], name) == if Lookup(rows, name).Some? then Lookup(rows, name)
                                         else if row.name == name then Some(row) else None
  {
    if rows != [] {
      assert (rows + [row])[1..] == rows[1..] + [row];
      LookupAppend(rows[1..], row, name);
    }
  }

  /** Saving keeps the primary key, and the row count grows by one exactly
      when the name had no row. */
  lemma UpsertCount(rows: seq<Row>, row: Row)
    requires UniqueNames(rows)
    ensures UniqueNames(Upsert(rows, row))
    ensures |Upsert(rows, row)| == if Lookup(rows, row.name).None? then |rows| + 1 else |rows|
  {
    RemoveCount(rows, row.name);
    var r := Remove(rows, row.name);
    var u := r + [row];
    forall i, j | 0 <= i < j < |u| ensures u[i].name != u[j].name {
      if j == |r| {
        assert u[i] == r[i];
      } else {
        assert u[i] == r[i] && u[j] == r[j];
      }
    }
  }

  /** Saving does not disturb the other rows, nor their order: without the
      saved name, the table is the same before and after. */
  lemma UpsertKeepsOthers(rows: seq<Row>, row: Row)
    ensures Remove(Upsert(rows, row), row.name) == Remove(rows, row.name)
  {
    RemoveAppendSame(Remove(rows, row.name), row);
    RemoveIdempotent(rows, row.name);
  }

  lemma {:induction false} RemoveAppendSame(rows: seq<Row>, row: Row)
    ensures Remove(rows + [row], row.name) == Remove(rows, row.name)
  {
    if rows == [] {
      assert Remove([row], row.name) == Remove([], row.name);
    } else {
      assert (rows + [row])[1..] == rows[1..] + [row];
      RemoveAppendSame(rows[1..], row);
    }
  }

  /** `SELECT name, timestamp FROM faces`. */
  function Registrations(rows: seq<Row>): (regs: seq<Registration>)
    ensures |regs| == |rows|
    ensures forall i :: 0 <= i < |rows| ==> regs[i] == Registration(rows[i].name, rows[i].timestamp)
  {
    seq(|rows|, i requires 0 <= i < |rows| => Registration(rows[i].name, rows[i].timestamp))
  }

  /** The mapping rebuilt after a save: the other names' registrations in
      their table order, then the saved one. */
  lemma RegistrationsUpsert(rows: seq<Row>, row: Row)
    ensures Registrations(Upsert(rows, row))
            == Registrations(Remove(rows, row.name)) + [Registration(row.name, row.timestamp)]
  {
    var a, b := Remove(rows, row.name), [row];
    assert Registrations(a + b) == Registrations(a) + Registrations(b);
  }

  /** The sentence embedded for a registration, `"{name} registered at {timestamp}"`:
      it opens with the name and closes with the timestamp. */
  function Describe(reg: Registration): (text: string)
    ensures |text| == |reg.name| + |" registered at "| + |reg.timestamp|
    ensures text[..|reg.name|] == reg.name
    ensures text[|text| - |reg.timestamp|..] == reg.timestamp
  {
    reg.name + " registered at " + reg.timestamp
  }

  /** The texts `rebuild_faiss_index` embeds, one per registration, in order. */
  function Descriptions(regs: seq<Registration>): (texts: seq<string>)
    ensures |texts| == |regs|
    ensures forall i :: 0 <= i < |regs| ==> texts[i] == Describe(regs[i])
  {
    seq(|regs|, i requires 0 <= i < |regs| => Describe(regs[i]))
  }

  // ----- ORDER BY timestamp -----

  /** Code-point order on text, which is how SQLite's default (binary)
      collation orders UTF-8 `TEXT` values. */
  predicate TextLe(a: string, b: string)
  {
    |a| == 0 || (|b| > 0 && (a[0] < b[0] || (a[0] == b[0] && TextLe(a[1..], b[1..]))))
  }

  lemma {:induction false} TextLeTotal(a: string, b: string)
    ensures TextLe(a, b) || TextLe(b, a)
  {
    if |a| > 0 && |b| > 0 && a[0] == b[0] {
      TextLeTotal(a[1..], b[1..]);
    }
  }

  lemma {:induction false} TextLeTransitive(a: string, b: string, c: string)
    requires TextLe(a, b) && TextLe(b, c)
    ensures TextLe(a, c)
  {
    if |a| > 0 && a[0] == b[0] && b[0] == c[0] {
      TextLeTransitive(a[1..], b[1..], c[1..]);
    }
  }

  ghost predicate SortedByTimestamp(regs: seq<Registration>)
  {
    forall i, j :: 0 <= i < j < |regs| ==> TextLe(regs[i].timestamp, regs[j].timestamp)
  }

  ghost predicate NotBefore(t: string, regs: seq<Registration>)
  {
    forall k :: 0 <= k < |regs| ==> TextLe(t, regs[k].timestamp)
  }

  /** Insert `x` in front of the first registration it does not come after. */
  function Insert(x: Registration, regs: seq<Registration>): (r: seq<Registration>)
    ensures multiset(r) == multiset(regs) + multiset{x}
  {
    if regs == [] then [x]
    else if TextLe(x.timestamp, regs[0].timestamp) then [x] + regs
    else
      assert regs == [regs[0]] + regs[1..];
      [regs[0]] + Insert(x, regs[1..])
  }

  /** Sorting by timestamp (ties keep their scan order). */
  function SortByTimestamp(regs: seq<Registration>): (r: seq<Registration>)
    ensures multiset(r) == multiset(regs)
  {
    if regs == [] then []
    else
      assert regs == [regs[0]] + regs[1..];
      Insert(regs[0], SortByTimestamp(regs[1..]))
  }

  lemma {:induction false} InsertNotBefore(t: string, x: Registration, regs: seq<Registration>)
    requires NotBefore(t, regs) && TextLe(t, x.timestamp)
    ensures NotBefore(t, Insert(x, regs))
  {
    if regs != [] && !TextLe(x.timestamp, regs[0].timestamp) {
      InsertNotBefore(t, x, regs[1..]);
    }
  }

  lemma {:induction false} InsertSorted(x: Registration, regs: seq<Registration>)
    requires SortedByTimestamp(regs)
    ensures SortedByTimestamp(Insert(x, regs))
  {
    if regs == [] {
    } else if TextLe(x.timestamp, regs[0].timestamp) {
      forall k | 0 <= k < |regs| ensures TextLe(x.timestamp, regs[k].timestamp) {
        if k > 0 {
          TextLeTransitive(x.timestamp, regs[0].timestamp, regs[k].timestamp);
        }
      }
    } else {
      var head, tail := regs[0], regs[1..];
      TextLeTotal(x.timestamp, head.timestamp);
      assert NotBefore(head.timestamp, tail) by {
        forall k | 0 <= k < |tail| ensures TextLe(head.timestamp, tail[k].timestamp) {
          assert tail[k] == regs[k + 1];
        }
      }
      assert SortedByTimestamp(tail) by {
        forall i, j | 0 <= i < j < |tail| ensures TextLe(tail[i].timestamp, tail[j].timestamp) {
          assert tail[i] == regs[i + 1] && tail[j] == regs[j + 1];
        }
      }
      InsertSorted(x, tail);
      InsertNotBefore(head.timestamp, x, tail);
      var rest := Insert(x, tail);
      var r := [head] + rest;
      forall i, j | 0 <= i < j < |r| ensures TextLe(r[i].timestamp, r[j].timestamp) {
        if i == 0 {
          assert r[j] == rest[j - 1];
        } else {
          assert r[i] == rest[i - 1] && r[j] == rest[j - 1];
        }
      }
    }
  }

  /** `ORDER BY timestamp` yields the registrations ordered by timestamp, a
      permutation of the table's own. */
  lemma {:induction false} SortByTimestampSorted(regs: seq<Registration>)
    ensures SortedByTimestamp(SortByTimestamp(regs))
    ensures multiset(SortByTimestamp(regs)) == multiset(regs)
  {
    if regs != [] {
      SortByTimestampSorted(regs[1..]);
      InsertSorted(regs[0], SortByTimestamp(regs[1..]));
    }
  }
}
