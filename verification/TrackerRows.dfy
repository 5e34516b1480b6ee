/** The persister's pass over one collection (infra/db/command/write/aggregate_write.go):
    rows are addressed by the id the tracked item carries, not by where it is tracked. When
    that gives exactly the current children, and which calls see to it. */
module TrackerRows {
  import opened AggregateStatus
  import opened Options
  import opened Tracker
  import opened TrackerReplay

  /** Rows by their id, the archived ones apart, and the children inserted beside them, whose
      ids the database makes. `archives` says whether the child's schema archives. */
  datatype Stored<K, V> = Stored(
    archives: bool,
    rows: map<string, Item<K, V>>,
    archived: map<string, Item<K, V>>,
    inserted: seq<Item<K, V>>)

  predicate DistinctIds<K, V>(rows: seq<Item<K, V>>) {
    && (forall i :: 0 <= i < |rows| ==> rows[i].id != "")
    && (forall i, j :: 0 <= i < j < |rows| ==> rows[i].id != rows[j].id)
  }

  function Table<K, V>(rows: seq<Item<K, V>>): map<string, Item<K, V>> {
    if rows == [] then map[] else Table(rows[..|rows| - 1])[rows[|rows| - 1].id := rows[|rows| - 1]]
  }

  function OpOf<K, V>(e: Entry<K, V>): Op {
    OperationOf(e.original, e.current)
  }

  /** An update expects its row, archived or not, and writes it as it stands. */
  function WriteUpdate<K, V>(db: Stored<K, V>, item: Item<K, V>): Option<Stored<K, V>> {
    if item.id == "" then None
    else if item.id in db.rows then Some(db.(rows := db.rows[item.id := item]))
    else if item.id in db.archived then Some(db.(archived := db.archived[item.id := item]))
    else None
  }

  /** A removal of no row is none. */
  function WriteRemoval<K, V>(db: Stored<K, V>, id: string): Option<Stored<K, V>> {
    if id == "" then None
    else if db.archives && id in db.rows then
      Some(db.(rows := db.rows - {id}, archived := db.archived[id := db.rows[id]]))
    else Some(db.(rows := db.rows - {id}))
  }

  function Write<K, V>(db: Stored<K, V>, e: Entry<K, V>): Option<Stored<K, V>> {
    match OpOf(e)
    case Insert => Some(db.(inserted := db.inserted + [e.item]))
    case Update => WriteUpdate(db, e.item)
    case Delete => WriteRemoval(db, e.item.id)
    case Noop => Some(db)
  }

  function WriteAll<K, V>(db: Stored<K, V>, list: seq<Entry<K, V>>): Option<Stored<K, V>> {
    if list == [] then Some(db)
    else match WriteAll(db, list[..|list| - 1])
      case None => None
      case Some(before) => Write(before, list[|list| - 1])
  }

  /** What a loaded row should be: as tracked if it is still active, and otherwise gone, or
      archived as it was loaded. */
  ghost predicate RowHolds<K, V>(row: Item<K, V>, e: Entry<K, V>, db: Stored<K, V>) {
    if Active(e) then row.id in db.rows && db.rows[row.id] == e.item
    else row.id !in db.rows && (db.archives ==> row.id in db.archived && db.archived[row.id] == row)
  }

  /** What should be stored: that of every loaded row, and every child added since. */
  ghost predicate HoldsCurrent<K, V>(rows: seq<Item<K, V>>, list: seq<Entry<K, V>>, db: Stored<K, V>)
    requires |rows| <= |list|
  {
    && (forall i :: 0 <= i < |rows| ==> RowHolds(rows[i], list[i], db))
    && (forall k :: k in db.rows ==> exists i :: 0 <= i < |rows| && rows[i].id == k)
    && db.inserted == CurrentItems(list[|rows|..])
  }

  // ---- what the pass does, whatever the ids ----

  lemma {:induction false} TableHolds<K, V>(rows: seq<Item<K, V>>)
    requires DistinctIds(rows)
    ensures forall i :: 0 <= i < |rows| ==> rows[i].id in Table(rows) && Table(rows)[rows[i].id] == rows[i]
    ensures forall k :: k in Table(rows) ==> Table(rows)[k].id == k && exists i :: 0 <= i < |rows| && rows[i].id == k
  {
    if rows != [] {
      var n := |rows| - 1;
      TableHolds(rows[..n]);
      assert forall i :: 0 <= i < n ==> rows[..n][i] == rows[i];
    }
  }

  ghost predicate DeletedBy<K, V>(list: seq<Entry<K, V>>, id: string) {
    exists i :: 0 <= i < |list| && OpOf(list[i]) == Delete && list[i].item.id == id
  }

  /** After the pass a row is there exactly when it was and no delete carried its id, and
      carries the id it is stored under. */
  ghost predicate Passed<K, V>(db: Stored<K, V>, list: seq<Entry<K, V>>, db': Stored<K, V>) {
    && (forall k :: k in db'.rows <==> k in db.rows && !DeletedBy(list, k))
    && (forall k :: k in db'.rows ==> db'.rows[k].id == k)
    && (forall i :: 0 <= i < |list| && (OpOf(list[i]) == Update || OpOf(list[i]) == Delete) ==> list[i].item.id != "")
  }

  lemma DeletedBySnoc<K, V>(list: seq<Entry<K, V>>, e: Entry<K, V>, id: string)
    ensures DeletedBy(list + [e], id) <==> DeletedBy(list, id) || (OpOf(e) == Delete && e.item.id == id)
  {
    var more := list + [e];
    assert more[|list|] == e;
    if i :| 0 <= i < |list| && OpOf(list[i]) == Delete && list[i].item.id == id { assert more[i] == list[i]; }
  }

  lemma {:induction false} WriteAllPasses<K, V>(db: Stored<K, V>, list: seq<Entry<K, V>>)
    requires forall k :: k in db.rows ==> db.rows[k].id == k
    ensures WriteAll(db, list).Some? ==> Passed(db, list, WriteAll(db, list).value)
  {
    if list != [] {
      var n := |list| - 1;
      var before, e := list[..n], list[n];
      WriteAllPasses(db, before);
      assert before + [e] == list;
      if WriteAll(db, list).Some? { OnePasses(db, before, e, WriteAll(db, before).value); }
    }
  }

  lemma {:induction false} OnePasses<K, V>(
      db: Stored<K, V>, before: seq<Entry<K, V>>, e: Entry<K, V>, between: Stored<K, V>)
    requires Passed(db, before, between) && Write(between, e).Some?
    ensures Passed(db, before + [e], Write(between, e).value)
  {
    var list := before + [e];
    forall k ensures DeletedBy(list, k) <==> DeletedBy(before, k) || (OpOf(e) == Delete && e.item.id == k) {
      DeletedBySnoc(before, e, k);
    }
  }

  lemma {:induction false} WriteAllInserts<K, V>(db: Stored<K, V>, list: seq<Entry<K, V>>)
    ensures WriteAll(db, list).Some? ==> WriteAll(db, list).value.inserted == db.inserted + ItemsByOp(list, Insert)
  {
    if list != [] { WriteAllInserts(db, list[..|list| - 1]); }
  }

  /** What was added since the load is inserted exactly if it is active. */
  lemma {:induction false} InsertedIsCurrent<K, V>(rows: seq<Item<K, V>>, list: seq<Entry<K, V>>, n: nat)
    requires Tracks(rows, list) && |rows| <= n <= |list|
    ensures ItemsByOp(list[..n], Insert) == CurrentItems(list[|rows|..n])
  {
    if n == |rows| {
      NoInserts(rows, list, n);
    } else {
      assert list[..n][..n - 1] == list[..n - 1] && list[|rows|..n][..n - 1 - |rows|] == list[|rows|..n - 1];
      InsertedIsCurrent(rows, list, n - 1);
    }
  }

  lemma {:induction false} NoInserts<K, V>(rows: seq<Item<K, V>>, list: seq<Entry<K, V>>, n: nat)
    requires Tracks(rows, list) && n <= |rows|
    ensures ItemsByOp(list[..n], Insert) == []
  {
    if n > 0 {
      assert list[..n][..n - 1] == list[..n - 1];
      NoInserts(rows, list, n - 1);
    }
  }

  // ---- when the pass succeeds, and what it stores ----

  /** The item stored under an id: the last one an update carried there, or the row itself. */
  function LastWrite<K, V>(list: seq<Entry<K, V>>, id: string, row: Item<K, V>): Item<K, V> {
    if list == [] then row
    else
      var e := list[|list| - 1];
      if OpOf(e) == Update && e.item.id == id then e.item else LastWrite(list[..|list| - 1], id, row)
  }

  /** An entry the pass gets through with: an update finds its row, deleted before only where
      deleting archives; a delete has an id. */
  ghost predicate Writable<K, V>(
      table: map<string, Item<K, V>>, archives: bool, before: seq<Entry<K, V>>, e: Entry<K, V>)
  {
    && (OpOf(e) == Update || OpOf(e) == Delete ==> e.item.id != "")
    && (OpOf(e) == Update ==> e.item.id in table && (archives || !DeletedBy(before, e.item.id)))
  }

  ghost predicate AllWritable<K, V>(table: map<string, Item<K, V>>, archives: bool, list: seq<Entry<K, V>>) {
    forall n :: 0 <= n < |list| ==> Writable(table, archives, list[..n], list[n])
  }

  lemma AllWritableSnoc<K, V>(
      table: map<string, Item<K, V>>, archives: bool, list: seq<Entry<K, V>>, e: Entry<K, V>)
    ensures AllWritable(table, archives, list + [e]) <==>
            AllWritable(table, archives, list) && Writable(table, archives, list, e)
  {
    var more := list + [e];
    assert more[..|list|] == list && more[|list|] == e;
    assert forall n :: 0 <= n < |list| ==> more[..n] == list[..n] && more[n] == list[n];
    if AllWritable(table, archives, more) {
      assert Writable(table, archives, more[..|list|], more[|list|]);
      forall n | 0 <= n < |list| ensures Writable(table, archives, list[..n], list[n]) {
        assert Writable(table, archives, more[..n], more[n]);
      }
    }
  }

  /** Where the row of an id is: among the rows unless a delete carried the id, and then in
      the archive if there is one; as it was last written either way. */
  ghost predicate StoredAt<K, V>(
      table: map<string, Item<K, V>>, list: seq<Entry<K, V>>, db: Stored<K, V>, id: string)
  {
    && (id in db.rows <==> id in table && !DeletedBy(list, id))
    && (id in db.archived <==> id in table && DeletedBy(list, id) && db.archives)
    && (id in db.rows ==> db.rows[id] == LastWrite(list, id, table[id]))
    && (id in db.archived ==> db.archived[id] == LastWrite(list, id, table[id]))
  }

  ghost predicate StoredIs<K, V>(table: map<string, Item<K, V>>, list: seq<Entry<K, V>>, db: Stored<K, V>) {
    forall id :: StoredAt(table, list, db, id)
  }

  lemma WriteOne<K, V>(
      table: map<string, Item<K, V>>, before: seq<Entry<K, V>>, e: Entry<K, V>, db: Stored<K, V>, id: string)
    requires StoredAt(table, before, db, e.item.id) && StoredAt(table, before, db, id)
    ensures Write(db, e).Some? <==> Writable(table, db.archives, before, e)
    ensures Write(db, e).Some? ==>
              Write(db, e).value.archives == db.archives && StoredAt(table, before + [e], Write(db, e).value, id)
  {
    DeletedBySnoc(before, e, id);
    var more := before + [e];
    assert more[..|before|] == before && more[|before|] == e;
    if id in table {
      var rewritten := OpOf(e) == Update && e.item.id == id;
      assert LastWrite(more, id, table[id]) == if rewritten then e.item else LastWrite(before, id, table[id]);
    }
  }

  /** From any table, whatever the entries: the pass succeeds if and only if every update and
      delete carries an id, and every update that of a row not deleted before it or, where
      deleting archives, of any row; and then each row is where and as the entries left it. */
  lemma {:induction false} PassSucceedsIff<K, V>(
      table: map<string, Item<K, V>>, archives: bool, list: seq<Entry<K, V>>)
    ensures var end := WriteAll(Stored(archives, table, map[], []), list);
            && (end.Some? <==> AllWritable(table, archives, list))
            && (end.Some? ==> end.value.archives == archives && StoredIs(table, list, end.value))
  {
    if list != [] {
      var n := |list| - 1;
      var before, e := list[..n], list[n];
      assert before + [e] == list;
      PassSucceedsIff(table, archives, before);
      AllWritableSnoc(table, archives, before, e);
      var between := WriteAll(Stored(archives, table, map[], []), before);
      if between.Some? {
        forall id
          ensures Write(between.value, e).Some? <==> Writable(table, archives, before, e)
          ensures Write(between.value, e).Some? ==>
                    && Write(between.value, e).value.archives == archives
                    && StoredAt(table, list, Write(between.value, e).value, id)
        {
          WriteOne(table, before, e, between.value, id);
        }
        WriteOne(table, before, e, between.value, e.item.id);
      }
    }
  }

  // ---- when it gives the current children ----

  /** Every update carries its own row's id, and the deletes between them carry the ids of
      exactly the removed rows. */
  ghost predicate AddressesItsRows<K, V>(rows: seq<Item<K, V>>, list: seq<Entry<K, V>>)
    requires |rows| <= |list|
  {
    && (forall i :: 0 <= i < |rows| && OpOf(list[i]) == Update ==> list[i].item.id == rows[i].id)
    && (forall i :: 0 <= i < |rows| && OpOf(list[i]) == Delete ==> list[i].item.id != "")
    && (forall j :: 0 <= j < |rows| ==> (DeletedBy(list, rows[j].id) <==> OpOf(list[j]) == Delete))
  }

  function Loaded<K, V>(rows: seq<Item<K, V>>, archives: bool): Stored<K, V> {
    Stored(archives, Table(rows), map[], [])
  }

  /** On a collection loaded with distinct ids, after any run of calls: the pass succeeds and
      leaves exactly the current children if and only if the ids address their rows. */
  lemma {:induction false} StoresCurrentIff<K, V>(rows: seq<Item<K, V>>, archives: bool, list: seq<Entry<K, V>>)
    requires DistinctIds(rows) && Tracks(rows, list)
    ensures var end := WriteAll(Loaded(rows, archives), list);
            end.Some? && HoldsCurrent(rows, list, end.value) <==> AddressesItsRows(rows, list)
  {
    TableHolds(rows);
    WriteAllPasses(Loaded(rows, archives), list);
    var end := WriteAll(Loaded(rows, archives), list);
    if end.Some? && HoldsCurrent(rows, list, end.value) { StoredIsAddressed(rows, archives, list, end.value); }
    if AddressesItsRows(rows, list) {
      AddressedIsStored(rows, archives, list, |list|);
      assert list[..|list|] == list;
      StoredHolds(rows, archives, list, end.value);
    }
  }

  lemma {:induction false} StoredHolds<K, V>(
      rows: seq<Item<K, V>>, archives: bool, list: seq<Entry<K, V>>, db: Stored<K, V>)
    requires Tracks(rows, list) && AddressesItsRows(rows, list)
    requires WriteAll(Loaded(rows, archives), list) == Some(db) && StoredTo(rows, list, |list|, db)
    ensures HoldsCurrent(rows, list, db)
  {
    assert list[..|list|] == list;
    WriteAllInserts(Loaded(rows, archives), list);
    InsertedIsCurrent(rows, list, |list|);
    assert list[|rows|..|list|] == list[|rows|..];
    forall i | 0 <= i < |rows| ensures RowHolds(rows[i], list[i], db) {
      assert RowTo(rows, list, |list|, db, i);
    }
  }

  lemma {:induction false} StoredIsAddressed<K, V>(
      rows: seq<Item<K, V>>, archives: bool, list: seq<Entry<K, V>>, db: Stored<K, V>)
    requires DistinctIds(rows) && Tracks(rows, list)
    requires Passed(Loaded(rows, archives), list, db) && HoldsCurrent(rows, list, db)
    ensures AddressesItsRows(rows, list)
  {
    TableHolds(rows);
    forall j | 0 <= j < |rows| ensures DeletedBy(list, rows[j].id) <==> OpOf(list[j]) == Delete {
      assert rows[j].id in Loaded(rows, archives).rows;
      assert Active(list[j]) <==> OpOf(list[j]) != Delete;
    }
  }

  /** How far the pass has come with a row: as tracked behind its own entry, as loaded in
      front of it, and gone behind a delete with its id. */
  ghost predicate RowTo<K, V>(rows: seq<Item<K, V>>, list: seq<Entry<K, V>>, n: nat, db: Stored<K, V>, i: nat)
    requires i < |rows| <= |list| && n <= |list|
  {
    && (rows[i].id in db.rows <==> !DeletedBy(list[..n], rows[i].id))
    && (rows[i].id in db.rows ==>
        db.rows[rows[i].id] == if i < n && OpOf(list[i]) == Update then list[i].item else rows[i])
    && (rows[i].id !in db.rows && db.archives ==> rows[i].id in db.archived && db.archived[rows[i].id] == rows[i])
  }

  ghost predicate StoredTo<K, V>(rows: seq<Item<K, V>>, list: seq<Entry<K, V>>, n: nat, db: Stored<K, V>)
    requires |rows| <= |list| && n <= |list|
  {
    && (forall i :: 0 <= i < |rows| ==> RowTo(rows, list, n, db, i))
    && (forall k :: k in db.rows ==> exists i :: 0 <= i < |rows| && rows[i].id == k)
  }

  lemma {:induction false} AddressedIsStored<K, V>(
      rows: seq<Item<K, V>>, archives: bool, list: seq<Entry<K, V>>, n: nat)
    requires DistinctIds(rows) && Tracks(rows, list) && AddressesItsRows(rows, list) && n <= |list|
    ensures WriteAll(Loaded(rows, archives), list[..n]).Some?
    ensures StoredTo(rows, list, n, WriteAll(Loaded(rows, archives), list[..n]).value)
  {
    if n == 0 {
      TableHolds(rows);
    } else {
      var all, m := list[..n], n - 1;
      assert all[..|all| - 1] == list[..m];
      AddressedIsStored(rows, archives, list, m);
      StoresOneMore(rows, list, m, WriteAll(Loaded(rows, archives), list[..m]).value);
    }
  }

  lemma {:induction false} StoresOneMore<K, V>(rows: seq<Item<K, V>>, list: seq<Entry<K, V>>, n: nat, db: Stored<K, V>)
    requires DistinctIds(rows) && Tracks(rows, list) && AddressesItsRows(rows, list) && n < |list|
    requires StoredTo(rows, list, n, db)
    ensures Write(db, list[n]).Some? && StoredTo(rows, list, n + 1, Write(db, list[n]).value)
  {
    UpdateFindsItsRow(rows, list, n, db);
    var m, db' := n + 1, Write(db, list[n]).value;
    forall i | 0 <= i < |rows| ensures RowTo(rows, list, m, db', i) {
      RowStoredOneMore(rows, list, n, m, db, db', i);
    }
  }

  lemma {:induction false} UpdateFindsItsRow<K, V>(
      rows: seq<Item<K, V>>, list: seq<Entry<K, V>>, n: nat, db: Stored<K, V>)
    requires DistinctIds(rows) && Tracks(rows, list) && AddressesItsRows(rows, list) && n < |list|
    requires StoredTo(rows, list, n, db)
    ensures Write(db, list[n]).Some? && (OpOf(list[n]) == Update ==> list[n].item.id in db.rows)
  {
    if OpOf(list[n]) == Update {
      DeletedInFront(list, n, rows[n].id);
      assert RowTo(rows, list, n, db, n);
    }
  }

  lemma {:induction false} RowStoredOneMore<K, V>(
      rows: seq<Item<K, V>>, list: seq<Entry<K, V>>, n: nat, m: nat, db: Stored<K, V>, db': Stored<K, V>, i: nat)
    requires DistinctIds(rows) && Tracks(rows, list) && AddressesItsRows(rows, list)
    requires n < |list| && m == n + 1 && i < |rows| && Write(db, list[n]) == Some(db')
    requires StoredTo(rows, list, n, db)
    requires OpOf(list[n]) == Update ==> list[n].item.id in db.rows
    ensures RowTo(rows, list, m, db', i)
  {
    assert RowTo(rows, list, n, db, i);
    WriteMeetsRow(rows, list, n, db, i);
    assert OpOf(list[n]) == Delete && list[n].item.id == rows[i].id ==> DeletedBy(list, rows[i].id);
    RowOneMore(rows, list, n, m, db, db', i);
  }

  lemma {:induction false} RowOneMore<K, V>(
      rows: seq<Item<K, V>>, list: seq<Entry<K, V>>, n: nat, m: nat, db: Stored<K, V>, db': Stored<K, V>, i: nat)
    requires n < |list| && m == n + 1 && i < |rows| <= |list|
    requires RowTo(rows, list, n, db, i) && RowWritten(db, list[n], n == i, db', rows[i].id)
    requires OpOf(list[n]) == Delete && list[n].item.id == rows[i].id ==> OpOf(list[i]) == Delete
    ensures RowTo(rows, list, m, db', i)
  {
    var front, e := list[..n], list[n];
    assert list[..m] == front + [e];
    DeletedBySnoc(front, e, rows[i].id);
  }

  /** A statement leaves a row alone unless it carries its id; an update does only if it is
      the row's own. */
  ghost predicate RowWritten<K, V>(db: Stored<K, V>, e: Entry<K, V>, own: bool, db': Stored<K, V>, id: string) {
    && (id in db'.rows <==> id in db.rows && !(OpOf(e) == Delete && e.item.id == id))
    && (id in db'.rows ==> db'.rows[id] == if own && OpOf(e) == Update then e.item else db.rows[id])
    && db'.archives == db.archives
    && (db.archives && id in db.rows && id !in db'.rows ==> id in db'.archived && db'.archived[id] == db.rows[id])
    && (db.archives && id !in db.rows && id in db.archived ==>
        id in db'.archived && db'.archived[id] == db.archived[id])
  }

  lemma {:induction false} WriteMeetsRow<K, V>(
      rows: seq<Item<K, V>>, list: seq<Entry<K, V>>, n: nat, db: Stored<K, V>, i: nat)
    requires DistinctIds(rows) && Tracks(rows, list) && AddressesItsRows(rows, list) && n < |list| && i < |rows|
    requires Write(db, list[n]).Some? && (OpOf(list[n]) == Update ==> list[n].item.id in db.rows)
    ensures RowWritten(db, list[n], n == i, Write(db, list[n]).value, rows[i].id)
  {
    if OpOf(list[n]) == Update && i != n { assert list[n].item.id == rows[n].id && rows[n].id != rows[i].id; }
  }

  lemma DeletedInFront<K, V>(list: seq<Entry<K, V>>, n: nat, id: string)
    requires n <= |list|
    ensures DeletedBy(list[..n], id) ==> DeletedBy(list, id)
  {
  }

  // ---- which calls see to it ----

  /** The call leaves every tracked item the id it was tracked with. */
  ghost predicate KeepsIds<K, V>(list: seq<Entry<K, V>>, call: Call<K, V>) {
    var after := Apply(list, call);
    |list| <= |after| && forall i :: 0 <= i < |list| ==> after[i].item.id == list[i].item.id
  }

  /** A change does exactly when it is refused or carries the id of its target. */
  lemma ChangeKeepsIdsIff<K, V>(list: seq<Entry<K, V>>, original: Item<K, V>, replacement: Item<K, V>)
    ensures KeepsIds(list, ChangeCall(original, replacement)) <==>
              ChangeRefused(list, original, replacement) ||
                replacement.id == list[FirstMatch(list, Ident(original))].item.id
  {
    var target := FirstMatch(list, Ident(original));
    var after := Change(list, original, replacement);
    if !ChangeRefused(list, original, replacement) { assert after[target].item == replacement; }
  }

  /** An add does unless it wakes an entry with an item no id can be put on. */
  lemma AddKeepsIdsIff<K, V>(list: seq<Entry<K, V>>, item: Item<K, V>)
    ensures var i := FirstMatch(list, Ident(item));
            KeepsIds(list, AddCall(item)) <==>
              i == |list| || AddRefused(list, item) || (item.isStruct && list[i].item.id != "") ||
                item.id == list[i].item.id
  {
    var i := FirstMatch(list, Ident(item));
    var after := Add(list, item);
    if i < |list| && !AddRefused(list, item) { assert after[i].item == Restamp(list[i].item, item); }
  }

  ghost predicate RunKeepsIds<K, V>(list: seq<Entry<K, V>>, calls: seq<Call<K, V>>)
    decreases calls
  {
    calls == [] || (KeepsIds(list, calls[0]) && RunKeepsIds(Apply(list, calls[0]), calls[1..]))
  }

  lemma {:induction false} IdsAfterRun<K, V>(list: seq<Entry<K, V>>, calls: seq<Call<K, V>>)
    requires RunKeepsIds(list, calls)
    ensures var after := Run(list, calls);
            |list| <= |after| && forall i :: 0 <= i < |list| ==> after[i].item.id == list[i].item.id
    decreases calls
  {
    if calls != [] { IdsAfterRun(Apply(list, calls[0]), calls[1..]); }
  }

  /** Over every run of calls that keep ids, from a load with distinct ones: the pass stores
      exactly the current children. */
  lemma {:induction false} RunStoresCurrent<K, V>(rows: seq<Item<K, V>>, archives: bool, calls: seq<Call<K, V>>)
    requires DistinctIds(rows) && RunKeepsIds(Load(rows), calls)
    ensures var list := Run(Load(rows), calls);
            var end := WriteAll(Loaded(rows, archives), list);
            |rows| <= |list| && end.Some? && HoldsCurrent(rows, list, end.value)
  {
    var list := Run(Load(rows), calls);
    RunTracks(rows, Load(rows), calls);
    IdsAfterRun(Load(rows), calls);
    assert forall i :: 0 <= i < |rows| ==> list[i].item.id == rows[i].id;
    forall j | 0 <= j < |rows| ensures DeletedBy(list, rows[j].id) <==> OpOf(list[j]) == Delete {
      if i :| 0 <= i < |list| && OpOf(list[i]) == Delete && list[i].item.id == rows[j].id {
        assert i < |rows| && i == j;
      }
    }
    StoresCurrentIff(rows, archives, list);
  }

  /** One change under another id, and the pass no longer does. */
  lemma {:induction false} ChangeUnderAnotherIdIsLost<K, V>(
      rows: seq<Item<K, V>>, archives: bool, original: Item<K, V>, replacement: Item<K, V>)
    requires DistinctIds(rows) && !ChangeRefused(Load(rows), original, replacement)
    ensures var list := Change(Load(rows), original, replacement);
            var end := WriteAll(Loaded(rows, archives), list);
            && |rows| <= |list|
            && (end.Some? && HoldsCurrent(rows, list, end.value) <==>
                KeepsIds(Load(rows), ChangeCall(original, replacement)))
  {
    var list := Change(Load(rows), original, replacement);
    var target := FirstMatch(Load(rows), Ident(original));
    ChangeKeepsIdsIff(Load(rows), original, replacement);
    assert Tracks(rows, list);
    StoresCurrentIff(rows, archives, list);
    assert OpOf(list[target]) == Update && list[target].item == replacement;
    assert forall i :: 0 <= i < |list| && i != target ==> list[i] == Load(rows)[i];
    assert forall i :: 0 <= i < |list| ==> OpOf(list[i]) != Delete;
  }
}
