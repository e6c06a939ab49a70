/**
 Backup by paging and restore by batched upserts. A table is a fixed sequence
 of keyed rows served in limit/offset slices; a server may cap how many rows a
 response holds, and any request may fail or find no connection.
 */
module Migration {
  import opened Common

  const PAGE: nat := 1000
  const BATCH: nat := 100

  datatype Row = Row(key: string, fields: string)
  type Store = map<string, string>

  // ---- Paging ----

  /** What the server answers to limit=PAGE and the given offset. */
  function Slice(table: seq<Row>, offset: nat, cap: nat): (rows: seq<Row>)
    ensures |rows| <= PAGE && |rows| <= cap
  {
    if offset >= |table| then []
    else
      var size := if cap < PAGE then cap else PAGE;
      if offset + size < |table| then table[offset..offset + size] else table[offset..]
  }

  /** The rows collected from page k on; ok says which page requests succeed. */
  function Pages(table: seq<Row>, cap: nat, ok: nat -> bool, k: nat): seq<Row>
    decreases |table| - k * PAGE
  {
    if !ok(k) then []
    else
      var rows := Slice(table, k * PAGE, cap);
      if |rows| < PAGE then rows else rows + Pages(table, cap, ok, k + 1)
  }

  lemma PagesStep(table: seq<Row>, cap: nat, ok: nat -> bool, k: nat, before: seq<Row>)
    requires ok(k)
    ensures var rows := Slice(table, k * PAGE, cap);
            before + Pages(table, cap, ok, k)
            == if |rows| < PAGE then before + rows else (before + rows) + Pages(table, cap, ok, k + 1)
  {
  }

  /** Paging from k on meets a page without a connection, which nothing catches. */
  predicate Breaks(table: seq<Row>, cap: nat, ok: nat -> bool, up: nat -> bool, k: nat)
    decreases |table| - k * PAGE
  {
    !up(k) || (ok(k) && |Slice(table, k * PAGE, cap)| == PAGE && Breaks(table, cap, ok, up, k + 1))
  }

  /** Page k is asked for: all pages before it came, and came full. */
  ghost predicate Asked(table: seq<Row>, cap: nat, ok: nat -> bool, up: nat -> bool, k: nat) {
    (k > 0 ==> PAGE <= cap && k * PAGE <= |table|) && forall j :: 0 <= j < k ==> up(j) && ok(j)
  }

  lemma {:induction false} BreaksFrom(table: seq<Row>, cap: nat, ok: nat -> bool, up: nat -> bool, k: nat)
    requires Asked(table, cap, ok, up, k)
    ensures Breaks(table, cap, ok, up, k) <==> exists b :: b >= k && !up(b) && Asked(table, cap, ok, up, b)
    decreases |table| - k * PAGE
  {
    if up(k) && ok(k) && |Slice(table, k * PAGE, cap)| == PAGE {
      assert Asked(table, cap, ok, up, k + 1);
      BreaksFrom(table, cap, ok, up, k + 1);
      assert forall b :: b >= k && !up(b) ==> b >= k + 1;
    } else if up(k) {
      forall b: nat | b >= k && !up(b) ensures !Asked(table, cap, ok, up, b) {
        assert b > k && (k + 1) * PAGE <= b * PAGE;
      }
    }
  }

  /** A backup of the table breaks off exactly when some page it asks for finds no connection. */
  lemma BreaksIff(table: seq<Row>, cap: nat, ok: nat -> bool, up: nat -> bool)
    ensures Breaks(table, cap, ok, up, 0) <==> exists b: nat :: !up(b) && Asked(table, cap, ok, up, b)
  {
    BreaksFrom(table, cap, ok, up, 0);
  }

  method GetAll(table: seq<Row>, cap: nat, ok: nat -> bool, up: nat -> bool) returns (all: seq<Row>, raised: bool)
    ensures raised <==> Breaks(table, cap, ok, up, 0)
    ensures !raised ==> all == Pages(table, cap, ok, 0)
  {
    all, raised := [], false;
    var k, offset := 0, 0;
    while true
      invariant offset == k * PAGE && !raised
      invariant all + Pages(table, cap, ok, k) == Pages(table, cap, ok, 0)
      invariant Breaks(table, cap, ok, up, k) <==> Breaks(table, cap, ok, up, 0)
      decreases |table| - offset
    {
      if !up(k) {
        raised := true;
        return;
      }
      if !ok(k) {
        return;
      }
      var rows := Slice(table, offset, cap);
      PagesStep(table, cap, ok, k, all);
      if rows == [] {
        break;
      }
      all := all + rows;
      if |rows| < PAGE {
        break;
      }
      k, offset := k + 1, offset + PAGE;
    }
  }

  lemma {:induction false} PagesArePrefix(table: seq<Row>, cap: nat, ok: nat -> bool, k: nat)
    requires k * PAGE <= |table|
    ensures Pages(table, cap, ok, k) <= table[k * PAGE..]
    decreases |table| - k * PAGE
  {
    if ok(k) && |Slice(table, k * PAGE, cap)| == PAGE {
      PagesArePrefix(table, cap, ok, k + 1);
      var p := k * PAGE;
      assert table[p..] == table[p..p + PAGE] + table[p + PAGE..];
    }
  }

  /** No page that still holds rows fails, and the server's cap cuts no page short. */
  ghost predicate Served(table: seq<Row>, cap: nat, ok: nat -> bool) {
    && (forall k: nat :: k * PAGE < |table| ==> ok(k))
    && (PAGE <= cap || |table| <= cap)
  }

  lemma {:induction false} ServedPages(table: seq<Row>, cap: nat, ok: nat -> bool, k: nat)
    requires Served(table, cap, ok) && k * PAGE <= |table|
    ensures Pages(table, cap, ok, k) == table[k * PAGE..]
    decreases |table| - k * PAGE
  {
    var p := k * PAGE;
    if p < |table| {
      assert ok(k);
      if p + PAGE <= |table| {
        assert cap < PAGE ==> |table| <= cap;
        ServedPages(table, cap, ok, k + 1);
        assert table[p..] == table[p..p + PAGE] + table[p + PAGE..];
      }
    }
  }

  /** Where the first failing page stands, the rows stop: never more than its offset. */
  lemma {:induction false} StopsAtFailure(table: seq<Row>, cap: nat, ok: nat -> bool, k: nat, f: nat)
    requires k <= f && !ok(f) && k * PAGE <= |table|
    ensures |Pages(table, cap, ok, k)| <= (f - k) * PAGE
    decreases f - k
  {
    if ok(k) && |Slice(table, k * PAGE, cap)| == PAGE {
      StopsAtFailure(table, cap, ok, k + 1, f);
    }
  }

  /**
   The backup of a table is the table, for every length including multiples of
   PAGE, exactly when no page holding rows fails and the server's cap is either
   at least PAGE or not below the number of rows.
   */
  lemma BackupCompleteIff(table: seq<Row>, cap: nat, ok: nat -> bool)
    ensures Pages(table, cap, ok, 0) <= table
    ensures Pages(table, cap, ok, 0) == table <==> Served(table, cap, ok)
  {
    PagesArePrefix(table, cap, ok, 0);
    assert table[0..] == table;
    if Served(table, cap, ok) {
      ServedPages(table, cap, ok, 0);
    } else if f: nat :| f * PAGE < |table| && !ok(f) {
      StopsAtFailure(table, cap, ok, 0, f);
    } else {
      assert ok(0);
    }
  }

  /** Where paging stops and with how many rows: all pages before were full, and this one fails or is short. */
  lemma {:induction false} PagesLength(table: seq<Row>, cap: nat, ok: nat -> bool, k: nat, stop: nat)
    requires k <= stop && (forall j :: k <= j < stop ==> ok(j))
    requires k < stop ==> 1000 <= cap && stop * 1000 <= |table|
    ensures !ok(stop) ==> |Pages(table, cap, ok, k)| == (stop - k) * 1000
    ensures ok(stop) && cap < 1000 && stop * 1000 + cap <= |table| ==>
      |Pages(table, cap, ok, k)| == (stop - k) * 1000 + cap
    ensures ok(stop) && stop * 1000 <= |table| < (stop + 1) * 1000 && |table| - stop * 1000 <= cap ==>
      |Pages(table, cap, ok, k)| == |table| - k * 1000
    decreases stop - k
  {
    if k < stop {
      PagesLength(table, cap, ok, k + 1, stop);
    }
  }

  // ---- Restoring ----

  /** The store after the first n rows, where row i is written if its batch succeeded. */
  function Written(store: Store, rows: seq<Row>, ok: nat -> bool, n: nat): Store
    requires n <= |rows|
  {
    if n == 0 then store
    else
      var before := Written(store, rows, ok, n - 1);
      if ok((n - 1) / BATCH) then before[rows[n - 1].key := rows[n - 1].fields] else before
  }

  function Restored(store: Store, rows: seq<Row>, ok: nat -> bool): Store {
    Written(store, rows, ok, |rows|)
  }

  /** An upsert of one batch: rows are merged into the store by key. */
  function Upsert(store: Store, batch: seq<Row>): Store {
    if batch == [] then store
    else Upsert(store, batch[..|batch| - 1])[batch[|batch| - 1].key := batch[|batch| - 1].fields]
  }

  lemma {:induction false} BatchIsWritten(store: Store, rows: seq<Row>, ok: nat -> bool, b: nat, n: nat)
    requires b * BATCH <= n <= |rows| && n <= (b + 1) * BATCH
    ensures Written(store, rows, ok, n) ==
      if ok(b) then Upsert(Written(store, rows, ok, b * BATCH), rows[b * BATCH..n])
      else Written(store, rows, ok, b * BATCH)
    decreases n
  {
    var i := b * BATCH;
    if i < n {
      BatchIsWritten(store, rows, ok, b, n - 1);
      assert (n - 1) / BATCH == b;
      var batch := rows[i..n];
      assert batch[..|batch| - 1] == rows[i..n - 1];
    } else {
      assert rows[i..n] == [];
    }
  }

  /** How many of the first b batches fail. */
  function Failures(ok: nat -> bool, b: nat): nat {
    if b == 0 then 0 else Failures(ok, b - 1) + if ok(b - 1) then 0 else 1
  }

  lemma {:induction false} NoFailuresIff(ok: nat -> bool, b: nat)
    ensures Failures(ok, b) == 0 <==> forall i :: 0 <= i < b ==> ok(i)
  {
    if b > 0 {
      NoFailuresIff(ok, b - 1);
    }
  }

  lemma {:induction false} FailuresAreCount(ok: nat -> bool, n: nat)
    ensures Failures(ok, n) == |(set b | 0 <= b < n && !ok(b))|
  {
    if n > 0 {
      FailuresAreCount(ok, n - 1);
      var before := set b | 0 <= b < n - 1 && !ok(b);
      assert (set b | 0 <= b < n && !ok(b)) == if ok(n - 1) then before else before + {n - 1};
    }
  }

  function Batches(n: nat): nat {
    (n + BATCH - 1) / BATCH
  }

  method RestoreTable(store: Store, rows: seq<Row>, ok: nat -> bool) returns (result: Store, errors: nat)
    ensures result == Restored(store, rows, ok)
    ensures errors == Failures(ok, Batches(|rows|)) == |(set b | 0 <= b < Batches(|rows|) && !ok(b))|
    ensures (Batches(|rows|) - 1) * 100 < |rows| <= Batches(|rows|) * 100
    ensures errors == 0 <==> forall b :: 0 <= b < Batches(|rows|) ==> ok(b)
  {
    result, errors := store, 0;
    var i := 0;
    ghost var b := 0;
    while i < |rows|
      invariant i == b * BATCH && b <= Batches(|rows|)
      invariant result == Written(store, rows, ok, if i < |rows| then i else |rows|)
      invariant errors == Failures(ok, b)
      decreases |rows| - i
    {
      var end := if i + BATCH < |rows| then i + BATCH else |rows|;
      BatchIsWritten(store, rows, ok, b, end);
      var batch := rows[i..end];
      if ok(i / BATCH) {
        result := Upsert(result, batch);
      } else {
        errors := errors + 1;
      }
      i := i + BATCH;
      b := b + 1;
    }
    NoFailuresIff(ok, b);
    FailuresAreCount(ok, b);
  }

  ghost predicate UniqueKeys(rows: seq<Row>) {
    forall i, j :: 0 <= i < j < |rows| ==> rows[i].key != rows[j].key
  }

  /** With unique keys, the restored store key by key. */
  lemma {:induction false} WrittenKey(store: Store, rows: seq<Row>, ok: nat -> bool, n: nat, i: nat)
    requires UniqueKeys(rows) && n <= |rows| && i < |rows|
    ensures i < n && ok(i / BATCH) ==>
      rows[i].key in Written(store, rows, ok, n) && Written(store, rows, ok, n)[rows[i].key] == rows[i].fields
    ensures !(i < n && ok(i / BATCH)) ==> SameAt(store, Written(store, rows, ok, n), rows[i].key)
  {
    if n > 0 {
      WrittenKey(store, rows, ok, n - 1, i);
    }
  }

  predicate SameAt(s: Store, t: Store, key: string) {
    (key in s <==> key in t) && (key in s ==> s[key] == t[key])
  }

  ghost predicate HasKey(rows: seq<Row>, key: string) {
    exists i :: 0 <= i < |rows| && rows[i].key == key
  }

  /** Keys outside the backup are untouched, whichever batches fail. */
  lemma {:induction false} OthersUntouched(store: Store, rows: seq<Row>, ok: nat -> bool, n: nat, key: string)
    requires n <= |rows| && !HasKey(rows, key)
    ensures SameAt(store, Written(store, rows, ok, n), key)
  {
    if n > 0 {
      OthersUntouched(store, rows, ok, n - 1, key);
    }
  }

  function Either(ok1: nat -> bool, ok2: nat -> bool): nat -> bool {
    (b: nat) => ok1(b) || ok2(b)
  }

  /**
   Restores add up: restoring twice is one restore in which a batch succeeds if
   it did in either run. So a second run repairs the first, and two runs whose
   failures never coincide complete the table.
   */
  lemma RestoresAddUp(store: Store, rows: seq<Row>, ok1: nat -> bool, ok2: nat -> bool)
    requires UniqueKeys(rows)
    ensures Restored(Restored(store, rows, ok1), rows, ok2) == Restored(store, rows, Either(ok1, ok2))
  {
    var either := Either(ok1, ok2);
    var once := Restored(store, rows, ok1);
    var twice, joint := Restored(once, rows, ok2), Restored(store, rows, either);
    forall key ensures SameAt(twice, joint, key) {
      if HasKey(rows, key) {
        var i :| 0 <= i < |rows| && rows[i].key == key;
        WrittenKey(store, rows, ok1, |rows|, i);
        WrittenKey(once, rows, ok2, |rows|, i);
        WrittenKey(store, rows, either, |rows|, i);
      } else {
        OthersUntouched(store, rows, ok1, |rows|, key);
        OthersUntouched(once, rows, ok2, |rows|, key);
        OthersUntouched(store, rows, either, |rows|, key);
      }
    }
    forall key ensures (key in twice <==> key in joint) && (key in twice ==> twice[key] == joint[key]) {
      assert SameAt(twice, joint, key);
    }
    assert twice == joint;
  }

  lemma {:induction false} AgreeingOracles(store: Store, rows: seq<Row>, ok1: nat -> bool, ok2: nat -> bool, n: nat)
    requires n <= |rows| && forall b :: ok1(b) == ok2(b)
    ensures Written(store, rows, ok1, n) == Written(store, rows, ok2, n)
  {
    if n > 0 {
      AgreeingOracles(store, rows, ok1, ok2, n - 1);
    }
  }

  /** Restoring twice the same way is restoring once. */
  lemma RestoreIdempotent(store: Store, rows: seq<Row>, ok: nat -> bool)
    requires UniqueKeys(rows)
    ensures Restored(Restored(store, rows, ok), rows, ok) == Restored(store, rows, ok)
  {
    RestoresAddUp(store, rows, ok, ok);
    AgreeingOracles(store, rows, Either(ok, ok), ok, |rows|);
  }

  /** store holds exactly the rows. */
  ghost predicate Reproduces(store: Store, rows: seq<Row>) {
    && (forall i :: 0 <= i < |rows| ==> rows[i].key in store && store[rows[i].key] == rows[i].fields)
    && (forall key :: key in store ==> HasKey(rows, key))
  }

  /** A failed batch leaves its rows out of an empty store. */
  lemma FailedBatchShows(rows: seq<Row>, ok: nat -> bool, b: nat)
    requires UniqueKeys(rows) && b < Batches(|rows|) && !ok(b)
    ensures !Reproduces(Restored(map[], rows, ok), rows)
  {
    WrittenKey(map[], rows, ok, |rows|, b * BATCH);
    assert rows[b * BATCH].key !in Restored(map[], rows, ok);
  }

  lemma MissingRowShows(table: seq<Row>, n: nat, ok: nat -> bool)
    requires UniqueKeys(table) && n < |table|
    ensures !Reproduces(Restored(map[], table[..n], ok), table)
  {
    assert !HasKey(table[..n], table[n].key);
    OthersUntouched(map[], table[..n], ok, n, table[n].key);
    assert table[n].key !in Restored(map[], table[..n], ok);
  }

  lemma AllBatchesWork(rows: seq<Row>, ok: nat -> bool)
    requires UniqueKeys(rows) && forall b :: 0 <= b < Batches(|rows|) ==> ok(b)
    ensures Reproduces(Restored(map[], rows, ok), rows)
  {
    var store := Restored(map[], rows, ok);
    forall i | 0 <= i < |rows| ensures rows[i].key in store && store[rows[i].key] == rows[i].fields {
      assert i / BATCH < Batches(|rows|);
      WrittenKey(map[], rows, ok, |rows|, i);
    }
    forall key | key in store ensures HasKey(rows, key) {
      if !HasKey(rows, key) {
        OthersUntouched(map[], rows, ok, |rows|, key);
      }
    }
  }

  /**
   Round trip: restoring a backup into an empty store reproduces the table
   exactly when the backup was complete and no batch of the restore fails.
   */
  lemma RoundTripIff(table: seq<Row>, cap: nat, ok: nat -> bool, restored: nat -> bool)
    requires UniqueKeys(table)
    ensures Reproduces(Restored(map[], Pages(table, cap, ok, 0), restored), table) <==>
      Served(table, cap, ok) && forall b :: 0 <= b < Batches(|table|) ==> restored(b)
  {
    var rows := Pages(table, cap, ok, 0);
    BackupCompleteIff(table, cap, ok);
    assert rows == table[..|rows|];
    if |rows| < |table| {
      MissingRowShows(table, |rows|, restored);
    } else if b :| 0 <= b < Batches(|table|) && !restored(b) {
      FailedBatchShows(table, restored, b);
    } else {
      AllBatchesWork(table, restored);
    }
  }

  // ---- All tables ----

  type Oracle = (string, nat) -> bool

  function ForTable(ok: Oracle, t: string): nat -> bool {
    (k: nat) => ok(t, k)
  }

  /** The backup of table t breaks off. */
  predicate TableBreaks(source: string -> seq<Row>, cap: nat, ok: Oracle, up: Oracle, t: string) {
    Breaks(source(t), cap, ForTable(ok, t), ForTable(up, t), 0)
  }

  /** The tables before the first that breaks off. */
  function Unbroken(source: string -> seq<Row>, tables: seq<string>, cap: nat, ok: Oracle, up: Oracle)
    : (done: seq<string>)
    ensures done <= tables
    ensures done == tables <==> forall t :: t in tables ==> !TableBreaks(source, cap, ok, up, t)
  {
    if tables == [] || TableBreaks(source, cap, ok, up, tables[0]) then []
    else [tables[0]] + Unbroken(source, tables[1..], cap, ok, up)
  }

  lemma {:induction false} UnbrokenUpTo(
    source: string -> seq<Row>, tables: seq<string>, cap: nat, ok: Oracle, up: Oracle, i: nat)
    requires i <= |tables|
    requires forall j :: 0 <= j < i ==> !TableBreaks(source, cap, ok, up, tables[j])
    requires i < |tables| ==> TableBreaks(source, cap, ok, up, tables[i])
    ensures Unbroken(source, tables, cap, ok, up) == tables[..i]
  {
    if i > 0 {
      UnbrokenUpTo(source, tables[1..], cap, ok, up, i - 1);
    }
  }

  /**
   Every table before the first that breaks off gets a file; without one the exit
   code is 0 whatever was fetched, else None stands for the exception.
   */
  method Backup(source: string -> seq<Row>, tables: seq<string>, cap: nat, ok: Oracle, up: Oracle)
    returns (files: map<string, seq<Row>>, errors: nat, exit: Option<int>)
    ensures files.Keys == set t | t in Unbroken(source, tables, cap, ok, up)
    ensures forall t :: t in files ==> files[t] == Pages(source(t), cap, ForTable(ok, t), 0)
    ensures errors == 0 <==> forall t :: t in files ==> files[t] != []
    ensures exit == if Unbroken(source, tables, cap, ok, up) == tables then Some(0) else None
  {
    files, errors, exit := map[], 0, None;
    for i := 0 to |tables|
      invariant files.Keys == set t | t in tables[..i]
      invariant forall t :: t in files ==> files[t] == Pages(source(t), cap, ForTable(ok, t), 0)
      invariant errors == 0 <==> forall t :: t in files ==> files[t] != []
      invariant forall j :: 0 <= j < i ==> !TableBreaks(source, cap, ok, up, tables[j])
    {
      var t := tables[i];
      var rows, raised := GetAll(source(t), cap, ForTable(ok, t), ForTable(up, t));
      assert raised == TableBreaks(source, cap, ok, up, t);
      if raised {
        UnbrokenUpTo(source, tables, cap, ok, up, i);
        return;
      }
      files := files[t := rows];
      if rows == [] {
        errors := errors + 1;
      }
      assert tables[..i + 1] == tables[..i] + [t];
    }
    UnbrokenUpTo(source, tables, cap, ok, up, |tables|);
    assert tables[..|tables|] == tables;
    exit := Some(0);
  }

  function StoreOf(db: map<string, Store>, t: string): Store {
    if t in db then db[t] else map[]
  }

  /** Each listed table with a file is restored on its own; 0 is returned exactly if no batch failed. */
  method Restore(db: map<string, Store>, files: map<string, seq<Row>>, tables: seq<string>, ok: Oracle)
    returns (result: map<string, Store>, exit: int)
    requires Distinct(tables)
    ensures forall t :: t in tables && t in files ==>
      StoreOf(result, t) == Restored(StoreOf(db, t), files[t], ForTable(ok, t))
    ensures forall t :: !(t in tables && t in files) ==> StoreOf(result, t) == StoreOf(db, t)
    ensures exit == 0 || exit == 1
    ensures exit == 0 <==>
      forall t, b :: t in tables && t in files && 0 <= b < Batches(|files[t]|) ==> ForTable(ok, t)(b)
  {
    result := db;
    var errors := 0;
    for i := 0 to |tables|
      invariant forall t :: t in tables[..i] && t in files ==>
        StoreOf(result, t) == Restored(StoreOf(db, t), files[t], ForTable(ok, t))
      invariant forall t :: !(t in tables[..i] && t in files) ==> StoreOf(result, t) == StoreOf(db, t)
      invariant errors == 0 <==>
        forall t, b :: t in tables[..i] && t in files && 0 <= b < Batches(|files[t]|) ==> ForTable(ok, t)(b)
    {
      var t := tables[i];
      assert tables[..i + 1] == tables[..i] + [t];
      assert t !in tables[..i];
      if t in files && files[t] != [] {
        var store, failed := RestoreTable(StoreOf(result, t), files[t], ForTable(ok, t));
        result := result[t := store];
        errors := errors + failed;
      }
    }
    assert tables[..|tables|] == tables;
    exit := if errors == 0 then 0 else 1;
  }
}
