/** The feed loader: every file directly inside the input folder becomes one
    table named after the file, its first record the header and every later
    record a row. */
module Loader {
  import opened Wrappers
  import opened Errors
  import opened Paths
  import opened Store

  /** One entry of the input folder's listing: its name, whether it is a
      directory, and (for a file) its records as the csv reader splits them. */
  datatype Entry = Entry(name: string, isDir: bool, lines: seq<Row>)

  /** A loaded feed: the document name and description `build` writes, the
      input folder as given, and the filled store. */
  datatype Feed = Feed(name: string, description: string, folder: string, store: Store)

  const DefaultName: string := "Transport Routes"
  const DefaultDescription: string := "Automatically generated from GTFS data"

  /** Inserts the records one by one; the first record that does not fit
      (wrong width, or a byte of 0x80 or above) stops the load. */
  function InsertAll(s: Store, table: string, rows: seq<Row>): (r: Result<Store, Error>)
    requires table in s
    decreases |rows|
  {
    if |rows| == 0 then Ok(s)
    else
      var s' :- InsertRow(s, table, rows[0]);
      InsertAll(s', table, rows[1..])
  }

  /** The store is `s` with the table `name` replaced by `t`. */
  ghost predicate Replaced(s: Store, s': Store, name: string, t: Table) {
    && (forall n :: n in s' <==> n in s || n == name)
    && name in s' && s'[name] == t
    && (forall n | n in s && n != name :: s'[n] == s[n])
  }

  /** Replacing the same table twice is replacing it once with the second value. */
  lemma ReplacedTwice(s: Store, s': Store, s'': Store, name: string, t': Table, t'': Table)
    requires Replaced(s, s', name, t') && Replaced(s', s'', name, t'')
    ensures Replaced(s, s'', name, t'')
  {
  }

  /** One insert that goes through: the rest of the load continues from the
      store it gives, in which the table has gained the record. */
  lemma InsertStep(s: Store, table: string, rows: seq<Row>, s': Store)
    requires table in s && |rows| > 0 && InsertRow(s, table, rows[0]) == Ok(s')
    ensures Replaced(s, s', table, Table(s[table].columns, s[table].rows + [rows[0]]))
    ensures InsertAll(s, table, rows) == InsertAll(s', table, rows[1..])
  {
  }

  /** Appending one record and then the rest is appending them all. */
  lemma ReplacedAppend(s: Store, s': Store, s'': Store, name: string, t: Table, rows: seq<Row>)
    requires |rows| > 0
    requires Replaced(s, s', name, Table(t.columns, t.rows + [rows[0]]))
    requires Replaced(s', s'', name, Table(s'[name].columns, s'[name].rows + rows[1..]))
    ensures Replaced(s, s'', name, Table(t.columns, t.rows + rows))
  {
    assert t.rows + [rows[0]] + rows[1..] == t.rows + rows;
    ReplacedTwice(s, s', s'', name, Table(t.columns, t.rows + [rows[0]]), Table(t.columns, t.rows + rows));
  }

  /** A record the load accepts into a table whose header has `width` fields. */
  predicate Fits(row: Row, width: nat) {
    |row| == width && BindableRow(row)
  }

  /** The load goes through exactly when every record fits the table. */
  lemma {:induction false} InsertAllSucceeds(s: Store, table: string, rows: seq<Row>)
    requires table in s
    ensures InsertAll(s, table, rows).Ok? <==> forall row | row in rows :: Fits(row, |s[table].columns|)
    decreases |rows|
  {
    if |rows| > 0 {
      assert forall row | row in rows :: row == rows[0] || row in rows[1..];
      if InsertRow(s, table, rows[0]).Ok? {
        var s' := InsertRow(s, table, rows[0]).value;
        InsertStep(s, table, rows, s');
        assert s'[table].columns == s[table].columns;
        InsertAllSucceeds(s', table, rows[1..]);
      } else {
        assert !Fits(rows[0], |s[table].columns|);
      }
    }
  }

  /** A load that goes through leaves the table's rows followed by the
      records in order and every other table as it was. */
  lemma {:induction false} InsertAllReplaces(s: Store, table: string, rows: seq<Row>)
    requires table in s && InsertAll(s, table, rows).Ok?
    ensures Replaced(s, InsertAll(s, table, rows).value, table, Table(s[table].columns, s[table].rows + rows))
    decreases |rows|
  {
    var t := s[table];
    if |rows| == 0 {
      assert t.rows + rows == t.rows;
    } else {
      var s' := InsertRow(s, table, rows[0]).value;
      InsertStep(s, table, rows, s');
      InsertAllReplaces(s', table, rows[1..]);
      ReplacedAppend(s, s', InsertAll(s', table, rows[1..]).value, table, t, rows);
    }
  }

  /** The records are inserted all or none: the load goes through exactly
      when every record is as wide as the header and can be bound, and then
      the table's rows are followed by the records in order while other
      tables stay as they were. */
  lemma InsertAllSpec(s: Store, table: string, rows: seq<Row>)
    requires table in s
    ensures var r := InsertAll(s, table, rows);
            && (r.Ok? <==> forall row | row in rows :: |row| == |s[table].columns| && BindableRow(row))
            && (r.Ok? ==> Replaced(s, r.value, table, Table(s[table].columns, s[table].rows + rows)))
  {
    InsertAllSucceeds(s, table, rows);
    if InsertAll(s, table, rows).Ok? {
      InsertAllReplaces(s, table, rows);
    }
  }

  /** A file loads when it has a header record and every later record is as
      wide as the header and can be bound. The header itself is written into
      the `create table` text, not bound, so any bytes are accepted there. */
  predicate Loadable(lines: seq<Row>) {
    |lines| > 0 && forall k | 1 <= k < |lines| :: |lines[k]| == |lines[0]| && BindableRow(lines[k])
  }

  /** Loadability read over the records after the header. */
  lemma LoadableRest(lines: seq<Row>)
    requires |lines| > 0
    ensures Loadable(lines) <==> forall row | row in lines[1..] :: |row| == |lines[0]| && BindableRow(row)
  {
    assert forall k | 1 <= k < |lines| :: lines[k] == lines[1..][k - 1];
  }

  /** Filling a freshly created table with the records after the header
      goes through exactly when the file is loadable, and then the new table
      holds the header and those records. */
  lemma FillSpec(s: Store, name: string, lines: seq<Row>)
    requires |lines| > 0 && name !in s
    ensures var r := InsertAll(s[name := Table(lines[0], [])], name, lines[1..]);
            && (r.Ok? <==> Loadable(lines))
            && (r.Ok? ==> Replaced(s, r.value, name, Table(lines[0], lines[1..])))
            && (r.Ok? && Valid(s) ==> Valid(r.value))
  {
    var created := s[name := Table(lines[0], [])];
    LoadableRest(lines);
    InsertAllSpec(created, name, lines[1..]);
    assert created[name].rows + lines[1..] == lines[1..];
    var r := InsertAll(created, name, lines[1..]);
    if r.Ok? && Valid(s) {
      assert Replaced(created, r.value, name, Table(lines[0], lines[1..]));
      forall n | n in r.value ensures Rectangular(r.value[n]) {
        if n != name {
          assert r.value[n] == s[n];
        }
      }
    }
  }

  /** Loads one file: header from the first record, table named after the
      path, the remaining records as rows in file order. */
  function LoadTable(s: Store, path: string, lines: seq<Row>): (r: Result<Store, Error>)
    ensures r.Ok? <==> Loadable(lines) && TableName(path) !in s
    ensures r.Ok? ==> Replaced(s, r.value, TableName(path), Table(lines[0], lines[1..]))
    ensures |lines| == 0 ==> r == Err(EmptyFile(path))
    ensures |lines| > 0 && TableName(path) in s ==> r == Err(DuplicateTable(TableName(path)))
    ensures r.Ok? && Valid(s) ==> Valid(r.value)
  {
    if |lines| == 0 then Err(EmptyFile(path))
    else
      var name := TableName(path);
      var created :- CreateTable(s, name, lines[0]);
      assert created == s[name := Table(lines[0], [])];
      FillSpec(s, name, lines);
      InsertAll(created, name, lines[1..])
  }

  /** The files of a listing in listing order; directories are skipped. */
  function Files(entries: seq<Entry>): (r: seq<Entry>)
    ensures |r| <= |entries|
    ensures forall e | e in r :: e in entries && !e.isDir
    ensures forall e | e in entries && !e.isDir :: e in r
    decreases |entries|
  {
    if |entries| == 0 then []
    else (if entries[0].isDir then [] else [entries[0]]) + Files(entries[1..])
  }

  /** A listing that holds no directory is loaded whole, in order. */
  lemma {:induction false} FilesOnly(entries: seq<Entry>)
    requires forall k | 0 <= k < |entries| :: !entries[k].isDir
    ensures Files(entries) == entries
    decreases |entries|
  {
    if |entries| > 0 {
      FilesOnly(entries[1..]);
    }
  }

  lemma {:induction false} FilesAppend(a: seq<Entry>, b: seq<Entry>)
    ensures Files(a + b) == Files(a) + Files(b)
    decreases |a|
  {
    if |a| == 0 {
      assert a + b == b;
    } else {
      assert (a + b)[1..] == a[1..] + b;
      FilesAppend(a[1..], b);
    }
  }

  /** The table names the files get, in listing order. */
  function Names(folder: string, files: seq<Entry>): (r: seq<string>)
    ensures |r| == |files|
    decreases |files|
  {
    if |files| == 0 then []
    else [TableName(PathJoin(folder, files[0].name))] + Names(folder, files[1..])
  }

  /** The `k`th name is the table name of the `k`th file. */
  lemma {:induction false} NameAt(folder: string, files: seq<Entry>, k: nat)
    requires k < |files|
    ensures Names(folder, files)[k] == TableName(PathJoin(folder, files[k].name))
    decreases k
  {
    if k > 0 {
      var rest := Names(folder, files[1..]);
      assert Names(folder, files) == [TableName(PathJoin(folder, files[0].name))] + rest;
      NameAt(folder, files[1..], k - 1);
      assert files[1..][k - 1] == files[k];
    }
  }

  predicate Distinct(ns: seq<string>) {
    forall i, j | 0 <= i < j < |ns| :: ns[i] != ns[j]
  }

  /** Loads the files in order; the first failure aborts the whole load. */
  function LoadAll(s: Store, folder: string, files: seq<Entry>): (r: Result<Store, Error>)
    ensures r.Ok? && Valid(s) ==> Valid(r.value)
    decreases |files|
  {
    if |files| == 0 then Ok(s)
    else
      var s' :- LoadTable(s, PathJoin(folder, files[0].name), files[0].lines);
      LoadAll(s', folder, files[1..])
  }

  predicate AllLoadable(files: seq<Entry>) {
    forall k | 0 <= k < |files| :: Loadable(files[k].lines)
  }

  /** None of the names is a table of `s` yet. */
  predicate Fresh(ns: seq<string>, s: Store) {
    forall k | 0 <= k < |ns| :: ns[k] !in s
  }

  function NameSet(ns: seq<string>): set<string> {
    set k | 0 <= k < |ns| :: ns[k]
  }

  lemma NameSetCons(ns: seq<string>)
    requires |ns| > 0
    ensures NameSet(ns) == {ns[0]} + NameSet(ns[1..])
  {
    forall n | n in NameSet(ns) ensures n in {ns[0]} + NameSet(ns[1..]) {
      var k :| 0 <= k < |ns| && ns[k] == n;
      if k > 0 {
        assert ns[1..][k - 1] == n;
      }
    }
    forall n | n in NameSet(ns[1..]) ensures n in NameSet(ns) {
      var k :| 0 <= k < |ns[1..]| && ns[1..][k] == n;
      assert ns[k + 1] == n;
    }
  }

  lemma DistinctCons(ns: seq<string>)
    requires |ns| > 0
    ensures Distinct(ns) <==> ns[0] !in ns[1..] && Distinct(ns[1..])
  {
    if ns[0] !in ns[1..] && Distinct(ns[1..]) {
      forall i, j | 0 <= i < j < |ns| ensures ns[i] != ns[j] {
        if i == 0 {
          assert ns[j] == ns[1..][j - 1];
        } else {
          assert ns[i] == ns[1..][i - 1] && ns[j] == ns[1..][j - 1];
        }
      }
    }
    if Distinct(ns) {
      forall j | 0 <= j < |ns[1..]| ensures ns[1..][j] != ns[0] {
        assert ns[1..][j] == ns[j + 1];
      }
      forall i, j | 0 <= i < j < |ns[1..]| ensures ns[1..][i] != ns[1..][j] {
        assert ns[1..][i] == ns[i + 1] && ns[1..][j] == ns[j + 1];
      }
    }
  }

  lemma AllLoadableCons(files: seq<Entry>)
    requires |files| > 0
    ensures AllLoadable(files) <==> Loadable(files[0].lines) && AllLoadable(files[1..])
  {
    var rest := files[1..];
    if Loadable(files[0].lines) && AllLoadable(rest) {
      forall k | 0 <= k < |files| ensures Loadable(files[k].lines) {
        if k > 0 { assert files[k] == rest[k - 1]; }
      }
    }
    if AllLoadable(files) {
      forall k | 0 <= k < |rest| ensures Loadable(rest[k].lines) {
        assert rest[k] == files[k + 1];
      }
    }
  }

  lemma FreshCons(ns: seq<string>, s: Store)
    requires |ns| > 0
    ensures Fresh(ns, s) <==> ns[0] !in s && Fresh(ns[1..], s)
  {
    var rest := ns[1..];
    if ns[0] !in s && Fresh(rest, s) {
      forall k | 0 <= k < |ns| ensures ns[k] !in s {
        if k > 0 { assert ns[k] == rest[k - 1]; }
      }
    }
    if Fresh(ns, s) {
      forall k | 0 <= k < |rest| ensures rest[k] !in s {
        assert rest[k] == ns[k + 1];
      }
    }
  }

  lemma FreshAfterAdd(ns: seq<string>, s: Store, name: string, t: Table)
    ensures Fresh(ns, s[name := t]) <==> name !in ns && Fresh(ns, s)
  {
    if Fresh(ns, s[name := t]) {
      forall k | 0 <= k < |ns| ensures ns[k] != name && ns[k] !in s {
        assert ns[k] !in s[name := t];
      }
    }
  }

  /** Loading succeeds exactly when every file is loadable and the table names
      are new and pairwise different. */
  lemma {:induction false} LoadAllSucceeds(s: Store, folder: string, files: seq<Entry>)
    ensures var ns := Names(folder, files);
            LoadAll(s, folder, files).Ok? <==> AllLoadable(files) && Distinct(ns) && Fresh(ns, s)
    decreases |files|
  {
    if |files| > 0 {
      var ns := Names(folder, files);
      var rest := files[1..];
      assert Names(folder, rest) == ns[1..];
      var path := PathJoin(folder, files[0].name);
      assert ns[0] == TableName(path);
      DistinctCons(ns);
      AllLoadableCons(files);
      FreshCons(ns, s);
      var first := LoadTable(s, path, files[0].lines);
      if first.Ok? {
        var s1 := first.value;
        LoadAllSucceeds(s1, folder, rest);
        FreshAfterAdd(ns[1..], s, ns[0], Table(files[0].lines[0], files[0].lines[1..]));
      }
    }
  }

  /** The store holds, under `name`, the table loaded from `lines`: the first
      record as header and the rest as rows, in file order. */
  predicate HoldsFile(st: Store, name: string, lines: seq<Row>) {
    |lines| > 0 && name in st && st[name] == Table(lines[0], lines[1..])
  }

  /** Every file's table is held under the matching name. */
  predicate HoldsAll(st: Store, ns: seq<string>, files: seq<Entry>) {
    |ns| == |files| && forall k | 0 <= k < |files| :: HoldsFile(st, ns[k], files[k].lines)
  }

  lemma HoldsAllCons(st: Store, ns: seq<string>, files: seq<Entry>)
    requires |files| > 0 && |ns| == |files|
    requires HoldsFile(st, ns[0], files[0].lines) && HoldsAll(st, ns[1..], files[1..])
    ensures HoldsAll(st, ns, files)
  {
    forall k | 0 < k < |files| ensures HoldsFile(st, ns[k], files[k].lines) {
      assert ns[k] == ns[1..][k - 1] && files[k] == files[1..][k - 1];
    }
  }

  /** A successful load adds exactly the files' table names to the store. */
  lemma {:induction false} LoadAllKeys(s: Store, folder: string, files: seq<Entry>)
    ensures var r := LoadAll(s, folder, files);
            r.Ok? ==> forall n :: n in r.value <==> n in s || n in Names(folder, files)
    decreases |files|
  {
    var r := LoadAll(s, folder, files);
    if |files| > 0 && r.Ok? {
      var ns := Names(folder, files);
      assert Names(folder, files[1..]) == ns[1..];
      var path := PathJoin(folder, files[0].name);
      var s1 := LoadTable(s, path, files[0].lines).value;
      assert forall n :: n in s1 <==> n in s || n == ns[0];
      assert forall n :: n in ns <==> n == ns[0] || n in ns[1..];
      assert r == LoadAll(s1, folder, files[1..]);
      LoadAllKeys(s1, folder, files[1..]);
    }
  }

  /** A successful load leaves the tables that were already there unchanged. */
  lemma {:induction false} LoadAllKeepsTables(s: Store, folder: string, files: seq<Entry>)
    ensures var r := LoadAll(s, folder, files);
            r.Ok? ==> forall n | n in s :: n in r.value && r.value[n] == s[n]
    decreases |files|
  {
    var r := LoadAll(s, folder, files);
    if |files| > 0 && r.Ok? {
      var path := PathJoin(folder, files[0].name);
      var s1 := LoadTable(s, path, files[0].lines).value;
      assert forall n | n in s :: n in s1 && s1[n] == s[n];
      assert r == LoadAll(s1, folder, files[1..]);
      LoadAllKeepsTables(s1, folder, files[1..]);
    }
  }

  /** After a successful load the store holds one table per file, columns
      from its header and rows from its later records. */
  lemma {:induction false} LoadAllContents(s: Store, folder: string, files: seq<Entry>)
    ensures var r := LoadAll(s, folder, files);
            r.Ok? ==> HoldsAll(r.value, Names(folder, files), files)
    decreases |files|
  {
    var r := LoadAll(s, folder, files);
    if |files| > 0 && r.Ok? {
      var ns := Names(folder, files);
      assert Names(folder, files[1..]) == ns[1..];
      var path := PathJoin(folder, files[0].name);
      assert ns[0] == TableName(path);
      var s1 := LoadTable(s, path, files[0].lines).value;
      assert HoldsFile(s1, ns[0], files[0].lines);
      assert r == LoadAll(s1, folder, files[1..]);
      LoadAllContents(s1, folder, files[1..]);
      LoadAllKeepsTables(s1, folder, files[1..]);
      assert HoldsFile(r.value, ns[0], files[0].lines);
      HoldsAllCons(r.value, ns, files);
    }
  }

  /** A set built from pairwise different names has one element per name. */
  lemma {:induction false} DistinctCard(ns: seq<string>)
    requires Distinct(ns)
    ensures |NameSet(ns)| == |ns|
    decreases |ns|
  {
    if |ns| > 0 {
      var last := ns[|ns| - 1];
      var init := ns[..|ns| - 1];
      assert Distinct(init);
      DistinctCard(init);
      assert NameSet(ns) == NameSet(init) + {last};
      assert last !in NameSet(init);
    }
  }

  /** The constructor: refuse a path that is not a directory, then load every
      file of the top level of the listing into an empty store. */
  function Open(isDir: bool, folder: string, entries: seq<Entry>): (r: Result<Feed, Error>)
    ensures !isDir ==> r == Err(NotADirectory(folder))
    ensures r.Ok? ==> r.value.name == DefaultName && r.value.description == DefaultDescription
    ensures r.Ok? ==> r.value.folder == folder && Valid(r.value.store)
  {
    if !isDir then Err(NotADirectory(folder))
    else
      var store :- LoadAll(map[], folder, Files(entries));
      Ok(Feed(DefaultName, DefaultDescription, folder, store))
  }

  /** Opening a directory succeeds exactly when every file in it is loadable
      and no two files share a table name. */
  lemma OpenSucceeds(folder: string, entries: seq<Entry>)
    ensures var files := Files(entries);
            Open(true, folder, entries).Ok? <==> AllLoadable(files) && Distinct(Names(folder, files))
  {
    var files := Files(entries);
    LoadAllSucceeds(map[], folder, files);
    assert Fresh(Names(folder, files), map[]);
  }

  lemma NameSetMembers(ns: seq<string>)
    ensures forall n :: n in NameSet(ns) <==> n in ns
  {
    forall n | n in ns ensures n in NameSet(ns) {
      var k :| 0 <= k < |ns| && ns[k] == n;
    }
  }

  /** A directory of N files opens into a store of exactly N tables, each
      named after its file and holding the file's header and records. */
  lemma OpenContents(folder: string, entries: seq<Entry>)
    ensures var files := Files(entries);
            var ns := Names(folder, files);
            var r := Open(true, folder, entries);
            r.Ok? ==>
              && |r.value.store| == |files|
              && r.value.store.Keys == NameSet(ns)
              && HoldsAll(r.value.store, ns, files)
  {
    var files := Files(entries);
    var ns := Names(folder, files);
    var r := Open(true, folder, entries);
    if r.Ok? {
      var loaded := LoadAll(map[], folder, files);
      assert loaded.Ok? && r.value.store == loaded.value;
      OpenSucceeds(folder, entries);
      LoadAllKeys(map[], folder, files);
      LoadAllContents(map[], folder, files);
      NameSetMembers(ns);
      var store := loaded.value;
      assert store.Keys == NameSet(ns);
      DistinctCard(ns);
      assert |store| == |store.Keys|;
    }
  }

  /** Sub-directories are not descended into: a directory entry anywhere in
      the listing changes nothing. */
  lemma SubdirectoriesIgnored(folder: string, before: seq<Entry>, dir: Entry, after: seq<Entry>)
    requires dir.isDir
    ensures Open(true, folder, before + [dir] + after) == Open(true, folder, before + after)
  {
    FilesAppend(before + [dir], after);
    FilesAppend(before, [dir]);
    FilesAppend(before, after);
    assert Files([dir]) == [];
    assert Files(before + [dir]) == Files(before);
  }
}
