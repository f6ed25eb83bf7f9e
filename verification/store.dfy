/** The in-memory store the loader fills and the renderer queries: a map from
    table name to a table whose columns come from a file header and whose
    rows are all text. It stands for the sqlite `:memory:` database, reduced
    to the statements the converter issues: `create table`, `insert`, a
    select with at most one equality filter, and the routes/trips join. */
module Store {
  import opened Wrappers
  import opened Errors

  type Row = seq<string>

  datatype Table = Table(columns: seq<string>, rows: seq<Row>)

  type Store = map<string, Table>

  /** Every row is exactly as wide as the header. */
  predicate Rectangular(t: Table) {
    forall row | row in t.rows :: |row| == |t.columns|
  }

  /** The invariant the database keeps: it refuses inserts of any other width. */
  predicate Valid(s: Store) {
    forall name | name in s :: Rectangular(s[name])
  }

  /** `create table name (h1 text, h2 text, ...)`: a new, empty table whose
      columns are the header fields in header order. */
  function CreateTable(s: Store, name: string, headers: seq<string>): (r: Result<Store, Error>)
    ensures r.Err? <==> name in s
    ensures r.Err? ==> r.error == DuplicateTable(name)
    ensures r.Ok? ==> r.value.Keys == s.Keys + {name}
    ensures r.Ok? ==> r.value[name].columns == headers && |r.value[name].rows| == 0
    ensures r.Ok? ==> forall n | n in s :: r.value[n] == s[n]
    ensures r.Ok? && Valid(s) ==> Valid(r.value)
  {
    if name in s then Err(DuplicateTable(name))
    else Ok(s[name := Table(headers, [])])
  }

  /** A value the database accepts as a bound parameter. Values are Python 2
      byte strings, one `char` per byte; under the connection's default
      (unicode) text factory, sqlite3 refuses to bind one that holds a byte
      of 0x80 or above. */
  predicate Bindable(value: string) {
    forall k | 0 <= k < |value| :: value[k] as int < 0x80
  }

  /** Every field of the row can be bound. */
  predicate BindableRow(row: Row) {
    forall j | 0 <= j < |row| :: Bindable(row[j])
  }

  /** `insert into name values (?, ..., ?)` with one placeholder per header
      field, bound to `row`. The number of values is checked before any value
      is bound. */
  function InsertRow(s: Store, name: string, row: Row): (r: Result<Store, Error>)
    ensures r.Ok? <==> name in s && |row| == |s[name].columns| && BindableRow(row)
    ensures name !in s ==> r == Err(NoSuchTable(name))
    ensures name in s && |row| != |s[name].columns| ==> r == Err(WidthMismatch(name, |s[name].columns|, |row|))
    ensures name in s && |row| == |s[name].columns| && !BindableRow(row) ==> r == Err(EightBitValue(name))
    ensures r.Ok? ==> r.value.Keys == s.Keys
    ensures r.Ok? ==> r.value[name].columns == s[name].columns
    ensures r.Ok? ==> r.value[name].rows == s[name].rows + [row]
    ensures r.Ok? ==> forall n | n in s && n != name :: r.value[n] == s[n]
    ensures r.Ok? && Valid(s) ==> Valid(r.value)
  {
    if name !in s then Err(NoSuchTable(name))
    else
      var t := s[name];
      if |row| != |t.columns| then Err(WidthMismatch(name, |t.columns|, |row|))
      else if !BindableRow(row) then Err(EightBitValue(name))
      else Ok(s[name := Table(t.columns, t.rows + [row])])
  }

  /** Position of the first column called `name`. */
  function ColumnIndex(columns: seq<string>, name: string): (r: Option<nat>)
    ensures r.None? <==> name !in columns
    ensures r.Some? ==> r.value < |columns| && columns[r.value] == name
    ensures r.Some? ==> forall j | 0 <= j < r.value :: columns[j] != name
    decreases |columns|
  {
    if |columns| == 0 then None
    else if columns[0] == name then Some(0)
    else match ColumnIndex(columns[1..], name)
      case None => None
      case Some(i) => Some(i + 1)
  }

  /** The value a row of a table with these columns holds under `column`. */
  function Field(columns: seq<string>, row: Row, column: string): string
    requires column in columns && |row| == |columns|
  {
    row[ColumnIndex(columns, column).value]
  }

  /** Field `i` of `row` holds `value`. */
  predicate Has(row: Row, i: nat, value: string) {
    i < |row| && row[i] == value
  }

  /** The rows whose field `i` equals `value`, in store order. */
  function Matching(rows: seq<Row>, i: nat, value: string): (r: seq<Row>)
    ensures |r| <= |rows|
    ensures forall row | row in r :: row in rows && Has(row, i, value)
    ensures forall row | row in rows && Has(row, i, value) :: row in r
    decreases |rows|
  {
    if |rows| == 0 then []
    else (if Has(rows[0], i, value) then [rows[0]] else []) + Matching(rows[1..], i, value)
  }

  /** Filtering commutes with concatenation: the store order is kept. */
  lemma {:induction false} MatchingAppend(a: seq<Row>, b: seq<Row>, i: nat, value: string)
    ensures Matching(a + b, i, value) == Matching(a, i, value) + Matching(b, i, value)
    decreases |a|
  {
    if |a| == 0 {
      assert a + b == b;
    } else {
      assert (a + b)[1..] == a[1..] + b;
      MatchingAppend(a[1..], b, i, value);
    }
  }

  /** `k` is the first position of `rows` whose field `i` holds `value`. */
  predicate FirstWith(rows: seq<Row>, i: nat, value: string, k: int) {
    0 <= k < |rows| && Has(rows[k], i, value) && forall j | 0 <= j < k :: !Has(rows[j], i, value)
  }

  /** The first row of a filter result is the first matching row of the store
      (what `fetchone` returns), and the result is empty exactly when no row
      matches. */
  lemma {:induction false} MatchingHead(rows: seq<Row>, i: nat, value: string)
    ensures |Matching(rows, i, value)| == 0 <==> forall j | 0 <= j < |rows| :: !Has(rows[j], i, value)
    ensures |Matching(rows, i, value)| > 0 ==>
              exists k :: FirstWith(rows, i, value, k) && Matching(rows, i, value)[0] == rows[k]
    decreases |rows|
  {
    if |rows| > 0 {
      MatchingHead(rows[1..], i, value);
      if Has(rows[0], i, value) {
        assert FirstWith(rows, i, value, 0);
      } else if |Matching(rows, i, value)| > 0 {
        var k :| FirstWith(rows[1..], i, value, k) && Matching(rows[1..], i, value)[0] == rows[1..][k];
        assert FirstWith(rows, i, value, k + 1);
      }
    }
  }

  /** Every row cut down to the fields at `idx`, in that order. */
  function Project(rows: seq<Row>, idx: seq<nat>): (r: seq<Row>)
    requires forall row | row in rows :: forall j | 0 <= j < |idx| :: idx[j] < |row|
    ensures |r| == |rows|
    ensures forall k | 0 <= k < |r| :: |r[k]| == |idx|
    ensures forall k, j | 0 <= k < |r| && 0 <= j < |idx| :: r[k][j] == rows[k][idx[j]]
  {
    seq(|rows|, k requires 0 <= k < |rows| => seq(|idx|, j requires 0 <= j < |idx| => rows[k][idx[j]]))
  }

  /** Resolves the selected column names against a header. */
  function Resolve(table: string, columns: seq<string>, names: seq<string>): (r: Result<seq<nat>, Error>)
    ensures r.Ok? <==> forall n | n in names :: n in columns
    ensures r.Err? ==> exists n | n in names :: n !in columns && r.error == NoSuchColumn(table, n)
    ensures r.Ok? ==> |r.value| == |names|
    ensures r.Ok? ==> forall j | 0 <= j < |names| :: r.value[j] < |columns| && columns[r.value[j]] == names[j]
    ensures r.Ok? ==> forall j | 0 <= j < |names| :: Some(r.value[j]) == ColumnIndex(columns, names[j])
    decreases |names|
  {
    if |names| == 0 then Ok([])
    else match ColumnIndex(columns, names[0])
      case None => Err(NoSuchColumn(table, names[0]))
      case Some(i) =>
        var rest :- Resolve(table, columns, names[1..]);
        Ok([i] + rest)
  }

  datatype Condition = Equals(column: string, value: string)

  /** The rows of `t` a where-clause keeps, in store order. */
  function Where(t: Table, where: Option<Condition>): (r: seq<Row>)
    requires Rectangular(t)
    requires where.Some? ==> where.value.column in t.columns
    ensures forall row | row in r :: row in t.rows
  {
    match where
    case None => t.rows
    case Some(Equals(c, v)) => Matching(t.rows, ColumnIndex(t.columns, c).value, v)
  }

  /** `select c1, ..., cn from table [where column = value]`. */
  function Select(s: Store, table: string, names: seq<string>, where: Option<Condition>): (r: Result<seq<Row>, Error>)
    requires Valid(s)
    ensures r.Ok? <==> table in s && (forall n | n in names :: n in s[table].columns)
                       && (where.Some? ==> where.value.column in s[table].columns)
    ensures r.Ok? ==> forall row | row in r.value :: |row| == |names|
    ensures r.Ok? ==> |r.value| == |Where(s[table], where)|
    ensures r.Ok? ==> forall k, j | 0 <= k < |r.value| && 0 <= j < |names| ::
                        r.value[k][j] == Field(s[table].columns, Where(s[table], where)[k], names[j])
  {
    if table !in s then Err(NoSuchTable(table))
    else
      var t := s[table];
      var idx :- Resolve(table, t.columns, names);
      match where
      case None => Ok(Project(t.rows, idx))
      case Some(Equals(c, v)) =>
        match ColumnIndex(t.columns, c)
        case None => Err(NoSuchColumn(table, c))
        case Some(i) => Ok(Project(Matching(t.rows, i, v), idx))
  }

  /** Every row of `ls` followed by every row of `rs`, left-major. */
  function Pairs(ls: seq<Row>, rs: seq<Row>): (r: seq<Row>)
    ensures |r| == 0 <==> |ls| == 0 || |rs| == 0
    ensures |ls| > 0 && |rs| > 0 ==> r[0] == ls[0] + rs[0]
    ensures forall row | row in r :: exists a, b | a in ls && b in rs :: row == a + b
    decreases |ls|
  {
    if |ls| == 0 then []
    else seq(|rs|, k requires 0 <= k < |rs| => ls[0] + rs[k]) + Pairs(ls[1..], rs)
  }

  /** `select * from left inner join right on left.column = right.column
      where left.column = value`: each joined row is the left row followed by
      the right row. */
  function JoinOn(s: Store, left: string, right: string, column: string, value: string): (r: Result<seq<Row>, Error>)
    requires Valid(s)
    ensures r.Ok? <==> left in s && right in s && column in s[left].columns && column in s[right].columns
    ensures r.Ok? ==> forall row | row in r.value :: |row| == |s[left].columns| + |s[right].columns|
  {
    if left !in s then Err(NoSuchTable(left))
    else if right !in s then Err(NoSuchTable(right))
    else
      var l, t := s[left], s[right];
      match ColumnIndex(l.columns, column)
      case None => Err(NoSuchColumn(left, column))
      case Some(i) =>
        match ColumnIndex(t.columns, column)
        case None => Err(NoSuchColumn(right, column))
        case Some(j) => Ok(Pairs(Matching(l.rows, i, value), Matching(t.rows, j, value)))
  }

  /** The routes/trips join is empty exactly when one side has no row with the
      key; otherwise its first row is the first matching left row followed by
      the first matching right row, whichever table the database scans first. */
  lemma JoinFirstRow(s: Store, left: string, right: string, column: string, value: string)
    requires Valid(s)
    requires left in s && right in s && column in s[left].columns && column in s[right].columns
    ensures var l, t := s[left], s[right];
            var i, j := ColumnIndex(l.columns, column).value, ColumnIndex(t.columns, column).value;
            var r := JoinOn(s, left, right, column, value).value;
            && (|r| == 0 <==> (forall a | 0 <= a < |l.rows| :: !Has(l.rows[a], i, value))
                              || (forall b | 0 <= b < |t.rows| :: !Has(t.rows[b], j, value)))
            && (|r| > 0 ==> exists a, b :: FirstWith(l.rows, i, value, a) && FirstWith(t.rows, j, value, b)
                                           && r[0] == l.rows[a] + t.rows[b])
  {
    var l, t := s[left], s[right];
    var i, j := ColumnIndex(l.columns, column).value, ColumnIndex(t.columns, column).value;
    MatchingHead(l.rows, i, value);
    MatchingHead(t.rows, j, value);
  }
}
