# gtfsmap in Dafny

gtfsmap turns a folder of GTFS flat files into one KML map. The `gtfs` class
loads every file at the top level of the input folder into an in-memory
sqlite database. Each file becomes a table named after the file, its header
line gives the columns, and every later line is inserted as a row. The `kml`
subclass then walks the `route_id`s of the `routes` table. For each one it
joins `routes` with `trips` on `route_id` and takes the first joined row:
index 2 names the placemark, index 3 describes it, and the last field is the
`shape_id`. It then selects that shape's longitude and latitude from `shapes`
and writes them as `lon,lat,0` lines into an extruded, tessellated
`LineString`. `build` wraps the placemarks in a `kml` root with one `Document`.
The document's children are the feed name, the description, one shared line
style, and then one placemark per `routes` row.

The model is a set of pure functions over immutable values:

- `Wrappers`: `Option`, and `Result` as a failure-compatible type.
- `Errors`: one error constructor per cause of failure that the model tells apart.
- `Paths`: the parts of Python 2 `posixpath` that the loader uses: `rfind`,
  `basename`, `splitext` and `join`. It also derives the table name from a path.
- `Store`: the database reduced to the statements the program issues. A
  `Store` is a `map<string, Table>`; every `Table` has a header and rows of
  text. The statements are `create table`, `insert`, `select` with at most one
  equality filter, and the inner join of two tables on one column.
- `Loader`: the constructor, `load_files`, `load_table` and `build_table`.
  The folder listing is a parameter: one `Entry` per name, with a directory
  flag and, for a file, its records as already-split fields.
- `Coordinates`: the coordinates text. `Render` is the reference definition
  and `BuildCoordinates` is the program's loop. `Parse` reads the text back
  into points.
- `Kml`: the element tree as a `Node` datatype, `build_route`
  (`BuildRoute`) and `build` (`Build`).
- `Scenario`: a one-route feed, taken from its three files through `Open`
  and `Build` down to the literal placemark.

Where the program crashes, the model returns an `Err`:

- A `routes` id with no trip gives `NoJoinedRow`. In Python, `fetchone()`
  returns `None`, and indexing it raises `TypeError`.
- A joined row too short for index 2 or 3 gives `IndexOutOfRange`.
- A file without a header line gives `EmptyFile`.
- A row of the wrong width gives `WidthMismatch`.
- A row field holding a byte of 0x80 or above gives `EightBitValue`. Python 2's
  `sqlite3` refuses to bind such a byte string under the connection's default
  unicode text factory. The header is written into the `create table` text
  rather than bound, so it is not checked.
- A second table of the same name gives `DuplicateTable`.
- A missing table or column gives `NoSuchTable` or `NoSuchColumn`.
- A path that is not a directory gives `NotADirectory`.

Every one of these aborts the whole load or the whole build, as the exception
does in the program.

Details of the program that the model keeps:

- A route whose shape has no points still gets a placemark, with empty
  coordinates text. It does not fail.
- Route ids are not made distinct. A `routes` table that lists an id twice
  gets two placemarks.
- The joined row is the routes row followed by the trips row, so "index 3" can
  be a trips column. In the scenario, the description is the trip's `route_id`.
- A bad row aborts the constructor, so no store is produced at all. The rows
  committed before it are lost with the database.

Queries return rows in insertion order, which is how the program reads sqlite
without `ORDER BY`. Shape points are therefore rendered in file order, with no
sort on a sequence column.

## Model

| member | source | states |
|---|---|---|
| `Paths.BasenameSpec` | gtfsmap/main.py:73 | The base name is the longest suffix of the path with no `/`. It is the whole path or follows a `/`. |
| `Paths.SplitExtRootSpec` | gtfsmap/main.py:73 | The root `splitext` keeps is a prefix of the path. When it is shorter, it was cut at the path's last dot. No `/` follows that dot, and the last component has something other than dots before it. When nothing is cut, every dot of the last component has only dots before it. |
| `Paths.PathJoin` | gtfsmap/main.py:42-44 | The joined path ends with the file name. An absolute name replaces the folder. A relative name follows the folder, with exactly one `/` between them when the folder is not empty, and nothing else is added. |
| `Paths.TableNameStripsExtension` | gtfsmap/main.py:73 | A file `stem.ext` is loaded as table `stem`. This needs a stem that is not only dots and an extension with no dot or `/`. |
| `Paths.TableNameOfHiddenFile` | gtfsmap/main.py:73 | A file `.name` with no other dot keeps its name, leading dot included. `splitext` sees no extension there. |
| `Paths.TableNameUnderDir` | gtfsmap/main.py:73 | The directory part of a path never changes the table name. |
| `Paths.TableNameOfJoin` | gtfsmap/main.py:42-44 | Joining the folder with a plain file name gives the file's own table name, for any folder. |
| `Paths.TableNameOfListedFile` | gtfsmap/main.py:41-44 | A listed file `stem.ext` is loaded as table `stem`, whatever the folder. |
| `Paths.RoutesFileIsRoutesTable` | gtfsmap/main.py:73 | `dir/routes.txt` is table `routes`. |
| `Store.CreateTable` | gtfsmap/main.py:71-79 | Fails with `DuplicateTable` exactly when the name exists. Otherwise it adds exactly that name, with the header as columns in order and no rows. Other tables are unchanged and row widths stay valid. |
| `Store.InsertRow` | gtfsmap/main.py:60-69 | Succeeds exactly when the table exists, the row is as wide as its header, and every field is 7-bit. Otherwise it fails with `NoSuchTable`, `WidthMismatch` or `EightBitValue`, checked in that order. On success the row is appended and nothing else changes. |
| `Store.Matching` | gtfsmap/main.py:143-146 | The filter keeps every row whose field holds the value and only such rows. It is never longer than the input. |
| `Store.MatchingAppend` | gtfsmap/main.py:143-147 | Filtering commutes with concatenation, so matches keep their store order. |
| `Store.MatchingHead` | gtfsmap/main.py:106 | The filter result is empty exactly when no row matches. Otherwise its first row is the first matching row of the table, which is what `fetchone` sees. |
| `Store.Select` | gtfsmap/main.py:143-146 | Succeeds exactly when the table, the selected columns and the filter column exist. Otherwise it fails. It returns one row per kept row, in order; each has one field per selected column, holding that column's value. |
| `Store.Pairs` | gtfsmap/main.py:99-105 | The pairs are empty exactly when one side is. The first pair is the two first rows, and every pair is a left row followed by a right row. |
| `Store.JoinOn` | gtfsmap/main.py:99-105 | The join runs exactly when both tables exist and both have the key column. Every joined row is as wide as the two headers together. |
| `Store.JoinFirstRow` | gtfsmap/main.py:99-106 | The join is empty exactly when one table has no row with the key. Otherwise its first row is the first matching `routes` row followed by the first matching `trips` row. |
| `Loader.InsertAllSpec` | gtfsmap/main.py:60-69 | The records go in all or none. The load succeeds exactly when every record is as wide as the header and all its fields are 7-bit. The table then holds its old rows followed by the records, in order, and every other table is unchanged. |
| `Loader.LoadTable` | gtfsmap/main.py:46-69 | A file loads exactly when it has a header line, every later line is as wide as that header with only 7-bit fields, and its table name is new. The new table holds the header as columns and the lines after the first as rows. A file with no lines fails with `EmptyFile`, and a name already taken fails with `DuplicateTable`. |
| `Loader.Files` | gtfsmap/main.py:39-40 | The files of the listing are exactly its entries that are not directories. There are never more of them than entries. |
| `Loader.FilesOnly` | gtfsmap/main.py:39-41 | A listing with no directory is loaded whole, in listing order. |
| `Loader.NameAt` | gtfsmap/main.py:41-44 | The `k`th table name is the name derived from the `k`th file joined to the folder. |
| `Loader.FilesAppend` | gtfsmap/main.py:39-41 | The files of a split listing are the files of each part, in listing order. |
| `Loader.LoadAllSucceeds` | gtfsmap/main.py:41-69 | Loading the files succeeds exactly when every file loads (a header, rows of its width, 7-bit fields) and the derived table names are new and pairwise different. |
| `Loader.LoadAllKeys` | gtfsmap/main.py:41-44 | After a load, the store's tables are exactly the old ones plus one per file name. |
| `Loader.LoadAllKeepsTables` | gtfsmap/main.py:41-44 | A load leaves the tables that already existed unchanged. |
| `Loader.LoadAllContents` | gtfsmap/main.py:41-69 | After a load, every file's table holds that file's header and its later lines, in file order. |
| `Loader.Open` | gtfsmap/main.py:14-35 | A path that is not a directory fails with `NotADirectory`. An opened feed has the fixed name and description, the given folder, and a store whose rows all fit their headers. |
| `Loader.OpenSucceeds` | gtfsmap/main.py:24-69 | A directory opens exactly when every file in it loads (a header, rows of its width, 7-bit fields) and no two files share a table name. |
| `Loader.OpenContents` | gtfsmap/main.py:35-69 | A directory of N files opens into exactly N tables. They are named after the files, and each holds its file's header and rows. |
| `Loader.SubdirectoriesIgnored` | gtfsmap/main.py:39-40 | A sub-directory anywhere in the listing changes nothing: only the top level is read. |
| `Coordinates.BuildCoordinates` | gtfsmap/main.py:142-148 | The loop's text equals the reference rendering: one `lon,lat,0` line per point, in order. |
| `Coordinates.Render` | gtfsmap/main.py:142-148 | The text is empty exactly when there are no points. |
| `Coordinates.RenderAppend` | gtfsmap/main.py:147 | Rendering two runs of points is rendering each and concatenating, so the order is kept. |
| `Coordinates.RenderLineCount` | gtfsmap/main.py:142-148 | The text holds exactly one newline per point, when no coordinate holds a newline. |
| `Coordinates.Parse` | gtfsmap/main.py:147 | Whatever the reader accepts renders back to the same text. |
| `Coordinates.ParseRender` | gtfsmap/main.py:142-148 | Splitting the text at newlines and commas gives back exactly the points, in order, when no coordinate holds a comma or newline. |
| `Kml.Placemark` | gtfsmap/main.py:109-152 | A placemark has four children in order: `name`, `description`, the `styleUrl` `#line`, and a `LineString`. The `LineString` holds extrude `1`, tessellate `1` and the coordinates. It carries the given name, description and coordinates text. |
| `Kml.FirstJoined` | gtfsmap/main.py:99-107 | A joined row exists only when the join can run. It is as wide as the two headers together. |
| `Kml.FirstJoinedSpec` | gtfsmap/main.py:99-107 | The joined row exists exactly when both `routes` and `trips` have a row with the id. Without one the result is `NoJoinedRow`. The row is the first such `routes` row followed by the first such `trips` row. |
| `Kml.ShapeOf` | gtfsmap/main.py:143-147 | The shape query runs exactly when `shapes` has the id, longitude and latitude columns. It yields the longitude and latitude of every row with the id, in store order. |
| `Kml.RouteFromRow` | gtfsmap/main.py:107-153 | A row renders exactly when it has more than three fields and the shape query can run. Index 2 is the name, index 3 the description, and the points of the shape named by the last field make the coordinates. Too short a row fails with the index that is missing. |
| `Kml.BuildRoute` | gtfsmap/main.py:95-153 | A rendered route always has the placemark shape: name, description, `#line`, and an extruded, tessellated line string. |
| `Kml.BuildRouteSucceeds` | gtfsmap/main.py:99-107 | A route renders exactly when `routes` and `trips` both hold a row with its id, the joined row has more than three fields, and `shapes` can be queried. A route with no trip fails with `NoJoinedRow`. |
| `Kml.BuildRouteFromFirstJoin` | gtfsmap/main.py:99-149 | A rendered route comes from the first matching `routes` row and the first matching `trips` row. Their concatenation gives the name at index 2, the description at index 3, and the `shape_id` in its last field. |
| `Kml.EmptyShapeRenders` | gtfsmap/main.py:140-149 | A route whose shape has no points still renders, with empty coordinates text. |
| `Kml.CoordinatesRoundTrip` | gtfsmap/main.py:140-149 | Reading a rendered route's coordinates text back gives its shape's points, in store order. |
| `Kml.CollectSpec` | gtfsmap/main.py:172-173 | Collecting the routes succeeds exactly when every route renders, and keeps one placemark per route in order. Otherwise it fails with the first failure's error. |
| `Kml.DocumentOneStyle` | gtfsmap/main.py:157-173 | When every appended child is a placemark, the style is the document's only `Style` child, at position 2. |
| `Kml.RouteIdsSpec` | gtfsmap/main.py:168-170 | The route id query runs exactly when `routes` has a `route_id` column. It reads one id per `routes` row, in store order. |
| `Kml.RoutePlacemarksCollect` | gtfsmap/main.py:168-173 | Rendering the routes is rendering the id of each `routes` row, in order, and gathering the results. |
| `Kml.PlacemarksSucceed` | gtfsmap/main.py:168-173 | Rendering the routes succeeds exactly when `routes` has a `route_id` column and every row's id renders. |
| `Kml.PlacemarksInOrder` | gtfsmap/main.py:168-173 | There is one placemark per `routes` row, duplicates included. Placemark `k` is the rendering of row `k`'s id. |
| `Kml.PlacemarksAreMarks` | gtfsmap/main.py:172-173 | Every rendered route is a `Placemark`. |
| `Kml.Build` | gtfsmap/main.py:155-166 | A built document is a `kml` root with the KML 2.2 namespace and exactly one `Document` child. |
| `Kml.BuildSucceeds` | gtfsmap/main.py:155-173 | The build succeeds exactly when `routes` has a `route_id` column and every route renders. |
| `Kml.BuildDocument` | gtfsmap/main.py:155-173 | The `Document` holds, in order, the feed name, the description, the line style, and one placemark per `routes` row. That placemark is the rendering of the row's id. |
| `Kml.BuildOneStyle` | gtfsmap/main.py:157-166 | The document defines the style once: its third child is the only `Style`. |
| `Scenario.SampleJoin` | gtfsmap/main.py:99-106 | For route `R1` of the sample feed, the joined row is the routes row followed by the trips row. |
| `Scenario.SampleShape` | gtfsmap/main.py:143-147 | Shape `S1` of the sample feed is the two points `174.1,-41.2` and `174.2,-41.3`, in file order. |
| `Scenario.MainLine` | gtfsmap/main.py:95-153 | Route `R1` renders as the placemark "Main Line". Its description is `R1` and its coordinates are `174.1,-41.2,0\n174.2,-41.3,0\n`. |
| `Scenario.SampleOpens` | gtfsmap/main.py:14-79 | A folder holding `routes.txt`, `trips.txt` and `shapes.txt` opens, wherever it is, into the default feed over exactly the three sample tables. |
| `Scenario.SampleBuilds` | gtfsmap/main.py:155-173 | The sample feed builds into a `kml` root whose document holds the default name and description, the style, and the single "Main Line" placemark. |

## Left out

- File system access is not modelled. The directory test, `os.walk`, `open` and writing the output file are parameters: the directory flag and the listing. Output is the element tree, and nothing is written.
- `os.path.abspath` is not modelled; the folder string is used as given.
- Tokenising CSV, including quoting, is left out. A file arrives as a list of records already split into fields.
- sqlite's rules for identifiers are not modelled. These include names that differ only in case, duplicate or invalid column names, and an empty header. Table names are compared exactly, and any header is accepted.
- The SQL text the program builds from file and column names is not modelled.
- Serialising the tree with `etree.tostring` is left out. Parsing the style literal is too: the style is a constant node without the whitespace text of the literal. An element with no text has the text `""`.
- Logging is left out.
- `Sample.py` is not part of this model. It is a three-line invocation script with no logic.
- When several errors apply at once, the model picks one. For example, the table lookup comes before the column lookup. Only the fact that an error is raised, and its cause in the cases stated, is modelled.
- Kml.RouteFromRow: for a joined row with no fields, the program fails on index -1 before reaching index 2. The model reports `IndexOutOfRange(2)`. A joined row is never empty unless both headers are.
- Store.JoinOn: the joined rows are listed routes-major, and the contract states only their width. sqlite may nest the join the other way round. Only the first joined row is used, and `Store.JoinFirstRow` shows it is the first matching row of each table either way.
- A field holding a NUL byte is not modelled. The csv reader rejects such a line, and sqlite would cut the text at the NUL. Fields are taken as NUL-free.
- Coordinates.ParseRender: the round trip needs coordinates with no comma and no newline. Text like `1,2` in a longitude cannot be read back unambiguously.
- Kml.CoordinatesRoundTrip: it needs the same condition as `Coordinates.ParseRender`, stated on the shape's points.
- Coordinates.RenderLineCount: it needs coordinates with no newline, since a newline inside a coordinate would add a line. Commas do not matter to it.
- Loader.InsertAll has no contract of its own. `Loader.InsertAllSpec` states it.
