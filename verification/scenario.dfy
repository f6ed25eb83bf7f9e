/** The worked example of a one-route feed: a route `R1` called "Main Line"
    with one trip on shape `S1` of two points. */
module Scenario {
  import opened Wrappers
  import opened Paths
  import opened Store
  import opened Loader
  import opened Coordinates
  import opened Kml

  const Routes: Table := Table(["route_id", "route_short_name", "route_long_name"], [["R1", "1", "Main Line"]])
  const Trips: Table := Table(["route_id", "trip_id", "shape_id"], [["R1", "T1", "S1"]])
  const Shapes: Table :=
    Table(["shape_id", "shape_pt_lon", "shape_pt_lat"], [["S1", "174.1", "-41.2"], ["S1", "174.2", "-41.3"]])

  /** The store the three files of `Folder` load into (see `SampleOpens`). */
  function Sample(): (s: Store)
    ensures RoutesTable in s && TripsTable in s && ShapesTable in s
    ensures s[RoutesTable] == Routes && s[TripsTable] == Trips && s[ShapesTable] == Shapes
    ensures Valid(s)
  {
    assert RoutesTable != TripsTable && RoutesTable != ShapesTable && TripsTable != ShapesTable by {
      assert RoutesTable[0] != ShapesTable[0];
    }
    map[RoutesTable := Routes, TripsTable := Trips, ShapesTable := Shapes]
  }

  /** Both tables have the route id as their first column. */
  lemma RouteKeyFirst()
    ensures ColumnIndex(Routes.columns, RouteKey) == Some(0)
    ensures ColumnIndex(Trips.columns, RouteKey) == Some(0)
  {
  }

  /** The one routes row and the one trips row carry `R1`. */
  lemma SampleMatches()
    ensures Matching(Routes.rows, 0, "R1") == Routes.rows
    ensures Matching(Trips.rows, 0, "R1") == Trips.rows
  {
    assert Matching(Routes.rows[1..], 0, "R1") == [];
    assert Matching(Trips.rows[1..], 0, "R1") == [];
  }

  /** The joined row is the routes row followed by the trips row. */
  lemma SampleJoin()
    ensures FirstJoined(Sample(), "R1") == Ok(Routes.rows[0] + Trips.rows[0])
  {
    RouteKeyFirst();
    SampleMatches();
    var joined := Routes.rows[0] + Trips.rows[0];
    assert Pairs(Routes.rows[1..], Trips.rows) == [];
    assert Pairs(Routes.rows, Trips.rows) == [joined];
    assert JoinOn(Sample(), RoutesTable, TripsTable, RouteKey, "R1") == Ok([joined]);
  }

  /** Where the shape id and the coordinates sit in the shapes header. */
  lemma ShapeColumns()
    ensures ColumnIndex(Shapes.columns, ShapeKey) == Some(0)
    ensures ColumnIndex(Shapes.columns, LonColumn) == Some(1)
    ensures ColumnIndex(Shapes.columns, LatColumn) == Some(2)
  {
  }

  /** Both shapes rows belong to `S1`. */
  lemma ShapeMatches()
    ensures Matching(Shapes.rows, 0, "S1") == Shapes.rows
  {
    assert Matching(Shapes.rows[1..][1..], 0, "S1") == [];
    assert Matching(Shapes.rows[1..], 0, "S1") == Shapes.rows[1..];
  }

  /** The coordinates of the two shapes rows. */
  lemma SampleFields()
    ensures Field(Shapes.columns, Shapes.rows[0], LonColumn) == "174.1"
    ensures Field(Shapes.columns, Shapes.rows[0], LatColumn) == "-41.2"
    ensures Field(Shapes.columns, Shapes.rows[1], LonColumn) == "174.2"
    ensures Field(Shapes.columns, Shapes.rows[1], LatColumn) == "-41.3"
  {
    ShapeColumns();
  }

  /** The shape's two points, in file order. */
  lemma SampleShape()
    ensures ShapesQueryable(Sample())
    ensures ShapePoints(Sample(), "S1") == [Point("174.1", "-41.2"), Point("174.2", "-41.3")]
  {
    ShapeColumns();
    ShapeMatches();
    SampleFields();
    var ps := ShapePoints(Sample(), "S1");
    assert |ps| == 2;
  }

  /** The two points' coordinates text: one line per point, in order. */
  lemma SampleCoordinates()
    ensures Render([Point("174.1", "-41.2"), Point("174.2", "-41.3")]) == "174.1,-41.2,0\n" + "174.2,-41.3,0\n"
  {
    var ps := [Point("174.1", "-41.2"), Point("174.2", "-41.3")];
    assert Render(ps[1..]) == Line(ps[1]) + Render(ps[1..][1..]);
    assert Line(ps[0]) == "174.1,-41.2,0\n";
    assert Line(ps[1]) == "174.2,-41.3,0\n";
  }

  /** The joined row's third and fourth fields are the route's long name and
      the trip's route id; its last is the trip's shape id. */
  lemma SampleRow()
    ensures var row := Routes.rows[0] + Trips.rows[0];
            |row| == 6 && row[2] == "Main Line" && row[3] == "R1" && row[5] == "S1"
  {
  }

  /** The joined row's fields give the placemark. */
  lemma SampleRoute()
    ensures RouteFromRow(Sample(), Routes.rows[0] + Trips.rows[0])
            == Ok(Placemark("Main Line", "R1", "174.1,-41.2,0\n" + "174.2,-41.3,0\n"))
  {
    SampleRow();
    SampleShape();
    SampleCoordinates();
  }

  /** The route renders as a placemark named after the third field of the
      joined row, described by its fourth (the trip's route id), with the
      shape's two points as coordinates. */
  lemma MainLine()
    ensures BuildRoute(Sample(), "R1") == Ok(Placemark("Main Line", "R1", "174.1,-41.2,0\n" + "174.2,-41.3,0\n"))
  {
    SampleJoin();
    SampleRoute();
  }

  /** A feed folder of three files `routes.txt`, `trips.txt` and `shapes.txt`,
      each holding its table's header record and then its rows. */
  function FolderOf(routes: Table, trips: Table, shapes: Table): (entries: seq<Entry>)
    ensures |entries| == 3 && forall k | 0 <= k < 3 :: !entries[k].isDir
  {
    [ Entry(RoutesTable + ".txt", false, [routes.columns] + routes.rows),
      Entry(TripsTable + ".txt", false, [trips.columns] + trips.rows),
      Entry(ShapesTable + ".txt", false, [shapes.columns] + shapes.rows) ]
  }

  /** The sample feed folder. */
  const Folder: seq<Entry> := FolderOf(Routes, Trips, Shapes)

  /** A listed `stem.txt` is loaded as table `stem`, whatever the folder. */
  lemma ListedTable(dir: string, stem: string)
    requires Sep !in stem && |stem| > 0 && stem[0] != ExtSep
    ensures TableName(PathJoin(dir, stem + ".txt")) == stem
  {
    assert stem + [ExtSep] + "txt" == stem + ".txt";
    TableNameOfListedFile(dir, stem, "txt");
  }

  /** A three-element sequence is the display of its elements. */
  lemma Three(ns: seq<string>, a: string, b: string, c: string)
    requires |ns| == 3 && ns[0] == a && ns[1] == b && ns[2] == c
    ensures ns == [a, b, c]
  {
  }

  lemma RoutesListed(dir: string)
    ensures TableName(PathJoin(dir, RoutesTable + ".txt")) == RoutesTable
  {
    assert Sep !in RoutesTable;
    ListedTable(dir, RoutesTable);
  }

  lemma TripsListed(dir: string)
    ensures TableName(PathJoin(dir, TripsTable + ".txt")) == TripsTable
  {
    assert Sep !in TripsTable;
    ListedTable(dir, TripsTable);
  }

  lemma ShapesListed(dir: string)
    ensures TableName(PathJoin(dir, ShapesTable + ".txt")) == ShapesTable
  {
    assert Sep !in ShapesTable;
    ListedTable(dir, ShapesTable);
  }

  /** The three files are named after the three tables, in order. */
  lemma FolderNames(dir: string, routes: Table, trips: Table, shapes: Table)
    ensures Names(dir, FolderOf(routes, trips, shapes)) == [RoutesTable, TripsTable, ShapesTable]
  {
    var files := FolderOf(routes, trips, shapes);
    NameAt(dir, files, 0);
    NameAt(dir, files, 1);
    NameAt(dir, files, 2);
    RoutesListed(dir);
    TripsListed(dir);
    ShapesListed(dir);
    Three(Names(dir, files), RoutesTable, TripsTable, ShapesTable);
  }

  /** Every field of the three sample files is plain ASCII, so each loads. */
  lemma FolderLoadable()
    ensures AllLoadable(Folder)
  {
    assert BindableRow(Routes.rows[0]) by {
      assert Bindable("R1") && Bindable("1") && Bindable("Main Line");
    }
    assert BindableRow(Trips.rows[0]) by {
      assert Bindable("R1") && Bindable("T1") && Bindable("S1");
    }
    assert BindableRow(Shapes.rows[0]) by {
      assert Bindable("S1") && Bindable("174.1") && Bindable("-41.2");
    }
    assert BindableRow(Shapes.rows[1]) by {
      assert Bindable("S1") && Bindable("174.2") && Bindable("-41.3");
    }
  }

  /** The three table names differ. */
  lemma NamesDistinct()
    ensures Distinct([RoutesTable, TripsTable, ShapesTable])
  {
    assert RoutesTable[0] != ShapesTable[0];
  }

  /** Such a folder opens when its three files load: the names differ. */
  lemma FolderOpens(dir: string, routes: Table, trips: Table, shapes: Table)
    requires AllLoadable(FolderOf(routes, trips, shapes))
    ensures Open(true, dir, FolderOf(routes, trips, shapes)).Ok?
  {
    var files := FolderOf(routes, trips, shapes);
    FilesOnly(files);
    FolderNames(dir, routes, trips, shapes);
    NamesDistinct();
    OpenSucceeds(dir, files);
  }

  /** A file holding a header and rows is held as the table of that header
      and those rows. */
  lemma HeldTable(st: Store, name: string, t: Table)
    requires HoldsFile(st, name, [t.columns] + t.rows)
    ensures name in st && st[name] == t
  {
    assert ([t.columns] + t.rows)[1..] == t.rows;
  }

  /** Opening such a folder holds each file under its table name. */
  lemma OpenedStore(dir: string, routes: Table, trips: Table, shapes: Table)
    requires AllLoadable(FolderOf(routes, trips, shapes))
    ensures var r := Open(true, dir, FolderOf(routes, trips, shapes));
            var ns := [RoutesTable, TripsTable, ShapesTable];
            && r.Ok?
            && r.value.store.Keys == NameSet(ns)
            && HoldsAll(r.value.store, ns, FolderOf(routes, trips, shapes))
  {
    var files := FolderOf(routes, trips, shapes);
    FolderOpens(dir, routes, trips, shapes);
    FilesOnly(files);
    FolderNames(dir, routes, trips, shapes);
    OpenContents(dir, files);
  }

  /** A store holding the three files under their names holds exactly the
      three tables. */
  lemma HeldTables(st: Store, routes: Table, trips: Table, shapes: Table)
    requires st.Keys == NameSet([RoutesTable, TripsTable, ShapesTable])
    requires HoldsAll(st, [RoutesTable, TripsTable, ShapesTable], FolderOf(routes, trips, shapes))
    ensures st.Keys == {RoutesTable, TripsTable, ShapesTable}
    ensures st[RoutesTable] == routes && st[TripsTable] == trips && st[ShapesTable] == shapes
  {
    var ns := [RoutesTable, TripsTable, ShapesTable];
    var files := FolderOf(routes, trips, shapes);
    NameSetMembers(ns);
    assert HoldsFile(st, ns[0], files[0].lines);
    assert HoldsFile(st, ns[1], files[1].lines);
    assert HoldsFile(st, ns[2], files[2].lines);
    HeldTable(st, RoutesTable, routes);
    HeldTable(st, TripsTable, trips);
    HeldTable(st, ShapesTable, shapes);
  }

  /** A store with the three tables and nothing else is the sample store. */
  lemma IsSample(st: Store)
    requires st.Keys == {RoutesTable, TripsTable, ShapesTable}
    requires st[RoutesTable] == Routes && st[TripsTable] == Trips && st[ShapesTable] == Shapes
    ensures st == Sample()
  {
  }

  /** Opening a folder holding the three sample files, wherever it is, gives
      the default feed over exactly the sample store. */
  lemma SampleOpens(dir: string)
    ensures Open(true, dir, Folder) == Ok(Feed(DefaultName, DefaultDescription, dir, Sample()))
  {
    FolderLoadable();
    OpenedStore(dir, Routes, Trips, Shapes);
    var st := Open(true, dir, Folder).value.store;
    HeldTables(st, Routes, Trips, Shapes);
    IsSample(st);
  }

  /** The only routes row has id `R1`. */
  lemma SampleRouteId()
    ensures Valid(Sample()) && RoutesTable in Sample() && RouteKey in Sample()[RoutesTable].columns
    ensures |Sample()[RoutesTable].rows| == 1 && RouteIdAt(Sample(), 0) == "R1"
  {
    RouteKeyFirst();
  }

  /** A one-element sequence is the display of its element. */
  lemma One(ps: seq<Node>, p: Node)
    requires |ps| == 1 && ps[0] == p
    ensures ps == [p]
  {
  }

  /** A store with one routes row whose route renders renders its routes. */
  lemma OneRouteRenders(s: Store, p: Node)
    requires Valid(s) && RoutesTable in s && RouteKey in s[RoutesTable].columns
    requires |s[RoutesTable].rows| == 1 && BuildRoute(s, RouteIdAt(s, 0)) == Ok(p)
    ensures RoutePlacemarks(s).Ok?
  {
    forall k | 0 <= k < |s[RoutesTable].rows| ensures BuildRoute(s, RouteIdAt(s, k)).Ok? {
      assert k == 0;
    }
    PlacemarksSucceed(s);
  }

  /** Its routes are then that one route's placemark. */
  lemma OneRouteOrder(s: Store, p: Node)
    requires Valid(s) && RoutesTable in s && |s[RoutesTable].rows| == 1
    requires RoutePlacemarks(s).Ok?
    requires RouteKey in s[RoutesTable].columns ==> BuildRoute(s, RouteIdAt(s, 0)) == Ok(p)
    ensures |RoutePlacemarks(s).value| == 1 && RoutePlacemarks(s).value[0] == p
  {
    PlacemarksInOrder(s);
  }

  /** A store with one routes row renders that row's route, and only it. */
  lemma OnePlacemark(s: Store, p: Node)
    requires Valid(s) && RoutesTable in s && RouteKey in s[RoutesTable].columns
    requires |s[RoutesTable].rows| == 1 && BuildRoute(s, RouteIdAt(s, 0)) == Ok(p)
    ensures RoutePlacemarks(s) == Ok([p])
  {
    OneRouteRenders(s, p);
    OneRouteOrder(s, p);
    One(RoutePlacemarks(s).value, p);
  }

  /** Every route of the sample renders: its one route, `Main Line`. */
  lemma SamplePlacemarks()
    ensures RoutePlacemarks(Sample()) == Ok([Placemark("Main Line", "R1", "174.1,-41.2,0\n" + "174.2,-41.3,0\n")])
  {
    SampleRouteId();
    MainLine();
    OnePlacemark(Sample(), Placemark("Main Line", "R1", "174.1,-41.2,0\n" + "174.2,-41.3,0\n"));
  }

  /** The loaded feed builds into a `kml` root whose document holds the
      default name and description, the style, and the `Main Line` placemark. */
  lemma SampleBuilds(dir: string)
    ensures Build(Feed(DefaultName, DefaultDescription, dir, Sample())) ==
            Ok(Node("kml", [("xmlns", Namespace)], "",
                    [Document(DefaultName, DefaultDescription,
                              [Placemark("Main Line", "R1", "174.1,-41.2,0\n" + "174.2,-41.3,0\n")])]))
  {
    SamplePlacemarks();
  }
}
