/** The KML document the converter builds: one placemark per route, each
    holding the route's name, description, the shared line style and the
    route's shape as a coordinates line string. */
module Kml {
  import opened Wrappers
  import opened Errors
  import opened Store
  import opened Coordinates
  import opened Loader

  /** An XML element: tag, attributes in order, text, children in order.
      An element without text has text "". */
  datatype Node = Node(tag: string, attributes: seq<(string, string)>, text: string, children: seq<Node>)

  function Leaf(tag: string, text: string): Node {
    Node(tag, [], text, [])
  }

  const Namespace: string := "http://www.opengis.net/kml/2.2"
  const StyleRef: string := "#line"
  const Enabled: string := "1"

  const RoutesTable: string := "routes"
  const TripsTable: string := "trips"
  const ShapesTable: string := "shapes"
  const RouteKey: string := "route_id"
  const ShapeKey: string := "shape_id"
  const LonColumn: string := "shape_pt_lon"
  const LatColumn: string := "shape_pt_lat"

  /** The single style every placemark refers to: id `line`, a line of colour
      7fff7f00 and width 4. */
  const LineStyle: Node :=
    Node("Style", [("id", "line")], "",
         [Node("LineStyle", [], "", [Leaf("color", "7fff7f00"), Leaf("width", "4")])])

  /** The shape every route's placemark has: name, description, a reference
      to the shared style, and an extruded, tessellated line string holding
      the coordinates text. */
  predicate RouteShaped(n: Node) {
    && n.tag == "Placemark" && |n.children| == 4
    && n.children[0].tag == "name"
    && n.children[1].tag == "description"
    && n.children[2] == Leaf("styleUrl", StyleRef)
    && var line := n.children[3];
       && line.tag == "LineString" && |line.children| == 3
       && line.children[0] == Leaf("extrude", Enabled)
       && line.children[1] == Leaf("tessellate", Enabled)
       && line.children[2].tag == "coordinates"
  }

  /** A placemark: name, description, style reference, and a line string that
      is extruded and tessellated and carries the coordinates text. */
  function Placemark(name: string, description: string, coordinates: string): (p: Node)
    ensures RouteShaped(p)
    ensures p.children[0].text == name && p.children[1].text == description
    ensures p.children[3].children[2].text == coordinates
  {
    Node("Placemark", [], "",
         [ Leaf("name", name),
           Leaf("description", description),
           Leaf("styleUrl", StyleRef),
           Node("LineString", [], "",
                [Leaf("extrude", Enabled), Leaf("tessellate", Enabled), Leaf("coordinates", coordinates)])])
  }

  /** The rows of the shape query as points: longitude first, then latitude. */
  function ToPoints(rows: seq<Row>): (ps: seq<Point>)
    requires forall row | row in rows :: |row| == 2
    ensures |ps| == |rows|
    ensures forall k | 0 <= k < |rows| :: ps[k] == Point(rows[k][0], rows[k][1])
  {
    seq(|rows|, k requires 0 <= k < |rows| => Point(rows[k][0], rows[k][1]))
  }

  /** The join can run: both tables exist and have a route id column. */
  predicate JoinQueryable(s: Store) {
    RoutesTable in s && TripsTable in s
    && RouteKey in s[RoutesTable].columns && RouteKey in s[TripsTable].columns
  }

  /** The shape query can run: the shapes table has the key and both
      coordinate columns. */
  predicate ShapesQueryable(s: Store) {
    ShapesTable in s
    && ShapeKey in s[ShapesTable].columns
    && LonColumn in s[ShapesTable].columns
    && LatColumn in s[ShapesTable].columns
  }

  /** Some row of table `t` holds `value` under `column`. */
  predicate AnyWith(s: Store, t: string, column: string, value: string)
    requires Valid(s) && t in s && column in s[t].columns
  {
    exists k | 0 <= k < |s[t].rows| :: Has(s[t].rows[k], ColumnIndex(s[t].columns, column).value, value)
  }

  /** The first row of routes joined with trips on the route id: the routes
      fields followed by the trips fields. No such row is `NoJoinedRow`. */
  function FirstJoined(s: Store, routeId: string): (r: Result<Row, Error>)
    requires Valid(s)
    ensures r.Ok? ==> JoinQueryable(s) && |r.value| == |s[RoutesTable].columns| + |s[TripsTable].columns|
  {
    var joined :- JoinOn(s, RoutesTable, TripsTable, RouteKey, routeId);
    if |joined| == 0 then Err(NoJoinedRow(routeId))
    else
      assert joined[0] in joined;
      Ok(joined[0])
  }

  /** The joined row exists exactly when both tables have a row with the
      route id, and it is the first such routes row followed by the first
      such trips row; without one the result is `NoJoinedRow`. */
  lemma FirstJoinedSpec(s: Store, routeId: string)
    requires Valid(s)
    ensures FirstJoined(s, routeId).Ok? <==>
              JoinQueryable(s) && AnyWith(s, RoutesTable, RouteKey, routeId) && AnyWith(s, TripsTable, RouteKey, routeId)
    ensures (JoinQueryable(s) && !(AnyWith(s, RoutesTable, RouteKey, routeId) && AnyWith(s, TripsTable, RouteKey, routeId)))
              ==> FirstJoined(s, routeId) == Err(NoJoinedRow(routeId))
    ensures var r := FirstJoined(s, routeId);
            r.Ok? ==>
              var routes, trips := s[RoutesTable], s[TripsTable];
              exists a, b ::
                && FirstWith(routes.rows, ColumnIndex(routes.columns, RouteKey).value, routeId, a)
                && FirstWith(trips.rows, ColumnIndex(trips.columns, RouteKey).value, routeId, b)
                && r.value == routes.rows[a] + trips.rows[b]
  {
    if JoinQueryable(s) {
      JoinFirstRow(s, RoutesTable, TripsTable, RouteKey, routeId);
    }
  }

  /** The points of a shape: the shapes rows with that shape id, in store
      order, read through the longitude and latitude columns. */
  function ShapePoints(s: Store, shapeId: string): seq<Point>
    requires Valid(s) && ShapesQueryable(s)
  {
    var t := s[ShapesTable];
    var rows := Matching(t.rows, ColumnIndex(t.columns, ShapeKey).value, shapeId);
    seq(|rows|, k requires 0 <= k < |rows| =>
      Point(Field(t.columns, rows[k], LonColumn), Field(t.columns, rows[k], LatColumn)))
  }

  /** The shape query: longitude and latitude of every shapes row with the
      shape id, in store order. */
  function ShapeOf(s: Store, shapeId: string): (r: Result<seq<Point>, Error>)
    requires Valid(s)
    ensures r.Ok? <==> ShapesQueryable(s)
    ensures r.Ok? ==> r.value == ShapePoints(s, shapeId)
  {
    var rows :- Select(s, ShapesTable, [LonColumn, LatColumn], Some(Equals(ShapeKey, shapeId)));
    ShapeRows(s, shapeId);
    Ok(ToPoints(rows))
  }

  /** The shape query's rows, read as points, are the shape's points. */
  lemma ShapeRows(s: Store, shapeId: string)
    requires Valid(s) && ShapesQueryable(s)
    ensures var q := Select(s, ShapesTable, [LonColumn, LatColumn], Some(Equals(ShapeKey, shapeId)));
            && q.Ok? && (forall row | row in q.value :: |row| == 2)
            && ToPoints(q.value) == ShapePoints(s, shapeId)
  {
    var where := Some(Equals(ShapeKey, shapeId));
    var t := s[ShapesTable];
    var rows := Select(s, ShapesTable, [LonColumn, LatColumn], where).value;
    assert Where(t, where) == Matching(t.rows, ColumnIndex(t.columns, ShapeKey).value, shapeId);
    var ps, qs := ToPoints(rows), ShapePoints(s, shapeId);
    forall k | 0 <= k < |ps| ensures ps[k] == qs[k] {
      assert rows[k][0] == Field(t.columns, Where(t, where)[k], LonColumn);
      assert rows[k][1] == Field(t.columns, Where(t, where)[k], LatColumn);
    }
  }

  /** The placemark of one joined row: name at index 2, description at
      index 3, and the shape named by the last field. */
  function RouteFromRow(s: Store, row: Row): (r: Result<Node, Error>)
    requires Valid(s)
    ensures r.Ok? <==> |row| > 3 && ShapesQueryable(s)
    ensures |row| <= 2 ==> r == Err(IndexOutOfRange(2))
    ensures |row| == 3 ==> r == Err(IndexOutOfRange(3))
    ensures r.Ok? ==> r.value == Placemark(row[2], row[3], Render(ShapePoints(s, row[|row| - 1])))
  {
    if |row| <= 2 then Err(IndexOutOfRange(2))
    else if |row| <= 3 then Err(IndexOutOfRange(3))
    else
      var shape :- ShapeOf(s, row[|row| - 1]);
      Ok(Placemark(row[2], row[3], Render(shape)))
  }

  /** `build_route`: the first joined row gives name, description and shape
      id; the shape's points give the coordinates. */
  function BuildRoute(s: Store, routeId: string): (r: Result<Node, Error>)
    requires Valid(s)
    ensures r.Ok? ==> RouteShaped(r.value)
  {
    var row :- FirstJoined(s, routeId);
    RouteFromRow(s, row)
  }

  /** A route renders exactly when both tables hold a row with its id, the
      joined row is long enough for a name and a description, and the shapes
      table can be queried; a route without a trip fails with `NoJoinedRow`. */
  lemma BuildRouteSucceeds(s: Store, routeId: string)
    requires Valid(s)
    ensures BuildRoute(s, routeId).Ok? <==>
              && JoinQueryable(s)
              && AnyWith(s, RoutesTable, RouteKey, routeId)
              && AnyWith(s, TripsTable, RouteKey, routeId)
              && |s[RoutesTable].columns| + |s[TripsTable].columns| > 3
              && ShapesQueryable(s)
    ensures (JoinQueryable(s) && !(AnyWith(s, RoutesTable, RouteKey, routeId) && AnyWith(s, TripsTable, RouteKey, routeId)))
              ==> BuildRoute(s, routeId) == Err(NoJoinedRow(routeId))
  {
    FirstJoinedSpec(s, routeId);
  }

  /** A rendered route comes from the first routes row and the first trips
      row with its id: their concatenation gives the name at index 2, the
      description at index 3, and in its last field the shape whose points,
      in store order, make the coordinates text. */
  lemma BuildRouteFromFirstJoin(s: Store, routeId: string)
    requires Valid(s)
    ensures var r := BuildRoute(s, routeId);
            r.Ok? ==>
              && JoinQueryable(s) && ShapesQueryable(s)
              && var routes, trips := s[RoutesTable], s[TripsTable];
                 exists a, b ::
                   && FirstWith(routes.rows, ColumnIndex(routes.columns, RouteKey).value, routeId, a)
                   && FirstWith(trips.rows, ColumnIndex(trips.columns, RouteKey).value, routeId, b)
                   && var row := routes.rows[a] + trips.rows[b];
                      && |row| > 3
                      && r.value == Placemark(row[2], row[3], Render(ShapePoints(s, row[|row| - 1])))
  {
    FirstJoinedSpec(s, routeId);
  }

  /** The shape id the route's first joined row names. */
  function RouteShape(s: Store, routeId: string): string
    requires Valid(s) && FirstJoined(s, routeId).Ok?
  {
    var row := FirstJoined(s, routeId).value;
    if |row| == 0 then "" else row[|row| - 1]
  }

  /** A route whose shape has no points still renders, with an empty
      coordinates text. */
  lemma EmptyShapeRenders(s: Store, routeId: string)
    requires Valid(s) && FirstJoined(s, routeId).Ok? && ShapesQueryable(s)
    requires |s[RoutesTable].columns| + |s[TripsTable].columns| > 3
    requires ShapePoints(s, RouteShape(s, routeId)) == []
    ensures BuildRoute(s, routeId).Ok?
    ensures BuildRoute(s, routeId).value.children[3].children[2].text == ""
  {
    var row := FirstJoined(s, routeId).value;
    assert BuildRoute(s, routeId) == RouteFromRow(s, row);
    assert RouteShape(s, routeId) == row[|row| - 1];
  }

  /** Reading the coordinates text of a rendered route back gives the shape's
      points, in store order, provided no coordinate holds a comma or a
      newline. */
  lemma CoordinatesRoundTrip(s: Store, routeId: string)
    requires Valid(s)
    ensures var r := BuildRoute(s, routeId);
            r.Ok? ==>
              && FirstJoined(s, routeId).Ok? && ShapesQueryable(s)
              && var ps := ShapePoints(s, RouteShape(s, routeId));
                 (forall k | 0 <= k < |ps| :: Plain(ps[k])) ==> Parse(r.value.children[3].children[2].text) == Some(ps)
  {
    var r := BuildRoute(s, routeId);
    if r.Ok? {
      var row := FirstJoined(s, routeId).value;
      assert r == RouteFromRow(s, row);
      assert RouteShape(s, routeId) == row[|row| - 1];
      var ps := ShapePoints(s, RouteShape(s, routeId));
      assert r.value.children[3].children[2].text == Render(ps);
      if forall k | 0 <= k < |ps| :: Plain(ps[k]) {
        ParseRender(ps);
      }
    }
  }

  /** Gathers rendered routes in order; the first failure aborts and is the
      result. */
  function Collect(results: seq<Result<Node, Error>>): Result<seq<Node>, Error> {
    if |results| == 0 then Ok([])
    else
      var first :- results[0];
      var rest :- Collect(results[1..]);
      Ok([first] + rest)
  }

  /** Collecting succeeds exactly when every result does, keeps their values
      in order, and otherwise fails with the first failure's error. */
  lemma {:induction false} CollectSpec(results: seq<Result<Node, Error>>)
    ensures Collect(results).Ok? <==> forall k | 0 <= k < |results| :: results[k].Ok?
    ensures Collect(results).Ok? ==> |Collect(results).value| == |results|
    ensures Collect(results).Ok? ==> forall k | 0 <= k < |results| :: results[k] == Ok(Collect(results).value[k])
    ensures Collect(results).Err? ==>
              exists k | 0 <= k < |results| ::
                && results[k].Err? && Collect(results).error == results[k].error
                && forall j | 0 <= j < k :: results[j].Ok?
  {
    if |results| > 0 {
      CollectSpec(results[1..]);
      assert forall k | 1 <= k < |results| :: results[k] == results[1..][k - 1];
      if results[0].Ok? && Collect(results[1..]).Err? {
        var k :| 0 <= k < |results[1..]| && results[1..][k].Err? && Collect(results[1..]).error == results[1..][k].error
                 && forall j | 0 <= j < k :: results[1..][j].Ok?;
        assert results[k + 1] == results[1..][k];
      }
    }
  }

  /** Renders the routes in the order their ids were read; the first failure
      aborts the build. */
  function BuildPlacemarks(s: Store, ids: seq<Row>): Result<seq<Node>, Error>
    requires Valid(s)
    requires forall id | id in ids :: |id| == 1
  {
    Collect(seq(|ids|, k requires 0 <= k < |ids| => BuildRoute(s, ids[k][0])))
  }

  /** The document element: name, description, the shared style, then the
      placemarks. */
  function Document(name: string, description: string, placemarks: seq<Node>): Node
  {
    Node("Document", [], "", [Leaf("name", name), Leaf("description", description), LineStyle] + placemarks)
  }

  /** When every placemark is one, the style is the only `Style` child. */
  lemma DocumentOneStyle(name: string, description: string, placemarks: seq<Node>)
    requires forall p | p in placemarks :: p.tag == "Placemark"
    ensures var d := Document(name, description, placemarks);
            forall k | 0 <= k < |d.children| :: d.children[k].tag == "Style" <==> k == 2
  {
    var d := Document(name, description, placemarks);
    forall k | 3 <= k < |d.children| ensures d.children[k].tag != "Style" {
      assert d.children[k] == placemarks[k - 3];
      assert placemarks[k - 3] in placemarks;
    }
  }

  /** Every route id of the routes table, rendered in store order. */
  function RoutePlacemarks(s: Store): Result<seq<Node>, Error>
    requires Valid(s)
  {
    var ids :- Select(s, RoutesTable, [RouteKey], None);
    BuildPlacemarks(s, ids)
  }

  /** `build`: render every route and wrap the placemarks in a `kml` root
      holding one `Document`. */
  function Build(feed: Feed): (r: Result<Node, Error>)
    requires Valid(feed.store)
    ensures r.Ok? ==> r.value.tag == "kml" && r.value.attributes == [("xmlns", Namespace)]
    ensures r.Ok? ==> |r.value.children| == 1 && r.value.children[0].tag == "Document"
  {
    var placemarks :- RoutePlacemarks(feed.store);
    Ok(Node("kml", [("xmlns", Namespace)], "", [Document(feed.name, feed.description, placemarks)]))
  }

  /** The route id of the `k`th routes row. */
  function RouteIdAt(s: Store, k: nat): string
    requires Valid(s) && RoutesTable in s && RouteKey in s[RoutesTable].columns
    requires k < |s[RoutesTable].rows|
  {
    Field(s[RoutesTable].columns, s[RoutesTable].rows[k], RouteKey)
  }

  /** The route id query reads one id per routes row, in store order. */
  lemma RouteIdsSpec(s: Store)
    requires Valid(s)
    ensures var q := Select(s, RoutesTable, [RouteKey], None);
            && (q.Ok? <==> RoutesTable in s && RouteKey in s[RoutesTable].columns)
            && (q.Ok? ==> |q.value| == |s[RoutesTable].rows|)
            && (q.Ok? ==> forall k | 0 <= k < |q.value| :: q.value[k] == [RouteIdAt(s, k)])
  {
    var q := Select(s, RoutesTable, [RouteKey], None);
    if q.Ok? {
      var t := s[RoutesTable];
      assert Where(t, None) == t.rows;
      forall k | 0 <= k < |q.value| ensures q.value[k] == [RouteIdAt(s, k)] {
        assert |q.value[k]| == 1 && q.value[k][0] == RouteIdAt(s, k);
      }
    }
  }

  /** What rendering the `k`th routes row's id gives, for every row. */
  function RouteResults(s: Store): (rs: seq<Result<Node, Error>>)
    requires Valid(s) && RoutesTable in s && RouteKey in s[RoutesTable].columns
    ensures |rs| == |s[RoutesTable].rows|
    ensures forall k | 0 <= k < |rs| :: rs[k] == BuildRoute(s, RouteIdAt(s, k))
  {
    seq(|s[RoutesTable].rows|, k requires 0 <= k < |s[RoutesTable].rows| => BuildRoute(s, RouteIdAt(s, k)))
  }

  /** Rendering the routes rows' ids is collecting every row's result. */
  lemma RoutePlacemarksCollect(s: Store)
    requires Valid(s)
    ensures RoutePlacemarks(s).Ok? ==> RoutesTable in s && RouteKey in s[RoutesTable].columns
    ensures RoutesTable in s && RouteKey in s[RoutesTable].columns ==> RoutePlacemarks(s) == Collect(RouteResults(s))
  {
    RouteIdsSpec(s);
    if RoutesTable in s && RouteKey in s[RoutesTable].columns {
      var ids := Select(s, RoutesTable, [RouteKey], None).value;
      var results := seq(|ids|, k requires 0 <= k < |ids| => BuildRoute(s, ids[k][0]));
      assert results == RouteResults(s);
    }
  }

  /** Rendering the routes rows' ids succeeds exactly when the routes table
      has a route id column and every route renders. */
  lemma PlacemarksSucceed(s: Store)
    requires Valid(s)
    ensures RoutePlacemarks(s).Ok? <==>
              && RoutesTable in s && RouteKey in s[RoutesTable].columns
              && forall k | 0 <= k < |s[RoutesTable].rows| :: BuildRoute(s, RouteIdAt(s, k)).Ok?
  {
    RoutePlacemarksCollect(s);
    if RoutesTable in s && RouteKey in s[RoutesTable].columns {
      CollectSpec(RouteResults(s));
    }
  }

  /** The rendered routes are the placemarks of the routes rows, one each,
      in store order. */
  lemma PlacemarksInOrder(s: Store)
    requires Valid(s)
    ensures var r := RoutePlacemarks(s);
            r.Ok? ==>
              && RoutesTable in s && RouteKey in s[RoutesTable].columns
              && |r.value| == |s[RoutesTable].rows|
              && forall k | 0 <= k < |s[RoutesTable].rows| :: BuildRoute(s, RouteIdAt(s, k)) == Ok(r.value[k])
  {
    RoutePlacemarksCollect(s);
    if RoutesTable in s && RouteKey in s[RoutesTable].columns {
      CollectSpec(RouteResults(s));
    }
  }

  /** Every rendered route is a placemark. */
  lemma PlacemarksAreMarks(s: Store)
    requires Valid(s)
    ensures var r := RoutePlacemarks(s);
            r.Ok? ==> forall p | p in r.value :: p.tag == "Placemark"
  {
    RoutePlacemarksCollect(s);
    if RoutesTable in s && RouteKey in s[RoutesTable].columns {
      var results := RouteResults(s);
      CollectSpec(results);
      var r := Collect(results);
      if r.Ok? {
        forall p | p in r.value ensures p.tag == "Placemark" {
          var k :| 0 <= k < |r.value| && r.value[k] == p;
          assert results[k] == Ok(p);
        }
      }
    }
  }

  /** The build succeeds exactly when the routes table has a route id column
      and every route renders. */
  lemma BuildSucceeds(feed: Feed)
    requires Valid(feed.store)
    ensures var s := feed.store;
            Build(feed).Ok? <==>
              && RoutesTable in s && RouteKey in s[RoutesTable].columns
              && forall k | 0 <= k < |s[RoutesTable].rows| :: BuildRoute(s, RouteIdAt(s, k)).Ok?
  {
    PlacemarksSucceed(feed.store);
  }

  /** A built document holds the feed's name and description, the one style,
      and then one placemark per routes row in store order, duplicates
      included. */
  lemma BuildDocument(feed: Feed)
    requires Valid(feed.store)
    ensures var s := feed.store;
            var r := Build(feed);
            r.Ok? ==>
              && RoutesTable in s && RouteKey in s[RoutesTable].columns
              && var doc := r.value.children[0];
                 && |doc.children| == 3 + |s[RoutesTable].rows|
                 && doc.children[0] == Leaf("name", feed.name)
                 && doc.children[1] == Leaf("description", feed.description)
                 && doc.children[2] == LineStyle
                 && forall k | 0 <= k < |s[RoutesTable].rows| ::
                      BuildRoute(s, RouteIdAt(s, k)) == Ok(doc.children[3 + k])
  {
    PlacemarksInOrder(feed.store);
  }

  /** The style is defined once: no child of the document other than the
      third is a `Style`. */
  lemma BuildOneStyle(feed: Feed)
    requires Valid(feed.store)
    ensures var r := Build(feed);
            r.Ok? ==> forall k | 0 <= k < |r.value.children[0].children| ::
                        r.value.children[0].children[k].tag == "Style" <==> k == 2
  {
    PlacemarksAreMarks(feed.store);
    var r := RoutePlacemarks(feed.store);
    if r.Ok? {
      DocumentOneStyle(feed.name, feed.description, r.value);
    }
  }
}
