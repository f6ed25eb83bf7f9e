/** The text of a KML `coordinates` element as the renderer writes it: one
    line `lon,lat,0` per shape point, each ended by a newline, and a reader
    that takes such text apart again. */
module Coordinates {
  import opened Wrappers

  /** A shape point as the store returns it: longitude and latitude text. */
  datatype Point = Point(lon: string, lat: string)

  const FieldSep: char := ','
  const LineEnd: char := '\n'

  /** The point's line: `"{0},{1},0\n".format(lon, lat)`. */
  function Line(p: Point): string {
    p.lon + [FieldSep] + p.lat + [FieldSep] + "0" + [LineEnd]
  }

  /** The coordinates text: the points' lines one after another, in order. */
  function Render(ps: seq<Point>): (text: string)
    ensures |text| == 0 <==> |ps| == 0
    decreases |ps|
  {
    if |ps| == 0 then "" else Line(ps[0]) + Render(ps[1..])
  }

  lemma {:induction false} RenderAppend(a: seq<Point>, b: seq<Point>)
    ensures Render(a + b) == Render(a) + Render(b)
    decreases |a|
  {
    if |a| == 0 {
      assert a + b == b;
    } else {
      assert (a + b)[1..] == a[1..] + b;
      RenderAppend(a[1..], b);
    }
  }

  /** The renderer's loop: the text grows by one line per shape row, in the
      order the rows come back from the store. */
  method BuildCoordinates(ps: seq<Point>) returns (output: string)
    ensures output == Render(ps)
  {
    output := "";
    for i := 0 to |ps|
      invariant output == Render(ps[..i])
    {
      assert ps[..i + 1] == ps[..i] + [ps[i]];
      RenderAppend(ps[..i], [ps[i]]);
      output := output + Line(ps[i]);
    }
    assert ps[..|ps|] == ps;
  }

  /** A point whose fields hold no comma and no newline, so its line can be
      read back unambiguously. */
  predicate Plain(p: Point) {
    FieldSep !in p.lon && LineEnd !in p.lon && FieldSep !in p.lat && LineEnd !in p.lat
  }

  /** Cuts `s` at the first `c`: the text before it and the text after it. */
  function SplitAt(s: string, c: char): (r: Option<(string, string)>)
    ensures r.None? <==> c !in s
    ensures r.Some? ==> s == r.value.0 + [c] + r.value.1 && c !in r.value.0
    decreases |s|
  {
    if |s| == 0 then None
    else if s[0] == c then
      assert s == [] + [c] + s[1..];
      Some(([], s[1..]))
    else
      match SplitAt(s[1..], c)
      case None => None
      case Some((a, b)) =>
        assert s == [s[0]] + s[1..];
        Some(([s[0]] + a, b))
  }

  /** The first `c` is where the cut goes, whatever follows it. */
  lemma SplitAtFirst(a: string, b: string, c: char)
    requires c !in a
    ensures SplitAt(a + [c] + b, c) == Some((a, b))
  {
    var s := a + [c] + b;
    assert s[|a|] == c;
    var r := SplitAt(s, c);
    var x, y := r.value.0, r.value.1;
    assert s == x + [c] + y;
    assert forall k | 0 <= k < |a| :: s[k] == a[k] && s[k] != c;
    assert forall k | 0 <= k < |x| :: s[k] == x[k] && s[k] != c;
    assert s[|x|] == c;
    assert |x| == |a|;
    assert x == s[..|a|] == a;
    assert y == s[|a| + 1..] == b;
  }

  /** Reads one line `lon,lat,0` back into its point. */
  function ParseLine(line: string): (r: Option<Point>)
    ensures r.Some? ==> Line(r.value) == line + [LineEnd]
  {
    match SplitAt(line, FieldSep)
    case None => None
    case Some((lon, rest)) =>
      match SplitAt(rest, FieldSep)
      case None => None
      case Some((lat, alt)) =>
        if alt == "0" then Some(Point(lon, lat)) else None
  }

  /** Reads coordinates text back into points: split at newlines, then each
      line at commas. */
  function Parse(text: string): (r: Option<seq<Point>>)
    ensures r.Some? ==> Render(r.value) == text
    decreases |text|
  {
    if |text| == 0 then Some([])
    else
      match SplitAt(text, LineEnd)
      case None => None
      case Some((line, rest)) =>
        match ParseLine(line)
        case None => None
        case Some(p) =>
          match Parse(rest)
          case None => None
          case Some(ps) =>
            assert ([p] + ps)[1..] == ps;
            Some([p] + ps)
  }

  /** A plain point's line holds its only newline at the end. */
  lemma LineBody(p: Point)
    requires LineEnd !in p.lon && LineEnd !in p.lat
    ensures var body := p.lon + [FieldSep] + p.lat + [FieldSep] + "0";
            Line(p) == body + [LineEnd] && LineEnd !in body
  {
    var body := p.lon + [FieldSep] + p.lat + [FieldSep] + "0";
    forall k | 0 <= k < |body| ensures body[k] != LineEnd {
      if k < |p.lon| {
        assert body[k] == p.lon[k];
      } else if |p.lon| < k < |p.lon| + 1 + |p.lat| {
        assert body[k] == p.lat[k - |p.lon| - 1];
      }
    }
  }

  /** A plain point's line is read back as that point, ahead of whatever the
      rest of the text reads as. */
  lemma LineParses(p: Point, rest: string)
    requires Plain(p)
    ensures Parse(Line(p) + rest) == (match Parse(rest) case None => None case Some(ps) => Some([p] + ps))
  {
    var body := p.lon + [FieldSep] + p.lat + [FieldSep] + "0";
    LineBody(p);
    assert Line(p) + rest == body + [LineEnd] + rest;
    SplitAtFirst(body, rest, LineEnd);
    assert body == p.lon + [FieldSep] + (p.lat + [FieldSep] + "0");
    SplitAtFirst(p.lon, p.lat + [FieldSep] + "0", FieldSep);
    SplitAtFirst(p.lat, "0", FieldSep);
    assert ParseLine(body) == Some(p);
  }

  /** Reading back the rendered text gives exactly the points, in order. */
  lemma {:induction false} ParseRender(ps: seq<Point>)
    requires forall k | 0 <= k < |ps| :: Plain(ps[k])
    ensures Parse(Render(ps)) == Some(ps)
    decreases |ps|
  {
    if |ps| > 0 {
      ParseRender(ps[1..]);
      LineParses(ps[0], Render(ps[1..]));
      assert [ps[0]] + ps[1..] == ps;
    }
  }

  /** Number of times `c` occurs in `s`. */
  function Count(s: string, c: char): (n: nat)
    ensures n <= |s|
    ensures n == 0 <==> c !in s
    decreases |s|
  {
    if |s| == 0 then 0 else (if s[0] == c then 1 else 0) + Count(s[1..], c)
  }

  lemma {:induction false} CountAppend(a: string, b: string, c: char)
    ensures Count(a + b, c) == Count(a, c) + Count(b, c)
    decreases |a|
  {
    if |a| == 0 {
      assert a + b == b;
    } else {
      assert (a + b)[1..] == a[1..] + b;
      CountAppend(a[1..], b, c);
    }
  }

  /** The text has one line per point: as many newlines as points, when no
      coordinate holds a newline (commas do not matter here). */
  lemma {:induction false} RenderLineCount(ps: seq<Point>)
    requires forall k | 0 <= k < |ps| :: LineEnd !in ps[k].lon && LineEnd !in ps[k].lat
    ensures Count(Render(ps), LineEnd) == |ps|
    decreases |ps|
  {
    if |ps| > 0 {
      var p := ps[0];
      var body := p.lon + [FieldSep] + p.lat + [FieldSep] + "0";
      RenderLineCount(ps[1..]);
      CountAppend(Line(p), Render(ps[1..]), LineEnd);
      LineBody(p);
      CountAppend(body, [LineEnd], LineEnd);
      assert Count([LineEnd], LineEnd) == 1;
    }
  }
}
