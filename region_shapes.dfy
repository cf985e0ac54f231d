/** The shapes the map view builds for one region: its GeoJSON geometry is
    normalised to a list of polygons, and every polygon becomes a shape whose
    outline traces the exterior ring and whose holes trace the other rings.
    Shapes are kept as the commands issued to them (`moveTo`, `lineTo`); the
    curves the rendering library derives from them are not part of this
    model. */
module RegionShapes {
  import opened Colour

  datatype Pos = Pos(x: real, y: real)

  type Ring = seq<Pos>

  /** A polygon: the exterior ring first, then its holes. */
  type Polygon = seq<Ring>

  datatype Geometry = PolygonGeometry(rings: Polygon) | MultiPolygonGeometry(polygons: seq<Polygon>)

  datatype Cmd = MoveTo(to: Pos) | LineTo(to: Pos)

  /** A shape: the commands of its outline, and the commands of each hole. */
  datatype Shape = Shape(outline: seq<Cmd>, holes: seq<seq<Cmd>>)

  /** The polygons of a region, as `loadRegionsMeshes` passes them on: a
      `Polygon` is wrapped in a list of one, a `MultiPolygon` is used as it
      is. */
  function RegionPolygons(g: Geometry): seq<Polygon>
  {
    match g
    case PolygonGeometry(rings) => [rings]
    case MultiPolygonGeometry(polygons) => polygons
  }

  /** One `lineTo` per point of the ring, in order. */
  function Lines(ring: Ring): (cs: seq<Cmd>)
    ensures |cs| == |ring| && forall k :: 0 <= k < |ring| ==> cs[k] == LineTo(ring[k])
  {
    seq(|ring|, k requires 0 <= k < |ring| => LineTo(ring[k]))
  }

  /** The path of a ring: a move to its first point, then a line to every
      point, the first one included. */
  function PathOf(ring: Ring): (cs: seq<Cmd>)
    requires |ring| > 0
    ensures |cs| == |ring| + 1 && cs[0] == MoveTo(ring[0]) && cs[1] == LineTo(ring[0])
    ensures cs[|cs| - 1] == LineTo(ring[|ring| - 1]) && cs[1..] == Lines(ring)
  {
    [MoveTo(ring[0])] + Lines(ring)
  }

  /** A polygon the loops can trace: it has an exterior ring, and no ring is
      empty. Reading the first point of a missing or empty ring is a
      TypeError. */
  predicate Traceable(polygon: Polygon)
  {
    |polygon| > 0 && forall j :: 0 <= j < |polygon| ==> |polygon[j]| > 0
  }

  /** The path of every ring, in order. */
  function Paths(rings: seq<Ring>): (ps: seq<seq<Cmd>>)
    requires forall j :: 0 <= j < |rings| ==> |rings[j]| > 0
    ensures |ps| == |rings| && forall j :: 0 <= j < |rings| ==> ps[j] == PathOf(rings[j])
  {
    seq(|rings|, j requires 0 <= j < |rings| => PathOf(rings[j]))
  }

  /** The shape of a polygon: the exterior path as its outline, and the path
      of every later ring as a hole, in order. */
  function ShapeOf(polygon: Polygon): (s: Shape)
    requires Traceable(polygon)
    ensures s.outline == PathOf(polygon[0]) && |s.holes| == |polygon| - 1
    ensures forall j :: 1 <= j < |polygon| ==> s.holes[j - 1] == PathOf(polygon[j])
  {
    Shape(PathOf(polygon[0]), Paths(polygon[1..]))
  }

  /** The shapes of `createRegionMesh`, one per polygon, in order. */
  function ShapesOf(polygons: seq<Polygon>): (ss: seq<Shape>)
    requires forall i :: 0 <= i < |polygons| ==> Traceable(polygons[i])
    ensures |ss| == |polygons| && forall i :: 0 <= i < |polygons| ==> ss[i] == ShapeOf(polygons[i])
  {
    seq(|polygons|, i requires 0 <= i < |polygons| => ShapeOf(polygons[i]))
  }

  /** The path loop of `createRegionMesh` over one ring. */
  method TracePath(ring: Ring) returns (ok: bool, path: seq<Cmd>)
    ensures ok <==> |ring| > 0
    ensures ok ==> path == PathOf(ring)
  {
    if |ring| == 0 {
      return false, [];
    }
    path := [MoveTo(ring[0])];
    var k := 0;
    while k < |ring|
      invariant 0 <= k <= |ring|
      invariant path == [MoveTo(ring[0])] + Lines(ring[..k])
    {
      assert Lines(ring[..k + 1]) == Lines(ring[..k]) + [LineTo(ring[k])];
      path := path + [LineTo(ring[k])];
      k := k + 1;
    }
    assert ring[..k] == ring;
    ok := true;
  }

  /** One polygon: the exterior path, then a hole path for every other ring. */
  method BuildShape(polygon: Polygon) returns (ok: bool, shape: Shape)
    ensures ok <==> Traceable(polygon)
    ensures ok ==> shape == ShapeOf(polygon)
  {
    if |polygon| == 0 {
      return false, Shape([], []);
    }
    var outline;
    ok, outline := TracePath(polygon[0]);
    if !ok {
      return false, Shape([], []);
    }
    var holes: seq<seq<Cmd>> := [];
    var i := 1;
    while i < |polygon|
      invariant 1 <= i <= |polygon|
      invariant forall j :: 0 <= j < i ==> |polygon[j]| > 0
      invariant |holes| == i - 1 && forall j :: 1 <= j < i ==> holes[j - 1] == PathOf(polygon[j])
    {
      var holeOk, hole := TracePath(polygon[i]);
      if !holeOk {
        return false, Shape([], []);
      }
      holes := holes + [hole];
      i := i + 1;
    }
    shape := Shape(outline, holes);
  }

  /** The polygon loop of `createRegionMesh`. `ok` is false where it raises. */
  method CreateShapes(polygons: seq<Polygon>) returns (ok: bool, shapes: seq<Shape>)
    ensures ok <==> forall i :: 0 <= i < |polygons| ==> Traceable(polygons[i])
    ensures ok ==> shapes == ShapesOf(polygons)
  {
    shapes := [];
    var i := 0;
    while i < |polygons|
      invariant 0 <= i <= |polygons|
      invariant forall k :: 0 <= k < i ==> Traceable(polygons[k])
      invariant |shapes| == i && forall k :: 0 <= k < i ==> shapes[k] == ShapeOf(polygons[k])
    {
      var shapeOk, shape := BuildShape(polygons[i]);
      if !shapeOk {
        return false, [];
      }
      shapes := shapes + [shape];
      i := i + 1;
    }
    ok := true;
  }

  /** `createRegionMesh` up to the extrusion: the shapes, and the colour of
      the face material for `dataValue`. */
  method CreateRegionMesh(dataValue: real, polygons: seq<Polygon>) returns (ok: bool, shapes: seq<Shape>, colour: int)
    ensures ok <==> forall i :: 0 <= i < |polygons| ==> Traceable(polygons[i])
    ensures ok ==> shapes == ShapesOf(polygons) && colour == Gradient(0x202020, 0x6bba3a, dataValue)
  {
    ok, shapes := CreateShapes(polygons);
    colour := Gradient(0x202020, 0x6bba3a, dataValue);
  }

  /** A `Polygon` geometry yields exactly the shapes of a `MultiPolygon` with
      that one polygon. */
  lemma PolygonAsMulti(rings: Polygon)
    requires Traceable(rings)
    ensures var ps := RegionPolygons(PolygonGeometry(rings));
      (forall i :: 0 <= i < |ps| ==> Traceable(ps[i]))
      && ShapesOf(ps) == ShapesOf(RegionPolygons(MultiPolygonGeometry([rings])))
      && ShapesOf(ps) == [ShapeOf(rings)]
  {
  }

  /** The region builds one shape per polygon, each with one hole per ring
      after the exterior, and its outline begins and ends where its exterior
      ring does. */
  lemma ShapeCounts(g: Geometry)
    requires forall i :: 0 <= i < |RegionPolygons(g)| ==> Traceable(RegionPolygons(g)[i])
    ensures var ps := RegionPolygons(g);
      var ss := ShapesOf(ps);
      |ss| == |ps|
      && forall i :: 0 <= i < |ps| ==>
           |ss[i].holes| == |ps[i]| - 1
           && ss[i].outline[0] == MoveTo(ps[i][0][0])
           && ss[i].outline[|ss[i].outline| - 1] == LineTo(ps[i][0][|ps[i][0]| - 1])
  {
    var ps := RegionPolygons(g);
    var ss := ShapesOf(ps);
    forall i | 0 <= i < |ps|
      ensures |ss[i].holes| == |ps[i]| - 1
      ensures ss[i].outline[0] == MoveTo(ps[i][0][0])
      ensures ss[i].outline[|ss[i].outline| - 1] == LineTo(ps[i][0][|ps[i][0]| - 1])
    {
      assert ss[i] == ShapeOf(ps[i]);
    }
  }
}
