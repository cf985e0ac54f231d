/** `RegionObject` of the extruded-region view: a mesh built from flat
    position, normal, colour and index buffers. Every shape adds a bottom copy
    of its points at height 0 and a top copy at `initialHeight`, the lid
    triangles twice (once per copy) and one side triangle per point;
    `updateHeight` then shifts the second half of the position buffer in
    place. A shape is given as the points `extractPoints` yields for its
    outline and the triangles `ShapeUtils.triangulateShape` makes of them. */
module Region {
  datatype Vec2 = Vec2(x: real, y: real)

  /** A triangle: three vertex indices. */
  datatype Tri = Tri(a: int, b: int, c: int)

  datatype ShapeInput = ShapeInput(points: seq<Vec2>, lidFaces: seq<Tri>)

  /** The vertices of one copy of the points at height `z`, as `x, y, z`. */
  function Layer(pts: seq<Vec2>, z: real): (r: seq<real>)
    ensures |r| == 3 * |pts|
  {
    if |pts| == 0 then []
    else Layer(pts[..|pts| - 1], z) + [pts[|pts| - 1].x, pts[|pts| - 1].y, z]
  }

  /** `n` copies of the triple `u, v, w`. */
  function Repeat3(u: real, v: real, w: real, n: nat): (r: seq<real>)
    ensures |r| == 3 * n
  {
    if n == 0 then [] else Repeat3(u, v, w, n - 1) + [u, v, w]
  }

  /** The lid triangles of a shape: every face offset to the bottom copy,
      then the same face offset to the top copy, with the same winding. */
  function LidIndices(faces: seq<Tri>, off: int, n: int): (r: seq<int>)
    ensures |r| == 6 * |faces|
  {
    if |faces| == 0 then []
    else
      var t := faces[|faces| - 1];
      LidIndices(faces[..|faces| - 1], off, n) + [t.a + off, t.b + off, t.c + off, t.a + off + n, t.b + off + n, t.c + off + n]
  }

  /** `createSideTriangles(n)`: the triangle `[i, i + 1, i + n]` for every
      point `i`. */
  function SideTriangles(n: nat): (ts: seq<Tri>)
    ensures |ts| == n
  {
    SidesBelow(n, n)
  }

  /** The first `i` triangles of `createSideTriangles(n)`. */
  function SidesBelow(i: nat, n: nat): (ts: seq<Tri>)
    ensures |ts| == i
  {
    seq(i, j requires 0 <= j < i => Tri(j, j + 1, j + n))
  }

  /** The triangles, each offset by `off`, as a flat index list. */
  function Flat(ts: seq<Tri>, off: int): (r: seq<int>)
    ensures |r| == 3 * |ts|
  {
    if |ts| == 0 then []
    else
      var t := ts[|ts| - 1];
      Flat(ts[..|ts| - 1], off) + [t.a + off, t.b + off, t.c + off]
  }

  /** The indices `addShape` pushes for a shape whose first vertex is `off`. */
  function ShapeIndices(s: ShapeInput, off: int): (r: seq<int>)
    ensures |r| == 3 * (2 * |s.lidFaces| + |s.points|)
  {
    LidIndices(s.lidFaces, off, |s.points|) + Flat(SideTriangles(|s.points|), off)
  }

  function TotalPoints(shapes: seq<ShapeInput>): nat
  {
    if |shapes| == 0 then 0 else TotalPoints(shapes[..|shapes| - 1]) + |shapes[|shapes| - 1].points|
  }

  /** The position buffer of the constructor: for each shape, its bottom copy
      then its top copy. */
  function AllVertices(shapes: seq<ShapeInput>, h: real): (r: seq<real>)
    ensures |r| == 6 * TotalPoints(shapes)
  {
    if |shapes| == 0 then []
    else
      var s := shapes[|shapes| - 1];
      AllVertices(shapes[..|shapes| - 1], h) + Layer(s.points, 0.0) + Layer(s.points, h)
  }

  /** The index buffer of the constructor: each shape's indices, offset by the
      vertices of the shapes before it. */
  function AllIndices(shapes: seq<ShapeInput>): (r: seq<int>)
    ensures |r| % 3 == 0
  {
    if |shapes| == 0 then []
    else
      var prefix := shapes[..|shapes| - 1];
      AllIndices(prefix) + ShapeIndices(shapes[|shapes| - 1], 2 * TotalPoints(prefix))
  }

  /** The local arrays of the constructor, which `addShape` and `addVertex`
      push to. */
  class Buffers {
    var vertices: seq<real>
    var normals: seq<real>
    var colors: seq<real>
    var indices: seq<int>

    /** One normal `(0, 0, 1)` and one colour `(1, 0, 0)` per vertex. */
    predicate Valid()
      reads this
    {
      |vertices| % 3 == 0
      && normals == Repeat3(0.0, 0.0, 1.0, |vertices| / 3)
      && colors == Repeat3(1.0, 0.0, 0.0, |vertices| / 3)
    }

    constructor ()
      ensures Valid() && vertices == [] && indices == []
    {
      vertices, normals, colors, indices := [], [], [], [];
    }

    /** `addVertex(x, y, z)`. */
    method AddVertex(x: real, y: real, z: real)
      requires Valid()
      modifies this
      ensures Valid() && vertices == old(vertices) + [x, y, z] && indices == old(indices)
    {
      vertices := vertices + [x, y, z];
      normals := normals + [0.0, 0.0, 1.0];
      colors := colors + [1.0, 0.0, 0.0];
    }

    /** The `forEach` over the points that adds one copy at height `z`. */
    method AddLayer(pts: seq<Vec2>, z: real)
      requires Valid()
      modifies this
      ensures Valid() && vertices == old(vertices) + Layer(pts, z) && indices == old(indices)
    {
      var k := 0;
      while k < |pts|
        invariant 0 <= k <= |pts|
        invariant Valid() && vertices == old(vertices) + Layer(pts[..k], z) && indices == old(indices)
      {
        assert pts[..k + 1][..k] == pts[..k];
        AddVertex(pts[k].x, pts[k].y, z);
        k := k + 1;
      }
      assert pts[..k] == pts;
    }

    /** `addShape(shape)`. */
    method AddShape(s: ShapeInput, h: real)
      requires Valid()
      modifies this
      ensures Valid()
      ensures vertices == old(vertices) + Layer(s.points, 0.0) + Layer(s.points, h)
      ensures indices == old(indices) + ShapeIndices(s, |old(vertices)| / 3)
    {
      var off := |vertices| / 3;
      var n := |s.points|;
      AddLayer(s.points, 0.0);
      AddLayer(s.points, h);
      ghost var before := indices;
      AddLids(s.lidFaces, off, n);
      var sides := CreateSideTriangles(n);
      AddSides(sides, off);
      assert indices == before + LidIndices(s.lidFaces, off, n) + Flat(sides, off);
    }

    /** The `forEach` over the lid faces: each face pushed for the bottom copy
        and again, shifted by `n`, for the top copy. */
    method AddLids(faces: seq<Tri>, off: int, n: int)
      modifies this
      ensures vertices == old(vertices) && normals == old(normals) && colors == old(colors)
      ensures indices == old(indices) + LidIndices(faces, off, n)
    {
      var i := 0;
      while i < |faces|
        invariant 0 <= i <= |faces|
        invariant vertices == old(vertices) && normals == old(normals) && colors == old(colors)
        invariant indices == old(indices) + LidIndices(faces[..i], off, n)
      {
        assert faces[..i + 1][..i] == faces[..i];
        var t := faces[i];
        indices := indices + [t.a + off, t.b + off, t.c + off] + [t.a + off + n, t.b + off + n, t.c + off + n];
        i := i + 1;
      }
      assert faces[..i] == faces;
    }

    /** The `forEach` over the side triangles. */
    method AddSides(ts: seq<Tri>, off: int)
      modifies this
      ensures vertices == old(vertices) && normals == old(normals) && colors == old(colors)
      ensures indices == old(indices) + Flat(ts, off)
    {
      var j := 0;
      while j < |ts|
        invariant 0 <= j <= |ts|
        invariant vertices == old(vertices) && normals == old(normals) && colors == old(colors)
        invariant indices == old(indices) + Flat(ts[..j], off)
      {
        assert ts[..j + 1][..j] == ts[..j];
        var t := ts[j];
        indices := indices + [t.a + off, t.b + off, t.c + off];
        j := j + 1;
      }
      assert ts[..j] == ts;
    }
  }

  /** The loop of the constructor: `addShape` for every shape, in order. */
  method AddShapes(shapes: seq<ShapeInput>, h: real) returns (buffers: Buffers)
    ensures fresh(buffers) && buffers.Valid()
    ensures buffers.vertices == AllVertices(shapes, h) && buffers.indices == AllIndices(shapes)
  {
    buffers := new Buffers();
    var i := 0;
    while i < |shapes|
      invariant 0 <= i <= |shapes|
      invariant fresh(buffers) && buffers.Valid()
      invariant buffers.vertices == AllVertices(shapes[..i], h)
      invariant buffers.indices == AllIndices(shapes[..i])
    {
      AllStep(shapes, i, h);
      buffers.AddShape(shapes[i], h);
      i := i + 1;
    }
    assert shapes[..i] == shapes;
  }

  /** `createSideTriangles(shapeLength)`. */
  method CreateSideTriangles(n: nat) returns (ts: seq<Tri>)
    ensures ts == SideTriangles(n)
  {
    ts := [];
    var i := 0;
    while i < n
      invariant 0 <= i <= n
      invariant ts == SidesBelow(i, n)
    {
      assert SidesBelow(i + 1, n) == SidesBelow(i, n) + [Tri(i, i + 1, i + n)];
      ts := ts + [Tri(i, i + 1, i + n)];
      i := i + 1;
    }
  }

  /** The position buffer after `updateHeight`: every entry of its second half,
      `x`, `y` and `z` alike, moves by `d`. For an odd length the loop starts at
      a fractional index, which a typed array ignores, so nothing moves. */
  function ShiftUpper(a: seq<real>, d: real): (r: seq<real>)
    ensures |r| == |a|
  {
    if |a| % 2 == 1 then a
    else seq(|a|, k requires 0 <= k < |a| => if k >= |a| / 2 then a[k] + d else a[k])
  }

  class RegionObject {
    var currentHeight: real
    const position: array<real>
    const normal: seq<real>
    const color: seq<real>
    const index: seq<int>

    constructor (shapes: seq<ShapeInput>, initialHeight: real)
      ensures fresh(position) && currentHeight == initialHeight
      ensures position[..] == AllVertices(shapes, initialHeight) && index == AllIndices(shapes)
      ensures position.Length == 6 * TotalPoints(shapes) && |normal| == |color| == position.Length
      ensures normal == Repeat3(0.0, 0.0, 1.0, position.Length / 3)
      ensures color == Repeat3(1.0, 0.0, 0.0, position.Length / 3)
    {
      var buffers := AddShapes(shapes, initialHeight);
      var vs := buffers.vertices;
      currentHeight := initialHeight;
      position := new real[|vs|](k requires 0 <= k < |vs| => vs[k]);
      normal := buffers.normals;
      color := buffers.colors;
      index := buffers.indices;
    }

    /** `updateHeight(newHeight)`. `currentHeight` is not updated. */
    method UpdateHeight(newHeight: real)
      modifies position
      ensures position[..] == ShiftUpper(old(position[..]), newHeight - currentHeight)
    {
      var d := newHeight - currentHeight;
      ghost var a := position[..];
      if position.Length % 2 == 1 {
        return;
      }
      var half := position.Length / 2;
      var i := half;
      while i < position.Length
        invariant half <= i <= position.Length
        invariant forall k :: 0 <= k < position.Length ==> position[k] == if half <= k < i then a[k] + d else a[k]
      {
        position[i] := position[i] + d;
        i := i + 1;
      }
      assert position[..] == ShiftUpper(a, d);
    }
  }

  /** The buffers after one more shape. */
  lemma AllStep(shapes: seq<ShapeInput>, i: nat, h: real)
    requires i < |shapes|
    ensures AllVertices(shapes[..i + 1], h) == AllVertices(shapes[..i], h) + Layer(shapes[i].points, 0.0) + Layer(shapes[i].points, h)
    ensures |AllVertices(shapes[..i], h)| / 3 == 2 * TotalPoints(shapes[..i])
    ensures AllIndices(shapes[..i + 1]) == AllIndices(shapes[..i]) + ShapeIndices(shapes[i], 2 * TotalPoints(shapes[..i]))
  {
    assert shapes[..i + 1][..i] == shapes[..i];
  }

  datatype Vec3 = Vec3(x: real, y: real, z: real)

  /** Vertex `v` of a flat `x, y, z` buffer. */
  function VertexAt(r: seq<real>, v: nat): Vec3
    requires 3 * v + 2 < |r|
  {
    Vec3(r[3 * v], r[3 * v + 1], r[3 * v + 2])
  }

  /** Vertex `j` of a copy at height `z` is point `j` at that height. */
  lemma {:induction false} LayerAt(pts: seq<Vec2>, z: real, j: nat)
    requires j < |pts|
    ensures VertexAt(Layer(pts, z), j) == Vec3(pts[j].x, pts[j].y, z)
  {
    var m := |pts| - 1;
    if j < m {
      LayerAt(pts[..m], z, j);
      assert pts[..m][j] == pts[j];
    }
  }

  /** Vertices of `a + b` past the `na` vertices of `a` are those of `b`. */
  lemma VertexAfter(a: seq<real>, b: seq<real>, na: nat, v: nat)
    requires |a| == 3 * na && 3 * v + 2 < |b|
    ensures VertexAt(a + b, na + v) == VertexAt(b, v)
  {
  }

  /** Vertices within a prefix are those of the whole. */
  lemma VertexPrefix(p: seq<real>, r: seq<real>, v: nat)
    requires |p| <= |r| && p == r[..|p|] && 3 * v + 2 < |p|
    ensures VertexAt(r, v) == VertexAt(p, v)
  {
    assert p[3 * v] == r[3 * v] && p[3 * v + 1] == r[3 * v + 1] && p[3 * v + 2] == r[3 * v + 2];
  }

  /** Vertices of `a + b` within `a` are those of `a`. */
  lemma VertexBefore(a: seq<real>, b: seq<real>, v: nat)
    requires 3 * v + 2 < |a|
    ensures VertexAt(a + b, v) == VertexAt(a, v)
  {
  }

  /** Every normal is `(0, 0, 1)` and every colour `(1, 0, 0)`: vertex `j` of
      `n` copies of a triple is that triple. */
  lemma {:induction false} Repeat3At(u: real, v: real, w: real, n: nat, j: int)
    requires 0 <= j < n
    ensures Repeat3(u, v, w, n)[3 * j] == u && Repeat3(u, v, w, n)[3 * j + 1] == v && Repeat3(u, v, w, n)[3 * j + 2] == w
  {
    if j < n - 1 {
      Repeat3At(u, v, w, n - 1, j);
    }
  }

  /** Face `i` gives indices `6 * i .. 6 * i + 5`: itself offset to the bottom
      copy, then to the top copy, in the same order. */
  lemma {:induction false} LidAt(faces: seq<Tri>, off: int, n: int, i: int)
    requires 0 <= i < |faces|
    ensures var r := LidIndices(faces, off, n);
      var t := faces[i];
      r[6 * i] == t.a + off && r[6 * i + 1] == t.b + off && r[6 * i + 2] == t.c + off
      && r[6 * i + 3] == t.a + off + n && r[6 * i + 4] == t.b + off + n && r[6 * i + 5] == t.c + off + n
  {
    var m := |faces| - 1;
    if i < m {
      LidAt(faces[..m], off, n, i);
      assert faces[..m][i] == faces[i];
    }
  }

  /** Triangle `i` gives indices `3 * i .. 3 * i + 2`, offset by `off`. */
  lemma {:induction false} FlatAt(ts: seq<Tri>, off: int, i: int)
    requires 0 <= i < |ts|
    ensures var r := Flat(ts, off);
      r[3 * i] == ts[i].a + off && r[3 * i + 1] == ts[i].b + off && r[3 * i + 2] == ts[i].c + off
  {
    var m := |ts| - 1;
    if i < m {
      FlatAt(ts[..m], off, i);
      assert ts[..m][i] == ts[i];
    }
  }

  /** After the lids, side triangle `i` of a shape at `off` is
      `[i, i + 1, i + n] + off`. */
  lemma SideAt(s: ShapeInput, off: int, i: int)
    requires 0 <= i < |s.points|
    ensures var r := ShapeIndices(s, off);
      var k := 6 * |s.lidFaces| + 3 * i;
      r[k] == i + off && r[k + 1] == i + 1 + off && r[k + 2] == i + |s.points| + off
  {
    var n := |s.points|;
    var lids := LidIndices(s.lidFaces, off, n);
    FlatAt(SideTriangles(n), off, i);
    assert ShapeIndices(s, off) == lids + Flat(SideTriangles(n), off);
  }

  /** The buffers of the first `m` shapes are a prefix of the buffers of all. */
  lemma {:induction false} AllPrefix(shapes: seq<ShapeInput>, h: real, m: nat)
    requires m <= |shapes|
    ensures TotalPoints(shapes[..m]) <= TotalPoints(shapes)
    ensures AllVertices(shapes[..m], h) == AllVertices(shapes, h)[..6 * TotalPoints(shapes[..m])]
  {
    if m < |shapes| {
      var prefix := shapes[..|shapes| - 1];
      AllPrefix(prefix, h, m);
      assert prefix[..m] == shapes[..m];
      var a := AllVertices(prefix, h);
      assert AllVertices(shapes, h) == a + (Layer(shapes[|shapes| - 1].points, 0.0) + Layer(shapes[|shapes| - 1].points, h));
    } else {
      assert shapes[..m] == shapes;
    }
  }

  /** Every vertex of a shape is an entry of its own or its lid's copy. */
  predicate FacesWithin(s: ShapeInput)
  {
    forall i :: 0 <= i < |s.lidFaces| ==>
      0 <= s.lidFaces[i].a < |s.points| && 0 <= s.lidFaces[i].b < |s.points| && 0 <= s.lidFaces[i].c < |s.points|
  }

  /** The side triangles stay within the two copies, and the last one ends at
      the first top vertex instead of wrapping round to vertex 0. */
  lemma SidesNoWrap(n: nat)
    requires n > 0
    ensures forall i :: 0 <= i < n ==>
      var t := SideTriangles(n)[i];
      0 <= t.a < n && 1 <= t.b <= n && n <= t.c < 2 * n
    ensures SideTriangles(n)[n - 1] == Tri(n - 1, n, 2 * n - 1)
  {
  }

  /** With faces within the shape's points, every index of the shape lies
      among its `2n` vertices. */
  lemma {:induction false} LidRange(faces: seq<Tri>, off: int, n: int)
    requires forall i :: 0 <= i < |faces| ==> 0 <= faces[i].a < n && 0 <= faces[i].b < n && 0 <= faces[i].c < n
    ensures forall k :: 0 <= k < |LidIndices(faces, off, n)| ==> off <= LidIndices(faces, off, n)[k] < off + 2 * n
  {
    if |faces| > 0 {
      LidRange(faces[..|faces| - 1], off, n);
    }
  }

  lemma {:induction false} FlatRange(ts: seq<Tri>, off: int, m: int)
    requires forall i :: 0 <= i < |ts| ==> 0 <= ts[i].a < m && 0 <= ts[i].b < m && 0 <= ts[i].c < m
    ensures forall k :: 0 <= k < |Flat(ts, off)| ==> off <= Flat(ts, off)[k] < off + m
  {
    if |ts| > 0 {
      FlatRange(ts[..|ts| - 1], off, m);
    }
  }

  lemma ShapeRange(s: ShapeInput, off: int)
    requires FacesWithin(s)
    ensures forall k :: 0 <= k < |ShapeIndices(s, off)| ==> off <= ShapeIndices(s, off)[k] < off + 2 * |s.points|
  {
    var n := |s.points|;
    LidRange(s.lidFaces, off, n);
    FlatRange(SideTriangles(n), off, 2 * n);
  }

  /** When the triangulation only uses the shape's own points (as it does for
      shapes without holes), every index of the index buffer names a vertex
      of the position buffer. */
  lemma {:induction false} IndicesInRange(shapes: seq<ShapeInput>)
    requires forall k :: 0 <= k < |shapes| ==> FacesWithin(shapes[k])
    ensures forall j :: 0 <= j < |AllIndices(shapes)| ==> 0 <= AllIndices(shapes)[j] < 2 * TotalPoints(shapes)
  {
    if |shapes| > 0 {
      var prefix := shapes[..|shapes| - 1];
      IndicesInRange(prefix);
      ShapeRange(shapes[|shapes| - 1], 2 * TotalPoints(prefix));
    }
  }

  /** The index buffer holds three indices for each lid face of each copy and
      for each side triangle. */
  lemma {:induction false} IndexCount(shapes: seq<ShapeInput>)
    ensures |AllIndices(shapes)| == 3 * (2 * TotalFaces(shapes) + TotalPoints(shapes))
  {
    if |shapes| > 0 {
      IndexCount(shapes[..|shapes| - 1]);
    }
  }

  function TotalFaces(shapes: seq<ShapeInput>): nat
  {
    if |shapes| == 0 then 0 else TotalFaces(shapes[..|shapes| - 1]) + |shapes[|shapes| - 1].lidFaces|
  }

  /** In the flat buffer `r`, point `j` of `pts` is vertex `off + j` at
      height 0 and vertex `off + |pts| + j` at height `h`. */
  predicate PlacedAt(r: seq<real>, pts: seq<Vec2>, off: nat, h: real, j: nat)
    requires j < |pts|
  {
    3 * (off + |pts| + j) + 2 < |r|
    && VertexAt(r, off + j) == Vec3(pts[j].x, pts[j].y, 0.0)
    && VertexAt(r, off + |pts| + j) == Vec3(pts[j].x, pts[j].y, h)
  }

  /** The bottom copy of the shape added last starts at vertex
      `off = 2 * TotalPoints(prefix)` and its top copy at `off + n`: vertex
      `off + j` is point `j` at height 0, vertex `off + n + j` the same point
      at `h`. */
  lemma LastShapeLayout(shapes: seq<ShapeInput>, h: real, j: nat)
    requires |shapes| > 0 && j < |shapes[|shapes| - 1].points|
    ensures PlacedAt(AllVertices(shapes, h), shapes[|shapes| - 1].points, 2 * TotalPoints(shapes[..|shapes| - 1]), h, j)
  {
    var prefix := shapes[..|shapes| - 1];
    var pts := shapes[|shapes| - 1].points;
    var off := 2 * TotalPoints(prefix);
    var head, bottom, top := AllVertices(prefix, h), Layer(pts, 0.0), Layer(pts, h);
    assert AllVertices(shapes, h) == head + (bottom + top);
    LayerAt(pts, 0.0, j);
    LayerAt(pts, h, j);
    VertexBefore(bottom, top, j);
    VertexAfter(bottom, top, |pts|, j);
    VertexAfter(head, bottom + top, off, j);
    VertexAfter(head, bottom + top, off, |pts| + j);
  }

  /** The same for any shape `k`: `off = 2 * TotalPoints(shapes[..k])` is the
      value of `vertices.length / 3` when `addShape` starts on it. */
  lemma ShapeLayout(shapes: seq<ShapeInput>, h: real, k: nat, j: nat)
    requires k < |shapes| && j < |shapes[k].points|
    ensures TotalPoints(shapes[..k]) + |shapes[k].points| <= TotalPoints(shapes)
    ensures PlacedAt(AllVertices(shapes, h), shapes[k].points, 2 * TotalPoints(shapes[..k]), h, j)
  {
    var upto := shapes[..k + 1];
    assert upto[..|upto| - 1] == shapes[..k];
    assert TotalPoints(upto) == TotalPoints(shapes[..k]) + |shapes[k].points|;
    AllPrefix(shapes, h, k + 1);
    LastShapeLayout(upto, h, j);
    var p, r := AllVertices(upto, h), AllVertices(shapes, h);
    var off, pts := 2 * TotalPoints(shapes[..k]), shapes[k].points;
    assert upto[|upto| - 1] == shapes[k];
    assert PlacedAt(p, pts, off, h, j);
    VertexPrefix(p, r, off + j);
    VertexPrefix(p, r, off + |pts| + j);
  }

  /** `updateHeight` on an even-length buffer: the first half stays, and
      every entry of the second half moves by `d`. */
  lemma ShiftHalves(a: seq<real>, d: real, m: nat)
    requires |a| == 2 * m
    ensures ShiftUpper(a, d)[..m] == a[..m]
    ensures forall k :: m <= k < |a| ==> ShiftUpper(a, d)[k] == a[k] + d
  {
  }

  /** Two `updateHeight` calls compose: as `currentHeight` stays, calling it
      twice with the same height moves the second half twice as far. */
  lemma ShiftTwice(a: seq<real>, d1: real, d2: real)
    ensures ShiftUpper(ShiftUpper(a, d1), d2) == ShiftUpper(a, d1 + d2)
  {
  }

  /** For a single shape the second half is exactly its top copy: the bottom
      copy stays, and each top point moves by `d` in `x` and `y` as well as in
      height. */
  lemma SingleShapeLift(s: ShapeInput, h: real, d: real, j: nat)
    requires j < |s.points|
    ensures var n := |s.points|;
      var r := ShiftUpper(AllVertices([s], h), d);
      r[..3 * n] == Layer(s.points, 0.0)
      && VertexAt(r, n + j) == Vec3(s.points[j].x + d, s.points[j].y + d, h + d)
  {
    var n := |s.points|;
    var bottom, top := Layer(s.points, 0.0), Layer(s.points, h);
    assert [s][..0] == [];
    var a := AllVertices([s], h);
    assert a == bottom + top;
    ShiftHalves(a, d, 3 * n);
    LayerAt(s.points, h, j);
    VertexAfter(bottom, top, n, j);
    assert bottom == a[..3 * n];
  }

  /** With two shapes of `n` points each, the second half is the whole second
      shape: the first top copy keeps its height while the second bottom copy
      leaves the ground. */
  lemma TwoShapesLift(s1: ShapeInput, s2: ShapeInput, h: real, d: real)
    requires |s1.points| == |s2.points| > 0
    ensures var n := |s1.points|;
      var r := ShiftUpper(AllVertices([s1, s2], h), d);
      r[3 * n + 2] == h && r[6 * n + 2] == d
  {
    var n := |s1.points|;
    assert [s1, s2][..1] == [s1] && [s1][..0] == [];
    var b1, t1, b2, t2 := Layer(s1.points, 0.0), Layer(s1.points, h), Layer(s2.points, 0.0), Layer(s2.points, h);
    var first := AllVertices([s1], h);
    assert first == b1 + t1;
    var a := AllVertices([s1, s2], h);
    assert a == first + (b2 + t2);
    ShiftHalves(a, d, 6 * n);
    LayerAt(s1.points, h, 0);
    LayerAt(s2.points, 0.0, 0);
    VertexAfter(b1, t1, n, 0);
    VertexBefore(first, b2 + t2, n);
    VertexBefore(b2, t2, 0);
    VertexAfter(first, b2 + t2, 2 * n, 0);
  }
}
