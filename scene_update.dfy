/** `updateScene` and `traceMouseTarget` of the map view. Every region mesh
    of the scene holds the flat `x, y, z` array of its extruded geometry and
    the `userData` the map stores on it; an update raises every vertex that is
    off the ground to the region's share of the selected data, and recolours
    the mesh. */
module SceneUpdate {
  import opened Colour

  /** `userData.id`: the region's key in the data tables, or `undefined` when
      the region mapping has no entry for it. */
  datatype UserId = NoId | RegionId(key: string)

  predicate Truthy(id: UserId)
  {
    id.RegionId? && id.key != ""
  }

  class RegionMesh {
    /** `geometry.attributes.position.array`. */
    const position: array<real>
    var id: UserId
    var dataValue: real
    var colour: int

    /** A mesh as `loadRegionsMeshes` adds it, before its first update. */
    constructor (position: array<real>, id: UserId, colour: int)
      ensures this.position == position && this.id == id && dataValue == 0.0 && this.colour == colour
    {
      this.position := position;
      this.id := id;
      dataValue := 0.0;
      this.colour := colour;
    }

    /** The body of the mesh loop of `updateScene` for ratio `v`. */
    method Update(v: real)
      modifies this, position
      ensures position[..] == Raised(old(position[..]), v * 20.0)
      ensures id == old(id) && dataValue == v && colour == Gradient(0x202020, 0x6bba3a, v)
    {
      var j := 0;
      while 3 * j < position.Length
        modifies position
        invariant 0 <= j && (3 * j <= position.Length + 2)
        invariant position[..] == RaisedBelow(old(position[..]), v * 20.0, 3 * j)
        decreases position.Length - 3 * j
      {
        if 3 * j + 2 < position.Length && position[3 * j + 2] != 0.0 {
          position[3 * j + 2] := v * 20.0;
        }
        j := j + 1;
      }
      assert RaisedBelow(old(position[..]), v * 20.0, 3 * j) == Raised(old(position[..]), v * 20.0);
      dataValue := v;
      colour := Gradient(0x202020, 0x6bba3a, v);
    }
  }

  /** A child of the scene: a region mesh, or anything else (the lights). */
  datatype Child = MeshChild(mesh: RegionMesh) | OtherChild

  /** The z coordinates of a flat `x, y, z` array. */
  predicate IsZ(k: int)
  {
    k % 3 == 2
  }

  /** The array after `setZ(j, h)` for every vertex whose z is not 0. */
  function Raised(a: seq<real>, h: real): (b: seq<real>)
    ensures |b| == |a|
    ensures forall k :: 0 <= k < |a| && (!IsZ(k) || a[k] == 0.0) ==> b[k] == a[k]
    ensures forall k :: 0 <= k < |a| && IsZ(k) && a[k] != 0.0 ==> b[k] == h
  {
    RaisedBelow(a, h, |a|)
  }

  /** `Raised` on the first `n` entries only. */
  function RaisedBelow(a: seq<real>, h: real, n: int): seq<real>
  {
    seq(|a|, k requires 0 <= k < |a| => if k < n && IsZ(k) && a[k] != 0.0 then h else a[k])
  }

  /** `dataSource[id] / dataSource["max"]`. */
  function Ratio(table: map<string, real>, id: UserId): real
    requires Readable(table, id)
  {
    table[id.key] / table["max"]
  }

  /** The lookups of one mesh give numbers: its id and `"max"` are in the
      table, and the maximum is not 0. */
  predicate Readable(table: map<string, real>, id: UserId)
  {
    id.RegionId? && id.key in table && "max" in table && table["max"] != 0.0
  }

  /** `data[sceneData][year][month]`: a missing series or year raises at
      once; a missing month gives `undefined`, which raises at the first
      mesh. */
  datatype Selection = Raises | Undefined | Table(table: map<string, real>)

  function Select(data: map<string, map<string, map<string, map<string, real>>>>, series: string, year: string,
                  month: string): (s: Selection)
    ensures s.Raises? <==> series !in data || year !in data[series]
    ensures s.Table? <==> series in data && year in data[series] && month in data[series][year]
    ensures s.Table? ==> s.table == data[series][year][month]
  {
    if series !in data || year !in data[series] then Raises
    else if month !in data[series][year] then Undefined
    else Table(data[series][year][month])
  }

  /** The meshes among the children. */
  ghost function Meshes(children: seq<Child>): set<RegionMesh>
  {
    set k | 0 <= k < |children| && children[k].MeshChild? :: children[k].mesh
  }

  ghost function Positions(children: seq<Child>): set<array<real>>
  {
    set k | 0 <= k < |children| && children[k].MeshChild? :: children[k].mesh.position
  }

  /** No mesh, and no position array, is shared by two children. */
  ghost predicate Separate(children: seq<Child>)
  {
    forall j, k :: 0 <= j < k < |children| && children[j].MeshChild? && children[k].MeshChild? ==>
      children[j].mesh != children[k].mesh && children[j].mesh.position != children[k].mesh.position
  }

  predicate HasMesh(children: seq<Child>)
  {
    exists k :: 0 <= k < |children| && children[k].MeshChild?
  }

  /** What an update reads and writes of a mesh. */
  datatype MeshState = MeshState(position: seq<real>, id: UserId, dataValue: real, colour: int)

  ghost function StateOf(m: RegionMesh): MeshState
    reads m, m.position
  {
    MeshState(m.position[..], m.id, m.dataValue, m.colour)
  }

  /** The mesh state `updateScene` leaves behind for the table, from the
      state `s0` before it. */
  predicate Updated(s: MeshState, s0: MeshState, table: map<string, real>)
  {
    s.id == s0.id && Readable(table, s0.id)
    && s.position == Raised(s0.position, Ratio(table, s0.id) * 20.0)
    && s.dataValue == Ratio(table, s0.id) && s.colour == Gradient(0x202020, 0x6bba3a, Ratio(table, s0.id))
  }

  /** `updateScene`. `ok` is false where it raises, and then no mesh has
      changed; otherwise every mesh holds its ratio, its colour, and its
      raised positions. */
  method UpdateScene(children: seq<Child>, sel: Selection) returns (ok: bool)
    requires Separate(children)
    requires sel.Table? ==> forall k :: 0 <= k < |children| && children[k].MeshChild? ==>
      Readable(sel.table, children[k].mesh.id)
    modifies Meshes(children), Positions(children)
    ensures ok <==> sel.Table? || (sel.Undefined? && !HasMesh(children))
    ensures !ok ==> forall k :: 0 <= k < |children| && children[k].MeshChild? ==>
      StateOf(children[k].mesh) == old(StateOf(children[k].mesh))
    ensures ok && sel.Table? ==> forall k :: 0 <= k < |children| && children[k].MeshChild? ==>
      Updated(StateOf(children[k].mesh), old(StateOf(children[k].mesh)), sel.table)
  {
    if sel.Raises? {
      return false;
    }
    if sel.Undefined? {
      ok := !HasMesh(children);
      return;
    }
    ghost var before := map m | m in Meshes(children) :: StateOf(m);
    var i := 0;
    while i < |children|
      invariant 0 <= i <= |children|
      invariant Swept(children, i, before, sel.table)
    {
      UpdateAt(children, i, sel.table, before);
      i := i + 1;
    }
    ok := true;
  }

  /** The meshes before child `i` are updated from their state in `before`,
      the others still hold it. */
  ghost predicate Swept(children: seq<Child>, i: nat, before: map<RegionMesh, MeshState>, table: map<string, real>)
    requires Meshes(children) <= before.Keys
    reads Meshes(children), Positions(children)
  {
    (forall k :: 0 <= k < i && k < |children| && children[k].MeshChild? ==>
       Updated(StateOf(children[k].mesh), before[children[k].mesh], table))
    && forall k :: i <= k < |children| && children[k].MeshChild? ==>
         StateOf(children[k].mesh) == before[children[k].mesh]
  }

  /** What one turn of the loop of `updateScene` may write. */
  ghost function Touched(children: seq<Child>, i: nat): set<object>
    requires i < |children|
  {
    if children[i].MeshChild? then {children[i].mesh, children[i].mesh.position} else {}
  }

  /** One turn of the loop of `updateScene`, at child `i`: a mesh is updated,
      and no other child changes. */
  method UpdateAt(children: seq<Child>, i: nat, table: map<string, real>, ghost before: map<RegionMesh, MeshState>)
    requires Separate(children) && i < |children| && Meshes(children) <= before.Keys
    requires children[i].MeshChild? ==> Readable(table, children[i].mesh.id)
    requires Swept(children, i, before, table)
    modifies Touched(children, i)
    ensures Swept(children, i + 1, before, table)
  {
    if children[i].MeshChild? {
      var m := children[i].mesh;
      m.Update(Ratio(table, m.id));
    }
  }

  /** For a fixed selection a second update changes nothing more when the
      ratio is not 0: the vertices off the ground are already at its height. */
  lemma UpdateIdempotent(a: seq<real>, h: real)
    requires h != 0.0
    ensures Raised(Raised(a, h), h) == Raised(a, h)
  {
    RaisedAgain(a, h, h);
  }

  /** After an update with a ratio other than 0, a later update sets the same
      vertices to its own height: only the last update counts. */
  lemma RaisedAgain(a: seq<real>, h: real, h': real)
    requires h != 0.0
    ensures Raised(Raised(a, h), h') == Raised(a, h')
  {
    var b := Raised(a, h);
    assert forall k :: 0 <= k < |a| ==> (IsZ(k) && b[k] != 0.0 <==> IsZ(k) && a[k] != 0.0);
  }

  /** A ratio of 0 puts every vertex on the ground, and no later update can
      lift it again. */
  lemma FlatStaysFlat(a: seq<real>, h': real)
    ensures forall k :: 0 <= k < |a| && IsZ(k) ==> Raised(a, 0.0)[k] == 0.0
    ensures Raised(Raised(a, 0.0), h') == Raised(a, 0.0)
  {
  }

  /** `traceMouseTarget`: the first intersection whose object has a truthy
      `userData.id`, as the outline's selection (empty when there is none). */
  method TraceMouseTarget(hits: seq<UserId>) returns (selected: seq<nat>)
    ensures |selected| <= 1
    ensures |selected| == 1 ==>
      selected[0] < |hits| && Truthy(hits[selected[0]]) && forall k :: 0 <= k < selected[0] ==> !Truthy(hits[k])
    ensures |selected| == 0 ==> forall k :: 0 <= k < |hits| ==> !Truthy(hits[k])
  {
    var target := -1;
    var i := 0;
    while i < |hits|
      invariant 0 <= i <= |hits|
      invariant forall k :: 0 <= k < i ==> !Truthy(hits[k])
    {
      if Truthy(hits[i]) {
        target := i;
        break;
      }
      i := i + 1;
    }
    if target != -1 {
      selected := [target];
    } else {
      selected := [];
    }
  }
}
