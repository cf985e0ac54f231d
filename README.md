# Russian regions map — verified model of its core

The repository draws a 3-D map of the regions of Russia. This project
models the three parts of it that hold logic of their own, and proves what
they do.

1. **The GeoJSON optimizer** (`src/optimize.py`). It streams the source file
   one character at a time. While it copies, it removes whitespace outside
   strings and tracks the JSON path with two stacks, `entities` and `keys`.
   Inside the coordinates of a `Polygon` or `MultiPolygon` it reads every
   ring into a singly linked list of `LinkedPoint` nodes and merges close
   neighbours for up to `merge_rounds` rounds, then writes each ring back.
   - `Stream` is the pure state machine, with `Stream.Optimize` as the whole
     run.
   - `KeyPath` holds the path regexes; `Text` holds `int`, `str`, `float`
     and `isspace`.
   - `RingMerge` is `merge_points` on values: `ScanFrom` scans node by
     node, and `MergePairs` is the reference pairwise merge.
   - `LinkedRing` is `merge_points` on heap nodes, whose `data` is a shared
     list object (`Coords`).
   - `Optimizer.Optimizer` is a class whose fields are the readers' shared
     variables. Its reader methods are proved to follow `Stream`.
2. **The extruded region mesh** (`src/main.ts`, `RegionObject`), in module
   `Region`:
   - `Buffers` holds the local arrays that `addShape` and `addVertex` push
     to.
   - `RegionObject` holds the position array, which `updateHeight` shifts
     in place.
3. **The map view** (`src/map.ts`):
   - `Colour` is `gradient`, on exact reals with `Math.round` as
     `floor(y + 0.5)`.
   - `RegionShapes` covers the Polygon/MultiPolygon normalisation and the
     shape and hole loops of `createRegionMesh`.
   - `SceneUpdate` covers `updateScene` on meshes with position arrays,
     and the first-truthy pick of `traceMouseTarget`.

Where the written design of the system and the code differ, the model
follows the code:
- **Gradient endpoints.** The design says `gradient(c, c, x) == c`, and that
  both endpoints are reproduced exactly. The code divides by 65536 and 256
  without truncating, so the red and green quotients carry fractions that
  `Math.round` can round up.
  - `Colour.SameColour` proves `gradient(c, c, x) = c + Carry(c)`.
  - `Colour.AtZeroExact` proves the endpoint is exact only when the green
    and blue bytes are below 128.
  - `Colour.MapColours` proves the map's green end comes out as `0x6cba3a`
    rather than `0x6bba3a`.
- **Rounding.** The design leaves the rounding rule open. The code uses
  `Math.round`, which rounds halves up.
- **Side triangles.** The design describes two side triangles per edge,
  with wrap-around to the first point. The code makes one triangle
  `[i, i + 1, i + n]` per point, and nothing wraps (`Region.SidesNoWrap`).
  So a shape contributes `3 * (2 * |lidFaces| + n)` indices.
- **Degenerate rings.** The design rejects degenerate rings. The code has
  no such check: an empty ring or polygon fails only when its first point is
  read, and that is the only failure modelled.
- **`updateHeight`.** It adds the height change to every entry of the second
  half of the flat position array: x and y as well as z. With more than one
  shape, that half is not the set of top copies (`Region.TwoShapesLift`).
  For an odd length the loop starts at a fractional index, which a typed
  array ignores, so nothing moves: `Region.ShiftUpper` says so.

## Model

| member | source | states |
|---|---|---|
| Text.ParseFormatNat | src/optimize.py:73 | `int(str(n)) == n`: an array key read back and incremented is the next index |
| Text.ParseDecimalAccepts | src/optimize.py:104-117 | on digit/dot tokens, `float` succeeds exactly when there is at most one dot and at least one digit |
| Text.SignIsDropped | src/optimize.py:104-117 | the token built from `-1.5` reads as 1.5; `1.2.3`, `.` and the empty token are ValueErrors |
| Text.IsDigit | src/optimize.py:104 | definition: `char.isdigit()` on the ASCII digits `0` to `9` |
| Text.IsSpace | src/optimize.py:77 | definition: Python's `str.isspace()` on one character, the ASCII and Unicode whitespace it accepts |
| Text.FormatNat | src/optimize.py:73 | definition: `str(n)` of a non-negative integer, most significant digit first |
| Text.ParseNat | src/optimize.py:73 | definition: `int(s)` on non-empty ASCII digit strings; every other string is a ValueError here |
| Text.ParseDecimal | src/optimize.py:117 | definition: `float(token)` evaluated exactly on digit tokens with at most one dot and at least one digit; every other token is a ValueError |
| Text.JoinDot | src/optimize.py:44 | definition: `".".join(keys)` |
| Text.JoinComma | src/optimize.py:141 | definition: `",".join(points)` |
| KeyPath.CoordinatesPathIsFull | src/optimize.py:57 | a path that fully matches the coordinates pattern stops matching once anything not ending in `s` is appended, so `coordinates.0` does not match |
| KeyPath.IsCoordinatesPath | src/optimize.py:57 | definition: `re.fullmatch(r"~.features.*.geometry.coordinates", path)` on the joined key path, with `.` matching any character but a newline |
| KeyPath.IsGeometryTypePath | src/optimize.py:44 | definition: `re.match(r"~.features.*.geometry.type", path)`, anchored at the start only |
| KeyPath.TypePath | src/optimize.py:44 | the geometry-type path of a feature with any key free of newlines matches the anchored pattern |
| KeyPath.CoordinatesPath | src/optimize.py:57 | the coordinates path of a feature with any key free of newlines matches the full pattern |
| KeyPath.ElementPath | src/optimize.py:57 | the path of a coordinates element whose key ends in a digit does not match the full pattern |
| KeyPath.FeaturePaths | src/optimize.py:44-57 | for every feature index `j`, the key path of its geometry type matches the anchored pattern, its coordinates path matches the full pattern, and the path of any element `k` of the coordinates does not |
| StreamFacts.GeometryTypeKept | src/optimize.py:36-49 | `geometry_type` is only ever `None`, POLYGON or MULTI_POLYGON |
| Stream.Init | src/optimize.py:26-36 | definition: the state before the first character: no entity, the key `~`, empty buffers, `copying_reader` with `geometry_type = None` |
| Stream.NextIndex | src/optimize.py:73 | definition: `keys[-1] = str(int(keys[-1]) + 1)`, raising on an empty key stack or an unparsable key |
| Stream.CopyChar | src/optimize.py:39-75 | definition: the branches of `copying_reader` on one character, with `geometry_type` in and out, raising where `entities[-1]`, `keys[-1]`, `int` or `None >= 3` raise |
| Stream.CopyOut | src/optimize.py:77-83 | definition: the copy rule (`value_buffer or not char.isspace()`) and the flush and handover once the top entity is POLYGON |
| Stream.CopyStep | src/optimize.py:38-83 | definition: one iteration of `copying_reader`: the branches of `CopyChar`, then the copy rule and handover of `CopyOut` |
| Stream.PolyStep | src/optimize.py:103-153 | definition: the branches of `polygon_reader` on one character, with the ring read so far and `point_buffer` |
| Stream.Step | src/optimize.py:197-200 | definition: one character of whichever reader is active, the reader returned being the one that reads the next character |
| Stream.TakeCoordinate | src/optimize.py:117 | definition: `point_buffer.append(float(value_buffer))`, raising where `float` does |
| Stream.FormatPoints | src/optimize.py:133-140 | definition: `"[x,y]"` for every point with the formatting parameter, failing on a point with fewer than two coordinates |
| Stream.MergedRing | src/optimize.py:129-131 | definition: the merge rounds on a freshly read ring |
| Stream.RingText | src/optimize.py:128-141 | definition: the text written for a finished ring: `[`, the comma-joined points of the merged ring, `]` |
| Stream.Finish | src/optimize.py:85 | definition: at the end of the input `copying_reader` writes its write buffer; `polygon_reader` writes nothing |
| Stream.RunFrom | src/optimize.py:197-200 | definition: the readers' loop from one position to the end of the input |
| Stream.Optimize | src/optimize.py:26-200 | definition: the destination text written for the source text, or a crash |
| StreamFacts.OpenBracket | src/optimize.py:56-64 | `[` pushes one entity and the key `"0"`; at a coordinates path the entity is `geometry_type`; it is `None` iff no type was read and the path is a coordinates path, and array-like otherwise |
| StreamFacts.CloseBracket | src/optimize.py:67-69 | `]` and `}` pop one entity and one key |
| StreamFacts.ClosingStringIsKey | src/optimize.py:39-51 | a string closing with fewer keys than entities is pushed as the key, and the value buffer empties |
| StreamFacts.CommaInMap | src/optimize.py:74-75 | `,` in an object pops the key |
| StreamFacts.CommaInArray | src/optimize.py:71-73 | `,` in an array-like entity turns the key `str(j)` into `str(j + 1)` |
| StreamFacts.KeyIsElementIndex | src/optimize.py:70-73 | across characters that open and close nothing, the top key goes from `str(j)` to `str(j + k)` for the `k` commas read |
| StreamFacts.PlainCharStep | src/optimize.py:77-78 | outside strings a plain character is copied unless it is whitespace, and nothing else changes |
| StreamFacts.WhitespaceDropped | src/optimize.py:54-78 | outside strings a stretch of plain characters is written with its whitespace removed, in order |
| StreamFacts.StringCopied | src/optimize.py:54-55 | inside a string every character other than `"`, whitespace included, joins the value buffer and is copied |
| StreamFacts.CopyStepOutput | src/optimize.py:77-83 | the output grows by exactly the copied character; control passes to `polygon_reader` iff the character was copied and the top entity is POLYGON, with the buffer flushed |
| StreamFacts.PolyStepOutput | src/optimize.py:103-146 | `polygon_reader` writes nothing until a ring closes; then it writes `[` + the comma-joined `[x,y]` of the merged ring + `]` and returns to `copying_reader` |
| StreamFacts.SignDropped | src/optimize.py:103-105 | any character other than digits, `.`, `[`, `]` and `,` leaves the polygon state unchanged |
| StreamFacts.NegativeCoordinate | src/optimize.py:104-105 | reading `-1.5` in a point leaves the token `1.5`, which becomes the coordinate 1.5 |
| StreamFacts.ShortRingKept | src/optimize.py:129-131 | a ring of fewer than 8 points is re-emitted with the same points |
| StreamFacts.MergedRingShape | src/optimize.py:129-131 | after all rounds `ring_length` is the list length; the ring keeps at least one point and never grows; a ring whose last node is still `ring_end` ends on the head's point |
| StreamFacts.FormatPointsPrefix | src/optimize.py:136-140 | once the points before some node fail to format (a point with fewer than two coordinates), writing the whole ring fails |
| StreamFacts.RunFromIsSteps | src/optimize.py:197-200 | the readers' loop is the character steps over the rest of the input followed by the final flush |
| StreamFacts.StepsAppend | src/optimize.py:197-200 | the steps over two stretches of input compose |
| StreamFacts.PrefixCrash | src/optimize.py:197-200 | once a prefix of the file raises, the whole file raises, whatever follows |
| StreamFacts.LeadingCrash | src/optimize.py:39-75 | a file whose first character is `"`, `[` or `,` raises at once on the empty entity stack (`entities[-1]`), and so does one whose first character is `]` or `}` (`entities.pop()`) |
| StreamFacts.PlainTextCopied | src/optimize.py:77-85 | a file without strings, brackets, braces or commas is written out with exactly its whitespace removed |
| RingMerge.ScanFrom | src/optimize.py:155-165 | the scan keeps every node it starts from, unlinks at most half the nodes it visits, and keeps the kept nodes in order |
| RingMerge.Mid | src/optimize.py:160-162 | the merged point has the two coordinates `((a0 + b0) / 2, (a1 + b1) / 2)` |
| RingMerge.MergePairs | src/optimize.py:155-165 | definition: the reference merge on the list of points: a point absorbs a close successor, and the scan moves past both |
| RingMerge.MergeRound | src/optimize.py:155-171 | definition: one call of `merge_points` on the ring, with the end tie and the returned count |
| RingMerge.MergeRounds | src/optimize.py:129-131 | definition: the rounds loop, which calls `merge_points` only while `ring_length >= 8` |
| RingMerge.MergePairsShape | src/optimize.py:158-165 | one pairwise merge keeps between `n - n/2` and `n` points; the first point is the midpoint of a close first pair, otherwise unchanged |
| RingMerge.ScanFromIsMergePairs | src/optimize.py:155-165 | past the head (or with no shared list) the node scan leaves the pairwise merge of the unvisited points |
| RingMerge.UntiedScan | src/optimize.py:155-165 | on a freshly read ring `merge_points` leaves exactly the pairwise merge of its points |
| RingMerge.TiedScan | src/optimize.py:162-169 | once the head and last node share a list, the scan is the pairwise merge with the last point replaced by the head's new point |
| RingMerge.MergeRoundFacts | src/optimize.py:131-171 | `merge_points` returns the number of nodes it unlinked (length after = before − result), at most half of them; at least one node stays; a `ring_end` still linked holds the head's point |
| RingMerge.MergeRoundCoherent | src/optimize.py:167-169 | after the end tie, a shared list belongs only to the head and the last node |
| RingMerge.MergeRoundHead | src/optimize.py:159-163 | the head is never unlinked; it takes the midpoint when its successor is close, otherwise it keeps its point |
| RingMerge.HeadUntouchedLater | src/optimize.py:156-165 | once the scan has left the head, the head's point is never rewritten |
| RingMerge.ShortRingUnchanged | src/optimize.py:129-130 | with fewer than 8 points no round runs `merge_points`: the ring and its length stay |
| RingMerge.MergeRoundsLength | src/optimize.py:129-131 | through every round the count the caller keeps equals the list's length |
| LinkedRing.Node.constructor | src/optimize.py:90-93 | a `LinkedPoint` holds its data and no successor |
| LinkedRing.AppendPoint | src/optimize.py:118-124 | a finished point becomes a fresh last node holding a copy of the buffer; the ring's points grow by that point |
| LinkedRing.MergeWithNext | src/optimize.py:160-162 | `point.data[:] = x, y` writes the midpoint into the node's list, and so into every node sharing that list |
| LinkedRing.Unlink | src/optimize.py:163 | `point.next = point.next.next`: the node keeps its list and skips its successor, which leaves the walk behind; no node's list changes |
| LinkedRing.ScanNodes | src/optimize.py:156-165 | the loop of `merge_points` leaves the heap and count that `RingMerge.ScanFrom` describes, or fails where it does |
| LinkedRing.TieEnd | src/optimize.py:167-169 | `ring_end` keeps its list or takes the head's, and afterwards holds the head's point; when it is the last node and the points differed, the last point becomes the head's and the two share one list |
| LinkedRing.MergePoints | src/optimize.py:155-171 | `merge_points` on the heap leaves a list from the head that holds `MergeRound`'s ring and returns its count; the list is made of old nodes and old list objects; afterwards `ring_end` holds the head's point, linked or not; `ok` is false exactly where Python raises |
| Optimizer.AddPoint | src/optimize.py:116-124 | the ring gains the finished point as its last node, and `ring_length` grows by one |
| Optimizer.MergeRing | src/optimize.py:129-131 | the rounds loop on the linked ring leaves the ring `RingMerge.MergeRounds` computes, or fails where it does |
| Optimizer.MergePass | src/optimize.py:129-131 | one pass of the rounds loop goes one round further into `RingMerge.MergeRounds`, keeping `ring_length` equal to the list's length |
| Optimizer.MergeStep | src/optimize.py:131 | one call of `merge_points` in the rounds loop leaves the ring `RingMerge.MergeRound` computes and returns how many nodes it unlinked |
| Optimizer.PointEnd | src/optimize.py:116-127 | `]` ending a point appends `float(value_buffer)` to the point buffer and the point to the ring, or raises where `float` does |
| Optimizer.FormatRing | src/optimize.py:133-141 | the loop over the nodes yields `[` + comma-joined `[x,y]` + `]`, or fails on a short point |
| Optimizer.EmitRing | src/optimize.py:128-141 | the text written for a finished ring is `Stream.RingText` of the points read |
| Optimizer.Optimizer.constructor | src/optimize.py:26-29 | the shared state starts with no entity, the key `~` and empty buffers |
| Optimizer.Optimizer.IncrementKey | src/optimize.py:73 | `keys[-1] = str(int(keys[-1]) + 1)` as `Stream.NextIndex` states it, failing where the model's `int` (non-empty ASCII digit strings only) fails |
| Optimizer.Optimizer.Quote | src/optimize.py:39-53 | `"` opens a string, or closes it as a key or as a value that may set `geometry_type`, as `Stream.CopyChar` says |
| Optimizer.Optimizer.OpenArray | src/optimize.py:56-64 | `[` pushes the entity it opens and the key `0`, as `Stream.CopyChar` says |
| Optimizer.Optimizer.NextElement | src/optimize.py:70-75 | `,` moves to the next array index or pops an object key, as `Stream.CopyChar` says |
| Optimizer.Optimizer.CopyingBranches | src/optimize.py:39-75 | the branches of `copying_reader` on one character change the state as `Stream.CopyChar` says |
| Optimizer.Optimizer.CopyingStep | src/optimize.py:38-83 | one iteration of the loop reads one character and continues the run exactly as `Stream.RunFrom` does, handing over or staying in `copying_reader` |
| Optimizer.Optimizer.CopyOutput | src/optimize.py:77-83 | the character joins the write buffer unless dropped, and the buffer is flushed at the handover |
| Optimizer.Optimizer.CopyingReader | src/optimize.py:34-85 | `copying_reader` from the current position takes the states `Stream.RunFrom` passes through, and says which reader comes next |
| Optimizer.Optimizer.EndPoint | src/optimize.py:116-127 | `]` ending a point appends `float(value_buffer)` and adds a node holding the point |
| Optimizer.Optimizer.EndRing | src/optimize.py:128-146 | `]` ending a ring writes the write buffer plus the merged ring's text and returns to `copying_reader` |
| Optimizer.Optimizer.ClosingBracket | src/optimize.py:112-146 | `]` in `polygon_reader` pops one entity and one key and ends a point or a ring, as `Stream.PolyStep` says |
| Optimizer.Optimizer.Comma | src/optimize.py:148-153 | `,` ends a coordinate inside a point and increments the index key |
| Optimizer.Optimizer.PolygonBranches | src/optimize.py:104-153 | the branches of `polygon_reader` on one character change the state and the ring as `Stream.PolyStep` says |
| Optimizer.Optimizer.PolygonReader | src/optimize.py:95-153 | `polygon_reader` from the current position takes the states `Stream.RunFrom` passes through |
| Optimizer.Optimizer.PolygonStep | src/optimize.py:103-153 | one iteration of the loop reads one character and continues the run exactly as `Stream.RunFrom` does, with the ring read so far held as a linked list |
| Optimizer.Optimizer.Run | src/optimize.py:197-200 | the reader loop ends with the state `Stream.RunFrom` computes for the whole input, or fails where it does |
| Optimizer.OptimizeText | src/optimize.py:26-200 | the text written to the destination is `Stream.Optimize` of the source text, and `ok` is false exactly where the run raises |
| Region.Buffers.AddVertex | src/main.ts:74-78 | one vertex joins `vertices`, with one normal `(0, 0, 1)` and one colour `(1, 0, 0)` |
| Region.Buffers.AddLayer | src/main.ts:48-50 | the `forEach` adds every point at height `z`, in order |
| Region.Buffers.AddLids | src/main.ts:52-57 | each face is pushed offset to the bottom copy, then offset by `n` more to the top copy |
| Region.Buffers.AddSides | src/main.ts:59-63 | each side triangle is pushed offset by `indexOffset` |
| Region.Buffers.AddShape | src/main.ts:40-64 | `addShape` appends the bottom and top copies and the shape's indices at `indexOffset = vertices.length / 3` |
| Region.AddShapes | src/main.ts:32-33 | the loop over the shapes leaves the buffers of all shapes, in order |
| Region.CreateSideTriangles | src/main.ts:66-72 | `createSideTriangles(n)` is `[i, i + 1, i + n]` for every `i < n` |
| Region.RegionObject.constructor | src/main.ts:16-38 | the position and index buffers of all shapes, with `6 · Σn` entries and as many normals and colours |
| Region.RegionObject.UpdateHeight | src/main.ts:81-90 | the second half of the position array moves by `newHeight − currentHeight` in place |
| Region.AllIndices | src/main.ts:52-63 | the index buffer's length is a multiple of 3 |
| Region.Layer | src/main.ts:48-50 | definition: one copy of the points at height `z`, as flat `x, y, z` |
| Region.LidIndices | src/main.ts:52-57 | definition: each lid face offset to the bottom copy, then to the top copy |
| Region.SideTriangles | src/main.ts:66-72 | definition: `[i, i + 1, i + n]` for every `i < n` |
| Region.ShapeIndices | src/main.ts:52-63 | definition: the indices `addShape` pushes for one shape, lids then sides |
| Region.AllVertices | src/main.ts:32-50 | definition: the position buffer of all shapes, each its bottom copy then its top copy |
| Region.ShiftUpper | src/main.ts:84-87 | definition: the position buffer after `updateHeight`, with the second half moved by `d` and an odd-length buffer unchanged |
| Region.LayerAt | src/main.ts:48-50 | vertex `j` of a copy is point `j` at that copy's height |
| Region.Repeat3At | src/main.ts:74-78 | every normal is `(0, 0, 1)` and every colour `(1, 0, 0)` |
| Region.LidAt | src/main.ts:52-57 | face `i` gives `face + off` then `face + off + n`, with the same winding |
| Region.SideAt | src/main.ts:59-72 | after the lids, side triangle `i` is `[i, i + 1, i + n] + off` |
| Region.SidesNoWrap | src/main.ts:66-72 | the side triangles stay below `2n`; the last one is `[n − 1, n, 2n − 1]` and does not wrap |
| Region.ShapeRange | src/main.ts:52-63 | with faces within the shape's points, every index of a shape lies in `[off, off + 2n)` |
| Region.IndicesInRange | src/main.ts:44-63 | with faces within each shape's points, every index names a vertex of the position buffer |
| Region.IndexCount | src/main.ts:52-63 | the index buffer has `3 · (2 · Σ|lidFaces| + Σn)` entries |
| Region.AllPrefix | src/main.ts:32-33 | the buffers of the first `m` shapes are a prefix of the buffers of all |
| Region.LastShapeLayout | src/main.ts:41-50 | for the last shape, vertex `off + j` is point `j` at z = 0 and vertex `off + n + j` is point `j` at `initialHeight` |
| Region.ShapeLayout | src/main.ts:41-50 | the same for every shape: its points all lie in the buffer, and `off` is the vertex count of the shapes before it |
| Region.ShiftHalves | src/main.ts:84-87 | on an even-length buffer the first half stays and every entry of the second half moves by the difference |
| Region.ShiftTwice | src/main.ts:81-90 | two calls compose into one whose shift is the sum; as `currentHeight` is not updated, calling twice with the same height moves the second half twice as far |
| Region.SingleShapeLift | src/main.ts:81-90 | for one shape the bottom copy stays and each top point moves by `d` in x, y and z |
| Region.TwoShapesLift | src/main.ts:81-90 | for two equal shapes the first top copy keeps its height and the second bottom copy leaves the ground |
| Colour.Round | src/map.ts:33-35 | `Math.round(y)` is the integer in `(y − 0.5, y + 0.5]`: the nearest one, halves rounding up |
| Colour.Gradient | src/map.ts:29-36 | definition: `gradient(c1, c2, x)` with real quotients, `Math.round` per channel and the channels repacked |
| Colour.RoundedColour | src/map.ts:30-35 | one colour's channels, rounded as `gradient` rounds them, give the colour plus its carries |
| Colour.AtZero | src/map.ts:29-36 | `gradient(c1, c2, 0)` is `c1` plus its carries |
| Colour.AtOne | src/map.ts:29-36 | `gradient(c1, c2, 1)` is `c2` plus its carries |
| Colour.AtZeroExact | src/map.ts:29-36 | `gradient(c1, c2, 0) == c1` iff c1's green and blue bytes are both below 128 |
| Colour.SameColour | src/map.ts:29-36 | `gradient(c, c, x)` is `c` plus its carries whatever `x` is, so it is `c` only when the green and blue bytes are below 128 |
| Colour.BlueBetween | src/map.ts:30-35 | for `x` in [0, 1] the blue channel lies between the two blue bytes |
| Colour.BlueByte | src/map.ts:33-35 | for `x` in [0, 1] the low byte of the result is the blue channel |
| Colour.MapColours | src/map.ts:74 | the map's gradient gives `0x202020` at 0 but `0x6cba3a` at 1 |
| Colour.WhiteOverflows | src/map.ts:29-36 | `gradient(0xffffff, c2, 0)` is `0xffffff + 0x10100`, past 24 bits |
| RegionShapes.TracePath | src/map.ts:55-57 | the path loop succeeds iff the ring has a point, and then yields `PathOf(ring)` |
| RegionShapes.RegionPolygons | src/map.ts:89-90 | definition: a `Polygon` wrapped in a list of one, a `MultiPolygon` as it is |
| RegionShapes.BuildShape | src/map.ts:52-68 | the exterior and hole loops succeed iff every ring can be traced, and give `ShapeOf(polygon)` |
| RegionShapes.CreateShapes | src/map.ts:51-71 | the polygon loop gives one shape per polygon, in order, or fails iff some polygon cannot be traced |
| RegionShapes.CreateRegionMesh | src/map.ts:48-74 | the shapes of every polygon and the face colour `gradient(0x202020, 0x6bba3a, dataValue)` |
| RegionShapes.PolygonAsMulti | src/map.ts:89-90 | a `Polygon` geometry gives the same shapes as a `MultiPolygon` holding that one polygon |
| RegionShapes.ShapeCounts | src/map.ts:51-71 | one shape per polygon, each with one hole per later ring; each outline starts at the exterior's first point and ends at its last |
| SceneUpdate.RegionMesh.constructor | src/map.ts:95 | a mesh starts with its id and `dataValue` 0 |
| SceneUpdate.RegionMesh.Update | src/map.ts:181-190 | every non-zero z becomes `v · 20`; zeros, x and y stay; `dataValue` is `v` and the colour is `gradient(0x202020, 0x6bba3a, v)` |
| SceneUpdate.Select | src/map.ts:177 | `data[sceneData][year][month]` raises iff the series or year is missing, and is the table iff all three are present |
| SceneUpdate.Ratio | src/map.ts:182 | definition: `dataSource[id] / dataSource["max"]` |
| SceneUpdate.UpdateAt | src/map.ts:178-195 | one turn of the loop updates the mesh at child `i` and no other |
| SceneUpdate.UpdateScene | src/map.ts:176-196 | with a table, every mesh holds its ratio, its colour and its raised positions; where the code raises, nothing has changed |
| SceneUpdate.UpdateIdempotent | src/map.ts:183-187 | for a ratio other than 0 a second update changes nothing |
| SceneUpdate.RaisedAgain | src/map.ts:183-187 | after a non-zero ratio only the last update's height counts |
| SceneUpdate.FlatStaysFlat | src/map.ts:183-187 | a ratio of 0 grounds every vertex, and no later update lifts it again |
| SceneUpdate.TraceMouseTarget | src/map.ts:155-174 | the selection is the first intersection with a truthy id, or empty when none has one |

## Left out

- File I/O, `os.remove`, the progress bar and the `print` calls of `src/optimize.py`. The source is a string and the destination a string.
- `math.dist(p, q) < merge_max_distance` is a parameter `close`, except that points of different dimension raise a ValueError, as `dist` does. The `%.4f` formatting is a parameter `fmt`.
- `float()` is exact decimal-to-real conversion on the digit-and-dot tokens the reader builds; binary rounding is not modelled. `int()` is modelled only on ASCII digit strings, and every other key raises ValueError here. Non-ASCII digits, which `str.isdigit` accepts, are not modelled.
- Exceptions are one `Crash` outcome with no kind. Where the program raises, the model says only that it raised, not what it had written before.
- The regexes at `src/optimize.py:44,57` are stated as predicates on the joined key path, not as a regex engine.
- Geometry types other than `Polygon`/`MultiPolygon`, and GeoJSON points with fewer than two numbers beyond the IndexError they raise when a ring is written.
- `Region.RegionObject.constructor`, `SceneUpdate.RegionMesh.Update`: the Float32 conversion of position buffers is not modelled; reals are exact. `RegionMesh.Update` writes `v * 20` into a Float32 array, so `SceneUpdate.RaisedAgain` and `SceneUpdate.UpdateIdempotent` assume that a non-zero `v * 20` does not round to 0 there.
- The source text is the text that `open(src_path, encoding="utf-8")` yields at `src/optimize.py:179`. UTF-8 decoding errors are not modelled, and neither is text-mode newline translation (`\r\n` and `\r` read as `\n`), which shows only inside strings.
- `ShapeUtils.triangulateShape`, `Shape.extractPoints(12)`, `ExtrudeGeometry`, the raycaster, the renderer, the lights and the outline pass are library code. Their outputs are inputs: the triangulated faces, the extracted points and the list of intersections.
- The extrusion depth `1 + dataValue * 5` and the `new Mesh` that `createRegionMesh` returns are library calls; the model stops at the shapes and the colour.
- `Math.random()` as the initial `dataValue` and the region-name mapping of `loadRegionsMeshes` are inputs.
- Optimizer.Optimizer.IncrementKey: Python's `int` also accepts surrounding whitespace, a sign, underscores between digits and non-ASCII digits (so a key such as `"-5"` is incremented to `"-4"`); the model's `int` accepts only non-empty ASCII digit strings and raises on the rest. The same holds for `Stream.NextIndex`, `StreamFacts.CommaInArray` and everything built on them.
- Region.Buffers.AddShape: the number of points is one `n` for both copies, the top-lid offset and `createSideTriangles`. The model assumes `ShapeUtils.triangulateShape` leaves the point array it is given as it was; if the library removes a closing point equal to the first from that array, the code reads a shorter length after the call, and the model does not capture that.
- `SceneUpdate.UpdateScene`: each mesh's id must be in the table, together with `"max"`, and the maximum must not be 0. The code divides `undefined` or by zero there, and NaN or Infinity is not modelled.
- `SceneUpdate.RegionMesh.Update`: the colour is the integer passed to `setHex`; the 24-bit masking inside the library is not modelled.
- `updateMouseTarget` and the outline selection are UI; `TraceMouseTarget` returns the selection they receive.
- `src/supplier.ts` is not part of this model: its `sceneData`, `year` and `month` are parameters of `SceneUpdate.Select`.
