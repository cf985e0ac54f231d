/** `optimize` as the program it is: an object whose fields are the variables
    the nested readers share (`entities`, `keys`, `value_buffer`,
    `write_buffer`), the source text with its read position, and the text
    written to the destination file. Each reader is proved to do what
    `Stream.RunFrom` describes, so the whole run writes `Stream.Optimize`. */
module Optimizer {
  import opened Text
  import opened KeyPath
  import opened RingMerge
  import opened LinkedRing
  import opened Stream
  import opened StreamFacts

  /** What a reader returns: the reader to call next, or `None` at the end of
      the input. */
  datatype Handover = ToCopying | ToPolygon | Done

  /** The configuration the main loop resumes in after a handover: a reader is
      called afresh, so its local variables start over. */
  function Resume(h: Handover, m: Machine): Config
  {
    if h == ToPolygon then Config(m, InPolygon([], [])) else Config(m, Copying(Unknown))
  }

  /** `]` closing a point in `polygon_reader`: the point, with its last
      coordinate, joins the ring. */
  lemma PointEnd(m: Machine, ring: seq<Pt>, buffer: seq<real>, p: Params)
    requires |m.entities| > 0 && |m.keys| > 0 && Top(m.entities) == Point
    ensures PolyStep(m, ring, buffer, ']', p)
      == match ParseDecimal(m.value)
         case None => Crash
         case Some(f) => Ok(Config(m.(entities := Pop(m.entities), keys := Pop(m.keys), value := ""),
                                  InPolygon(ring + [buffer + [f]], [])))
  {
  }

  /** A finished point joins the ring, which grows by one node. */
  method AddPoint(ringStart: Node?, ringEnd: Node?, ringLength: int, point: seq<real>, ghost spine: seq<Node>,
                  ghost ring: seq<Pt>)
    returns (start: Node, end: Node, length: int, ghost spine': seq<Node>)
    requires RingHeld(spine, ringStart, ringEnd) && ringLength == |spine| && ring == Values(spine)
    modifies ringEnd
    ensures RingHeld(spine', start, end) && length == |spine'| && Values(spine') == ring + [point]
    ensures forall k :: 0 <= k < |spine'| ==>
      (k < |spine| && spine'[k] == spine[k] && spine'[k].data == old(spine[k].data))
      || (fresh(spine'[k]) && fresh(spine'[k].data))
  {
    start, end, spine' := AppendPoint(ringStart, ringEnd, point, spine);
    length := ringLength + 1;
  }

  /** The ring branch of `polygon_reader`: the merge rounds on the linked
      ring, then the `[x,y]` text of every node from the head. */
  method EmitRing(ringStart: Node?, ringEnd: Node?, ringLength: int, p: Params, ghost spine: seq<Node>)
    returns (ok: bool, text: string)
    requires RingHeld(spine, ringStart, ringEnd) && ringLength == |spine|
    modifies spine, Datas(spine)
    ensures RingText(old(Values(spine)), p) == if ok then Some(text) else None
  {
    ghost var cur, r;
    ok, cur, r := MergeRing(ringStart, ringEnd, ringLength, p, spine);
    if !ok {
      return false, "";
    }
    ok, text := FormatRing(ringStart, p, cur, r.values);
  }

  /** `for _ in range(merge_rounds)`: `merge_points` on rings of at least
      eight points, with `ring_length` lowered by the merged count. */
  method MergeRing(ringStart: Node?, ringEnd: Node?, ringLength: int, p: Params, ghost spine: seq<Node>)
    returns (ok: bool, ghost cur: seq<Node>, ghost r: RingState)
    requires RingHeld(spine, ringStart, ringEnd) && ringLength == |spine|
    modifies spine, Datas(spine)
    ensures var merged := RingMerge.MergeRounds(InitialRing(old(Values(spine))), |spine|, p.rounds, p.close);
      if ok then merged.Some? && merged.value.0 == r else merged.None?
    ensures ok ==> |cur| == |r.values|
    ensures ok ==> |cur| == 0 ==> ringStart == null
    ensures ok ==> |cur| > 0 ==> cur[0] == ringStart && Holds(cur, r, ringEnd)
  {
    ghost var ring := Values(spine);
    ghost var ds := Datas(spine);
    r := InitialRing(ring);
    cur := spine;
    var length := ringLength;
    var round := 0;
    while round < p.rounds
      invariant round <= p.rounds
      invariant length == |r.values| == |cur|
      invariant |cur| == 0 ==> ringStart == null
      invariant |cur| > 0 ==> cur[0] == ringStart && ringEnd != null && Holds(cur, r, ringEnd) && ringEnd in spine
      invariant forall k :: 0 <= k < |cur| ==> cur[k] in spine && cur[k].data in ds
      invariant RingMerge.MergeRounds(InitialRing(ring), |ring|, p.rounds, p.close)
        == RingMerge.MergeRounds(r, length, p.rounds - round, p.close)
    {
      ok, length, cur, r := MergePass(ringStart, ringEnd, length, p.close, p.rounds - round, cur, r, spine, ds);
      if !ok {
        return false, [], r;
      }
      round := round + 1;
    }
    ok := true;
  }

  /** One pass of the rounds loop: `merge_points` when the ring still has at
      least eight points, nothing otherwise. */
  method MergePass(ringStart: Node?, ringEnd: Node?, length: int, close: Close, ghost rounds: nat,
                   ghost cur: seq<Node>, ghost r: RingState, ghost spine: seq<Node>, ghost ds: set<Coords>)
    returns (ok: bool, length': int, ghost cur': seq<Node>, ghost r': RingState)
    requires rounds > 0 && length == |r.values| == |cur|
    requires |cur| == 0 ==> ringStart == null
    requires |cur| > 0 ==> cur[0] == ringStart && ringEnd != null && Holds(cur, r, ringEnd) && ringEnd in spine
    requires forall k :: 0 <= k < |cur| ==> cur[k] in spine && cur[k].data in ds
    modifies spine, ds
    ensures RingMerge.MergeRounds(r, length, rounds, close)
      == if ok then RingMerge.MergeRounds(r', length', rounds - 1, close) else None
    ensures ok ==> length' == |r'.values| == |cur'|
    ensures ok ==> |cur'| == 0 ==> ringStart == null
    ensures ok ==> |cur'| > 0 ==> cur'[0] == ringStart && ringEnd != null && Holds(cur', r', ringEnd) && ringEnd in spine
    ensures ok ==> forall k :: 0 <= k < |cur'| ==> cur'[k] in spine && cur'[k].data in ds
  {
    ok, length', cur', r' := true, length, cur, r;
    if length >= 8 {
      var merged;
      ok, merged, cur' := MergeStep(ringStart, ringEnd, close, cur, r, spine, ds);
      if ok {
        r' := RingMerge.MergeRound(r, close).value.0;
        length' := length - merged;
      }
    }
  }

  /** One call of `merge_points` inside the rounds loop, on a ring whose nodes
      and lists belong to `spine` and `ds`. */
  method MergeStep(ringStart: Node?, ringEnd: Node?, close: Close, ghost cur: seq<Node>, ghost r: RingState,
                   ghost spine: seq<Node>, ghost ds: set<Coords>)
    returns (ok: bool, merged: int, ghost next: seq<Node>)
    requires ringEnd != null && |cur| >= 8 && cur[0] == ringStart && Holds(cur, r, ringEnd)
    requires forall k :: 0 <= k < |cur| ==> cur[k] in spine && cur[k].data in ds
    requires ringEnd in spine
    modifies spine, ds
    ensures !ok ==> MergeRound(r, close).None?
    ensures ok ==> MergeRound(r, close).Some? && |MergeRound(r, close).value.0.values| == |r.values| - merged
    ensures ok ==> |next| == |MergeRound(r, close).value.0.values| && |next| >= 1 && next[0] == ringStart
    ensures ok ==> Holds(next, MergeRound(r, close).value.0, ringEnd)
    ensures ok ==> forall k :: 0 <= k < |next| ==> next[k] in spine && next[k].data in ds
  {
    ok, merged, next := MergePoints(ringStart, ringEnd, close, cur, r);
    if ok {
      MergeRoundFacts(r, close);
    }
  }

  /** The serialising loop of `polygon_reader`: `"[x,y]"` for each node from
      the head, joined by commas; `ok` is false where a point has fewer than
      two coordinates and Python raises. */
  method FormatRing(ringStart: Node?, p: Params, ghost cur: seq<Node>, ghost vs: seq<Pt>) returns (ok: bool, text: string)
    requires Chain(cur) && Values(cur) == vs
    requires if |cur| == 0 then ringStart == null else ringStart == cur[0]
    ensures if ok then FormatPoints(vs, p.fmt).Some? && text == "[" + JoinComma(FormatPoints(vs, p.fmt).value) + "]"
            else FormatPoints(vs, p.fmt).None?
  {
    var point := ringStart;
    var points: seq<string> := [];
    ghost var i := 0;
    while point != null
      invariant i <= |cur|
      invariant point == if i < |cur| then cur[i] else null
      invariant FormatPoints(vs[..i], p.fmt) == Some(points)
      decreases |cur| - i
    {
      assert point.data.vals == vs[i];
      assert vs[..i + 1][..i] == vs[..i];
      if |point.data.vals| < 2 {
        FormatPointsPrefix(vs, i + 1, p.fmt);
        return false, "";
      }
      var x := p.fmt(point.data.vals[0]);
      var y := p.fmt(point.data.vals[1]);
      points := points + ["[" + x + "," + y + "]"];
      point := point.next;
      i := i + 1;
    }
    assert vs[..i] == vs;
    text := "[" + JoinComma(points) + "]";
    ok := true;
  }

  class Optimizer {
    const src: string
    const params: Params
    var pos: nat
    var entities: seq<Entity>
    var keys: seq<string>
    var valueBuffer: string
    var writeBuffer: string
    var dest: string

    /** The state the two readers share. */
    function State(): Machine
      reads this
    {
      Machine(entities, keys, valueBuffer, writeBuffer, dest)
    }

    constructor (input: string, p: Params)
      ensures src == input && params == p && pos == 0 && State() == Init().m
    {
      src := input;
      params := p;
      pos := 0;
      entities := [];
      keys := ["~"];
      valueBuffer := "";
      writeBuffer := "";
      dest := "";
    }

    /** `keys[-1] = str(int(keys[-1]) + 1)`; `ok` is false where Python raises. */
    method IncrementKey() returns (ok: bool)
      modifies this`keys
      ensures NextIndex(old(keys)) == if ok then Ok(keys) else Crash
    {
      if |keys| == 0 {
        return false;
      }
      var k := ParseNat(keys[|keys| - 1]);
      if k.None? {
        return false;
      }
      keys := keys[..|keys| - 1] + [FormatNat(k.value + 1)];
      ok := true;
    }

    /** The branches of `copying_reader` on one character, with its local
        `geometry_type` passed in and out. */
    method CopyingBranches(c: char, g: Entity) returns (ok: bool, g': Entity)
      modifies this`entities, this`keys, this`valueBuffer
      ensures CopyChar(old(State()), g, c) == if ok then Ok((State(), g')) else Crash
    {
      ok, g' := true, g;
      if c == '"' {
        ok, g' := Quote(g);
      } else if |entities| > 0 && entities[|entities| - 1] == String {
        valueBuffer := valueBuffer + [c];
      } else if c == '[' {
        ok := OpenArray(g);
      } else if c == '{' {
        entities := entities + [Map];
      } else if c == ']' || c == '}' {
        if |entities| == 0 || |keys| == 0 {
          return false, g;
        }
        entities := entities[..|entities| - 1];
        keys := keys[..|keys| - 1];
      } else if c == ',' {
        ok := NextElement();
      }
    }

    /** A `"` opens a string, or closes one: a key when the key path is
        shorter than the entity stack, otherwise a value that may set
        `geometry_type`. */
    method Quote(g: Entity) returns (ok: bool, g': Entity)
      modifies this`entities, this`keys, this`valueBuffer
      ensures CopyChar(old(State()), g, '"') == if ok then Ok((State(), g')) else Crash
    {
      ok, g' := true, g;
      if |entities| == 0 {
        return false, g;
      }
      if entities[|entities| - 1] == String {
        if |keys| < |entities| {
          keys := keys + [valueBuffer];
        } else if IsGeometryTypePath(JoinDot(keys)) {
          if valueBuffer == "Polygon" {
            g' := Entity.Polygon;
          } else if valueBuffer == "MultiPolygon" {
            g' := MultiPolygon;
          }
        }
        valueBuffer := "";
        entities := entities[..|entities| - 1];
      } else {
        entities := entities + [String];
      }
    }

    /** A `[` outside a string pushes the entity it opens and the key `0`. */
    method OpenArray(g: Entity) returns (ok: bool)
      requires |entities| == 0 || entities[|entities| - 1] != String
      modifies this`entities, this`keys
      ensures CopyChar(old(State()), g, '[') == if ok then Ok((State(), g)) else Crash
    {
      if IsCoordinatesPath(JoinDot(keys)) {
        entities := entities + [g];
      } else if |entities| == 0 {
        return false;
      } else if entities[|entities| - 1] == MultiPolygon {
        entities := entities + [Entity.Polygon];
      } else {
        entities := entities + [Array];
      }
      keys := keys + ["0"];
      ok := true;
    }

    /** A `,` outside a string moves to the next element of an array or the
        next member of an object. */
    method NextElement() returns (ok: bool)
      requires |entities| == 0 || entities[|entities| - 1] != String
      modifies this`keys
      ensures forall g :: CopyChar(old(State()), g, ',') == if ok then Ok((State(), g)) else Crash
    {
      if |entities| == 0 || entities[|entities| - 1] == Unknown {
        return false;
      }
      ok := true;
      if entities[|entities| - 1].ArrayLike() {
        ok := IncrementKey();
      } else if entities[|entities| - 1] == Map {
        if |keys| == 0 {
          return false;
        }
        keys := keys[..|keys| - 1];
      }
    }

    /** `copying_reader` from the current position. `ok` is false where Python
        raises; otherwise the reader returned and the state it resumes in
        are the ones `RunFrom` passes through. */
    method CopyingReader() returns (ok: bool, next: Handover)
      requires pos <= |src|
      modifies this
      ensures pos <= |src| && (ok && next != Done ==> old(pos) < pos) && (ok && next == Done ==> pos == |src|)
      ensures RunFrom(src, old(pos), Config(old(State()), Copying(Unknown)), params)
        == if !ok then Crash else if next == Done then Ok(State()) else RunFrom(src, pos, Resume(next, State()), params)
    {
      var g := Unknown;
      while pos < |src|
        invariant old(pos) <= pos <= |src|
        invariant RunFrom(src, old(pos), Config(old(State()), Copying(Unknown)), params)
          == RunFrom(src, pos, Config(State(), Copying(g)), params)
        decreases |src| - pos
      {
        var handed;
        ok, handed, g := CopyingStep(g);
        if !ok {
          return false, Done;
        }
        if handed {
          return true, ToPolygon;
        }
      }
      dest := dest + writeBuffer;
      return true, Done;
    }

    /** One iteration of `copying_reader`'s loop: read a character, take its
        branch, copy it unless it is dropped whitespace, and hand over once
        the top entity is a polygon. */
    method CopyingStep(g: Entity) returns (ok: bool, handed: bool, g': Entity)
      requires pos < |src|
      modifies this`pos, this`entities, this`keys, this`valueBuffer, this`writeBuffer, this`dest
      ensures pos == old(pos) + 1
      ensures RunFrom(src, old(pos), Config(old(State()), Copying(g)), params)
        == if !ok then Crash
           else if handed then RunFrom(src, pos, Config(State(), InPolygon([], [])), params)
           else RunFrom(src, pos, Config(State(), Copying(g')), params)
    {
      var c := src[pos];
      ghost var before := State();
      RunFromStep(src, pos, Config(before, Copying(g)), params);
      pos := pos + 1;
      handed := false;
      ok, g' := CopyingBranches(c, g);
      if !ok {
        return;
      }
      handed := CopyOutput(c, g');
    }

    /** The end of one iteration of `copying_reader`: copy the character
        unless it is dropped whitespace, and flush and hand over once the top
        entity is a polygon. */
    method CopyOutput(c: char, ghost g: Entity) returns (handed: bool)
      modifies this`writeBuffer, this`dest
      ensures CopyOut(old(State()), g, c) == Config(State(), if handed then InPolygon([], []) else Copying(g))
    {
      handed := false;
      if valueBuffer != "" || !IsSpace(c) {
        writeBuffer := writeBuffer + [c];
        if |entities| > 0 && entities[|entities| - 1] == Entity.Polygon {
          dest := dest + writeBuffer;
          writeBuffer := "";
          handed := true;
        }
      }
    }

    /** The branches of `polygon_reader` on one character, with its locals
        `ring_start`, `ring_end`, `ring_length` and `point_buffer` passed in
        and out; `m0` and `ring` are the state and ring they start from.
        `closed` says that a ring was written and the reader returns. */
    method PolygonBranches(c: char, ringStart: Node?, ringEnd: Node?, ringLength: int, pointBuffer: seq<real>,
                           ghost spine: seq<Node>, ghost m0: Machine, ghost ring: seq<Pt>)
      returns (ok: bool, closed: bool, start: Node?, end: Node?, length: int, buffer: seq<real>, ghost spine': seq<Node>)
      requires RingHeld(spine, ringStart, ringEnd) && ringLength == |spine|
      requires m0 == State() && ring == Values(spine)
      modifies this`entities, this`keys, this`valueBuffer, this`writeBuffer, this`dest, spine, Datas(spine)
      ensures Step(Config(m0, InPolygon(ring, pointBuffer)), c, params)
        == if !ok then Crash
           else if closed then Ok(Config(State(), Copying(Unknown)))
           else Ok(Config(State(), InPolygon(Values(spine'), buffer)))
      ensures ok && !closed ==> RingHeld(spine', start, end) && length == |spine'|
      ensures ok && !closed ==> forall k :: 0 <= k < |spine'| ==>
        (k < |spine| && spine'[k] == spine[k] && spine'[k].data == old(spine[k].data))
        || (fresh(spine'[k]) && fresh(spine'[k].data))
    {
      ok, closed, start, end, length, buffer, spine' := true, false, ringStart, ringEnd, ringLength, pointBuffer, spine;
      if IsDigit(c) || c == '.' {
        valueBuffer := valueBuffer + [c];
      } else if c == '[' {
        if |entities| == 0 {
          return false, false, start, end, length, buffer, spine';
        }
        if entities[|entities| - 1] == Entity.Polygon {
          entities := entities + [Ring];
        } else {
          entities := entities + [Point];
        }
        keys := keys + ["0"];
      } else if c == ']' {
        ok, closed, start, end, length, buffer, spine' :=
          ClosingBracket(ringStart, ringEnd, ringLength, pointBuffer, spine, m0, ring);
      } else if c == ',' {
        ok, buffer := Comma(pointBuffer, m0, ring);
      }
    }

    /** `]` in `polygon_reader`: a finished point joins the ring; a finished
        ring is merged and written. */
    method ClosingBracket(ringStart: Node?, ringEnd: Node?, ringLength: int, pointBuffer: seq<real>,
                          ghost spine: seq<Node>, ghost m0: Machine, ghost ring: seq<Pt>)
      returns (ok: bool, closed: bool, start: Node?, end: Node?, length: int, buffer: seq<real>, ghost spine': seq<Node>)
      requires RingHeld(spine, ringStart, ringEnd) && ringLength == |spine|
      requires m0 == State() && ring == Values(spine)
      modifies this`entities, this`keys, this`valueBuffer, this`writeBuffer, this`dest, spine, Datas(spine)
      ensures PolyStep(m0, ring, pointBuffer, ']', params)
        == if !ok then Crash
           else if closed then Ok(Config(State(), Copying(Unknown)))
           else Ok(Config(State(), InPolygon(Values(spine'), buffer)))
      ensures ok && !closed ==> RingHeld(spine', start, end) && length == |spine'|
      ensures ok && !closed ==> forall k :: 0 <= k < |spine'| ==>
        (k < |spine| && spine'[k] == spine[k] && spine'[k].data == old(spine[k].data))
        || (fresh(spine'[k]) && fresh(spine'[k].data))
    {
      ok, closed, start, end, length, buffer, spine' := true, false, ringStart, ringEnd, ringLength, pointBuffer, spine;
      if |entities| == 0 || |keys| == 0 {
        return false, false, start, end, length, buffer, spine';
      }
      var ended := entities[|entities| - 1];
      entities := entities[..|entities| - 1];
      keys := keys[..|keys| - 1];
      if ended == Point {
        ok, start, end, length, spine' := EndPoint(ringStart, ringEnd, ringLength, pointBuffer, spine, m0, ring);
        buffer := [];
      } else if ended == Ring {
        ok := EndRing(ringStart, ringEnd, ringLength, pointBuffer, spine, m0, ring);
        closed := ok;
      } else {
        assert PolyStep(m0, ring, pointBuffer, ']', params) == Ok(Config(State(), InPolygon(Values(spine'), buffer)));
      }
    }

    /** The end of a point in `polygon_reader`: its last coordinate joins the
        point buffer, and a node holding a copy of the buffer joins the ring. */
    method EndPoint(ringStart: Node?, ringEnd: Node?, ringLength: int, pointBuffer: seq<real>, ghost spine: seq<Node>,
                    ghost m0: Machine, ghost ring: seq<Pt>)
      returns (ok: bool, start: Node?, end: Node?, length: int, ghost spine': seq<Node>)
      requires RingHeld(spine, ringStart, ringEnd) && ringLength == |spine| && ring == Values(spine)
      requires |m0.entities| > 0 && |m0.keys| > 0 && Top(m0.entities) == Point
      requires State() == m0.(entities := Pop(m0.entities), keys := Pop(m0.keys))
      modifies this`valueBuffer, ringEnd
      ensures PolyStep(m0, ring, pointBuffer, ']', params)
        == if ok then Ok(Config(State(), InPolygon(Values(spine'), []))) else Crash
      ensures ok ==> RingHeld(spine', start, end) && length == |spine'|
      ensures ok ==> forall k :: 0 <= k < |spine'| ==>
        (k < |spine| && spine'[k] == spine[k] && spine'[k].data == old(spine[k].data))
        || (fresh(spine'[k]) && fresh(spine'[k].data))
    {
      var f := ParseDecimal(valueBuffer);
      if f.None? {
        return false, ringStart, ringEnd, ringLength, spine;
      }
      var point := pointBuffer + [f.value];
      PointEnd(m0, ring, pointBuffer, params);
      valueBuffer := "";
      start, end, length, spine' := AddPoint(ringStart, ringEnd, ringLength, point, spine, ring);
      ok := true;
    }

    /** The end of a ring in `polygon_reader`: the merged ring's text is
        appended to the write buffer, which is written out. */
    method EndRing(ringStart: Node?, ringEnd: Node?, ringLength: int, pointBuffer: seq<real>, ghost spine: seq<Node>,
                   ghost m0: Machine, ghost ring: seq<Pt>)
      returns (ok: bool)
      requires RingHeld(spine, ringStart, ringEnd) && ringLength == |spine| && ring == Values(spine)
      requires |m0.entities| > 0 && |m0.keys| > 0 && Top(m0.entities) == Ring
      requires State() == m0.(entities := Pop(m0.entities), keys := Pop(m0.keys))
      modifies this`writeBuffer, this`dest, spine, Datas(spine)
      ensures PolyStep(m0, ring, pointBuffer, ']', params)
        == if ok then Ok(Config(State(), Copying(Unknown))) else Crash
    {
      var text;
      ok, text := EmitRing(ringStart, ringEnd, ringLength, params, spine);
      if !ok {
        return;
      }
      ghost var written := dest + writeBuffer + text;
      writeBuffer := writeBuffer + text;
      dest := dest + writeBuffer;
      assert dest == written;
      writeBuffer := "";
    }

    /** `,` in `polygon_reader`: a coordinate ends inside a point, and the
        index key moves on. */
    method Comma(pointBuffer: seq<real>, ghost m0: Machine, ghost ring: seq<Pt>) returns (ok: bool, buffer: seq<real>)
      requires m0 == State()
      modifies this`keys, this`valueBuffer
      ensures PolyStep(m0, ring, pointBuffer, ',', params)
        == if ok then Ok(Config(State(), InPolygon(ring, buffer))) else Crash
    {
      buffer := pointBuffer;
      if |entities| == 0 {
        return false, buffer;
      }
      if entities[|entities| - 1] == Point {
        var f := ParseDecimal(valueBuffer);
        if f.None? {
          return false, buffer;
        }
        buffer := buffer + [f.value];
        valueBuffer := "";
      }
      ok := IncrementKey();
    }

    /** `polygon_reader` from the current position, with the ring it reads
        held as a linked list of fresh nodes. */
    method PolygonReader() returns (ok: bool, next: Handover)
      requires pos <= |src|
      modifies this
      ensures pos <= |src| && (ok && next != Done ==> old(pos) < pos) && (ok && next == Done ==> pos == |src|)
      ensures RunFrom(src, old(pos), Config(old(State()), InPolygon([], [])), params)
        == if !ok then Crash else if next == Done then Ok(State()) else RunFrom(src, pos, Resume(next, State()), params)
    {
      var ringStart: Node? := null;
      var ringEnd: Node? := null;
      var ringLength := 0;
      var pointBuffer: seq<real> := [];
      ghost var spine: seq<Node> := [];
      while pos < |src|
        invariant old(pos) <= pos <= |src|
        invariant RingHeld(spine, ringStart, ringEnd) && ringLength == |spine|
        invariant forall k :: 0 <= k < |spine| ==> fresh(spine[k]) && fresh(spine[k].data)
        invariant RunFrom(src, old(pos), Config(old(State()), InPolygon([], [])), params)
          == RunFrom(src, pos, Config(State(), InPolygon(Values(spine), pointBuffer)), params)
        decreases |src| - pos
      {
        var closed;
        ok, closed, ringStart, ringEnd, ringLength, pointBuffer, spine :=
          PolygonStep(ringStart, ringEnd, ringLength, pointBuffer, spine);
        if !ok {
          return false, Done;
        }
        if closed {
          return true, ToCopying;
        }
      }
      return true, Done;
    }

    /** One iteration of `polygon_reader`'s loop: read a character and take
        its branch. */
    method PolygonStep(ringStart: Node?, ringEnd: Node?, ringLength: int, pointBuffer: seq<real>, ghost spine: seq<Node>)
      returns (ok: bool, closed: bool, start: Node?, end: Node?, length: int, buffer: seq<real>, ghost spine': seq<Node>)
      requires pos < |src| && RingHeld(spine, ringStart, ringEnd) && ringLength == |spine|
      modifies this`pos, this`entities, this`keys, this`valueBuffer, this`writeBuffer, this`dest, spine, Datas(spine)
      ensures pos == old(pos) + 1
      ensures RunFrom(src, old(pos), Config(old(State()), InPolygon(old(Values(spine)), pointBuffer)), params)
        == if !ok then Crash
           else if closed then RunFrom(src, pos, Config(State(), Copying(Unknown)), params)
           else RunFrom(src, pos, Config(State(), InPolygon(Values(spine'), buffer)), params)
      ensures ok && !closed ==> RingHeld(spine', start, end) && length == |spine'|
      ensures ok && !closed ==> forall k :: 0 <= k < |spine'| ==>
        (k < |spine| && spine'[k] == spine[k] && spine'[k].data == old(spine[k].data))
        || (fresh(spine'[k]) && fresh(spine'[k].data))
    {
      var c := src[pos];
      ghost var before := State();
      ghost var ring := Values(spine);
      RunFromStep(src, pos, Config(before, InPolygon(ring, pointBuffer)), params);
      pos := pos + 1;
      ok, closed, start, end, length, buffer, spine' :=
        PolygonBranches(c, ringStart, ringEnd, ringLength, pointBuffer, spine, before, ring);
    }

    /** The main loop: call the current reader until one returns `None`. */
    method Run() returns (ok: bool)
      requires pos <= |src|
      modifies this
      ensures RunFrom(src, old(pos), Config(old(State()), Copying(Unknown)), params) == if ok then Ok(State()) else Crash
    {
      var reader := ToCopying;
      while true
        invariant pos <= |src| && reader != Done
        invariant RunFrom(src, old(pos), Config(old(State()), Copying(Unknown)), params)
          == RunFrom(src, pos, Resume(reader, State()), params)
        decreases |src| - pos
      {
        var next;
        if reader == ToCopying {
          ok, next := CopyingReader();
        } else {
          ok, next := PolygonReader();
        }
        if !ok || next == Done {
          return;
        }
        reader := next;
      }
    }
  }

  /** `optimize` on the text of the source file: what it writes to the
      destination file, or `ok == false` where it raises. */
  method OptimizeText(input: string, p: Params) returns (ok: bool, output: string)
    ensures Optimize(input, p) == if ok then Ok(output) else Crash
  {
    var o := new Optimizer(input, p);
    ok := o.Run();
    output := o.dest;
  }
}
