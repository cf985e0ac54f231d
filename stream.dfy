/** The GeoJSON optimizer as a pure state machine over the characters of the
    source file. `Machine` holds the state shared by both readers (the
    `entities` and `keys` stacks, `value_buffer`, `write_buffer`, and the text
    written to the destination so far); `Mode` says which reader consumes the
    next character, with that reader's local variables. */
module Stream {
  import opened Text
  import opened KeyPath
  import opened RingMerge

  /** A computation that either finishes or raises a Python exception, which
      aborts the program. */
  datatype Outcome<T> = Ok(value: T) | Crash

  datatype Machine = Machine(entities: seq<Entity>, keys: seq<string>, value: string, write: string, dest: string)

  /** `copying_reader` with its local `geometry_type`, or `polygon_reader` with
      the points of its ring (one per `LinkedPoint`) and its `point_buffer`. */
  datatype Mode = Copying(geometry: Entity) | InPolygon(ring: seq<Pt>, buffer: seq<real>)

  datatype Config = Config(m: Machine, mode: Mode)

  /** `merge_rounds`, the `dist(p, q) < merge_max_distance` test, and the
      `"%.{precision}f"` formatting of one coordinate. */
  datatype Params = Params(rounds: nat, close: Close, fmt: real -> string)

  /** The state before the first character: no entity open, the key `~`. */
  function Init(): Config
  {
    Config(Machine([], ["~"], "", "", ""), Copying(Unknown))
  }

  function Top(es: seq<Entity>): Entity
    requires |es| > 0
  {
    es[|es| - 1]
  }

  function Pop<T>(s: seq<T>): seq<T>
    requires |s| > 0
  {
    s[..|s| - 1]
  }

  /** `keys[-1] = str(int(keys[-1]) + 1)`. */
  function NextIndex(ks: seq<string>): Outcome<seq<string>>
  {
    if |ks| == 0 then Crash
    else match ParseNat(ks[|ks| - 1])
      case None => Crash
      case Some(k) => Ok(Pop(ks) + [FormatNat(k + 1)])
  }

  /** The branches of `copying_reader` for one character, before it decides
      whether to copy the character. */
  function CopyChar(m: Machine, g: Entity, c: char): Outcome<(Machine, Entity)>
  {
    var es := m.entities;
    var ks := m.keys;
    if c == '"' then
      if |es| == 0 then Crash
      else if Top(es) == String then
        var isKey := |ks| < |es|;
        var g' := if !isKey && IsGeometryTypePath(JoinDot(ks)) then
                    if m.value == "Polygon" then Entity.Polygon
                    else if m.value == "MultiPolygon" then MultiPolygon
                    else g
                  else g;
        Ok((m.(entities := Pop(es), keys := if isKey then ks + [m.value] else ks, value := ""), g'))
      else Ok((m.(entities := es + [String]), g))
    else if |es| > 0 && Top(es) == String then
      Ok((m.(value := m.value + [c]), g))
    else if c == '[' then
      if IsCoordinatesPath(JoinDot(ks)) then Ok((m.(entities := es + [g], keys := ks + ["0"]), g))
      else if |es| == 0 then Crash
      else if Top(es) == MultiPolygon then Ok((m.(entities := es + [Entity.Polygon], keys := ks + ["0"]), g))
      else Ok((m.(entities := es + [Array], keys := ks + ["0"]), g))
    else if c == '{' then
      Ok((m.(entities := es + [Map]), g))
    else if c == ']' || c == '}' then
      if |es| == 0 || |ks| == 0 then Crash
      else Ok((m.(entities := Pop(es), keys := Pop(ks)), g))
    else if c == ',' then
      if |es| == 0 || Top(es) == Unknown then Crash
      else if Top(es).ArrayLike() then
        match NextIndex(ks)
        case Crash => Crash
        case Ok(ks') => Ok((m.(keys := ks'), g))
      else if Top(es) == Map then
        if |ks| == 0 then Crash else Ok((m.(keys := Pop(ks)), g))
      else Ok((m, g))
    else Ok((m, g))
  }

  /** Whether `copying_reader` copies the character it just consumed. */
  predicate Copied(m: Machine, c: char)
  {
    m.value != "" || !IsSpace(c)
  }

  /** The end of one character of `copying_reader`: the character is copied
      unless it is whitespace outside a string, and once the top entity is a
      polygon the write buffer is flushed and `polygon_reader` takes over. */
  function CopyOut(m: Machine, g: Entity, c: char): Config
  {
    if Copied(m, c) then
      var m2 := m.(write := m.write + [c]);
      if |m2.entities| > 0 && Top(m2.entities) == Entity.Polygon then
        Config(m2.(dest := m2.dest + m2.write, write := ""), InPolygon([], []))
      else Config(m2, Copying(g))
    else Config(m, Copying(g))
  }

  /** One character of `copying_reader`. */
  function CopyStep(m: Machine, g: Entity, c: char): Outcome<Config>
  {
    match CopyChar(m, g, c)
    case Crash => Crash
    case Ok((m1, g1)) => Ok(CopyOut(m1, g1, c))
  }

  /** `"[x,y]"` for every point, or `None` when a point has fewer than two
      coordinates (an IndexError). */
  function FormatPoints(vs: seq<Pt>, fmt: real -> string): Option<seq<string>>
  {
    if |vs| == 0 then Some([])
    else if |vs[|vs| - 1]| < 2 then None
    else match FormatPoints(vs[..|vs| - 1], fmt)
      case None => None
      case Some(ss) => Some(ss + ["[" + fmt(vs[|vs| - 1][0]) + "," + fmt(vs[|vs| - 1][1]) + "]"])
  }

  /** The rounds of `merge_points` on a freshly read ring. */
  function MergedRing(ring: seq<Pt>, p: Params): Option<seq<Pt>>
  {
    match MergeRounds(InitialRing(ring), |ring|, p.rounds, p.close)
    case None => None
    case Some((r, _)) => Some(r.values)
  }

  /** The text `polygon_reader` writes for a finished ring. */
  function RingText(ring: seq<Pt>, p: Params): Option<string>
  {
    match MergedRing(ring, p)
    case None => None
    case Some(vs) =>
      match FormatPoints(vs, p.fmt)
      case None => None
      case Some(ss) => Some("[" + JoinComma(ss) + "]")
  }

  /** `float(value_buffer)`, appended to the point buffer. */
  function TakeCoordinate(m: Machine, buffer: seq<real>): Outcome<seq<real>>
  {
    match ParseDecimal(m.value)
    case None => Crash
    case Some(f) => Ok(buffer + [f])
  }

  /** One character of `polygon_reader`. Only digits and `.` build a
      coordinate; every other character outside `[`, `]` and `,` is dropped. */
  function PolyStep(m: Machine, ring: seq<Pt>, buffer: seq<real>, c: char, p: Params): Outcome<Config>
  {
    var es := m.entities;
    var ks := m.keys;
    if IsDigit(c) || c == '.' then
      Ok(Config(m.(value := m.value + [c]), InPolygon(ring, buffer)))
    else if c == '[' then
      if |es| == 0 then Crash
      else
        var e := if Top(es) == Entity.Polygon then Ring else Point;
        Ok(Config(m.(entities := es + [e], keys := ks + ["0"]), InPolygon(ring, buffer)))
    else if c == ']' then
      if |es| == 0 || |ks| == 0 then Crash
      else
        var m1 := m.(entities := Pop(es), keys := Pop(ks));
        if Top(es) == Point then
          match TakeCoordinate(m, buffer)
          case Crash => Crash
          case Ok(pt) => Ok(Config(m1.(value := ""), InPolygon(ring + [pt], [])))
        else if Top(es) == Ring then
          match RingText(ring, p)
          case None => Crash
          case Some(text) => Ok(Config(m1.(dest := m1.dest + m1.write + text, write := ""), Copying(Unknown)))
        else Ok(Config(m1, InPolygon(ring, buffer)))
    else if c == ',' then
      if |es| == 0 then Crash
      else
        var taken := if Top(es) == Point then TakeCoordinate(m, buffer) else Ok(buffer);
        match taken
        case Crash => Crash
        case Ok(buffer') =>
          match NextIndex(ks)
          case Crash => Crash
          case Ok(ks') =>
            Ok(Config(m.(keys := ks', value := if Top(es) == Point then "" else m.value), InPolygon(ring, buffer')))
    else Ok(Config(m, InPolygon(ring, buffer)))
  }

  /** One character of whichever reader is active; the reader a step returns
      is the one that reads the next character. */
  function Step(cfg: Config, c: char, p: Params): Outcome<Config>
  {
    match cfg.mode
    case Copying(g) => CopyStep(cfg.m, g, c)
    case InPolygon(ring, buffer) => PolyStep(cfg.m, ring, buffer, c, p)
  }

  /** End of input: `copying_reader` writes its write buffer (without clearing
      it); `polygon_reader` returns without writing. */
  function Finish(cfg: Config): Machine
  {
    if cfg.mode.Copying? then cfg.m.(dest := cfg.m.dest + cfg.m.write) else cfg.m
  }

  /** The readers' loop from character `i` to the end of the input. */
  function RunFrom(input: string, i: nat, cfg: Config, p: Params): Outcome<Machine>
    decreases |input| - i
  {
    if i >= |input| then Ok(Finish(cfg))
    else match Step(cfg, input[i], p)
      case Crash => Crash
      case Ok(cfg') => RunFrom(input, i + 1, cfg', p)
  }

  /** The destination file written for `input`, or `Crash`. */
  function Optimize(input: string, p: Params): Outcome<string>
  {
    match RunFrom(input, 0, Init(), p)
    case Crash => Crash
    case Ok(m) => Ok(m.dest)
  }

  /** The steps over a stretch of input, without the end-of-input flush. */
  function Steps(cfg: Config, s: string, p: Params): Outcome<Config>
    decreases |s|
  {
    if s == [] then Ok(cfg)
    else match Step(cfg, s[0], p)
      case Crash => Crash
      case Ok(cfg') => Steps(cfg', s[1..], p)
  }
}
