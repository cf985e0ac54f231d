/** What the optimizer's readers promise: how the key path is tracked, which
    characters are copied, when control passes between the readers and what
    a finished ring writes. */
module StreamFacts {
  import opened Text
  import opened KeyPath
  import opened RingMerge
  import opened Stream

  /** The text written so far, counting what still waits in the write buffer. */
  function Out(m: Machine): string
  {
    m.dest + m.write
  }

  /** The values `geometry_type` takes: `None`, POLYGON or MULTI_POLYGON. */
  predicate GeometryType(g: Entity)
  {
    g == Unknown || g == Entity.Polygon || g == MultiPolygon
  }

  predicate OutsideString(m: Machine)
  {
    |m.entities| == 0 || Top(m.entities) != String
  }

  /** `copying_reader`'s branches over a stretch of input. */
  function CopyChars(m: Machine, g: Entity, s: string): Outcome<(Machine, Entity)>
    decreases |s|
  {
    if s == [] then Ok((m, g))
    else match CopyChar(m, g, s[0])
      case Crash => Crash
      case Ok((m', g')) => CopyChars(m', g', s[1..])
  }

  /** Characters that open or close a string, an array or an object. */
  predicate Structural(c: char)
  {
    c == '"' || c == '[' || c == ']' || c == '{' || c == '}'
  }

  function CountChar(s: string, c: char): nat
  {
    if s == [] then 0 else (if s[0] == c then 1 else 0) + CountChar(s[1..], c)
  }

  /** The characters of `s` that are not whitespace, in order. */
  function NonSpace(s: string): string
  {
    if s == [] then "" else (if IsSpace(s[0]) then "" else [s[0]]) + NonSpace(s[1..])
  }

  /** `geometry_type` only ever becomes POLYGON or MULTI_POLYGON. */
  lemma GeometryTypeKept(m: Machine, g: Entity, c: char)
    requires GeometryType(g) && CopyChar(m, g, c).Ok?
    ensures GeometryType(CopyChar(m, g, c).value.1)
  {
  }

  /** `[` pushes one entity and the key `"0"`. At a coordinates path the
      entity is the geometry type; it is `None` exactly there when no type was
      read, and array-like otherwise. */
  lemma OpenBracket(m: Machine, g: Entity)
    requires GeometryType(g) && OutsideString(m) && CopyChar(m, g, '[').Ok?
    ensures var (m', g') := CopyChar(m, g, '[').value;
      g' == g && m'.keys == m.keys + ["0"] && m'.value == m.value
      && |m'.entities| == |m.entities| + 1 && m'.entities[..|m.entities|] == m.entities
      && (IsCoordinatesPath(JoinDot(m.keys)) ==> Top(m'.entities) == g)
      && (Top(m'.entities) == Unknown <==> g == Unknown && IsCoordinatesPath(JoinDot(m.keys)))
      && (Top(m'.entities) != Unknown ==> Top(m'.entities).ArrayLike())
  {
    var (m', g') := CopyChar(m, g, '[').value;
    assert m'.entities[..|m.entities|] == m.entities;
  }

  /** `]` and `}` pop one entity and one key. */
  lemma CloseBracket(m: Machine, g: Entity, c: char)
    requires c == ']' || c == '}'
    requires OutsideString(m) && CopyChar(m, g, c).Ok?
    ensures var (m', g') := CopyChar(m, g, c).value;
      |m.entities| > 0 && |m.keys| > 0
      && m'.entities == m.entities[..|m.entities| - 1] && m'.keys == m.keys[..|m.keys| - 1]
  {
  }

  /** A string that closes while there are fewer keys than entities becomes
      the key of the value that follows. */
  lemma ClosingStringIsKey(m: Machine, g: Entity)
    requires |m.entities| > 0 && Top(m.entities) == String && |m.keys| < |m.entities|
    ensures CopyChar(m, g, '"') == Ok((m.(entities := Pop(m.entities), keys := m.keys + [m.value], value := ""), g))
  {
  }

  /** `,` inside an object drops the key of the member that ended. */
  lemma CommaInMap(m: Machine, g: Entity)
    requires |m.entities| > 0 && Top(m.entities) == Map && |m.keys| > 0
    ensures CopyChar(m, g, ',') == Ok((m.(keys := Pop(m.keys)), g))
  {
  }

  /** `,` inside an array turns the key `str(j)` into `str(j + 1)`. */
  lemma CommaInArray(m: Machine, g: Entity, j: nat)
    requires |m.entities| > 0 && Top(m.entities) != Unknown && Top(m.entities).ArrayLike()
    requires |m.keys| > 0 && m.keys[|m.keys| - 1] == FormatNat(j)
    ensures CopyChar(m, g, ',') == Ok((m.(keys := Pop(m.keys) + [FormatNat(j + 1)]), g))
  {
    ParseFormatNat(j);
  }

  /** Over the scalar elements of an array, the top key is the decimal index
      of the current element: it counts the commas read so far. */
  lemma {:induction false} KeyIsElementIndex(m: Machine, g: Entity, s: string, j: nat)
    requires |m.entities| > 0 && Top(m.entities) != Unknown && Top(m.entities).ArrayLike()
    requires |m.keys| > 0 && m.keys[|m.keys| - 1] == FormatNat(j)
    requires forall k :: 0 <= k < |s| ==> !Structural(s[k])
    ensures CopyChars(m, g, s) == Ok((m.(keys := Pop(m.keys) + [FormatNat(j + CountChar(s, ','))]), g))
    decreases |s|
  {
    if s != [] {
      if s[0] == ',' {
        CommaInArray(m, g, j);
        var m' := m.(keys := Pop(m.keys) + [FormatNat(j + 1)]);
        assert Pop(m'.keys) == Pop(m.keys);
        KeyIsElementIndex(m', g, s[1..], j + 1);
        assert CopyChars(m, g, s) == CopyChars(m', g, s[1..]);
        assert CountChar(s, ',') == 1 + CountChar(s[1..], ',');
      } else {
        assert CopyChar(m, g, s[0]) == Ok((m, g));
        KeyIsElementIndex(m, g, s[1..], j);
        assert CopyChars(m, g, s) == CopyChars(m, g, s[1..]);
        assert CountChar(s, ',') == CountChar(s[1..], ',');
      }
    } else {
      assert Pop(m.keys) + [FormatNat(j)] == m.keys;
    }
  }

  /** Outside strings, a character that is neither structural nor a comma
      only decides whether it is copied. */
  lemma PlainCharStep(m: Machine, g: Entity, c: char, p: Params)
    requires m.value == "" && OutsideString(m)
    requires |m.entities| > 0 ==> Top(m.entities) != Entity.Polygon
    requires !Structural(c) && c != ','
    ensures Step(Config(m, Copying(g)), c, p)
      == Ok(Config(m.(write := m.write + if IsSpace(c) then "" else [c]), Copying(g)))
  {
    assert CopyChar(m, g, c) == Ok((m, g));
    assert IsSpace(c) ==> m.write + "" == m.write;
  }

  /** Outside strings, and away from a polygon, a stretch without structural
      characters or commas is copied with its whitespace removed. */
  lemma {:induction false} WhitespaceDropped(m: Machine, g: Entity, s: string, p: Params)
    requires m.value == "" && OutsideString(m)
    requires |m.entities| > 0 ==> Top(m.entities) != Entity.Polygon
    requires forall k :: 0 <= k < |s| ==> !Structural(s[k]) && s[k] != ','
    ensures Steps(Config(m, Copying(g)), s, p) == Ok(Config(m.(write := m.write + NonSpace(s)), Copying(g)))
    decreases |s|
  {
    if s == [] {
      assert m.write + NonSpace(s) == m.write;
    } else {
      var kept := if IsSpace(s[0]) then "" else [s[0]];
      var m1 := m.(write := m.write + kept);
      PlainCharStep(m, g, s[0], p);
      assert Steps(Config(m, Copying(g)), s, p) == Steps(Config(m1, Copying(g)), s[1..], p);
      WhitespaceDropped(m1, g, s[1..], p);
      assert NonSpace(s) == kept + NonSpace(s[1..]);
      assert m1.write + NonSpace(s[1..]) == m.write + NonSpace(s);
    }
  }

  /** Inside a string every character, whitespace included, goes to the value
      buffer and is copied. */
  lemma {:induction false} StringCopied(m: Machine, g: Entity, s: string, p: Params)
    requires |m.entities| > 0 && Top(m.entities) == String
    requires forall k :: 0 <= k < |s| ==> s[k] != '"'
    ensures Steps(Config(m, Copying(g)), s, p)
      == Ok(Config(m.(value := m.value + s, write := m.write + s), Copying(g)))
    decreases |s|
  {
    if s == [] {
      assert m.value + s == m.value && m.write + s == m.write;
    } else {
      var m1 := m.(value := m.value + [s[0]], write := m.write + [s[0]]);
      assert Step(Config(m, Copying(g)), s[0], p) == Ok(Config(m1, Copying(g)));
      StringCopied(m1, g, s[1..], p);
      assert m1.value + s[1..] == m.value + s;
      assert m1.write + s[1..] == m.write + s;
    }
  }

  /** `copying_reader` adds exactly the consumed character to its output, or
      nothing for dropped whitespace; it hands over to `polygon_reader`
      exactly when it copied the character and the top entity is a polygon,
      and the handover flushes everything written. */
  lemma CopyStepOutput(m: Machine, g: Entity, c: char)
    requires CopyStep(m, g, c).Ok?
    ensures var (m1, _) := CopyChar(m, g, c).value;
      var cfg := CopyStep(m, g, c).value;
      Out(cfg.m) == Out(m) + (if Copied(m1, c) then [c] else [])
      && (cfg.mode.InPolygon? <==> Copied(m1, c) && |m1.entities| > 0 && Top(m1.entities) == Entity.Polygon)
      && (cfg.mode.InPolygon? ==> cfg.mode == InPolygon([], []) && cfg.m.write == "")
      && cfg.m.entities == m1.entities && cfg.m.keys == m1.keys
  {
    var (m1, _) := CopyChar(m, g, c).value;
    assert Out(m1) == Out(m);
    assert Out(m1.(write := m1.write + [c])) == Out(m) + [c];
  }

  /** `polygon_reader` writes nothing until its ring closes; then it writes the
      ring, `[` then the comma-separated `[x,y]` points then `]`, and returns to
      `copying_reader` with its geometry type reset. */
  lemma PolyStepOutput(m: Machine, ring: seq<Pt>, buffer: seq<real>, c: char, p: Params)
    requires PolyStep(m, ring, buffer, c, p).Ok?
    ensures var cfg := PolyStep(m, ring, buffer, c, p).value;
      (cfg.mode.Copying? <==> c == ']' && Top(m.entities) == Ring)
      && (cfg.mode.Copying? ==>
            cfg.mode == Copying(Unknown) && cfg.m.write == ""
            && RingText(ring, p).Some? && Out(cfg.m) == Out(m) + RingText(ring, p).value
            && RingText(ring, p).value == "[" + JoinComma(FormatPoints(MergedRing(ring, p).value, p.fmt).value) + "]")
      && (cfg.mode.InPolygon? ==> Out(cfg.m) == Out(m))
  {
    var cfg := PolyStep(m, ring, buffer, c, p).value;
    if cfg.mode.Copying? {
      assert Out(cfg.m) == m.dest + m.write + RingText(ring, p).value;
    }
  }

  /** Any sign (or exponent, or space) inside the coordinates is dropped. */
  lemma SignDropped(m: Machine, ring: seq<Pt>, buffer: seq<real>, c: char, p: Params)
    requires !IsDigit(c) && c != '.' && c != '[' && c != ']' && c != ','
    ensures PolyStep(m, ring, buffer, c, p) == Ok(Config(m, InPolygon(ring, buffer)))
  {
  }

  /** A coordinate is the digits and dots around a sign: `-37.5` reads as 37.5. */
  lemma NegativeCoordinate(m: Machine, buffer: seq<real>, ring: seq<Pt>, p: Params)
    requires m.value == "" && |m.entities| > 0 && Top(m.entities) == Point
    ensures Steps(Config(m, InPolygon(ring, buffer)), "-1.5", p)
      == Ok(Config(m.(value := "1.5"), InPolygon(ring, buffer)))
    ensures TakeCoordinate(m.(value := "1.5"), buffer) == Ok(buffer + [1.5])
  {
    var cfg := Config(m, InPolygon(ring, buffer));
    assert "-1.5"[1..] == "1.5" && "1.5"[1..] == ".5" && ".5"[1..] == "5" && "5"[1..] == "";
    assert Step(cfg, '-', p) == Ok(cfg);
    var c1 := Config(m.(value := "1"), InPolygon(ring, buffer));
    assert IsDigit('1') && IsDigit('5') && m.value + ['1'] == "1";
    assert Step(cfg, '1', p) == Ok(c1);
    var c2 := Config(m.(value := "1."), InPolygon(ring, buffer));
    assert "1" + ['.'] == "1." && "1." + ['5'] == "1.5";
    assert Step(c1, '.', p) == Ok(c2);
    assert Step(c2, '5', p) == Ok(Config(m.(value := "1.5"), InPolygon(ring, buffer)));
    SignIsDropped();
  }

  /** A ring of fewer than eight points is written back with all its points. */
  lemma ShortRingKept(ring: seq<Pt>, p: Params)
    requires |ring| < 8
    ensures MergedRing(ring, p) == Some(ring)
  {
    ShortRingUnchanged(InitialRing(ring), p.rounds, p.close);
  }

  /** The merged ring keeps at least one point and never gains any; a ring
      that kept its last node ends on the head's point. */
  lemma {:induction false} MergedRingShape(r: RingState, rounds: nat, close: Close)
    requires |r.values| >= 1 && Coherent(r)
    requires r.endLinked ==> r.values[0] == r.values[|r.values| - 1]
    requires MergeRounds(r, |r.values|, rounds, close).Some?
    ensures var (r', length) := MergeRounds(r, |r.values|, rounds, close).value;
      length == |r'.values| && 1 <= |r'.values| <= |r.values| && Coherent(r')
      && (r'.endLinked ==> r'.values[0] == r'.values[|r'.values| - 1])
    decreases rounds
  {
    MergeRoundsLength(r, rounds, close);
    if rounds > 0 && |r.values| >= 8 {
      MergeRoundFacts(r, close);
      MergeRoundCoherent(r, close);
      var (r1, merged) := MergeRound(r, close).value;
      MergedRingShape(r1, rounds - 1, close);
    } else if rounds > 0 {
      MergedRingShape(r, rounds - 1, close);
    }
  }

  /** One point with fewer than two coordinates makes the whole ring fail. */
  lemma {:induction false} FormatPointsPrefix(vs: seq<Pt>, i: nat, fmt: real -> string)
    requires i <= |vs| && FormatPoints(vs[..i], fmt).None?
    ensures FormatPoints(vs, fmt).None?
    decreases |vs|
  {
    if i < |vs| {
      var front := vs[..|vs| - 1];
      assert front[..i] == vs[..i];
      FormatPointsPrefix(front, i, fmt);
    } else {
      assert vs[..i] == vs;
    }
  }

  /** `RunFrom` one character at a time. */
  lemma RunFromStep(input: string, i: nat, cfg: Config, p: Params)
    requires i < |input|
    ensures RunFrom(input, i, cfg, p)
      == match Step(cfg, input[i], p)
         case Crash => Crash
         case Ok(cfg') => RunFrom(input, i + 1, cfg', p)
  {
  }

  /** The whole run is the steps over the rest of the input, then the flush at
      its end. */
  lemma {:induction false} RunFromIsSteps(input: string, i: nat, cfg: Config, p: Params)
    requires i <= |input|
    ensures RunFrom(input, i, cfg, p)
      == match Steps(cfg, input[i..], p)
         case Crash => Crash
         case Ok(cfg') => Ok(Finish(cfg'))
    decreases |input| - i
  {
    if i < |input| {
      assert input[i..][0] == input[i] && input[i..][1..] == input[i + 1..];
      match Step(cfg, input[i], p)
      case Crash =>
      case Ok(cfg') => RunFromIsSteps(input, i + 1, cfg', p);
    }
  }

  /** The steps over `a + b` are the steps over `a`, then over `b`. */
  lemma {:induction false} StepsAppend(cfg: Config, a: string, b: string, p: Params)
    ensures Steps(cfg, a + b, p)
      == match Steps(cfg, a, p)
         case Crash => Crash
         case Ok(cfg') => Steps(cfg', b, p)
    decreases |a|
  {
    if a == [] {
      assert a + b == b;
    } else {
      assert (a + b)[0] == a[0] && (a + b)[1..] == a[1..] + b;
      match Step(cfg, a[0], p)
      case Crash =>
      case Ok(cfg') => StepsAppend(cfg', a[1..], b, p);
    }
  }

  /** An exception aborts the program: once a prefix of the file raises, the
      file is not optimized, whatever follows. */
  lemma PrefixCrash(a: string, b: string, p: Params)
    requires Steps(Init(), a, p) == Crash
    ensures Optimize(a + b, p) == Crash
  {
    RunFromIsSteps(a + b, 0, Init(), p);
    assert (a + b)[0..] == a + b;
    StepsAppend(Init(), a, b, p);
  }

  /** A file whose first character opens a string or an array, or is a
      comma, raises at once (`entities[-1]` of the empty stack), and so does
      one that starts with `]` or `}` (`entities.pop()` of the empty stack).
      A top-level scalar does not raise: see `PlainTextCopied`. */
  lemma LeadingCrash(c: char, b: string, p: Params)
    requires c == '"' || c == '[' || c == ',' || c == ']' || c == '}'
    ensures Optimize([c] + b, p) == Crash
  {
    assert !IsCoordinatesPath("~");
    assert JoinDot(["~"]) == "~";
    assert Steps(Init(), [c], p) == Crash by {
      assert [c][1..] == [];
    }
    PrefixCrash([c], b, p);
  }

  /** A file without strings, brackets, braces or commas is written out with
      its whitespace removed. */
  lemma PlainTextCopied(input: string, p: Params)
    requires forall k :: 0 <= k < |input| ==> !Structural(input[k]) && input[k] != ','
    ensures Optimize(input, p) == Ok(NonSpace(input))
  {
    RunFromIsSteps(input, 0, Init(), p);
    assert input[0..] == input;
    WhitespaceDropped(Init().m, Unknown, input, p);
    assert "" + NonSpace(input) == NonSpace(input);
  }
}
