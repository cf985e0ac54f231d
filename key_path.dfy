/** The JSON path the optimizer tracks while it copies: the entity stack,
    the key stack, and the two regular expressions it tests the joined key
    path against. */
module KeyPath {
  import opened Text

  /** What is open on the entity stack. `Unknown` is Python's `None`, pushed
      when a `coordinates` array opens before any geometry type was read. */
  datatype Entity = Unknown | String | Map | Array | MultiPolygon | Polygon | Ring | Point
  {
    /** `entity >= Json.ARRAY`, defined for every entity but `None`. */
    predicate ArrayLike()
      requires !Unknown?
    {
      !String? && !Map?
    }
  }

  /** The part of both patterns before `.*`: `~`, any character, `features`. */
  predicate FeaturesPrefix(p: string)
  {
    |p| >= 10 && p[0] == '~' && p[1] != '\n' && p[2..10] == "features"
  }

  predicate NoNewline(s: string)
  {
    forall i :: 0 <= i < |s| ==> s[i] != '\n'
  }

  /** A match of `.geometry.<tail>` with the `.*` before it ending at `m`. */
  predicate GeometryAt(p: string, m: nat, tail: string)
  {
    10 <= m && m + 10 + |tail| <= |p| && NoNewline(p[10..m]) && p[m] != '\n'
    && p[m + 1..m + 9] == "geometry" && p[m + 9] != '\n' && p[m + 10..m + 10 + |tail|] == tail
  }

  /** `re.fullmatch(r"~.features.*.geometry.coordinates", p)`. */
  predicate IsCoordinatesPath(p: string)
  {
    FeaturesPrefix(p) && |p| >= 31 && GeometryAt(p, |p| - 21, "coordinates")
  }

  /** `re.match(r"~.features.*.geometry.type", p)`: anchored at the start only,
      so anything may follow `type`. */
  predicate IsGeometryTypePath(p: string)
  {
    FeaturesPrefix(p) && exists m: nat | 10 <= m <= |p| :: GeometryAt(p, m, "type")
  }

  /** Only a path ending `...geometry.coordinates` matches the full-match
      pattern: a deeper index such as `coordinates.0` does not. */
  lemma CoordinatesPathIsFull(p: string, suffix: string)
    requires IsCoordinatesPath(p) && |suffix| > 0 && suffix[|suffix| - 1] != 's'
    ensures !IsCoordinatesPath(p + suffix)
  {
    var q := p + suffix;
    assert q[|q| - 1] == suffix[|suffix| - 1];
  }

  /** The key path of a feature's geometry member `last`, joined with dots. */
  lemma JoinDotFeature(d: string, last: string)
    ensures JoinDot(["~", "features", d, "geometry", last]) == "~.features." + d + ".geometry." + last
  {
    var ks := ["~", "features", d, "geometry", last];
    assert ks[..1] == ["~"];
    assert ks[..2][..1] == ["~"];
    assert ks[..3][..2] == ks[..2];
    assert ks[..4][..3] == ks[..3];
    assert ks[..4] == ["~", "features", d, "geometry"];
    assert JoinDot(ks[..2]) == "~.features";
    assert JoinDot(ks[..3]) == "~.features." + d;
    assert JoinDot(ks[..4]) == "~.features." + d + ".geometry";
  }

  /** Joining one more key adds a dot and the key. */
  lemma JoinDotSnoc(ks: seq<string>, x: string)
    requires |ks| >= 1
    ensures JoinDot(ks + [x]) == JoinDot(ks) + "." + x
  {
    assert (ks + [x])[..|ks|] == ks;
  }

  /** That path starts as both patterns do, and its `geometry.<last>` follows
      the feature key `d` at position `11 + |d|`. */
  lemma FeatureAt(d: string, last: string)
    requires NoNewline(d)
    ensures var p := "~.features." + d + ".geometry." + last;
      FeaturesPrefix(p) && |p| == 21 + |d| + |last| && GeometryAt(p, 11 + |d|, last)
  {
    var p := "~.features." + d + ".geometry." + last;
    var n := |d|;
    var m := 11 + n;
    assert p == "~." + "features" + "." + d + "." + "geometry" + "." + last;
    assert p[2..10] == "features";
    assert p[10..m] == "." + d;
    assert p[m] == '.';
    assert p[m + 1..m + 9] == "geometry";
    assert p[m + 9] == '.';
    assert p[m + 10..m + 10 + |last|] == last;
  }

  /** The path of a feature's geometry type matches the anchored pattern,
      whatever key (without a newline) names the feature. */
  lemma TypePath(d: string)
    requires NoNewline(d)
    ensures IsGeometryTypePath(JoinDot(["~", "features", d, "geometry", "type"]))
  {
    JoinDotFeature(d, "type");
    FeatureAt(d, "type");
  }

  /** The path of a feature's coordinates matches the full pattern. */
  lemma CoordinatesPath(d: string)
    requires NoNewline(d)
    ensures IsCoordinatesPath(JoinDot(["~", "features", d, "geometry", "coordinates"]))
  {
    JoinDotFeature(d, "coordinates");
    FeatureAt(d, "coordinates");
  }

  /** The path of an element of a feature's coordinates does not match the
      full pattern. */
  lemma ElementPath(d: string, e: string)
    requires NoNewline(d) && |e| > 0 && IsDigit(e[|e| - 1])
    ensures !IsCoordinatesPath(JoinDot(["~", "features", d, "geometry", "coordinates", e]))
  {
    var ks := ["~", "features", d, "geometry", "coordinates"];
    CoordinatesPath(d);
    JoinDotSnoc(ks, e);
    assert ks + [e] == ["~", "features", d, "geometry", "coordinates", e];
    var suffix := "." + e;
    assert suffix[|suffix| - 1] == e[|e| - 1];
    assert JoinDot(ks) + "." + e == JoinDot(ks) + suffix;
    CoordinatesPathIsFull(JoinDot(ks), suffix);
  }

  /** For every feature index `j`: the path of its geometry type matches the
      anchored pattern, the path of its coordinates matches the full pattern,
      and the path of any element `k` of the coordinates does not. */
  lemma FeaturePaths(j: nat, k: nat)
    ensures IsGeometryTypePath(JoinDot(["~", "features", FormatNat(j), "geometry", "type"]))
    ensures IsCoordinatesPath(JoinDot(["~", "features", FormatNat(j), "geometry", "coordinates"]))
    ensures !IsCoordinatesPath(JoinDot(["~", "features", FormatNat(j), "geometry", "coordinates", FormatNat(k)]))
  {
    var d, e := FormatNat(j), FormatNat(k);
    FormatNatDigits(j);
    FormatNatDigits(k);
    assert NoNewline(d);
    TypePath(d);
    CoordinatesPath(d);
    ElementPath(d, e);
  }
}
