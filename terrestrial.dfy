/**
 * Terrestrial links from GeoJSON: the LineString features that look Canadian,
 * either by a Canadian word in their properties or by a sampled position
 * inside the rough Canadian box, and the distance-based thinning of a line's
 * positions.
 */
module Terrestrial {
  import opened Wrappers
  import opened Text
  import opened Seqs

  /**
   * The feature properties the processor reads. `json` is the JSON text of the
   * whole properties object, as `JSON.stringify` prints it.
   */
  datatype LinkProps = LinkProps(
    name: Option<string>, description: Option<string>,
    kind: Option<string>, infrastructureType: Option<string>,
    json: string)

  /** `{}`: what a feature without properties is read as. */
  const EmptyProps := LinkProps(None, None, None, None, "{}")

  /** A position as it appears in the data: its numeric components, `[lng, lat, ...]`. */
  type Coord = seq<JsNum>

  datatype Geometry = Geometry(kind: Option<string>, coordinates: seq<Coord>)

  datatype Feature = Feature(geometry: Option<Geometry>, properties: Option<LinkProps>)

  datatype Link = Link(id: string, name: string, coordinates: seq<Coord>, kind: string, country: string, properties: LinkProps)

  /** Component `k` of a position; a missing component is `undefined`, which compares and parses as NaN. */
  function Component(c: Coord, k: nat): JsNum
  {
    if k < |c| then c[k] else NaN
  }

  /**
   * isCanadianCoordinate: inside the box, bounds included; never for NaN.
   * The box lies north of the equator and west of Greenwich.
   */
  predicate IsCanadianCoordinate(lat: JsNum, lng: JsNum)
    ensures IsCanadianCoordinate(lat, lng) ==> lat.Num? && lng.Num? && 0.0 < lat.value && lng.value < 0.0
  {
    lat.Num? && lng.Num? && 40.0 <= lat.value <= 85.0 && -145.0 <= lng.value <= -50.0
  }

  const CanadianIndicators: seq<string> := [
    "canada", "canadian", "ontario", "quebec", "alberta", "british columbia",
    "bc", "manitoba", "saskatchewan", "nova scotia", "new brunswick",
    "newfoundland", "pei", "yukon", "nwt", "nunavut"]

  /** Whether the lower-cased properties text mentions one of the Canadian words. */
  predicate HasCanadianProperty(json: string) {
    exists w :: w in CanadianIndicators && Contains(ToLower(json), w)
  }

  /**
   * Whether position `i` of a line of `n` positions is in the sample: all of
   * them up to ten positions, otherwise those whose index is a multiple of a
   * tenth of the length, rounded down.
   */
  predicate Sampled(n: nat, i: nat) {
    n <= 10 || i % (n / 10) == 0
  }

  /**
   * isCanadianLink: a Canadian word in the properties, or else a sampled
   * position (read as `[lng, lat]`) inside the Canadian box. Without a
   * Canadian word, a line with no positions is never Canadian.
   */
  predicate IsCanadianLink(props: LinkProps, coordinates: seq<Coord>)
    ensures IsCanadianLink(props, coordinates) ==> HasCanadianProperty(props.json) || |coordinates| > 0
  {
    HasCanadianProperty(props.json)
    || exists i :: 0 <= i < |coordinates| && Sampled(|coordinates|, i)
         && IsCanadianCoordinate(Component(coordinates[i], 1), Component(coordinates[i], 0))
  }

  /** The first position is always in the sample, so a line that starts in Canada is Canadian. */
  lemma FirstPositionDecides(props: LinkProps, coordinates: seq<Coord>)
    requires |coordinates| > 0
    requires IsCanadianCoordinate(Component(coordinates[0], 1), Component(coordinates[0], 0))
    ensures IsCanadianLink(props, coordinates)
  {
    assert Sampled(|coordinates|, 0);
  }

  /** A line of at most ten positions is Canadian when any of its positions is in the box. */
  lemma ShortLineChecksEveryPosition(props: LinkProps, coordinates: seq<Coord>, i: nat)
    requires |coordinates| <= 10 && i < |coordinates|
    requires IsCanadianCoordinate(Component(coordinates[i], 1), Component(coordinates[i], 0))
    ensures IsCanadianLink(props, coordinates)
  {
    assert Sampled(|coordinates|, i);
  }

  /** A Canadian word decides on its own, whatever the positions. */
  lemma WordDecides(props: LinkProps, coordinates: seq<Coord>, w: string)
    requires w in CanadianIndicators && Contains(ToLower(props.json), w)
    ensures IsCanadianLink(props, coordinates)
  {
  }

  predicate IsLineString(f: Feature) {
    f.geometry.Some? && f.geometry.value.kind == Some("LineString")
  }

  function PropsOf(f: Feature): LinkProps {
    if f.properties.Some? then f.properties.value else EmptyProps
  }

  function TerrestrialId(index: nat): string { "terrestrial_" + NatToString(index) }

  /** A position with both components parsed: `[parseFloat(c[0]), parseFloat(c[1])]`. */
  function Parsed(c: Coord): (p: Coord)
    ensures |p| == 2 && p[0] == Component(c, 0) && p[1] == Component(c, 1)
  {
    [Component(c, 0), Component(c, 1)]
  }

  function ParsedAll(cs: seq<Coord>): (ps: seq<Coord>)
    ensures |ps| == |cs| && forall i :: 0 <= i < |cs| ==> ps[i] == Parsed(cs[i])
  {
    seq(|cs|, i requires 0 <= i < |cs| => Parsed(cs[i]))
  }

  /** The link a Canadian LineString feature at `index` becomes. */
  function LinkOf(f: Feature, index: nat): (link: Link)
    requires IsLineString(f)
    ensures link.id == TerrestrialId(index) && link.country == "Canada"
    ensures link.coordinates == ParsedAll(f.geometry.value.coordinates)
  {
    var props := PropsOf(f);
    Link(
      TerrestrialId(index),
      TextOr(props.name, props.description, "Link " + NatToString(index)),
      ParsedAll(f.geometry.value.coordinates),
      TextOr(props.kind, props.infrastructureType, "unknown"),
      "Canada",
      props)
  }

  /** Whether the feature at `index` becomes a link. */
  predicate Qualifies(f: Feature) {
    IsLineString(f) && IsCanadianLink(PropsOf(f), f.geometry.value.coordinates)
  }

  /** The links of the first `n` features, in order. */
  function LinksUpTo(fs: seq<Feature>, n: nat): seq<Link>
    requires n <= |fs|
  {
    if n == 0 then []
    else LinksUpTo(fs, n - 1) + (if Qualifies(fs[n - 1]) then [LinkOf(fs[n - 1], n - 1)] else [])
  }

  /** What filterCanadianLinks returns: `[]` for a non-array input, else the links of all features. */
  function CanadianLinks(features: Option<seq<Feature>>): seq<Link>
  {
    if features.None? then [] else LinksUpTo(features.value, |features.value|)
  }

  /** The indices of the qualifying features among the first `n`, in order. */
  function QualifyingUpTo(fs: seq<Feature>, n: nat): (ks: seq<nat>)
    requires n <= |fs|
    ensures forall k :: 0 <= k < |ks| ==> ks[k] < n && Qualifies(fs[ks[k]])
  {
    if n == 0 then []
    else QualifyingUpTo(fs, n - 1) + (if Qualifies(fs[n - 1]) then [n - 1] else [])
  }

  /** The qualifying indices increase, and every qualifying feature is listed. */
  lemma {:induction false} QualifyingExactly(fs: seq<Feature>, n: nat)
    requires n <= |fs|
    ensures var ks := QualifyingUpTo(fs, n);
      (forall j, k :: 0 <= j < k < |ks| ==> ks[j] < ks[k])
      && (forall i :: 0 <= i < n && Qualifies(fs[i]) ==> i in ks)
  {
    if n > 0 {
      QualifyingExactly(fs, n - 1);
    }
  }

  /**
   * The k-th link comes from the k-th qualifying feature: it is that feature's
   * link, with its index in the id and "Canada" as its country.
   */
  lemma {:induction false} LinksFollowFeatures(fs: seq<Feature>, n: nat)
    requires n <= |fs|
    ensures var ks := QualifyingUpTo(fs, n);
      |LinksUpTo(fs, n)| == |ks|
      && forall k :: 0 <= k < |ks| ==> LinksUpTo(fs, n)[k] == LinkOf(fs[ks[k]], ks[k])
  {
    if n > 0 {
      LinksFollowFeatures(fs, n - 1);
    }
  }

  /** Every link is Canadian and is named after its feature's index. */
  lemma EveryLinkIsCanadian(fs: seq<Feature>)
    ensures var links := CanadianLinks(Some(fs)); var ks := QualifyingUpTo(fs, |fs|);
      |links| == |ks| <= |fs|
      && forall k :: 0 <= k < |links| ==> links[k].country == "Canada" && links[k].id == TerrestrialId(ks[k])
  {
    var ks := QualifyingUpTo(fs, |fs|);
    LinksFollowFeatures(fs, |fs|);
    QualifyingExactly(fs, |fs|);
    IncreasingBounded(ks, |fs|);
  }

  /** A strictly increasing list of indices below `n` has at most `n` entries. */
  lemma {:induction false} IncreasingBounded(ks: seq<nat>, n: nat)
    requires forall k :: 0 <= k < |ks| ==> ks[k] < n
    requires forall j, k :: 0 <= j < k < |ks| ==> ks[j] < ks[k]
    ensures |ks| <= n
  {
    if ks != [] {
      IncreasingBounded(ks[..|ks| - 1], ks[|ks| - 1]);
    }
  }

  /**
   * filterCanadianLinks: `[]` for a non-array input; otherwise each
   * LineString feature that is Canadian becomes a link, in order.
   */
  method FilterCanadianLinks(features: Option<seq<Feature>>) returns (canadianLinks: seq<Link>)
    ensures canadianLinks == CanadianLinks(features)
  {
    if features.None? {
      return [];
    }
    var fs := features.value;
    canadianLinks := [];
    var index := 0;
    while index < |fs|
      invariant index <= |fs|
      invariant canadianLinks == LinksUpTo(fs, index)
    {
      var feature := fs[index];
      if IsLineString(feature) {
        var props := PropsOf(feature);
        if IsCanadianLink(props, feature.geometry.value.coordinates) {
          canadianLinks := canadianLinks + [LinkOf(feature, index)];
        }
      }
      index := index + 1;
    }
  }

  /**
   * `Math.sqrt(dx * dx + dy * dy) > tolerance` for the first two components,
   * written without the square root: a NaN component makes the distance NaN,
   * which is never greater; otherwise a negative tolerance is always exceeded,
   * and a non-negative one exactly when the squared distance exceeds its square.
   */
  predicate FarApart(prev: Coord, current: Coord, tolerance: real) {
    var x0, y0, x1, y1 := Component(prev, 0), Component(prev, 1), Component(current, 0), Component(current, 1);
    x0.Num? && y0.Num? && x1.Num? && y1.Num?
    && var dx, dy := x1.value - x0.value, y1.value - y0.value;
       tolerance < 0.0 || dx * dx + dy * dy > tolerance * tolerance
  }

  /** The square-root-free test agrees with comparing the square root itself. */
  lemma SquaredComparison(d2: real, root: real, tolerance: real)
    requires root >= 0.0 && root * root == d2
    ensures root > tolerance <==> (tolerance < 0.0 || d2 > tolerance * tolerance)
  {
    if tolerance >= 0.0 {
      // root * root - tolerance * tolerance == (root - tolerance) * (root + tolerance)
      var gap := root * root - tolerance * tolerance;
      assert gap == (root - tolerance) * (root + tolerance);
      if root > tolerance {
        ProductSign(root - tolerance, root + tolerance);
      } else {
        ProductSign(tolerance - root, root + tolerance);
      }
    }
  }

  lemma ProductSign(a: real, b: real)
    requires a >= 0.0 && b >= 0.0
    ensures a * b >= 0.0 && (a > 0.0 && b > 0.0 ==> a * b > 0.0)
  {
  }

  /** The points kept after looking at positions `1 .. k - 1`: the first, then each far enough from the last kept. */
  function KeptUpTo(coordinates: seq<Coord>, tolerance: real, k: nat): (r: seq<Coord>)
    requires 1 <= k <= |coordinates|
    ensures 1 <= |r| <= k && r[0] == coordinates[0]
  {
    if k == 1 then [coordinates[0]]
    else
      var prev := KeptUpTo(coordinates, tolerance, k - 1);
      if FarApart(prev[|prev| - 1], coordinates[k - 1], tolerance) then prev + [coordinates[k - 1]] else prev
  }

  /** What simplifyGeometry returns: two points or fewer unchanged, else the kept points and the last point. */
  function Simplified(coordinates: seq<Coord>, tolerance: real): seq<Coord>
  {
    if |coordinates| <= 2 then coordinates
    else KeptUpTo(coordinates, tolerance, |coordinates| - 1) + [coordinates[|coordinates| - 1]]
  }

  /** The kept points are a subsequence of the positions looked at, each far from the one kept before it. */
  lemma {:induction false} KeptUpToShape(coordinates: seq<Coord>, tolerance: real, k: nat)
    requires 1 <= k <= |coordinates|
    ensures var r := KeptUpTo(coordinates, tolerance, k);
      SubseqOf(r, coordinates[..k])
      && forall j :: 1 <= j < |r| ==> FarApart(r[j - 1], r[j], tolerance)
  {
    if k == 1 {
      assert coordinates[..1] == [] + [coordinates[0]];
      SubseqRefl<Coord>([]);
      SubseqKeep<Coord>([], [], coordinates[0]);
    } else {
      var prev := KeptUpTo(coordinates, tolerance, k - 1);
      KeptUpToShape(coordinates, tolerance, k - 1);
      assert coordinates[..k] == coordinates[..k - 1] + [coordinates[k - 1]];
      if FarApart(prev[|prev| - 1], coordinates[k - 1], tolerance) {
        SubseqKeep(prev, coordinates[..k - 1], coordinates[k - 1]);
      } else {
        SubseqSkip(prev, coordinates[..k - 1], coordinates[k - 1]);
      }
    }
  }

  /**
   * simplifyGeometry keeps the first and the last point, never adds a point,
   * keeps the order, and every interior point it keeps is farther than the
   * tolerance from the point kept before it.
   */
  lemma SimplifiedShape(coordinates: seq<Coord>, tolerance: real)
    requires |coordinates| > 2
    ensures var r := Simplified(coordinates, tolerance);
      r[0] == coordinates[0] && r[|r| - 1] == coordinates[|coordinates| - 1]
      && |r| <= |coordinates| && SubseqOf(r, coordinates)
      && forall j :: 1 <= j < |r| - 1 ==> FarApart(r[j - 1], r[j], tolerance)
  {
    var n := |coordinates|;
    var kept := KeptUpTo(coordinates, tolerance, n - 1);
    KeptUpToShape(coordinates, tolerance, n - 1);
    SubseqKeep(kept, coordinates[..n - 1], coordinates[n - 1]);
    assert coordinates[..n - 1] + [coordinates[n - 1]] == coordinates;
    var r := kept + [coordinates[n - 1]];
    assert forall j :: 0 <= j < |r| - 1 ==> r[j] == kept[j];
  }

  /**
   * simplifyGeometry: inputs of two points or fewer are returned as they are;
   * otherwise the first point, each following interior point that is farther
   * than the tolerance from the last point kept, and the last point.
   */
  method SimplifyGeometry(coordinates: seq<Coord>, tolerance: real) returns (simplified: seq<Coord>)
    ensures simplified == Simplified(coordinates, tolerance)
  {
    if |coordinates| <= 2 {
      return coordinates;
    }
    simplified := [coordinates[0]];
    var i := 1;
    while i < |coordinates| - 1
      invariant 1 <= i <= |coordinates| - 1
      invariant simplified == KeptUpTo(coordinates, tolerance, i)
    {
      var prev := simplified[|simplified| - 1];
      var current := coordinates[i];
      if FarApart(prev, current, tolerance) {
        simplified := simplified + [current];
      }
      i := i + 1;
    }
    simplified := simplified + [coordinates[|coordinates| - 1]];
  }
}
