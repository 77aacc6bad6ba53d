/**
 * Submarine cables from GeoJSON: each LineString feature becomes a cable, the
 * two ends of each cable become landing points keyed by their coordinates
 * printed to four decimals, and a landing point shared by several cables is
 * created once and attached to the first cable that reaches it. Also the
 * North-America filter on cables and the every-n-th-point simplification.
 */
module Cables {
  import opened Wrappers
  import opened Text
  import opened Seqs

  /** A property value: text or a number. */
  datatype Prop = Text(text: string) | Number(num: JsNum) {
    /** JavaScript truthiness. */
    predicate Truthy() {
      (Text? && text != "") || (Number? && num.Truthy())
    }
  }

  /** The feature properties the processor reads; an absent property is None. */
  datatype CableProps = CableProps(
    name: Option<string>, cableName: Option<string>,
    length: Option<Prop>, cableLength: Option<Prop>,
    capacity: Option<Prop>, designCapacity: Option<Prop>,
    owners: Option<string>,
    rfs: Option<Prop>, readyForService: Option<Prop>,
    startPoint: Option<string>, startCountry: Option<string>,
    endPoint: Option<string>, endCountry: Option<string>)

  const NoProps := CableProps(None, None, None, None, None, None, None, None, None, None, None, None, None)

  /** One coordinate component as it appears in the data: a number or a text. */
  datatype CoordValue = CNum(n: JsNum) | CText(t: string)

  /** A feature's geometry: its type and its raw positions. */
  datatype Geometry = Geometry(kind: Option<string>, coordinates: seq<seq<CoordValue>>)

  datatype Feature = Feature(geometry: Option<Geometry>, properties: Option<CableProps>)

  /** A position as `[lng, lat]`. */
  datatype Pos = Pos(lng: JsNum, lat: JsNum)

  datatype LandingPoint = LandingPoint(id: string, name: string, country: string, coordinates: Pos)

  datatype Cable = Cable(
    id: string, name: string, coordinates: seq<Pos>, length: Prop, capacity: Option<Prop>,
    owners: seq<string>, rfs: Option<Prop>, landingPoints: seq<LandingPoint>)

  /** What processSubmarineCables returns: `[]` when there are no features, else both lists. */
  datatype CableResult = NoFeatures | CableSet(cables: seq<Cable>, landingPoints: seq<LandingPoint>)

  /** `parseFloat` of one component; an absent component is NaN. */
  function ParseComponent(coord: seq<CoordValue>, k: nat): JsNum
  {
    if k >= |coord| then NaN
    else match coord[k]
      case CNum(n) => n
      case CText(t) => ParseFloat(t)
  }

  /** The positions of a geometry with both components parsed. */
  function Positions(g: Geometry): (ps: seq<Pos>)
    ensures |ps| == |g.coordinates|
  {
    seq(|g.coordinates|, i requires 0 <= i < |g.coordinates| =>
      Pos(ParseComponent(g.coordinates[i], 0), ParseComponent(g.coordinates[i], 1)))
  }

  predicate IsLineString(f: Feature) {
    f.geometry.Some? && f.geometry.value.kind == Some("LineString")
  }

  /** `a || b || null` on optional property values. */
  function PropOr(a: Option<Prop>, b: Option<Prop>): (r: Option<Prop>)
    ensures r.Some? ==> r.value.Truthy() && (r == a || r == b)
    ensures r.None? <==> (a.None? || !a.value.Truthy()) && (b.None? || !b.value.Truthy())
  {
    if a.Some? && a.value.Truthy() then a else if b.Some? && b.value.Truthy() then b else None
  }

  /** `props.owners ? props.owners.split(';').map(o => o.trim()) : []` */
  function Owners(owners: Option<string>): (r: seq<string>)
    ensures owners.None? || owners.value == "" ==> r == []
    ensures owners.Some? && owners.value != "" ==> |r| == 1 + CountChar(owners.value, ';')
  {
    if owners.Some? && owners.value != "" then
      var parts := Split(owners.value, ';');
      seq(|parts|, i requires 0 <= i < |parts| => Trim(parts[i]))
    else []
  }

  function CableId(index: nat): string { "cable_" + NatToString(index) }

  /** The cable a LineString feature becomes, before landing points are attached. */
  function BareCable(f: Feature, index: nat): (c: Cable)
    requires IsLineString(f)
    ensures c.id == CableId(index) && c.landingPoints == []
    ensures c.coordinates == Positions(f.geometry.value)
  {
    var props := if f.properties.Some? then f.properties.value else NoProps;
    var length := PropOr(props.length, props.cableLength);
    Cable(
      CableId(index),
      TextOr(props.name, props.cableName, "Cable " + NatToString(index)),
      Positions(f.geometry.value),
      if length.Some? then length.value else Number(Num(0.0)),
      PropOr(props.capacity, props.designCapacity),
      Owners(props.owners),
      PropOr(props.rfs, props.readyForService),
      [])
  }

  /** Four decimals `d.dddd` of a natural number of ten-thousandths. */
  function FourDecimals(units: nat): (r: string)
    ensures |r| >= 1 && IsDigit(r[0]) && ',' !in r
  {
    NatToString(units / 10000) + "." + PaddedDigits(units % 10000, 4)
  }

  /** The last `width` decimal digits of `n`, most significant first, with leading zeros. */
  function PaddedDigits(n: nat, width: nat): (r: string)
    ensures |r| == width && AllDigits(r)
  {
    if width == 0 then [] else PaddedDigits(n / 10, width - 1) + [DigitChar(n % 10)]
  }

  /**
   * What `x.toFixed(4)` keeps of a finite number: whether it is negative,
   * and its magnitude rounded to the nearest ten-thousandth, halves up;
   * None for NaN.
   */
  function Rounded(x: JsNum): Option<(bool, nat)>
  {
    if x.NaN? then None
    else
      var magnitude := if x.value < 0.0 then -x.value else x.value;
      Some((x.value < 0.0, (magnitude * 10000.0 + 0.5).Floor))
  }

  /**
   * `x.toFixed(4)` on a finite number of ordinary size: the rounded
   * magnitude with a `-` for any negative number (so a tiny negative number
   * prints as "-0.0000"); "NaN" for NaN.
   */
  function ToFixed4(x: JsNum): (r: string)
    ensures |r| >= 1 && ',' !in r
    ensures x.NaN? <==> r[0] == 'N'
    ensures x.Num? && x.value < 0.0 <==> r[0] == '-'
  {
    var r := Rounded(x);
    if r.None? then "NaN" else (if r.value.0 then "-" else "") + FourDecimals(r.value.1)
  }

  /** The key of a landing point: latitude, comma, longitude, each to four decimals. */
  function LandingKey(p: Pos): (r: string)
    ensures Split(r, ',') == [ToFixed4(p.lat), ToFixed4(p.lng)]
  {
    SplitAt(ToFixed4(p.lat), ToFixed4(p.lng), ',');
    SplitNone(ToFixed4(p.lng), ',');
    ToFixed4(p.lat) + "," + ToFixed4(p.lng)
  }

  /** Digit strings of the same width below its power of ten are equal only for equal numbers. */
  lemma {:induction false} PaddedDigitsInjective(a: nat, b: nat, width: nat)
    requires a < Pow10(width) && b < Pow10(width)
    requires PaddedDigits(a, width) == PaddedDigits(b, width)
    ensures a == b
  {
    if width > 0 {
      var pa, pb := PaddedDigits(a, width), PaddedDigits(b, width);
      assert DigitVal(pa[width - 1]) == a % 10 && DigitVal(pb[width - 1]) == b % 10;
      assert pa[..width - 1] == PaddedDigits(a / 10, width - 1);
      assert pb[..width - 1] == PaddedDigits(b / 10, width - 1);
      PaddedDigitsInjective(a / 10, b / 10, width - 1);
    }
  }

  /** Different numbers of ten-thousandths print differently. */
  lemma FourDecimalsInjective(a: nat, b: nat)
    requires FourDecimals(a) == FourDecimals(b)
    ensures a == b
  {
    var na, nb := NatToString(a / 10000), NatToString(b / 10000);
    var pa, pb := PaddedDigits(a % 10000, 4), PaddedDigits(b % 10000, 4);
    var s := FourDecimals(a);
    assert |na| == |nb|;
    assert na == s[..|na|] == nb;
    assert pa == s[|na| + 1..] == pb;
    assert Pow10(4) == 10000;
    PaddedDigitsInjective(a % 10000, b % 10000, 4);
  }

  /** Two numbers print alike to four decimals exactly when they round alike. */
  lemma ToFixed4Exactly(x: JsNum, y: JsNum)
    ensures ToFixed4(x) == ToFixed4(y) <==> Rounded(x) == Rounded(y)
  {
    if ToFixed4(x) == ToFixed4(y) {
      var rx, ry := Rounded(x), Rounded(y);
      if rx.Some? {
        assert ry.Some? && rx.value.0 == ry.value.0;
        if rx.value.0 {
          assert ToFixed4(x)[1..] == FourDecimals(rx.value.1);
          assert ToFixed4(y)[1..] == FourDecimals(ry.value.1);
        } else {
          assert ToFixed4(x) == FourDecimals(rx.value.1);
          assert ToFixed4(y) == FourDecimals(ry.value.1);
        }
        FourDecimalsInjective(rx.value.1, ry.value.1);
      }
    }
  }

  /**
   * Two positions get the same landing-point key exactly when their
   * latitudes and their longitudes round alike to four decimals.
   */
  lemma LandingKeyExactly(p: Pos, q: Pos)
    ensures LandingKey(p) == LandingKey(q) <==> Rounded(p.lat) == Rounded(q.lat) && Rounded(p.lng) == Rounded(q.lng)
  {
    ToFixed4Exactly(p.lat, q.lat);
    ToFixed4Exactly(p.lng, q.lng);
    if LandingKey(p) == LandingKey(q) {
      assert Split(LandingKey(p), ',') == Split(LandingKey(q), ',');
    }
  }

  function LandingId(key: string): string { "landing_" + key }

  /** Everything the walk has built so far: the cables, the landing-point map and its insertion order. */
  datatype State = State(cables: seq<Cable>, points: map<string, LandingPoint>, order: seq<string>)

  /** The landing points of the map, in insertion order (`Array.from(map.values())`). */
  function PointsInOrder(points: map<string, LandingPoint>, order: seq<string>): (r: seq<LandingPoint>)
    ensures |r| <= |order|
  {
    if order == [] then []
    else
      var key := order[|order| - 1];
      PointsInOrder(points, order[..|order| - 1]) + (if key in points then [points[key]] else [])
  }

  /** The landing points attached to each cable, in cable order. */
  function AttachedPoints(cables: seq<Cable>): seq<LandingPoint>
  {
    if cables == [] then []
    else AttachedPoints(cables[..|cables| - 1]) + cables[|cables| - 1].landingPoints
  }

  /** The landing-point map, its insertion order, and the points just added. */
  datatype Added = Added(points: map<string, LandingPoint>, order: seq<string>, attached: seq<LandingPoint>)

  /**
   * Adds the landing point at `p`, whose key is `key`, unless the key is
   * already in the map; a point that is added is also attached to the cable
   * being built. The points already in the map stay as they were.
   */
  function AddLanding(a: Added, key: string, p: Pos, name: string, country: string): (r: Added)
    ensures key in r.points && forall k :: k in r.points <==> k in a.points || k == key
    ensures key !in a.points ==> r.points[key] == LandingPoint(LandingId(key), name, country, p)
    ensures forall k :: k in a.points ==> r.points[k] == a.points[k]
  {
    if key in a.points then a
    else
      var landing := LandingPoint(LandingId(key), name, country, p);
      Added(a.points[key := landing], a.order + [key], a.attached + [landing])
  }

  function PropsOf(f: Feature): CableProps {
    if f.properties.Some? then f.properties.value else NoProps
  }

  /**
   * The landing points at both ends of a cable, start first: each is added to
   * the map unless its key is already there, and the added ones are attached.
   * A new start point carries the cable's start name and country (defaults
   * "Unknown Start Point" and "Unknown") and its first position; a new end
   * point the end name and country ("Unknown End Point", "Unknown") and its
   * last position. The points already in the map stay as they were.
   */
  function AddEnds(points: map<string, LandingPoint>, order: seq<string>, startKey: string, endKey: string, coords: seq<Pos>, props: CableProps): (r: Added)
    requires |coords| >= 2
    ensures forall k :: k in r.points <==> k in points || k == startKey || k == endKey
    ensures startKey !in points ==>
      r.points[startKey] == LandingPoint(LandingId(startKey), TextOr(props.startPoint, None, "Unknown Start Point"),
                                         TextOr(props.startCountry, None, "Unknown"), coords[0])
    ensures endKey !in points && endKey != startKey ==>
      r.points[endKey] == LandingPoint(LandingId(endKey), TextOr(props.endPoint, None, "Unknown End Point"),
                                       TextOr(props.endCountry, None, "Unknown"), coords[|coords| - 1])
    ensures forall k :: k in points ==> r.points[k] == points[k]
  {
    var first := AddLanding(Added(points, order, []), startKey, coords[0],
      TextOr(props.startPoint, None, "Unknown Start Point"), TextOr(props.startCountry, None, "Unknown"));
    AddLanding(first, endKey, coords[|coords| - 1],
      TextOr(props.endPoint, None, "Unknown End Point"), TextOr(props.endCountry, None, "Unknown"))
  }

  /** The state after a cable of two positions or more whose ends have the given keys. */
  function WithEnds(st: State, cable: Cable, props: CableProps, startKey: string, endKey: string): State
    requires |cable.coordinates| >= 2
  {
    var ends := AddEnds(st.points, st.order, startKey, endKey, cable.coordinates, props);
    State(st.cables + [cable.(landingPoints := ends.attached)], ends.points, ends.order)
  }

  /**
   * The state after a new cable, the landing points keyed by `key`: with fewer
   * than two positions it is added as it is; otherwise the landing points at
   * its ends that are new are attached to it.
   */
  function WithCable(st: State, cable: Cable, props: CableProps, key: Pos -> string): State
  {
    var coords := cable.coordinates;
    if |coords| < 2 then State(st.cables + [cable], st.points, st.order)
    else WithEnds(st, cable, props, key(coords[0]), key(coords[|coords| - 1]))
  }

  /** One step of the walk: the feature at `index` processed against the state so far. */
  function Step(st: State, f: Feature, index: nat, key: Pos -> string): State
  {
    if !IsLineString(f) then st else WithCable(st, BareCable(f, index), PropsOf(f), key)
  }

  /**
   * The state after walking all of `fs`, feature indices counted from 0. The
   * walk is written for any key function; processSubmarineCables keys the
   * landing points by LandingKey.
   */
  function Walk(fs: seq<Feature>, key: Pos -> string): (r: State)
    ensures |r.cables| == |LineStrings(fs)|
  {
    if fs == [] then State([], map[], [])
    else
      var before := Walk(fs[..|fs| - 1], key);
      StepCables(before, fs[|fs| - 1], |fs| - 1, key);
      Step(before, fs[|fs| - 1], |fs| - 1, key)
  }

  /** What processSubmarineCables returns for the given features (None when they are missing). */
  function Processed(features: Option<seq<Feature>>): (r: CableResult)
    ensures features.None? <==> r == NoFeatures
    ensures features.Some? ==> |r.cables| == |LineStrings(features.value)|
  {
    if features.None? then NoFeatures
    else
      var st := Walk(features.value, LandingKey);
      CableSet(st.cables, PointsInOrder(st.points, st.order))
  }

  /** The key part of the invariant: every key inserted once, and the map holds exactly the inserted keys under their own ids. */
  ghost predicate KeysWellFormed(points: map<string, LandingPoint>, order: seq<string>) {
    NoDuplicates(order)
    && (forall k :: k in points <==> k in order)
    && (forall k :: k in points ==> points[k].id == LandingId(k))
  }

  /** Every inserted key is in the map. */
  ghost predicate Listed(points: map<string, LandingPoint>, order: seq<string>) {
    forall i :: 0 <= i < |order| ==> order[i] in points
  }

  /**
   * The invariant of the walk: the keys are well formed, and the landing
   * points attached to the cables are exactly the map's points in insertion
   * order.
   */
  ghost predicate WellFormed(st: State) {
    KeysWellFormed(st.points, st.order)
    && Listed(st.points, st.order)
    && AttachedPoints(st.cables) == PointsInOrder(st.points, st.order)
  }

  /** A key added at the end does not disturb the points listed before it. */
  lemma {:induction false} PointsInOrderFresh(points: map<string, LandingPoint>, order: seq<string>, key: string, landing: LandingPoint)
    requires forall i :: 0 <= i < |order| ==> order[i] != key
    ensures PointsInOrder(points[key := landing], order) == PointsInOrder(points, order)
  {
    if order != [] {
      PointsInOrderFresh(points, order[..|order| - 1], key, landing);
    }
  }

  /** Adding a landing point keeps the keys well formed, and the key is then in the map. */
  lemma AddLandingKeeps(a: Added, key: string, p: Pos, name: string, country: string)
    requires KeysWellFormed(a.points, a.order)
    ensures var b := AddLanding(a, key, p, name, country);
      KeysWellFormed(b.points, b.order) && key in b.points
  {
  }

  /**
   * Adding a landing point keeps the points in order listing the map's points
   * before the cable, then the points attached so far.
   */
  lemma AddLandingLists(a: Added, before: seq<LandingPoint>, key: string, p: Pos, name: string, country: string)
    requires Listed(a.points, a.order) && PointsInOrder(a.points, a.order) == before + a.attached
    ensures var b := AddLanding(a, key, p, name, country);
      Listed(b.points, b.order) && PointsInOrder(b.points, b.order) == before + b.attached
  {
    if key !in a.points {
      var landing := LandingPoint(LandingId(key), name, country, p);
      PointsInOrderFresh(a.points, a.order, key, landing);
      var order2 := a.order + [key];
      assert order2[..|order2| - 1] == a.order;
      assert before + a.attached + [landing] == before + (a.attached + [landing]);
    }
  }

  /** Adding both ends keeps the keys well formed. */
  lemma AddEndsKeeps(points: map<string, LandingPoint>, order: seq<string>, startKey: string, endKey: string, coords: seq<Pos>, props: CableProps)
    requires KeysWellFormed(points, order) && |coords| >= 2
    ensures var a := AddEnds(points, order, startKey, endKey, coords, props);
      KeysWellFormed(a.points, a.order)
  {
    var startName, startCountry := TextOr(props.startPoint, None, "Unknown Start Point"), TextOr(props.startCountry, None, "Unknown");
    var first := AddLanding(Added(points, order, []), startKey, coords[0], startName, startCountry);
    AddLandingKeeps(Added(points, order, []), startKey, coords[0], startName, startCountry);
    AddLandingKeeps(first, endKey, coords[|coords| - 1],
      TextOr(props.endPoint, None, "Unknown End Point"), TextOr(props.endCountry, None, "Unknown"));
  }

  /** Adding both ends lists the attached points at the end of the points in order. */
  lemma AddEndsLists(points: map<string, LandingPoint>, order: seq<string>, startKey: string, endKey: string, coords: seq<Pos>, props: CableProps)
    requires Listed(points, order) && |coords| >= 2
    ensures var a := AddEnds(points, order, startKey, endKey, coords, props);
      Listed(a.points, a.order)
      && PointsInOrder(a.points, a.order) == PointsInOrder(points, order) + a.attached
  {
    var before := PointsInOrder(points, order);
    assert before == before + [];
    var startName, startCountry := TextOr(props.startPoint, None, "Unknown Start Point"), TextOr(props.startCountry, None, "Unknown");
    var first := AddLanding(Added(points, order, []), startKey, coords[0], startName, startCountry);
    AddLandingLists(Added(points, order, []), before, startKey, coords[0], startName, startCountry);
    AddLandingLists(first, before, endKey, coords[|coords| - 1],
      TextOr(props.endPoint, None, "Unknown End Point"), TextOr(props.endCountry, None, "Unknown"));
  }

  /** Appending a cable appends its landing points. */
  lemma AppendCable(cables: seq<Cable>, cable: Cable)
    ensures AttachedPoints(cables + [cable]) == AttachedPoints(cables) + cable.landingPoints
    ensures (cables + [cable])[..|cables|] == cables
  {
    assert (cables + [cable])[..|cables|] == cables;
  }

  /** Adding a cable keeps the invariant. */
  lemma WithCableKeeps(st: State, cable: Cable, props: CableProps, key: Pos -> string)
    requires WellFormed(st) && cable.landingPoints == []
    ensures WellFormed(WithCable(st, cable, props, key))
  {
    var coords := cable.coordinates;
    if |coords| < 2 {
      AppendCable(st.cables, cable);
    } else {
      WithEndsKeeps(st, cable, props, key(coords[0]), key(coords[|coords| - 1]));
    }
  }

  /** Adding a cable with its ends keeps the invariant, whatever the keys of the ends. */
  lemma WithEndsKeeps(st: State, cable: Cable, props: CableProps, startKey: string, endKey: string)
    requires WellFormed(st) && |cable.coordinates| >= 2
    ensures var st2 := WithEnds(st, cable, props, startKey, endKey);
      WellFormed(st2) && |st2.cables| == |st.cables| + 1 && st2.cables[..|st.cables|] == st.cables
      && st2.cables[|st.cables|].id == cable.id && st2.cables[|st.cables|].coordinates == cable.coordinates
  {
    var coords := cable.coordinates;
    var ends := AddEnds(st.points, st.order, startKey, endKey, coords, props);
    AddEndsKeeps(st.points, st.order, startKey, endKey, coords, props);
    AddEndsLists(st.points, st.order, startKey, endKey, coords, props);
    AppendCable(st.cables, cable.(landingPoints := ends.attached));
  }

  /** Each step keeps the invariant. */
  lemma StepKeeps(st: State, f: Feature, index: nat, key: Pos -> string)
    requires WellFormed(st)
    ensures WellFormed(Step(st, f, index, key))
  {
    if IsLineString(f) {
      WithCableKeeps(st, BareCable(f, index), PropsOf(f), key);
    }
  }

  /** A step adds one cable exactly for a LineString, after the others, with the feature's index and positions. */
  lemma StepCables(st: State, f: Feature, index: nat, key: Pos -> string)
    ensures var st2 := Step(st, f, index, key);
      |st2.cables| == |st.cables| + (if IsLineString(f) then 1 else 0)
      && st2.cables[..|st.cables|] == st.cables
    ensures IsLineString(f) ==>
      Step(st, f, index, key).cables[|st.cables|].id == CableId(index)
      && Step(st, f, index, key).cables[|st.cables|].coordinates == Positions(f.geometry.value)
  {
    if IsLineString(f) {
      WithCableCables(st, BareCable(f, index), PropsOf(f), key);
    } else {
      assert st.cables[..|st.cables|] == st.cables;
    }
  }

  /** Adding a cable appends it, with its id and positions, after the others. */
  lemma WithCableCables(st: State, cable: Cable, props: CableProps, key: Pos -> string)
    ensures var st2 := WithCable(st, cable, props, key);
      |st2.cables| == |st.cables| + 1 && st2.cables[..|st.cables|] == st.cables
      && st2.cables[|st.cables|].id == cable.id && st2.cables[|st.cables|].coordinates == cable.coordinates
  {
    var coords := cable.coordinates;
    if |coords| < 2 {
      AppendCable(st.cables, cable);
    } else {
      WithEndsCables(st, cable, props, key(coords[0]), key(coords[|coords| - 1]));
    }
  }

  /** Adding a cable with its ends appends one cable with its id and positions. */
  lemma WithEndsCables(st: State, cable: Cable, props: CableProps, startKey: string, endKey: string)
    requires |cable.coordinates| >= 2
    ensures var st2 := WithEnds(st, cable, props, startKey, endKey);
      |st2.cables| == |st.cables| + 1 && st2.cables[..|st.cables|] == st.cables
      && st2.cables[|st.cables|].id == cable.id && st2.cables[|st.cables|].coordinates == cable.coordinates
  {
    var ends := AddEnds(st.points, st.order, startKey, endKey, cable.coordinates, props);
    AppendCable(st.cables, cable.(landingPoints := ends.attached));
  }

  /** The walk keeps the invariant. */
  lemma {:induction false} WalkWellFormed(fs: seq<Feature>, key: Pos -> string)
    ensures WellFormed(Walk(fs, key))
  {
    if fs != [] {
      WalkWellFormed(fs[..|fs| - 1], key);
      StepKeeps(Walk(fs[..|fs| - 1], key), fs[|fs| - 1], |fs| - 1, key);
    }
  }

  /** The positions of the LineString features, in order. */
  function LineStrings(fs: seq<Feature>): (r: seq<nat>)
    ensures forall j :: 0 <= j < |r| ==> r[j] < |fs| && IsLineString(fs[r[j]])
  {
    if fs == [] then []
    else LineStrings(fs[..|fs| - 1]) + (if IsLineString(fs[|fs| - 1]) then [|fs| - 1] else [])
  }

  /** The positions listed are increasing, and every LineString feature is listed. */
  lemma {:induction false} LineStringsExactly(fs: seq<Feature>)
    ensures var r := LineStrings(fs);
      (forall j, k :: 0 <= j < k < |r| ==> r[j] < r[k])
      && (forall i :: 0 <= i < |fs| && IsLineString(fs[i]) ==> i in r)
  {
    if fs != [] {
      var init := fs[..|fs| - 1];
      LineStringsExactly(init);
      assert forall i :: 0 <= i < |init| ==> init[i] == fs[i];
    }
  }

  /**
   * The j-th cable comes from the j-th LineString feature: it carries that
   * feature's index in its id and that feature's positions.
   */
  lemma {:induction false} CablesFollowFeatures(fs: seq<Feature>, key: Pos -> string)
    ensures |Walk(fs, key).cables| == |LineStrings(fs)|
    ensures forall j :: 0 <= j < |Walk(fs, key).cables| ==>
      Walk(fs, key).cables[j].id == CableId(LineStrings(fs)[j])
      && Walk(fs, key).cables[j].coordinates == Positions(fs[LineStrings(fs)[j]].geometry.value)
  {
    if fs != [] {
      var init := fs[..|fs| - 1];
      var f := fs[|fs| - 1];
      CablesFollowFeatures(init, key);
      StepCables(Walk(init, key), f, |fs| - 1, key);
      var cs, cs0 := Walk(fs, key).cables, Walk(init, key).cables;
      var r, r0 := LineStrings(fs), LineStrings(init);
      assert r == r0 + (if IsLineString(f) then [|fs| - 1] else []);
      forall j | 0 <= j < |cs|
        ensures cs[j].id == CableId(r[j]) && cs[j].coordinates == Positions(fs[r[j]].geometry.value)
      {
        if j < |cs0| {
          assert cs[j] == cs0[j] && r[j] == r0[j] && fs[r[j]] == init[r0[j]];
        }
      }
    }
  }

  /**
   * processSubmarineCables: `[]` when the data or its features are missing;
   * otherwise the walk over the features, building the cables, the
   * landing-point map and the map's insertion order.
   */
  method ProcessSubmarineCables(features: Option<seq<Feature>>) returns (r: CableResult)
    ensures r == Processed(features)
  {
    if features.None? {
      return NoFeatures;
    }
    var fs := features.value;
    var cables: seq<Cable> := [];
    var points: map<string, LandingPoint> := map[];
    var order: seq<string> := [];
    var index := 0;
    while index < |fs|
      invariant index <= |fs|
      invariant State(cables, points, order) == Walk(fs[..index], LandingKey)
    {
      assert fs[..index + 1][..index] == fs[..index];
      cables, points, order := ProcessFeature(cables, points, order, fs[index], index);
      index := index + 1;
    }
    assert fs[..index] == fs;
    var landingPoints := PointsInOrder(points, order);
    return CableSet(cables, landingPoints);
  }

  /**
   * The callback run on each feature: a LineString becomes a cable; when it
   * has two positions or more, each end whose key is new becomes a landing
   * point of the map and of the cable.
   */
  method ProcessFeature(cables: seq<Cable>, points: map<string, LandingPoint>, order: seq<string>, f: Feature, index: nat)
    returns (cables2: seq<Cable>, points2: map<string, LandingPoint>, order2: seq<string>)
    ensures State(cables2, points2, order2) == Step(State(cables, points, order), f, index, LandingKey)
  {
    cables2, points2, order2 := cables, points, order;
    if !IsLineString(f) {
      return;
    }
    var cable := BareCable(f, index);
    var coordinates := cable.coordinates;
    var props := PropsOf(f);
    if |coordinates| < 2 {
      cables2 := cables + [cable];
      return;
    }
    var startId := LandingKey(coordinates[0]);
    var endId := LandingKey(coordinates[|coordinates| - 1]);
    var attached: seq<LandingPoint>;
    points2, order2, attached := AttachEnds(points, order, startId, endId, coordinates, props);
    cables2 := cables + [cable.(landingPoints := attached)];
  }

  /** Looks up both ends of a cable, start first, adding each whose key is new to the map and to the cable. */
  method AttachEnds(points: map<string, LandingPoint>, order: seq<string>, startId: string, endId: string, coords: seq<Pos>, props: CableProps)
    returns (points2: map<string, LandingPoint>, order2: seq<string>, attached: seq<LandingPoint>)
    requires |coords| >= 2
    ensures Added(points2, order2, attached) == AddEnds(points, order, startId, endId, coords, props)
  {
    points2, order2, attached := points, order, [];
    var startPoint := coords[0];
    var endPoint := coords[|coords| - 1];
    if startId !in points2 {
      var startLanding := LandingPoint(LandingId(startId),
        TextOr(props.startPoint, None, "Unknown Start Point"), TextOr(props.startCountry, None, "Unknown"), startPoint);
      points2 := points2[startId := startLanding];
      order2 := order2 + [startId];
      attached := attached + [startLanding];
    }
    if endId !in points2 {
      var endLanding := LandingPoint(LandingId(endId),
        TextOr(props.endPoint, None, "Unknown End Point"), TextOr(props.endCountry, None, "Unknown"), endPoint);
      points2 := points2[endId := endLanding];
      order2 := order2 + [endId];
      attached := attached + [endLanding];
    }
  }

  /**
   * The landing points are exactly the distinct map values: their ids are
   * distinct, and each is attached to exactly one cable, in order.
   */
  lemma LandingPointsDistinct(fs: seq<Feature>)
    ensures var r := Processed(Some(fs));
      AttachedPoints(r.cables) == r.landingPoints
      && forall i, j :: 0 <= i < j < |r.landingPoints| ==> r.landingPoints[i].id != r.landingPoints[j].id
  {
    var st := Walk(fs, LandingKey);
    WalkWellFormed(fs, LandingKey);
    var lps := PointsInOrder(st.points, st.order);
    forall i, j | 0 <= i < j < |lps|
      ensures lps[i].id != lps[j].id
    {
      PointsInOrderIndex(st.points, st.order, i);
      PointsInOrderIndex(st.points, st.order, j);
      assert LandingId(st.order[i])[8..] == st.order[i];
      assert LandingId(st.order[j])[8..] == st.order[j];
    }
  }

  lemma {:induction false} PointsInOrderIndex(points: map<string, LandingPoint>, order: seq<string>, i: nat)
    requires Listed(points, order)
    requires i < |order|
    ensures |PointsInOrder(points, order)| == |order| && PointsInOrder(points, order)[i] == points[order[i]]
  {
    var init := order[..|order| - 1];
    if i < |order| - 1 {
      PointsInOrderIndex(points, init, i);
    } else if init != [] {
      PointsInOrderIndex(points, init, |init| - 1);
    }
  }

  /** The keys of a cable's two ends, when it has two positions or more. */
  function EndKeys(c: Cable, key: Pos -> string): set<string>
  {
    var cs := c.coordinates;
    if |cs| < 2 then {} else {key(cs[0]), key(cs[|cs| - 1])}
  }

  /** Whether some cable of `cables` has an end keyed `k`. */
  predicate Claimed(cables: seq<Cable>, k: string, key: Pos -> string)
  {
    cables != [] && (Claimed(cables[..|cables| - 1], k, key) || k in EndKeys(cables[|cables| - 1], key))
  }

  /**
   * The keys of the landing points a cable gets when `before` are the cables
   * ahead of it: its ends, start first, whose keys no earlier cable has at an
   * end, each once.
   */
  function NewEnds(before: seq<Cable>, c: Cable, key: Pos -> string): (r: seq<string>)
    ensures forall k :: k in r <==> k in EndKeys(c, key) && !Claimed(before, k, key)
    ensures NoDuplicates(r)
  {
    var cs := c.coordinates;
    if |cs| < 2 then []
    else
      var s, e := key(cs[0]), key(cs[|cs| - 1]);
      (if Claimed(before, s, key) then [] else [s])
      + (if Claimed(before, e, key) || e == s then [] else [e])
  }

  /** The map's points under the given keys, in order. */
  function LandingsAt(points: map<string, LandingPoint>, ks: seq<string>): (r: seq<LandingPoint>)
    requires forall k :: k in ks ==> k in points
    ensures |r| == |ks| && forall i :: 0 <= i < |ks| ==> r[i] == points[ks[i]]
  {
    seq(|ks|, i requires 0 <= i < |ks| => points[ks[i]])
  }

  /** A cable carries the map's points for the keys of its new ends. */
  ghost predicate CarriesNewEnds(before: seq<Cable>, c: Cable, points: map<string, LandingPoint>, key: Pos -> string) {
    var ks := NewEnds(before, c, key);
    (forall k :: k in ks ==> k in points) && c.landingPoints == LandingsAt(points, ks)
  }

  /**
   * The attachment invariant of the walk: the map holds exactly the keys of
   * the cables' ends, and each cable carries the points of its new ends.
   */
  ghost predicate AttachedFirst(st: State, key: Pos -> string) {
    (forall k :: k in st.points <==> Claimed(st.cables, k, key))
    && forall j :: 0 <= j < |st.cables| ==> CarriesNewEnds(st.cables[..j], st.cables[j], st.points, key)
  }

  /** Appending a cable claims its end keys and keeps every other claim. */
  lemma ClaimedAppend(cables: seq<Cable>, c: Cable, k: string, key: Pos -> string)
    ensures Claimed(cables + [c], k, key) <==> Claimed(cables, k, key) || k in EndKeys(c, key)
  {
    assert (cables + [c])[..|cables|] == cables;
  }

  /** The key of an end of any cable is claimed. */
  lemma {:induction false} ClaimedAt(cables: seq<Cable>, j: nat, k: string, key: Pos -> string)
    requires j < |cables| && k in EndKeys(cables[j], key)
    ensures Claimed(cables, k, key)
  {
    if j < |cables| - 1 {
      ClaimedAt(cables[..|cables| - 1], j, k, key);
    }
  }

  /**
   * Adding both ends grows the map by the two keys, keeps the points already
   * there, and attaches the points of the ends whose keys were new, start
   * first.
   */
  lemma AddEndsAttaches(points: map<string, LandingPoint>, order: seq<string>, startKey: string, endKey: string, coords: seq<Pos>, props: CableProps)
    requires |coords| >= 2
    ensures var a := AddEnds(points, order, startKey, endKey, coords, props);
      (forall k :: k in a.points <==> k in points || k == startKey || k == endKey)
      && (forall k :: k in points ==> a.points[k] == points[k])
      && a.attached == LandingsAt(a.points, (if startKey in points then [] else [startKey])
                                          + (if endKey in points || endKey == startKey then [] else [endKey]))
  {
  }

  /** Adding a cable keeps the attachment invariant. */
  lemma WithCableAttaches(st: State, cable: Cable, props: CableProps, key: Pos -> string)
    requires AttachedFirst(st, key) && cable.landingPoints == []
    ensures AttachedFirst(WithCable(st, cable, props, key), key)
  {
    var cs := cable.coordinates;
    if |cs| < 2 {
      AppendAttaches(st, cable, st.points, st.order, key);
    } else {
      WithEndsAttaches(st, cable, props, key(cs[0]), key(cs[|cs| - 1]), key);
    }
  }

  /** Adding a cable of two positions or more, its ends keyed as given, keeps the attachment invariant. */
  lemma WithEndsAttaches(st: State, cable: Cable, props: CableProps, startKey: string, endKey: string, key: Pos -> string)
    requires AttachedFirst(st, key) && |cable.coordinates| >= 2
    requires startKey == key(cable.coordinates[0]) && endKey == key(cable.coordinates[|cable.coordinates| - 1])
    ensures AttachedFirst(WithEnds(st, cable, props, startKey, endKey), key)
  {
    var ends := AddEnds(st.points, st.order, startKey, endKey, cable.coordinates, props);
    var c := cable.(landingPoints := ends.attached);
    AddEndsAttaches(st.points, st.order, startKey, endKey, cable.coordinates, props);
    assert EndKeys(c, key) == {startKey, endKey};
    assert NewEnds(st.cables, c, key)
      == (if startKey in st.points then [] else [startKey])
         + (if endKey in st.points || endKey == startKey then [] else [endKey]);
    AppendAttaches(st, c, ends.points, ends.order, key);
  }

  /**
   * Appending a cable keeps the attachment invariant when the map grows by
   * exactly its end keys, keeps the points it had, and the cable carries the
   * points of its new ends.
   */
  lemma AppendAttaches(st: State, c: Cable, points2: map<string, LandingPoint>, order2: seq<string>, key: Pos -> string)
    requires AttachedFirst(st, key)
    requires forall k :: k in points2 <==> k in st.points || k in EndKeys(c, key)
    requires forall k :: k in st.points ==> points2[k] == st.points[k]
    requires CarriesNewEnds(st.cables, c, points2, key)
    ensures AttachedFirst(State(st.cables + [c], points2, order2), key)
  {
    var cables2 := st.cables + [c];
    forall k
      ensures k in points2 <==> Claimed(cables2, k, key)
    {
      ClaimedAppend(st.cables, c, k, key);
    }
    forall j | 0 <= j < |cables2|
      ensures CarriesNewEnds(cables2[..j], cables2[j], points2, key)
    {
      if j < |st.cables| {
        assert cables2[..j] == st.cables[..j] && cables2[j] == st.cables[j];
        CarriesGrow(st.cables[..j], st.cables[j], st.points, points2, key);
      } else {
        assert cables2[..j] == st.cables;
      }
    }
  }

  /** A cable carries the same points once the map has grown without changing the points it had. */
  lemma CarriesGrow(before: seq<Cable>, c: Cable, points: map<string, LandingPoint>, points2: map<string, LandingPoint>, key: Pos -> string)
    requires CarriesNewEnds(before, c, points, key)
    requires forall k :: k in points ==> k in points2 && points2[k] == points[k]
    ensures CarriesNewEnds(before, c, points2, key)
  {
    var ks := NewEnds(before, c, key);
    assert LandingsAt(points2, ks) == LandingsAt(points, ks);
  }

  /** The walk keeps the attachment invariant. */
  lemma {:induction false} WalkAttachesFirst(fs: seq<Feature>, key: Pos -> string)
    ensures AttachedFirst(Walk(fs, key), key)
  {
    if fs != [] {
      var init := fs[..|fs| - 1];
      var f := fs[|fs| - 1];
      WalkAttachesFirst(init, key);
      if IsLineString(f) {
        WithCableAttaches(Walk(init, key), BareCable(f, |fs| - 1), PropsOf(f), key);
      }
    }
  }

  /**
   * The j-th cable got its landing points from the first cable to reach
   * their keys: both its end keys are in the map, it carries the points of
   * its new ends start first, and it carries the point of a key exactly when
   * the key is at one of its ends and at no end of an earlier cable.
   */
  ghost predicate FirstCableAt(st: State, j: nat, key: Pos -> string)
    requires j < |st.cables|
  {
    (forall k :: k in EndKeys(st.cables[j], key) ==> k in st.points)
    && st.cables[j].landingPoints == LandingsAt(st.points, NewEnds(st.cables[..j], st.cables[j], key))
    && forall k :: k in st.points ==>
         (st.points[k] in st.cables[j].landingPoints
          <==> k in EndKeys(st.cables[j], key) && !Claimed(st.cables[..j], k, key))
  }

  /** Each landing point goes to the first cable that reaches its key. */
  lemma WalkFirstCable(fs: seq<Feature>, key: Pos -> string)
    ensures forall j :: 0 <= j < |Walk(fs, key).cables| ==> FirstCableAt(Walk(fs, key), j, key)
  {
    var st := Walk(fs, key);
    WalkAttachesFirst(fs, key);
    WalkWellFormed(fs, key);
    forall j | 0 <= j < |st.cables|
      ensures FirstCableAt(st, j, key)
    {
      AttachedFirstAt(st, j, key);
    }
  }

  /** The attachment invariant gives the first-cable rule for each cable. */
  lemma AttachedFirstAt(st: State, j: nat, key: Pos -> string)
    requires WellFormed(st) && AttachedFirst(st, key) && j < |st.cables|
    ensures FirstCableAt(st, j, key)
  {
    var c := st.cables[j];
    var ks := NewEnds(st.cables[..j], c, key);
    assert CarriesNewEnds(st.cables[..j], c, st.points, key);
    forall k | k in EndKeys(c, key)
      ensures k in st.points
    {
      ClaimedAt(st.cables, j, k, key);
    }
    forall k | k in st.points && st.points[k] in c.landingPoints
      ensures k in ks
    {
      var i :| 0 <= i < |ks| && c.landingPoints[i] == st.points[k];
      assert LandingId(ks[i])[8..] == ks[i] && LandingId(k)[8..] == k;
    }
  }

  /** The listed points are the map's values, each under the id of its key. */
  lemma ListedValues(st: State)
    requires WellFormed(st)
    ensures var lps := PointsInOrder(st.points, st.order);
      (forall k :: k in st.points ==> st.points[k] in lps && st.points[k].id == LandingId(k))
      && (forall p :: p in lps ==> exists k :: k in st.points && p == st.points[k])
  {
    var lps := PointsInOrder(st.points, st.order);
    forall k | k in st.points
      ensures st.points[k] in lps
    {
      var i :| 0 <= i < |st.order| && st.order[i] == k;
      PointsInOrderIndex(st.points, st.order, i);
    }
    forall p | p in lps
      ensures exists k :: k in st.points && p == st.points[k]
    {
      var i :| 0 <= i < |lps| && lps[i] == p;
      PointsInOrderIndex(st.points, st.order, i);
    }
  }

  /**
   * The first-cable rule on the listed points: the point of each end of the
   * j-th cable is listed, and a listed point is attached to the j-th cable
   * exactly when its key is at one of the cable's ends and at no end of an
   * earlier cable.
   */
  ghost predicate ListedFirst(cables: seq<Cable>, lps: seq<LandingPoint>, j: nat)
    requires j < |cables|
  {
    (forall k :: k in EndKeys(cables[j], LandingKey) ==> exists p :: p in lps && p.id == LandingId(k))
    && forall p :: p in lps ==>
         (p in cables[j].landingPoints
          <==> exists k :: p.id == LandingId(k) && k in EndKeys(cables[j], LandingKey)
                           && !Claimed(cables[..j], k, LandingKey))
  }

  /** The first-cable rule of one cable carries over to the listed points. */
  lemma ListedFirstCable(st: State, j: nat)
    requires WellFormed(st) && j < |st.cables| && FirstCableAt(st, j, LandingKey)
    ensures ListedFirst(st.cables, PointsInOrder(st.points, st.order), j)
  {
    var lps := PointsInOrder(st.points, st.order);
    ListedValues(st);
    forall k | k in EndKeys(st.cables[j], LandingKey)
      ensures exists p :: p in lps && p.id == LandingId(k)
    {
      assert st.points[k] in lps && st.points[k].id == LandingId(k);
    }
    forall p | p in lps
      ensures p in st.cables[j].landingPoints
        <==> exists k :: p.id == LandingId(k) && k in EndKeys(st.cables[j], LandingKey)
                         && !Claimed(st.cables[..j], k, LandingKey)
    {
      var k' :| k' in st.points && p == st.points[k'];
      assert p.id == LandingId(k');
      forall k | p.id == LandingId(k)
        ensures k == k'
      {
        assert LandingId(k)[8..] == k && LandingId(k')[8..] == k';
      }
    }
  }

  /**
   * What processSubmarineCables returns attaches each landing point to the
   * first cable that reaches its key, and the ends of every cable of two
   * positions or more are among the landing points.
   */
  lemma LandingPointsFirstCable(fs: seq<Feature>)
    ensures var r := Processed(Some(fs));
      forall j :: 0 <= j < |r.cables| ==> ListedFirst(r.cables, r.landingPoints, j)
  {
    var st := Walk(fs, LandingKey);
    WalkWellFormed(fs, LandingKey);
    WalkFirstCable(fs, LandingKey);
    ListedFirstAll(st);
  }

  lemma ListedFirstAll(st: State)
    requires WellFormed(st) && forall j :: 0 <= j < |st.cables| ==> FirstCableAt(st, j, LandingKey)
    ensures forall j :: 0 <= j < |st.cables| ==> ListedFirst(st.cables, PointsInOrder(st.points, st.order), j)
  {
    forall j | 0 <= j < |st.cables|
      ensures ListedFirst(st.cables, PointsInOrder(st.points, st.order), j)
    {
      ListedFirstCable(st, j);
    }
  }

  /** A lone cable whose two ends print differently yields two landing points, start first. */
  lemma TwoEndedCable(f: Feature)
    requires IsLineString(f) && |f.geometry.value.coordinates| >= 2
    requires var ps := Positions(f.geometry.value); LandingKey(ps[0]) != LandingKey(ps[|ps| - 1])
    ensures var r := Processed(Some([f]));
      |r.cables| == 1 && |r.landingPoints| == 2
      && r.cables[0].landingPoints == r.landingPoints
      && r.landingPoints[0].coordinates == Positions(f.geometry.value)[0]
  {
    LoneCable(f, LandingKey);
  }

  /** The same for any key function: the walk over one cable whose end keys differ. */
  lemma LoneCable(f: Feature, key: Pos -> string)
    requires IsLineString(f) && |f.geometry.value.coordinates| >= 2
    requires var ps := Positions(f.geometry.value); key(ps[0]) != key(ps[|ps| - 1])
    ensures var st := Walk([f], key);
      var lps := PointsInOrder(st.points, st.order);
      |st.cables| == 1 && |lps| == 2 && st.cables[0].landingPoints == lps
      && lps[0].coordinates == Positions(f.geometry.value)[0]
  {
    WalkOfOne(f, key);
    FreshEnds(BareCable(f, 0), PropsOf(f), key);
  }

  /** Walking a single LineString feature is one cable step from the empty state. */
  lemma WalkOfOne(f: Feature, key: Pos -> string)
    requires IsLineString(f)
    ensures Walk([f], key) == WithCable(State([], map[], []), BareCable(f, 0), PropsOf(f), key)
  {
    assert [f][..0] == [];
  }

  /** From the empty state, a cable whose ends have different keys gets both ends as new landing points. */
  lemma FreshEnds(cable: Cable, props: CableProps, key: Pos -> string)
    requires var cs := cable.coordinates; |cs| >= 2 && key(cs[0]) != key(cs[|cs| - 1])
    ensures var st := WithCable(State([], map[], []), cable, props, key);
      var lps := PointsInOrder(st.points, st.order);
      |st.cables| == 1 && |lps| == 2 && st.cables[0].landingPoints == lps
      && lps[0].coordinates == cable.coordinates[0]
  {
    var cs := cable.coordinates;
    var startKey, endKey := key(cs[0]), key(cs[|cs| - 1]);
    var st := WithEnds(State([], map[], []), cable, props, startKey, endKey);
    assert st.order == [startKey, endKey];
    assert PointsInOrder(st.points, [startKey]) == [st.points[startKey]] by {
      assert [startKey][..0] == [];
    }
    assert [startKey, endKey][..1] == [startKey];
  }

  /** isNorthAmericanCoordinate: inside the box, bounds included; never for NaN. */
  predicate IsNorthAmericanCoordinate(lat: JsNum, lng: JsNum)
    ensures IsNorthAmericanCoordinate(lat, lng) ==> lat.Num? && lng.Num? && 0.0 < lat.value && lng.value < 0.0
  {
    lat.Num? && lng.Num? && 10.0 <= lat.value <= 85.0 && -170.0 <= lng.value <= -50.0
  }

  const NaCountries: seq<string> := ["Canada", "United States", "Mexico", "Greenland", "Alaska", "Hawaii", "Puerto Rico", "US Virgin Islands"]

  const NaRegions: seq<string> := ["North America", "North American", "Canada", "US", "USA", "United States", "Mexico", "Alaska", "Hawaii"]

  /** Whether some entry of `words`, lower-cased, occurs in `text`. */
  predicate MentionsAny(text: string, words: seq<string>) {
    exists w :: w in words && Contains(text, ToLower(w))
  }

  /** The test on one landing point: a North-American country or region in its texts, or its position. */
  predicate IsNorthAmericanPoint(point: LandingPoint) {
    MentionsAny(ToLower(point.country), NaCountries)
    || MentionsAny(ToLower(point.name), NaRegions)
    || IsNorthAmericanCoordinate(point.coordinates.lat, point.coordinates.lng)
  }

  predicate ReachesNorthAmerica(cable: Cable) {
    exists i :: 0 <= i < |cable.landingPoints| && IsNorthAmericanPoint(cable.landingPoints[i])
  }

  /** filterNorthAmericaCables: the cables with at least one qualifying landing point, in order. */
  function FilterNorthAmericaCables(cables: seq<Cable>): (r: seq<Cable>)
    ensures forall c :: c in r <==> c in cables && ReachesNorthAmerica(c)
    ensures SubseqOf(r, cables)
  {
    FilterIsSubseq(cables, ReachesNorthAmerica);
    Filter(cables, ReachesNorthAmerica)
  }

  /**
   * The step of the simplification: the tolerance share of the point count,
   * rounded down, and at least 1.
   */
  function SimplifyStep(n: nat, tolerance: real): (step: nat)
    ensures step >= 1
  {
    var share := (n as real * tolerance).Floor;
    if share < 1 then 1 else share
  }

  /** The positions `from, from + step, from + 2 * step, ...` below `n`. */
  function Strided(from: nat, n: nat, step: nat): (r: seq<nat>)
    requires step >= 1
    ensures forall k :: 0 <= k < |r| ==> from <= r[k] < n
    ensures from < n ==> |r| >= 1 && r[0] == from && r[|r| - 1] + step >= n
    ensures from >= n ==> r == []
    decreases n - from
  {
    if from >= n then [] else [from] + Strided(from + step, n, step)
  }

  /** Strided positions increase. */
  lemma {:induction false} StridedIncreasing(from: nat, n: nat, step: nat)
    requires step >= 1
    ensures forall j, k :: 0 <= j < k < |Strided(from, n, step)| ==> Strided(from, n, step)[j] < Strided(from, n, step)[k]
    decreases n - from
  {
    if from < n {
      StridedIncreasing(from + step, n, step);
      var r := Strided(from, n, step);
      var tail := Strided(from + step, n, step);
      assert r == [from] + tail;
      forall j, k | 0 <= j < k < |r|
        ensures r[j] < r[k]
      {
        assert r[k] == tail[k - 1];
        assert from + step <= tail[k - 1];
        if j > 0 {
          assert r[j] == tail[j - 1];
          assert tail[j - 1] < tail[k - 1];
        }
      }
    }
  }

  /** Consecutive strided positions are `step` apart. */
  lemma {:induction false} StridedSpacing(from: nat, n: nat, step: nat, k: nat)
    requires step >= 1
    requires 0 < k < |Strided(from, n, step)|
    ensures Strided(from, n, step)[k] == Strided(from, n, step)[k - 1] + step
    decreases n - from
  {
    if k > 1 {
      StridedSpacing(from + step, n, step, k - 1);
    }
  }

  /** The kept positions: the strided ones, then the last one when the stride missed it. */
  function KeptPositions(n: nat, step: nat): (r: seq<nat>)
    requires n >= 1 && step >= 1
    ensures |r| >= 1 && r[0] == 0 && r[|r| - 1] == n - 1
    ensures forall k :: 0 <= k < |r| ==> r[k] < n
    ensures forall j, k :: 0 <= j < k < |r| ==> r[j] < r[k]
  {
    var strided := Strided(0, n, step);
    StridedIncreasing(0, n, step);
    if strided[|strided| - 1] != n - 1 then
      var r := strided + [n - 1];
      assert forall j :: 0 <= j < |strided| - 1 ==> strided[j] < strided[|strided| - 1];
      r
    else strided
  }

  /** The points at the given positions, built from the end. */
  function PointsAt<P>(coordinates: seq<P>, ks: seq<nat>): (r: seq<P>)
    requires forall k :: 0 <= k < |ks| ==> ks[k] < |coordinates|
    ensures |r| == |ks|
  {
    if ks == [] then [] else PointsAt(coordinates, ks[..|ks| - 1]) + [coordinates[ks[|ks| - 1]]]
  }

  /** The k-th point taken is the point at the k-th position. */
  lemma {:induction false} PointsAtIndex<P>(coordinates: seq<P>, ks: seq<nat>, k: nat)
    requires forall j :: 0 <= j < |ks| ==> ks[j] < |coordinates|
    requires k < |ks|
    ensures PointsAt(coordinates, ks)[k] == coordinates[ks[k]]
  {
    if k < |ks| - 1 {
      PointsAtIndex(coordinates, ks[..|ks| - 1], k);
    }
  }

  /**
   * The simplification keeps the first and the last point, keeps the order of
   * the points it keeps, and never keeps more points than it was given.
   */
  lemma SimplifiedEnds<P>(coordinates: seq<P>, step: nat)
    requires |coordinates| >= 1 && step >= 1
    ensures var r := PointsAt(coordinates, KeptPositions(|coordinates|, step));
      r[0] == coordinates[0] && r[|r| - 1] == coordinates[|coordinates| - 1]
      && |r| <= |coordinates|
  {
    var n := |coordinates|;
    var ks := KeptPositions(n, step);
    IncreasingBounded(ks, n);
    PointsAtIndex(coordinates, ks, 0);
    PointsAtIndex(coordinates, ks, |ks| - 1);
  }


  /** A strictly increasing list of positions below `n` has at most `n` entries. */
  lemma {:induction false} IncreasingBounded(ks: seq<nat>, n: nat)
    requires forall k :: 0 <= k < |ks| ==> ks[k] < n
    requires forall j, k :: 0 <= j < k < |ks| ==> ks[j] < ks[k]
    ensures |ks| <= n
  {
    if ks != [] {
      var init := ks[..|ks| - 1];
      IncreasingBounded(init, ks[|ks| - 1]);
    }
  }

  /**
   * simplifyGeometry: two points or fewer are returned as they are; otherwise
   * every `step`-th point from the first, then the last point unless it was
   * the last one taken. The source compares the last point taken with the
   * last point by reference; positions are compared here.
   */
  method SimplifyGeometry<P>(coordinates: seq<P>, tolerance: real) returns (simplified: seq<P>)
    ensures |coordinates| <= 2 ==> simplified == coordinates
    ensures |coordinates| > 2 ==>
      simplified == PointsAt(coordinates, KeptPositions(|coordinates|, SimplifyStep(|coordinates|, tolerance)))
  {
    var n := |coordinates|;
    if n <= 2 {
      return coordinates;
    }
    var share := (n as real * tolerance).Floor;
    var step := if share < 1 then 1 else share;
    assert step == SimplifyStep(n, tolerance);
    simplified := TakeEvery(coordinates, step);
  }

  /** The rest of simplifyGeometry: the strided points, then the last point if the stride missed it. */
  method TakeEvery<P>(coordinates: seq<P>, step: nat) returns (simplified: seq<P>)
    requires |coordinates| >= 1 && step >= 1
    ensures simplified == PointsAt(coordinates, KeptPositions(|coordinates|, step))
  {
    var n := |coordinates|;
    var last;
    simplified, last := TakeStrided(coordinates, step);
    TakeLast(coordinates, step);
    if last != n - 1 {
      simplified := simplified + [coordinates[n - 1]];
    }
  }

  /** The loop of simplifyGeometry: every `step`-th point from the first, and the position of the last one taken. */
  method TakeStrided<P>(coordinates: seq<P>, step: nat) returns (simplified: seq<P>, last: nat)
    requires |coordinates| >= 1 && step >= 1
    ensures var s := Strided(0, |coordinates|, step);
      simplified == PointsAt(coordinates, s) && last == s[|s| - 1]
  {
    var n := |coordinates|;
    simplified := [];
    ghost var s := Strided(0, n, step);
    ghost var count := 0;
    var i := 0;
    last := 0;
    while i < n
      invariant count <= |s|
      invariant count < |s| ==> i == s[count]
      invariant count == |s| ==> i >= n
      invariant simplified == PointsAt(coordinates, s[..count])
      invariant count > 0 ==> last == s[count - 1]
      decreases n - i
    {
      TakeNext(coordinates, step, count);
      simplified := simplified + [coordinates[i]];
      last := i;
      i := i + step;
      count := count + 1;
    }
    assert s[..count] == s;
  }

  /** One round of the loop: the next strided point is appended, and the one after it is `step` further on. */
  lemma TakeNext<P>(coordinates: seq<P>, step: nat, count: nat)
    requires step >= 1 && count < |Strided(0, |coordinates|, step)|
    ensures var s := Strided(0, |coordinates|, step);
      PointsAt(coordinates, s[..count + 1]) == PointsAt(coordinates, s[..count]) + [coordinates[s[count]]]
      && (count + 1 < |s| ==> s[count + 1] == s[count] + step)
  {
    var s := Strided(0, |coordinates|, step);
    assert s[..count + 1][..count] == s[..count];
    if count + 1 < |s| {
      StridedSpacing(0, |coordinates|, step, count + 1);
    }
  }

  /** After the loop: the last point is added exactly when the stride missed it. */
  lemma TakeLast<P>(coordinates: seq<P>, step: nat)
    requires |coordinates| >= 1 && step >= 1
    ensures var s := Strided(0, |coordinates|, step);
      var n := |coordinates|;
      PointsAt(coordinates, KeptPositions(n, step))
        == PointsAt(coordinates, s) + (if s[|s| - 1] != n - 1 then [coordinates[n - 1]] else [])
  {
    var n := |coordinates|;
    var s := Strided(0, n, step);
    if s[|s| - 1] != n - 1 {
      assert KeptPositions(n, step) == s + [n - 1];
      assert (s + [n - 1])[..|s|] == s;
    }
  }
}
