/**
 * The geometry helpers of the map front end: the centre and the bounding box
 * of a (possibly nested) list of `[lng, lat]` positions, and the inclusive
 * point-in-box test.
 */
module Geo {
  
  /** A JavaScript number as these helpers meet it: finite, one of the infinities, or NaN. */
  datatype Num = Fin(v: real) | PosInf | NegInf | NaN

  /** `a <= b` on numbers: false whenever NaN is involved. */
  predicate Le(a: Num, b: Num) {
    match (a, b)
    case (NaN, _) => false
    case (_, NaN) => false
    case (NegInf, _) => true
    case (_, PosInf) => true
    case (Fin(x), Fin(y)) => x <= y
    case _ => false
  }

  /** `Math.min`: NaN when either argument is NaN, else the smaller. */
  function Min(a: Num, b: Num): (r: Num)
    ensures r.NaN? <==> a.NaN? || b.NaN?
    ensures !r.NaN? ==> Le(r, a) && Le(r, b) && (r == a || r == b)
  {
    if a.NaN? || b.NaN? then NaN else if Le(a, b) then a else b
  }

  /** `Math.max`: NaN when either argument is NaN, else the larger. */
  function Max(a: Num, b: Num): (r: Num)
    ensures r.NaN? <==> a.NaN? || b.NaN?
    ensures !r.NaN? ==> Le(a, r) && Le(b, r) && (r == a || r == b)
  {
    if a.NaN? || b.NaN? then NaN else if Le(a, b) then b else a
  }

  /** `(a + b) / 2`, with `Infinity + -Infinity` giving NaN. */
  function Mid(a: Num, b: Num): Num
  {
    match (a, b)
    case (Fin(x), Fin(y)) => Fin((x + y) / 2.0)
    case (NaN, _) => NaN
    case (_, NaN) => NaN
    case (PosInf, NegInf) => NaN
    case (NegInf, PosInf) => NaN
    case (PosInf, _) => PosInf
    case (NegInf, _) => NegInf
    case (_, PosInf) => PosInf
    case (_, NegInf) => NegInf
  }

  /**
   * A value in the coordinate lists: a number, an array, an object carrying
   * an array under `coordinates` (a GeoJSON geometry), or any other value.
   */
  datatype Value = Number(x: real) | Array(elements: seq<Value>) | Nested(coordinates: seq<Value>) | Other

  /** A component read as a number: only a number is one here; any other value reads as NaN. */
  function ToNumber(v: Value): Num
  {
    if v.Number? then Fin(v.x) else NaN
  }

  /** The number of values in a value, counting every nested one. */
  function Size(v: Value): nat
    decreases v
  {
    match v
    case Number(_) => 1
    case Array(es) => 1 + SizeAll(es)
    case Nested(cs) => 1 + SizeAll(cs)
    case Other => 1
  }

  function SizeAll(vs: seq<Value>): nat
    decreases vs
  {
    if vs == [] then 0 else Size(vs[0]) + SizeAll(vs[1..])
  }

  /** A list nested in an entry is smaller than the list holding the entry. */
  lemma {:induction false} NestedSmaller(vs: seq<Value>, i: nat)
    requires i < |vs|
    ensures Size(vs[i]) <= SizeAll(vs)
    ensures vs[i].Nested? ==> SizeAll(vs[i].coordinates) < SizeAll(vs)
  {
    if i > 0 {
      NestedSmaller(vs[1..], i - 1);
    }
  }

  datatype Point = Point(lng: Num, lat: Num)

  /** `Array.isArray(coord) && coord.length >= 2`: a position, read as `[lng, lat]`. */
  predicate IsPosition(v: Value) {
    v.Array? && |v.elements| >= 2
  }

  function PositionOf(v: Value): Point
    requires IsPosition(v)
  {
    Point(ToNumber(v.elements[0]), ToNumber(v.elements[1]))
  }

  /** The running bounds: `{minLng, minLat, maxLng, maxLat}`. */
  datatype BBox = BBox(minLng: Num, minLat: Num, maxLng: Num, maxLat: Num)

  /** The bounds before any position: minima at Infinity, maxima at -Infinity. */
  const NoBounds := BBox(PosInf, PosInf, NegInf, NegInf)

  /** The bounds getBoundingBox gives for an empty list: the whole world. */
  const World := BBox(Fin(-180.0), Fin(-90.0), Fin(180.0), Fin(90.0))

  /** The bounds widened to take in one point. */
  function Absorb(b: BBox, p: Point): BBox
  {
    BBox(Min(b.minLng, p.lng), Min(b.minLat, p.lat), Max(b.maxLng, p.lng), Max(b.maxLat, p.lat))
  }

  /** The bounds widened to take in another box. */
  function Merge(b: BBox, c: BBox): BBox
  {
    BBox(Min(b.minLng, c.minLng), Min(b.minLat, c.minLat), Max(b.maxLng, c.maxLng), Max(b.maxLat, c.maxLat))
  }

  function MidPoint(b: BBox): Point
  {
    Point(Mid(b.minLng, b.maxLng), Mid(b.minLat, b.maxLat))
  }

  // ---------------------------------------------------------------------
  // getCenter
  // ---------------------------------------------------------------------

  /**
   * What getCenter returns: `[0, 0]` for an empty list, otherwise the middle
   * of the bounds of its positions, where a nested object contributes its
   * own centre. On a flat list of positions this is the middle of the
   * box getBoundingBox returns.
   */
  function Center(coordinates: seq<Value>): (r: Point)
    ensures IsFlat(coordinates) && coordinates != [] ==> r == MidPoint(BoundingBox(coordinates))
    decreases SizeAll(coordinates), 1
  {
    if coordinates == [] then Point(Fin(0.0), Fin(0.0))
    else
      assert IsFlat(coordinates) ==> CenterBounds(coordinates, |coordinates|) == BoxBounds(coordinates, |coordinates|) by {
        if IsFlat(coordinates) {
          FlatBoundsAgree(coordinates, |coordinates|);
        }
      }
      MidPoint(CenterBounds(coordinates, |coordinates|))
  }

  /** The bounds getCenter has gathered after the first `n` entries. */
  function CenterBounds(coordinates: seq<Value>, n: nat): BBox
    requires n <= |coordinates|
    decreases SizeAll(coordinates), 0, n, 0
  {
    if n == 0 then NoBounds
    else
      var b := CenterBounds(coordinates, n - 1);
      var coord := coordinates[n - 1];
      NestedSmaller(coordinates, n - 1);
      if IsPosition(coord) then Absorb(b, PositionOf(coord))
      else if coord.Nested? then Absorb(b, Center(coord.coordinates))
      else b
  }

  /**
   * getCenter: the running minima and maxima over the entries, a nested
   * object's own centre standing for the object.
   */
  method GetCenter(coordinates: seq<Value>) returns (center: Point)
    ensures center == Center(coordinates)
    decreases SizeAll(coordinates)
  {
    if |coordinates| == 0 {
      return Point(Fin(0.0), Fin(0.0));
    }
    var minX, maxX, minY, maxY := PosInf, NegInf, PosInf, NegInf;
    for i := 0 to |coordinates|
      invariant BBox(minX, minY, maxX, maxY) == CenterBounds(coordinates, i)
    {
      var coord := coordinates[i];
      NestedSmaller(coordinates, i);
      if IsPosition(coord) {
        var lng, lat := ToNumber(coord.elements[0]), ToNumber(coord.elements[1]);
        minX := Min(minX, lng);
        maxX := Max(maxX, lng);
        minY := Min(minY, lat);
        maxY := Max(maxY, lat);
      } else if coord.Nested? {
        var inner := GetCenter(coord.coordinates);
        minX := Min(minX, inner.lng);
        maxX := Max(maxX, inner.lng);
        minY := Min(minY, inner.lat);
        maxY := Max(maxY, inner.lat);
      }
    }
    center := Point(Mid(minX, maxX), Mid(minY, maxY));
  }

  // ---------------------------------------------------------------------
  // getBoundingBox
  // ---------------------------------------------------------------------

  /** processCoordinate: a position widens the bounds; anything else leaves them. */
  function ProcessCoordinate(b: BBox, coord: Value): BBox
  {
    if IsPosition(coord) then Absorb(b, PositionOf(coord)) else b
  }

  /** `coord.forEach(processCoordinate)` over the first `k` elements. */
  function ProcessAll(b: BBox, coords: seq<Value>, k: nat): BBox
    requires k <= |coords|
  {
    if k == 0 then b else ProcessCoordinate(ProcessAll(b, coords, k - 1), coords[k - 1])
  }

  /** An array whose first element is an array holds several positions. */
  predicate IsPositionList(coord: Value) {
    coord.Array? && |coord.elements| > 0 && coord.elements[0].Array?
  }

  /**
   * What getBoundingBox returns: the world for an empty list, else the bounds
   * of every position in it. Every position it takes in, at any depth, lies
   * inside the box unless a NaN reached one of the bounds.
   */
  function BoundingBox(coordinates: seq<Value>): (r: BBox)
    ensures !HasNaN(r) ==> Covers(r, Positions(coordinates))
    decreases SizeAll(coordinates), 1
  {
    if coordinates == [] then World
    else
      BoxBoundsCover(coordinates, |coordinates|);
      BoxBounds(coordinates, |coordinates|)
  }

  /** The bounds getBoundingBox has gathered after the first `n` entries. */
  function BoxBounds(coordinates: seq<Value>, n: nat): BBox
    requires n <= |coordinates|
    decreases SizeAll(coordinates), 0, n, 0
  {
    if n == 0 then NoBounds
    else
      var b := BoxBounds(coordinates, n - 1);
      var coord := coordinates[n - 1];
      NestedSmaller(coordinates, n - 1);
      if coord.Nested? then Merge(b, BoundingBox(coord.coordinates))
      else if IsPositionList(coord) then ProcessAll(b, coord.elements, |coord.elements|)
      else ProcessCoordinate(b, coord)
  }

  /** The inner `coord.forEach(processCoordinate)` loop. */
  method ProcessPositions(b: BBox, coords: seq<Value>) returns (r: BBox)
    ensures r == ProcessAll(b, coords, |coords|)
  {
    r := b;
    for k := 0 to |coords|
      invariant r == ProcessAll(b, coords, k)
    {
      r := ProcessCoordinate(r, coords[k]);
    }
  }

  /**
   * getBoundingBox: the running bounds over the entries; a nested object
   * contributes its own box, an array of positions each position, and a
   * single position itself.
   */
  method GetBoundingBox(coordinates: seq<Value>) returns (box: BBox)
    ensures box == BoundingBox(coordinates)
    decreases SizeAll(coordinates)
  {
    if |coordinates| == 0 {
      return World;
    }
    box := NoBounds;
    for i := 0 to |coordinates|
      invariant box == BoxBounds(coordinates, i)
    {
      var coord := coordinates[i];
      NestedSmaller(coordinates, i);
      if coord.Nested? {
        var inner := GetBoundingBox(coord.coordinates);
        box := Merge(box, inner);
      } else if coord.Array? {
        if |coord.elements| > 0 && coord.elements[0].Array? {
          box := ProcessPositions(box, coord.elements);
        } else {
          box := ProcessCoordinate(box, coord);
        }
      }
    }
  }

  // ---------------------------------------------------------------------
  // isPointInBoundingBox
  // ---------------------------------------------------------------------

  /**
   * isPointInBoundingBox: all four comparisons inclusive. No point is inside
   * a box whose bounds are out of order, and no point with a NaN is inside any.
   */
  predicate IsPointInBoundingBox(p: Point, b: BBox)
    ensures IsPointInBoundingBox(p, b) ==>
              Le(b.minLng, b.maxLng) && Le(b.minLat, b.maxLat) && !p.lng.NaN? && !p.lat.NaN?
  {
    Le(b.minLng, p.lng) && Le(p.lng, b.maxLng) && Le(b.minLat, p.lat) && Le(p.lat, b.maxLat)
  }

  /** The bounds are inclusive: the corners of a box are inside it. */
  lemma CornersInside(b: BBox)
    requires b.minLng.Fin? && b.maxLng.Fin? && b.minLat.Fin? && b.maxLat.Fin?
    requires b.minLng.v <= b.maxLng.v && b.minLat.v <= b.maxLat.v
    ensures IsPointInBoundingBox(Point(b.minLng, b.minLat), b)
    ensures IsPointInBoundingBox(Point(b.maxLng, b.maxLat), b)
  {
  }

  // ---------------------------------------------------------------------
  // Properties
  // ---------------------------------------------------------------------

  predicate HasNaN(b: BBox) {
    b.minLng.NaN? || b.minLat.NaN? || b.maxLng.NaN? || b.maxLat.NaN?
  }

  /**
   * Box `c` lies within box `b`, each bound compared on its own; the
   * infinite bounds of a box with no position yet compare as they should.
   */
  predicate Within(c: BBox, b: BBox) {
    Le(b.minLng, c.minLng) && Le(b.minLat, c.minLat) && Le(c.maxLng, b.maxLng) && Le(c.maxLat, b.maxLat)
  }

  lemma LeTrans(a: Num, b: Num, c: Num)
    requires Le(a, b) && Le(b, c)
    ensures Le(a, c)
  {
  }

  lemma WithinTrans(a: BBox, b: BBox, c: BBox)
    requires Within(a, b) && Within(b, c)
    ensures Within(a, c)
  {
    LeTrans(c.minLng, b.minLng, a.minLng);
    LeTrans(c.minLat, b.minLat, a.minLat);
    LeTrans(a.maxLng, b.maxLng, c.maxLng);
    LeTrans(a.maxLat, b.maxLat, c.maxLat);
  }

  /** Widening by a point keeps a NaN bound, and otherwise takes in the point and the old box. */
  lemma AbsorbWidens(b: BBox, p: Point)
    ensures HasNaN(b) ==> HasNaN(Absorb(b, p))
    ensures !HasNaN(Absorb(b, p)) ==> IsPointInBoundingBox(p, Absorb(b, p)) && Within(b, Absorb(b, p))
  {
  }

  /** Merging keeps a NaN bound of either box, and otherwise takes in both boxes. */
  lemma MergeWidens(b: BBox, c: BBox)
    ensures HasNaN(b) || HasNaN(c) ==> HasNaN(Merge(b, c))
    ensures !HasNaN(Merge(b, c)) ==> Within(b, Merge(b, c)) && Within(c, Merge(b, c))
  {
  }

  /** A point inside a box is inside every box around it. */
  lemma InsideWider(p: Point, c: BBox, b: BBox)
    requires IsPointInBoundingBox(p, c) && Within(c, b)
    ensures IsPointInBoundingBox(p, b)
  {
    LeTrans(b.minLng, c.minLng, p.lng);
    LeTrans(b.minLat, c.minLat, p.lat);
    LeTrans(p.lng, c.maxLng, b.maxLng);
    LeTrans(p.lat, c.maxLat, b.maxLat);
  }

  /** The positions among the first `k` entries, in order: what processCoordinate takes in. */
  function PositionsIn(coords: seq<Value>, k: nat): seq<Point>
    requires k <= |coords|
  {
    if k == 0 then []
    else PositionsIn(coords, k - 1) + (if IsPosition(coords[k - 1]) then [PositionOf(coords[k - 1])] else [])
  }

  /** Every position getBoundingBox takes in, those of nested geometries included. */
  function Positions(coordinates: seq<Value>): seq<Point>
    decreases SizeAll(coordinates), 1
  {
    PositionsUpTo(coordinates, |coordinates|)
  }

  function PositionsUpTo(coordinates: seq<Value>, n: nat): seq<Point>
    requires n <= |coordinates|
    decreases SizeAll(coordinates), 0, n
  {
    if n == 0 then []
    else
      var coord := coordinates[n - 1];
      NestedSmaller(coordinates, n - 1);
      PositionsUpTo(coordinates, n - 1) +
        (if coord.Nested? then Positions(coord.coordinates)
         else if IsPositionList(coord) then PositionsIn(coord.elements, |coord.elements|)
         else PositionsIn([coord], 1))
  }

  predicate Covers(b: BBox, ps: seq<Point>) {
    forall i :: 0 <= i < |ps| ==> IsPointInBoundingBox(ps[i], b)
  }

  /** A box around a box covering some points covers them too. */
  lemma CoversWider(c: BBox, b: BBox, ps: seq<Point>)
    requires Covers(c, ps) && Within(c, b)
    ensures Covers(b, ps)
  {
    forall i | 0 <= i < |ps|
      ensures IsPointInBoundingBox(ps[i], b)
    {
      InsideWider(ps[i], c, b);
    }
  }

  /** The inner forEach keeps a NaN bound, and otherwise ends with a box around the old one and its positions. */
  lemma {:induction false} ProcessAllCovers(b: BBox, coords: seq<Value>, k: nat)
    requires k <= |coords|
    ensures HasNaN(b) ==> HasNaN(ProcessAll(b, coords, k))
    ensures !HasNaN(ProcessAll(b, coords, k)) ==>
              Within(b, ProcessAll(b, coords, k)) && Covers(ProcessAll(b, coords, k), PositionsIn(coords, k))
  {
    if k > 0 {
      ProcessAllCovers(b, coords, k - 1);
      var prev := ProcessAll(b, coords, k - 1);
      var coord := coords[k - 1];
      if IsPosition(coord) {
        var next := Absorb(prev, PositionOf(coord));
        AbsorbWidens(prev, PositionOf(coord));
        if !HasNaN(next) {
          WithinTrans(b, prev, next);
          CoversWider(prev, next, PositionsIn(coords, k - 1));
        }
      }
    }
  }

  lemma {:induction false} BoxBoundsCover(coordinates: seq<Value>, n: nat)
    requires n <= |coordinates|
    ensures !HasNaN(BoxBounds(coordinates, n)) ==> Covers(BoxBounds(coordinates, n), PositionsUpTo(coordinates, n))
    ensures HasNaN(BoxBounds(coordinates, n)) || Within(NoBounds, BoxBounds(coordinates, n))
    decreases SizeAll(coordinates), 0, n, 1
  {
    if n > 0 {
      BoxBoundsCover(coordinates, n - 1);
      NestedSmaller(coordinates, n - 1);
      var prev := BoxBounds(coordinates, n - 1);
      var next := BoxBounds(coordinates, n);
      var coord := coordinates[n - 1];
      var added: seq<Point>;
      if coord.Nested? {
        MergeWidens(prev, BoundingBox(coord.coordinates));
        added := Positions(coord.coordinates);
        if !HasNaN(next) {
          CoversWider(BoundingBox(coord.coordinates), next, added);
        }
      } else if IsPositionList(coord) {
        ProcessAllCovers(prev, coord.elements, |coord.elements|);
        added := PositionsIn(coord.elements, |coord.elements|);
      } else {
        assert next == ProcessAll(prev, [coord], 1);
        ProcessAllCovers(prev, [coord], 1);
        added := PositionsIn([coord], 1);
      }
      assert PositionsUpTo(coordinates, n) == PositionsUpTo(coordinates, n - 1) + added;
      assert !HasNaN(next) ==> !HasNaN(prev) && Within(prev, next) && Covers(next, added);
      if !HasNaN(next) {
        WithinTrans(NoBounds, prev, next);
        CoversWider(prev, next, PositionsUpTo(coordinates, n - 1));
        CoversAppend(next, PositionsUpTo(coordinates, n - 1), added);
      }
    }
  }

  lemma CoversAppend(b: BBox, xs: seq<Point>, ys: seq<Point>)
    requires Covers(b, xs) && Covers(b, ys)
    ensures Covers(b, xs + ys)
  {
    assert forall i :: 0 <= i < |ys| ==> (xs + ys)[|xs| + i] == ys[i];
  }

  /** A flat list of positions: no entry is nested or read as a list of positions. */
  predicate IsFlat(coordinates: seq<Value>) {
    forall i :: 0 <= i < |coordinates| ==> IsPosition(coordinates[i]) && !coordinates[i].elements[0].Array?
  }

  lemma {:induction false} FlatBoundsAgree(coordinates: seq<Value>, n: nat)
    requires IsFlat(coordinates) && n <= |coordinates|
    ensures CenterBounds(coordinates, n) == BoxBounds(coordinates, n)
    decreases SizeAll(coordinates), 0, n, 1
  {
    if n > 0 {
      FlatBoundsAgree(coordinates, n - 1);
    }
  }

  /** Once a flat list has a position and no NaN, its bounds are finite and in order. */
  lemma {:induction false} FlatBoundsFinite(coordinates: seq<Value>, n: nat)
    requires IsFlat(coordinates) && 1 <= n <= |coordinates|
    requires !HasNaN(BoxBounds(coordinates, n))
    ensures var b := BoxBounds(coordinates, n);
            b.minLng.Fin? && b.maxLng.Fin? && b.minLat.Fin? && b.maxLat.Fin? &&
            b.minLng.v <= b.maxLng.v && b.minLat.v <= b.maxLat.v
  {
    var prev := BoxBounds(coordinates, n - 1);
    AbsorbWidens(prev, PositionOf(coordinates[n - 1]));
    if n > 1 {
      FlatBoundsFinite(coordinates, n - 1);
    }
  }

  lemma MidBetween(a: Num, b: Num)
    requires a.Fin? && b.Fin? && a.v <= b.v
    ensures Le(a, Mid(a, b)) && Le(Mid(a, b), b)
  {
  }

  /** On a flat list of positions without NaN, the centre lies inside the bounding box. */
  lemma CenterInsideBox(coordinates: seq<Value>)
    requires IsFlat(coordinates) && coordinates != []
    requires !HasNaN(BoundingBox(coordinates))
    ensures IsPointInBoundingBox(Center(coordinates), BoundingBox(coordinates))
  {
    var b := BoundingBox(coordinates);
    FlatBoundsFinite(coordinates, |coordinates|);
    MidBetween(b.minLng, b.maxLng);
    MidBetween(b.minLat, b.maxLat);
  }
}
