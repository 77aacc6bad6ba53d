/**
 * The KMZ ingestion pipeline: for every configured source, download the KMZ
 * archive, pick its primary KML file, extract the Placemark geometries, wrap
 * each one back into a KML fragment with metadata, and insert the rows into
 * the `kmz_features` table one at a time, committing only when at least one
 * insert succeeded.
 */
module KmzUpload {
  import opened Wrappers
  import opened Seqs
  import opened Text
  import opened KmlDocument

  /** The exceptions that end a run. */
  datatype Error =
    | MissingKey(key: string)   // KeyError on a source's configuration
    | RequestFailed             // requests.RequestException raised by the GET itself
    | HttpStatus(code: int)     // raise_for_status on a 4xx or 5xx response
    | BadZip                    // zipfile.BadZipFile
    | NoKmlFile                 // ValueError: the archive holds no .kml file
    | XmlParseError             // ElementTree.ParseError
    | MissingText               // AttributeError: strip() on the text of an empty coordinates element
    | ConnectFailed             // psycopg2.connect raised
    | PostgisUnavailable        // PostGIS absent and CREATE EXTENSION failed

  // ---------------------------------------------------------------------------
  // Paths and the download filename

  /** `os.path.basename`: what follows the last `/`. */
  function Basename(p: string): (r: string)
    ensures '/' !in r
    ensures EndsWith(p, r)
    ensures |r| < |p| ==> p[|p| - |r| - 1] == '/'
  {
    if p == [] || p[|p| - 1] == '/' then []
    else
      var r := Basename(p[..|p| - 1]) + [p[|p| - 1]];
      assert p[|p| - |r|..] == p[..|p| - 1][|p| - |r|..] + [p[|p| - 1]];
      r
  }

  /** `os.path.join(dir, name)` for a relative or absolute name. */
  function PathJoin(dir: string, name: string): (r: string)
    ensures StartsWith(name, "/") ==> r == name
    ensures !StartsWith(name, "/") ==>
      StartsWith(r, dir) && EndsWith(r, name) && |dir| + |name| <= |r| <= |dir| + |name| + 1
    ensures !StartsWith(name, "/") && |r| > |dir| + |name| ==> r[|dir|] == '/'
  {
    if StartsWith(name, "/") then name
    else if dir == [] || EndsWith(dir, "/") then
      assert (dir + name)[..|dir|] == dir && (dir + name)[|dir|..] == name;
      dir + name
    else
      var r := dir + "/" + name;
      assert r[..|dir|] == dir && r[|dir| + 1..] == name;
      r
  }

  /** The basename of a non-empty relative name joined under a directory is the name's own basename. */
  lemma {:induction false} BasenameOfJoin(dir: string, name: string)
    requires name != []
    ensures Basename(PathJoin(dir, name)) == Basename(name)
  {
    if !StartsWith(name, "/") {
      var sep := if dir == [] || EndsWith(dir, "/") then "" else "/";
      assert PathJoin(dir, name) == (dir + sep) + name;
      assert dir + sep == [] || (dir + sep)[|dir + sep| - 1] == '/';
      BasenameAppend(dir + sep, name);
    }
  }

  lemma {:induction false} BasenameAppend(a: string, b: string)
    requires b != []
    requires a == [] || a[|a| - 1] == '/'
    ensures Basename(a + b) == Basename(b)
    decreases |b|
  {
    var ab := a + b;
    var last := b[|b| - 1];
    if last == '/' {
      assert ab[|ab| - 1] == last;
    } else {
      assert Basename(ab) == Basename(a + b[..|b| - 1]) + [last] by {
        assert ab[..|ab| - 1] == a + b[..|b| - 1];
        assert ab[|ab| - 1] == last;
      }
      if |b| > 1 {
        BasenameAppend(a, b[..|b| - 1]);
      } else {
        assert a + b[..|b| - 1] == a;
        BasenameSlashEnd(a);
      }
    }
  }

  lemma BasenameSlashEnd(a: string)
    requires a == [] || a[|a| - 1] == '/'
    ensures Basename(a) == []
  {
  }

  /** The name a KMZ download is saved under, from the URL's path. */
  function DownloadFilename(urlPath: string): (r: string)
    ensures EndsWith(r, ".kmz")
    ensures '/' !in r
  {
    var base := Basename(urlPath);
    var name := if base == [] then "downloaded.kmz" else base;
    assert '/' !in name by {
      if base == [] {
        DefaultNameHasNoSlash();
      }
    }
    if EndsWith(name, ".kmz") then name
    else
      var r := name + ".kmz";
      assert r[|r| - 4..] == ".kmz";
      assert forall c :: c in r ==> c in name || c in ".kmz";
      r
  }

  /**
   * The name is the basename when it already ends in `.kmz`, the basename plus
   * `.kmz` otherwise, and `downloaded.kmz` when the path ends in `/` or is empty.
   */
  lemma DownloadFilenameCases(urlPath: string)
    ensures urlPath == [] || urlPath[|urlPath| - 1] == '/' ==> DownloadFilename(urlPath) == "downloaded.kmz"
    ensures var b := Basename(urlPath);
      b != [] ==> DownloadFilename(urlPath) == (if EndsWith(b, ".kmz") then b else b + ".kmz")
  {
    if urlPath == [] || urlPath[|urlPath| - 1] == '/' {
      BasenameSlashEnd(urlPath);
      DefaultNameEndsWithKmz();
    }
  }

  lemma DefaultNameHasNoSlash()
    ensures '/' !in "downloaded.kmz"
  {
    var d := "downloaded.kmz";
    assert d == ['d'] + "ownloaded.kmz";
  }

  lemma DefaultNameEndsWithKmz()
    ensures EndsWith("downloaded.kmz", ".kmz")
  {
    var d := "downloaded.kmz";
    assert d[|d| - 4..] == ".kmz";
  }

  /** Deriving the filename from a path that is already a derived filename changes nothing. */
  lemma DownloadFilenameIdempotent(urlPath: string)
    ensures DownloadFilename(DownloadFilename(urlPath)) == DownloadFilename(urlPath)
  {
    var f := DownloadFilename(urlPath);
    BasenameNoSlash(f);
  }

  lemma {:induction false} BasenameNoSlash(p: string)
    requires '/' !in p
    ensures Basename(p) == p
  {
    if p != [] {
      assert '/' !in p[..|p| - 1];
      BasenameNoSlash(p[..|p| - 1]);
    }
  }

  /** Whether `raise_for_status` raises: a 4xx or 5xx status. */
  predicate IsErrorStatus(code: int) {
    400 <= code < 600
  }

  /**
   * The exception `download_kmz` raises for a response: `response` is the HTTP
   * status the GET returned, or None when the request itself raised.
   */
  function DownloadFailure(response: Option<int>): (r: Option<Error>)
    ensures r.None? <==> response.Some? && !IsErrorStatus(response.value)
    ensures response.None? ==> r == Some(RequestFailed)
    ensures response.Some? && IsErrorStatus(response.value) ==> r == Some(HttpStatus(response.value))
  {
    match response
    case None => Some(RequestFailed)
    case Some(code) => if IsErrorStatus(code) then Some(HttpStatus(code)) else None
  }

  /** `download_kmz`: the path the archive is saved to, or the exception raised. */
  function DownloadKmz(urlPath: string, response: Option<int>, outputDir: string): (r: Result<string, Error>)
    ensures r.Err? <==> response.None? || IsErrorStatus(response.value)
    ensures r.Ok? ==> r.value == PathJoin(outputDir, DownloadFilename(urlPath))
  {
    match DownloadFailure(response)
    case Some(e) => Err(e)
    case None => Ok(PathJoin(outputDir, DownloadFilename(urlPath)))
  }

  // ---------------------------------------------------------------------------
  // Choosing the KML file inside the archive

  /** A file `os.walk` reports: the directory it is in and its name. */
  datatype WalkFile = WalkFile(root: string, name: string)

  function WalkPath(f: WalkFile): string {
    PathJoin(f.root, f.name)
  }

  predicate IsKmlFile(f: WalkFile) {
    EndsWith(f.name, ".kml")
  }

  /** The paths of the `.kml` files, in walk order. */
  function KmlPaths(walk: seq<WalkFile>): (r: seq<string>)
    ensures |r| <= |walk|
    ensures r == [] <==> forall i :: 0 <= i < |walk| ==> !IsKmlFile(walk[i])
  {
    if walk == [] then []
    else (if IsKmlFile(walk[0]) then [WalkPath(walk[0])] else []) + KmlPaths(walk[1..])
  }

  /** The first path whose basename is exactly `doc.kml`. */
  function FirstDocKml(paths: seq<string>): (r: Option<string>)
    ensures r.Some? ==> r.value in paths && Basename(r.value) == "doc.kml"
    ensures r.None? <==> forall i :: 0 <= i < |paths| ==> Basename(paths[i]) != "doc.kml"
  {
    if paths == [] then None
    else if Basename(paths[0]) == "doc.kml" then Some(paths[0])
    else FirstDocKml(paths[1..])
  }

  /**
   * `extract_kmz`: `walk` lists the extracted files in walk order, or is None
   * when the archive is not a valid zip file.
   */
  function ExtractKmz(walk: Option<seq<WalkFile>>): (r: Result<string, Error>)
    ensures walk.None? ==> r == Err(BadZip)
    ensures walk.Some? ==> (r == Err(NoKmlFile) <==> forall i :: 0 <= i < |walk.value| ==> !IsKmlFile(walk.value[i]))
    ensures r.Ok? ==> r.value in KmlPaths(walk.value)
  {
    match walk
    case None => Err(BadZip)
    case Some(files) =>
      var paths := KmlPaths(files);
      if paths == [] then Err(NoKmlFile)
      else Ok(FirstDocKml(paths).GetOr(paths[0]))
  }

  /** The names `os.walk` reports are single, non-empty path components. */
  predicate WalkNames(files: seq<WalkFile>) {
    forall i :: 0 <= i < |files| ==> files[i].name != [] && '/' !in files[i].name
  }

  /** The path of the first file named exactly `doc.kml`, in walk order. */
  function FirstDocFile(files: seq<WalkFile>): (r: Option<string>)
    ensures r.None? <==> forall i :: 0 <= i < |files| ==> files[i].name != "doc.kml"
    ensures r.Some? ==> exists i :: (0 <= i < |files| && files[i].name == "doc.kml" && r.value == WalkPath(files[i])
                                     && forall j :: 0 <= j < i ==> files[j].name != "doc.kml")
  {
    if files == [] then None
    else if files[0].name == "doc.kml" then Some(WalkPath(files[0]))
    else
      var r := FirstDocFile(files[1..]);
      if r.Some? then
        var i :| 0 <= i < |files| - 1 && files[1..][i].name == "doc.kml" && r.value == WalkPath(files[1..][i])
          && forall j :: 0 <= j < i ==> files[1..][j].name != "doc.kml";
        assert files[i + 1] == files[1..][i];
        assert forall j :: 1 <= j < i + 1 ==> files[j] == files[1..][j - 1];
        r
      else
        assert forall i :: 1 <= i < |files| ==> files[i] == files[1..][i - 1];
        r
  }

  /** The first `.kml` file in walk order. */
  function FirstKml(files: seq<WalkFile>): WalkFile
    requires exists i :: 0 <= i < |files| && IsKmlFile(files[i])
  {
    if IsKmlFile(files[0]) then files[0]
    else
      var i :| 0 <= i < |files| && IsKmlFile(files[i]);
      assert IsKmlFile(files[1..][i - 1]);
      FirstKml(files[1..])
  }

  /**
   * The chosen KML file is the first one named exactly `doc.kml` when there is
   * one, and otherwise the first `.kml` file in walk order.
   */
  lemma ExtractKmzChoice(files: seq<WalkFile>)
    requires WalkNames(files)
    requires exists i :: 0 <= i < |files| && IsKmlFile(files[i])
    ensures ExtractKmz(Some(files)) == Ok(if FirstDocFile(files).Some? then FirstDocFile(files).value else WalkPath(FirstKml(files)))
  {
    FirstDocKmlOfWalk(files);
    KmlPathsHead(files);
  }

  lemma {:induction false} KmlPathsHead(files: seq<WalkFile>)
    requires exists i :: 0 <= i < |files| && IsKmlFile(files[i])
    ensures KmlPaths(files) != [] && KmlPaths(files)[0] == WalkPath(FirstKml(files))
  {
    if !IsKmlFile(files[0]) {
      var i :| 0 <= i < |files| && IsKmlFile(files[i]);
      assert IsKmlFile(files[1..][i - 1]);
      KmlPathsHead(files[1..]);
    }
  }

  /** For a walk file the basename of its joined path is its name. */
  lemma BasenameOfWalkPath(f: WalkFile)
    requires f.name != [] && '/' !in f.name
    ensures Basename(WalkPath(f)) == f.name
  {
    BasenameOfJoin(f.root, f.name);
    BasenameNoSlash(f.name);
  }

  /** Matching on the basename of the joined paths finds the first file named `doc.kml`. */
  lemma {:induction false} FirstDocKmlOfWalk(files: seq<WalkFile>)
    requires WalkNames(files)
    ensures FirstDocKml(KmlPaths(files)) == FirstDocFile(files)
  {
    if files != [] {
      var f := files[0];
      var rest := files[1..];
      assert WalkNames(rest);
      FirstDocKmlOfWalk(rest);
      var ps := KmlPaths(files);
      if IsKmlFile(f) {
        BasenameOfWalkPath(f);
        assert ps == [WalkPath(f)] + KmlPaths(rest);
        assert ps[0] == WalkPath(f) && ps[1..] == KmlPaths(rest);
        assert FirstDocKml(ps) == if f.name == "doc.kml" then Some(ps[0]) else FirstDocKml(KmlPaths(rest));
      } else {
        assert ps == KmlPaths(rest);
        assert f.name != "doc.kml";
      }
    }
  }

  // ---------------------------------------------------------------------------
  // Placemarks to features

  datatype GeomType = POINT | LINESTRING | POLYGON

  /** A feature parse_kml emits. */
  datatype Feature = Feature(
    sourceId: string,
    name: Option<string>,
    description: Option<string>,
    geomType: GeomType,
    coordinates: string)

  const PointPath: seq<string> := ["Point", "coordinates"]
  const LinePath: seq<string> := ["LineString", "coordinates"]
  const PolygonPath: seq<string> := ["Polygon", "outerBoundaryIs", "LinearRing", "coordinates"]

  /** The text of an optional element, None when the element or its text is absent. */
  function TextOf(e: Option<Element>): Option<string> {
    if e.Some? then e.value.text else None
  }

  /** The first match of each geometry path below a Placemark. */
  datatype Candidates = Candidates(point: Option<Element>, line: Option<Element>, polygon: Option<Element>)

  /** What one iteration of parse_kml looks up in a Placemark before deciding. */
  datatype PlacemarkView = PlacemarkView(candidates: Candidates, name: Option<string>, description: Option<string>)

  function CandidatesOf(p: Element): Candidates {
    Candidates(Find(p, PointPath), Find(p, LinePath), Find(p, PolygonPath))
  }

  function ViewOf(p: Element): PlacemarkView {
    PlacemarkView(CandidatesOf(p), TextOf(Find(p, ["name"])), TextOf(Find(p, ["description"])))
  }

  /** Every candidate found is a `coordinates` element. */
  lemma CandidatesAreCoordinates(p: Element)
    ensures var c := CandidatesOf(p);
      (c.point.Some? ==> IsKml(c.point.value, "coordinates"))
      && (c.line.Some? ==> IsKml(c.line.value, "coordinates"))
      && (c.polygon.Some? ==> IsKml(c.polygon.value, "coordinates"))
  {
    assert PointPath[|PointPath| - 1] == "coordinates";
    assert LinePath[|LinePath| - 1] == "coordinates";
    assert PolygonPath[|PolygonPath| - 1] == "coordinates";
  }

  /**
   * The geometry a Placemark contributes: the Point coordinates if found,
   * else the LineString coordinates, else the Polygon outer ring coordinates.
   */
  function ChooseGeometry(c: Candidates): (r: Option<(GeomType, Element)>)
    ensures r.None? <==> c.point.None? && c.line.None? && c.polygon.None?
    ensures r.Some? ==> Some(r.value.1) == match r.value.0
      case POINT => c.point
      case LINESTRING => c.line
      case POLYGON => c.polygon
    ensures r.Some? && r.value.0 != POINT ==> c.point.None?
    ensures r.Some? && r.value.0 == POLYGON ==> c.line.None?
  {
    if c.point.Some? then Some((POINT, c.point.value))
    else if c.line.Some? then Some((LINESTRING, c.line.value))
    else if c.polygon.Some? then Some((POLYGON, c.polygon.value))
    else None
  }

  /** What one Placemark yields: a feature, nothing, or the error that ends parse_kml. */
  type Yield = Result<Option<Feature>, Error>

  /**
   * One iteration of parse_kml's loop, on what it looked up in the Placemark.
   * It fails exactly when the chosen coordinates element has no text, yields
   * nothing exactly when there is no geometry or the coordinates are blank,
   * and otherwise yields a feature with the source id, the Placemark's name
   * and description texts, the chosen geometry type and the stripped
   * coordinates.
   */
  function FeatureOf(v: PlacemarkView, sourceId: string): (r: Yield)
    ensures var g := ChooseGeometry(v.candidates);
      (r.Err? <==> g.Some? && g.value.1.text.None?)
      && (r == Ok(None) <==> g.None? || (g.value.1.text.Some? && PyStrip(g.value.1.text.value) == []))
    ensures r.Ok? && r.value.Some? ==>
      var f := r.value.value;
      f.sourceId == sourceId && f.geomType == ChooseGeometry(v.candidates).value.0 && f.coordinates != []
      && f.name == v.name && f.description == v.description
      && !IsPySpace(f.coordinates[0]) && !IsPySpace(f.coordinates[|f.coordinates| - 1])
  {
    var g := ChooseGeometry(v.candidates);
    if g.None? then Ok(None)
    else if g.value.1.text.None? then Err(MissingText)
    else
      var coordinates := PyStrip(g.value.1.text.value);
      if coordinates == [] then Ok(None)
      else Ok(Some(Feature(sourceId, v.name, v.description, g.value.0, coordinates)))
  }

  /** parse_kml's loop over the Placemarks' outcomes: the features in order, or the first error. */
  function Collect(outcomes: seq<Yield>): (r: Result<seq<Feature>, Error>)
    ensures r.Ok? ==> |r.value| <= |outcomes|
  {
    if outcomes == [] then Ok([])
    else
      match Collect(outcomes[..|outcomes| - 1])
      case Err(e) => Err(e)
      case Ok(fs) =>
        match outcomes[|outcomes| - 1]
        case Err(e) => Err(e)
        case Ok(None) => Ok(fs)
        case Ok(Some(f)) => Ok(fs + [f])
  }

  function Outcomes(vs: seq<PlacemarkView>, sourceId: string): (r: seq<Yield>)
    ensures |r| == |vs| && forall i :: 0 <= i < |vs| ==> r[i] == FeatureOf(vs[i], sourceId)
  {
    seq(|vs|, i requires 0 <= i < |vs| => FeatureOf(vs[i], sourceId))
  }

  function Views(ps: seq<Element>): (r: seq<PlacemarkView>)
    ensures |r| == |ps| && forall i :: 0 <= i < |ps| ==> r[i] == ViewOf(ps[i])
  {
    seq(|ps|, i requires 0 <= i < |ps| => ViewOf(ps[i]))
  }

  /** parse_kml over the Placemarks' views. */
  function ParseFeatures(vs: seq<PlacemarkView>, sourceId: string): Result<seq<Feature>, Error>
  {
    Collect(Outcomes(vs, sourceId))
  }

  /** The features an outcome contributes: its feature, or nothing. */
  function Contribution(o: Yield): seq<Feature>
  {
    if o.Ok? && o.value.Some? then [o.value.value] else []
  }

  lemma {:induction false} CollectFails(outcomes: seq<Yield>)
    ensures Collect(outcomes).Err? <==> exists i :: 0 <= i < |outcomes| && outcomes[i].Err?
    ensures Collect(outcomes).Err? ==>
      exists i :: (0 <= i < |outcomes| && outcomes[i] == Err(Collect(outcomes).error)
                   && forall j :: 0 <= j < i ==> outcomes[j].Ok?)
  {
    if outcomes != [] {
      var init := outcomes[..|outcomes| - 1];
      CollectFails(init);
      assert forall i :: 0 <= i < |init| ==> init[i] == outcomes[i];
    }
  }

  lemma {:induction false} CollectInOrder(outcomes: seq<Yield>)
    requires Collect(outcomes).Ok?
    ensures Collect(outcomes).value == Flatten(seq(|outcomes|, i requires 0 <= i < |outcomes| => Contribution(outcomes[i])))
    ensures forall f :: f in Collect(outcomes).value ==> exists i :: 0 <= i < |outcomes| && outcomes[i] == Ok(Some(f))
  {
    if outcomes != [] {
      var init := outcomes[..|outcomes| - 1];
      CollectInOrder(init);
      var cs := seq(|outcomes|, i requires 0 <= i < |outcomes| => Contribution(outcomes[i]));
      assert cs[..|cs| - 1] == seq(|init|, i requires 0 <= i < |init| => Contribution(init[i]));
      assert forall i :: 0 <= i < |init| ==> init[i] == outcomes[i];
    }
  }

  lemma {:induction false} FlattenBound(cs: seq<seq<Feature>>)
    requires forall i :: 0 <= i < |cs| ==> |cs[i]| <= 1
    ensures |Flatten(cs)| <= |cs|
  {
    if cs != [] {
      FlattenBound(cs[..|cs| - 1]);
    }
  }

  /** Extending the prefix by one outcome. */
  lemma CollectStep(outcomes: seq<Yield>, i: nat)
    requires i < |outcomes| && Collect(outcomes[..i]).Ok?
    ensures Collect(outcomes[..i + 1]) ==
      if outcomes[i].Err? then Err(outcomes[i].error)
      else Ok(Collect(outcomes[..i]).value + Contribution(outcomes[i]))
  {
    var pre := outcomes[..i + 1];
    assert pre[..|pre| - 1] == outcomes[..i];
    assert pre[|pre| - 1] == outcomes[i];
    var fs := Collect(outcomes[..i]).value;
    assert fs + [] == fs;
  }

  /** Once a prefix of the outcomes fails, the whole list fails with the same error. */
  lemma {:induction false} CollectErrorSticks(outcomes: seq<Yield>, i: nat)
    requires i <= |outcomes| && Collect(outcomes[..i]).Err?
    ensures Collect(outcomes) == Collect(outcomes[..i])
    decreases |outcomes| - i
  {
    if i < |outcomes| {
      assert outcomes[..i + 1][..i] == outcomes[..i];
      CollectErrorSticks(outcomes, i + 1);
    } else {
      assert outcomes[..i] == outcomes;
    }
  }

  /**
   * parse_kml fails exactly when some Placemark's chosen coordinates element
   * has no text, and then with the first such Placemark's error.
   */
  lemma ParseFeaturesFails(vs: seq<PlacemarkView>, sourceId: string)
    ensures ParseFeatures(vs, sourceId).Err? <==> exists i :: 0 <= i < |vs| && FeatureOf(vs[i], sourceId).Err?
    ensures ParseFeatures(vs, sourceId).Err? ==>
      exists i :: (0 <= i < |vs| && FeatureOf(vs[i], sourceId) == Err(ParseFeatures(vs, sourceId).error)
                   && forall j :: 0 <= j < i ==> FeatureOf(vs[j], sourceId).Ok?)
  {
    CollectFails(Outcomes(vs, sourceId));
  }

  /**
   * On success the features are the Placemarks' contributions concatenated in
   * document order, so there are at most as many as Placemarks.
   */
  lemma ParseFeaturesInOrder(vs: seq<PlacemarkView>, sourceId: string)
    requires ParseFeatures(vs, sourceId).Ok?
    ensures ParseFeatures(vs, sourceId).value == Flatten(seq(|vs|, i requires 0 <= i < |vs| => Contribution(FeatureOf(vs[i], sourceId))))
    ensures |ParseFeatures(vs, sourceId).value| <= |vs|
  {
    var outcomes := Outcomes(vs, sourceId);
    var cs := seq(|vs|, i requires 0 <= i < |vs| => Contribution(FeatureOf(vs[i], sourceId)));
    assert ParseFeatures(vs, sourceId).value == Flatten(cs) by {
      CollectInOrder(outcomes);
      assert cs == seq(|outcomes|, i requires 0 <= i < |outcomes| => Contribution(outcomes[i]));
    }
    assert forall i :: 0 <= i < |cs| ==> |cs[i]| <= 1;
    FlattenBound(cs);
  }

  /** Every feature carries the source id and non-blank, stripped coordinates. */
  lemma ParseFeaturesWellFormed(vs: seq<PlacemarkView>, sourceId: string)
    requires ParseFeatures(vs, sourceId).Ok?
    ensures forall f :: f in ParseFeatures(vs, sourceId).value ==>
      f.sourceId == sourceId && f.coordinates != []
      && !IsPySpace(f.coordinates[0]) && !IsPySpace(f.coordinates[|f.coordinates| - 1])
  {
    var outcomes := Outcomes(vs, sourceId);
    CollectInOrder(outcomes);
    forall f | f in ParseFeatures(vs, sourceId).value
      ensures f.sourceId == sourceId && f.coordinates != []
      ensures !IsPySpace(f.coordinates[0]) && !IsPySpace(f.coordinates[|f.coordinates| - 1])
    {
      var i :| 0 <= i < |outcomes| && outcomes[i] == Ok(Some(f));
      YieldedFeature(vs[i], sourceId, f);
    }
  }

  lemma YieldedFeature(v: PlacemarkView, sourceId: string, f: Feature)
    requires FeatureOf(v, sourceId) == Ok(Some(f))
    ensures f.sourceId == sourceId && f.coordinates != []
    ensures !IsPySpace(f.coordinates[0]) && !IsPySpace(f.coordinates[|f.coordinates| - 1])
  {
  }

  /**
   * parse_kml as a function: `doc` is None when the file is not well-formed
   * XML, which raises; every feature of a successful parse carries the source
   * id and non-blank, stripped coordinates.
   */
  function ParseDocument(doc: Option<Element>, sourceId: string): (r: Result<seq<Feature>, Error>)
    ensures doc.None? ==> r == Err(XmlParseError)
    ensures r.Ok? ==> forall f :: f in r.value ==>
      f.sourceId == sourceId && f.coordinates != []
      && !IsPySpace(f.coordinates[0]) && !IsPySpace(f.coordinates[|f.coordinates| - 1])
  {
    if doc.None? then Err(XmlParseError)
    else
      var vs := Views(Placemarks(doc.value));
      if ParseFeatures(vs, sourceId).Ok? then
        ParseFeaturesWellFormed(vs, sourceId);
        ParseFeatures(vs, sourceId)
      else ParseFeatures(vs, sourceId)
  }

  /**
   * parse_kml: `doc` is the parsed document, None when the file is not
   * well-formed XML.
   */
  method ParseKml(doc: Option<Element>, sourceId: string) returns (r: Result<seq<Feature>, Error>)
    ensures r == ParseDocument(doc, sourceId)
  {
    if doc.None? {
      return Err(XmlParseError);
    }
    var placemarks := Placemarks(doc.value);
    ghost var outcomes := Outcomes(Views(placemarks), sourceId);
    var features: seq<Feature> := [];
    var i := 0;
    while i < |placemarks|
      invariant 0 <= i <= |placemarks|
      invariant Collect(outcomes[..i]) == Ok(features)
    {
      var view := ViewOf(placemarks[i]);
      var outcome := FeatureOf(view, sourceId);
      assert outcome == outcomes[i];
      CollectStep(outcomes, i);
      ghost var before := features;
      if outcome.Err? {
        CollectErrorSticks(outcomes, i + 1);
        return Err(outcome.error);
      }
      ghost var contributed := Contribution(outcome);
      if outcome.value.Some? {
        features := features + [outcome.value.value];
      } else {
        assert contributed == [];
        assert before + contributed == before;
      }
      assert Collect(outcomes[..i + 1]) == Ok(features);
      i := i + 1;
    }
    assert outcomes[..i] == outcomes;
    return Ok(features);
  }

  // ---------------------------------------------------------------------------
  // Fragments, metadata and rows

  function OpenTags(g: GeomType): string {
    match g
    case POINT => "<Point>" + "<coordinates>"
    case LINESTRING => "<LineString>" + "<coordinates>"
    case POLYGON => "<Polygon>" + "<outerBoundaryIs><LinearRing><coordinates>"
  }

  function CloseTags(g: GeomType): string {
    match g
    case POINT => "</coordinates></Point>"
    case LINESTRING => "</coordinates></LineString>"
    case POLYGON => "</coordinates></LinearRing></outerBoundaryIs></Polygon>"
  }

  /** The KML fragment handed to ST_GeomFromKML: the coordinates verbatim inside the geometry's tags. */
  function KmlFragment(g: GeomType, coordinates: string): string {
    OpenTags(g) + coordinates + CloseTags(g)
  }

  /** Reads a fragment back: the geometry whose tags enclose it, and the text between them. */
  function UnwrapFragment(s: string): Option<(GeomType, string)> {
    if Enclosed(s, POINT) then Some((POINT, Inner(s, POINT)))
    else if Enclosed(s, LINESTRING) then Some((LINESTRING, Inner(s, LINESTRING)))
    else if Enclosed(s, POLYGON) then Some((POLYGON, Inner(s, POLYGON)))
    else None
  }

  predicate Enclosed(s: string, g: GeomType) {
    |OpenTags(g)| + |CloseTags(g)| <= |s| && StartsWith(s, OpenTags(g)) && EndsWith(s, CloseTags(g))
  }

  function Inner(s: string, g: GeomType): string
    requires Enclosed(s, g)
  {
    s[|OpenTags(g)|..|s| - |CloseTags(g)|]
  }

  /** A fragment names its geometry and carries the coordinates unchanged: unwrapping it gives both back. */
  lemma FragmentRoundTrip(g: GeomType, coordinates: string)
    ensures UnwrapFragment(KmlFragment(g, coordinates)) == Some((g, coordinates))
  {
    var s := KmlFragment(g, coordinates);
    FragmentEnclosed(g, coordinates);
    match g
    case POINT =>
    case LINESTRING =>
      TagLetters(LINESTRING);
      TagLetters(POINT);
      FragmentTagAt(g, coordinates, 1);
      NotEnclosedAt(s, POINT, 1);
    case POLYGON =>
      TagLetters(POLYGON);
      TagLetters(POINT);
      TagLetters(LINESTRING);
      FragmentTagAt(g, coordinates, 1);
      FragmentTagAt(g, coordinates, 3);
      NotEnclosedAt(s, POINT, 3);
      NotEnclosedAt(s, LINESTRING, 1);
  }

  /** The second and fourth letters of each opening tag, which tell the three apart. */
  lemma TagLetters(g: GeomType)
    ensures |OpenTags(g)| > 3
    ensures OpenTags(g)[1] == (if g == LINESTRING then 'L' else 'P')
    ensures OpenTags(g)[3] == (match g case POINT => 'i' case LINESTRING => 'n' case POLYGON => 'l')
  {
  }

  lemma FragmentTagAt(g: GeomType, coordinates: string, k: nat)
    requires k < |OpenTags(g)|
    ensures KmlFragment(g, coordinates)[k] == OpenTags(g)[k]
  {
  }

  /** A text that differs from a geometry's opening tag at some place is not enclosed by that geometry's tags. */
  lemma NotEnclosedAt(s: string, g: GeomType, k: nat)
    requires k < |OpenTags(g)| && k < |s| && s[k] != OpenTags(g)[k]
    ensures !Enclosed(s, g)
  {
    if |OpenTags(g)| <= |s| {
      assert s[..|OpenTags(g)|][k] == s[k];
    }
  }

  lemma FragmentEnclosed(g: GeomType, coordinates: string)
    ensures Enclosed(KmlFragment(g, coordinates), g)
    ensures Inner(KmlFragment(g, coordinates), g) == coordinates
  {
    var s := KmlFragment(g, coordinates);
    var o, c := OpenTags(g), CloseTags(g);
    assert s == o + coordinates + c;
    assert s[..|o|] == o;
    assert s[|s| - |c|..] == c;
    assert s[|o|..|s| - |c|] == coordinates;
  }

  /** Different features never share a fragment. */
  lemma FragmentInjective(g1: GeomType, c1: string, g2: GeomType, c2: string)
    requires KmlFragment(g1, c1) == KmlFragment(g2, c2)
    ensures g1 == g2 && c1 == c2
  {
    FragmentRoundTrip(g1, c1);
    FragmentRoundTrip(g2, c2);
  }

  /** The JSON metadata stored with each row. */
  datatype Metadata = Metadata(originalGeomType: GeomType, featureCount: int, processingTime: string)

  /** A row of `kmz_features` as it is sent in the INSERT. */
  datatype Row = Row(sourceId: string, name: Option<string>, description: Option<string>, metadata: Metadata, fragment: string)

  function RowOf(f: Feature, now: string): Row {
    Row(f.sourceId, f.name, f.description, Metadata(f.geomType, 1, now), KmlFragment(f.geomType, f.coordinates))
  }

  /** A row keeps the feature's fields, records its geometry type and a count of 1, and its fragment gives back the coordinates. */
  lemma RowOfFeature(f: Feature, now: string)
    ensures var row := RowOf(f, now);
      row.sourceId == f.sourceId && row.name == f.name && row.description == f.description
      && row.metadata.originalGeomType == f.geomType && row.metadata.featureCount == 1
      && UnwrapFragment(row.fragment) == Some((f.geomType, f.coordinates))
  {
    FragmentRoundTrip(f.geomType, f.coordinates);
  }

  function Rows(fs: seq<Feature>, now: string): (rows: seq<Row>)
    ensures |rows| == |fs|
  {
    if fs == [] then [] else Rows(fs[..|fs| - 1], now) + [RowOf(fs[|fs| - 1], now)]
  }

  /** The row at place `i` is the row of the feature at place `i`. */
  lemma {:induction false} RowsIndex(fs: seq<Feature>, now: string, i: nat)
    requires i < |fs|
    ensures Rows(fs, now)[i] == RowOf(fs[i], now)
  {
    if i < |fs| - 1 {
      RowsIndex(fs[..|fs| - 1], now, i);
    }
  }

  /** The rows the database accepts, in order. */
  function Accepted(rows: seq<Row>, accepts: Row -> bool): (r: seq<Row>)
  {
    if rows == [] then []
    else Accepted(rows[..|rows| - 1], accepts) + (if accepts(rows[|rows| - 1]) then [rows[|rows| - 1]] else [])
  }

  /**
   * The successful inserts are an order-preserving selection of the rows, so
   * they never outnumber them, and each of them was accepted.
   */
  lemma {:induction false} AcceptedSelection(rows: seq<Row>, accepts: Row -> bool)
    ensures SubseqOf(Accepted(rows, accepts), rows)
    ensures |Accepted(rows, accepts)| <= |rows|
    ensures forall r :: r in Accepted(rows, accepts) ==> accepts(r)
  {
    if rows != [] {
      var init := rows[..|rows| - 1];
      var last := rows[|rows| - 1];
      AcceptedSelection(init, accepts);
      assert rows == init + [last];
      if accepts(last) {
        SubseqKeep(Accepted(init, accepts), init, last);
        assert Accepted(rows, accepts) == Accepted(init, accepts) + [last];
      } else {
        SubseqSkip(Accepted(init, accepts), init, last);
        assert Accepted(rows, accepts) == Accepted(init, accepts);
      }
      assert SubseqOf(Accepted(rows, accepts), rows);
      SubseqLength(Accepted(rows, accepts), rows);
    }
  }

  /** Every accepted row is inserted: if the database accepts all of them, all are committed. */
  lemma {:induction false} AcceptedAll(rows: seq<Row>, accepts: Row -> bool)
    requires forall r :: r in rows ==> accepts(r)
    ensures Accepted(rows, accepts) == rows
  {
    if rows != [] {
      AcceptedAll(rows[..|rows| - 1], accepts);
      assert rows[..|rows| - 1] + [rows[|rows| - 1]] == rows;
    }
  }

  // ---------------------------------------------------------------------------
  // The store

  /** What insert_features_to_db reports when it returns normally. */
  datatype Outcome =
    | TableMissing                          // printed an error and returned without inserting
    | Loaded(inserted: nat, totalRows: nat) // inserted_count and the COUNT(*) afterwards

  /**
   * The PostGIS database as the uploader sees it. Whether a single INSERT
   * succeeds (ST_GeomFromKML accepts the fragment, constraints hold) is the
   * opaque `accepts`.
   */
  class Database {
    /** Whether psycopg2.connect succeeds. */
    const reachable: bool
    var postgisInstalled: bool
    /** Whether CREATE EXTENSION postgis succeeds. */
    const postgisCreatable: bool
    const tableExists: bool
    const accepts: Row -> bool
    /** The committed contents of `kmz_features`. */
    var committed: seq<Row>
    /** Rows inserted in the open transaction. */
    var pending: seq<Row>
    /** Every INSERT statement issued, in order. */
    var statements: seq<Row>
    var commits: nat

    constructor (reachable: bool, postgisInstalled: bool, postgisCreatable: bool, tableExists: bool,
                 accepts: Row -> bool, committed: seq<Row>)
      ensures this.reachable == reachable && this.postgisInstalled == postgisInstalled
      ensures this.postgisCreatable == postgisCreatable && this.tableExists == tableExists
      ensures this.accepts == accepts && this.committed == committed
      ensures pending == [] && statements == [] && commits == 0
    {
      this.reachable := reachable;
      this.postgisInstalled := postgisInstalled;
      this.postgisCreatable := postgisCreatable;
      this.tableExists := tableExists;
      this.accepts := accepts;
      this.committed := committed;
      pending := [];
      statements := [];
      commits := 0;
    }

    /** Whether the run gets past the PostGIS check. */
    predicate PostgisReady()
      reads this
    {
      postgisInstalled || postgisCreatable
    }

    method Commit()
      modifies this
      ensures committed == old(committed) + old(pending) && pending == [] && commits == old(commits) + 1
      ensures statements == old(statements) && postgisInstalled == old(postgisInstalled)
    {
      committed := committed + pending;
      pending := [];
      commits := commits + 1;
    }

    /** Rollback, and close, which discards an uncommitted transaction. */
    method Rollback()
      modifies this
      ensures pending == [] && committed == old(committed) && commits == old(commits)
      ensures statements == old(statements) && postgisInstalled == old(postgisInstalled)
    {
      pending := [];
    }

    /** One INSERT: the row is added to the transaction when the database accepts it. */
    method Insert(row: Row) returns (ok: bool)
      modifies this
      ensures ok == accepts(row)
      ensures pending == old(pending) + (if ok then [row] else []) && statements == old(statements) + [row]
      ensures committed == old(committed) && commits == old(commits) && postgisInstalled == old(postgisInstalled)
    {
      statements := statements + [row];
      ok := accepts(row);
      if ok {
        pending := pending + [row];
      }
    }

    /**
     * The individual-insert loop: every row is tried, a failed insert is
     * skipped, and the count is the number of rows that went in.
     */
    method InsertEach(batch: seq<Row>) returns (inserted: nat)
      modifies this
      ensures inserted == |Accepted(batch, accepts)|
      ensures pending == old(pending) + Accepted(batch, accepts)
      ensures statements == old(statements) + batch
      ensures committed == old(committed) && commits == old(commits) && postgisInstalled == old(postgisInstalled)
    {
      inserted := 0;
      var j := 0;
      while j < |batch|
        invariant 0 <= j <= |batch|
        invariant pending == old(pending) + Accepted(batch[..j], accepts)
        invariant inserted == |Accepted(batch[..j], accepts)|
        invariant statements == old(statements) + batch[..j]
        invariant committed == old(committed) && commits == old(commits) && postgisInstalled == old(postgisInstalled)
      {
        assert batch[..j + 1][..j] == batch[..j];
        var ok := Insert(batch[j]);
        if ok {
          inserted := inserted + 1;
        }
        j := j + 1;
      }
      assert batch[..j] == batch;
    }

    /**
     * insert_features_to_db: connect, make sure PostGIS is there, give up
     * quietly when the table is missing, insert each row on its own, and
     * commit only when at least one insert succeeded. `now` is the clock
     * reading recorded as the processing time.
     */
    method InsertFeaturesToDb(features: seq<Feature>, now: string) returns (r: Result<Outcome, Error>)
      requires pending == []
      modifies this
      ensures pending == []
      ensures !reachable ==>
        (r == Err(ConnectFailed) && committed == old(committed) && statements == old(statements)
         && commits == old(commits) && postgisInstalled == old(postgisInstalled))
      ensures reachable && !old(PostgisReady()) ==>
        (r == Err(PostgisUnavailable) && committed == old(committed) && statements == old(statements)
         && commits == old(commits))
      ensures reachable && old(PostgisReady()) ==>
        (postgisInstalled
         && commits == old(commits) + (if old(postgisInstalled) then 0 else 1)
                      + (if tableExists && Accepted(Rows(features, now), accepts) != [] then 1 else 0))
      ensures reachable && old(PostgisReady()) && !tableExists ==>
        (r == Ok(TableMissing) && committed == old(committed) && statements == old(statements))
      ensures reachable && old(PostgisReady()) && tableExists ==>
        (var accepted := Accepted(Rows(features, now), accepts);
         r == Ok(Loaded(|accepted|, |committed|))
         && statements == old(statements) + Rows(features, now)
         && committed == old(committed) + accepted)
    {
      if !reachable {
        return Err(ConnectFailed);
      }
      if !postgisInstalled {
        if !postgisCreatable {
          Rollback();
          return Err(PostgisUnavailable);
        }
        postgisInstalled := true;
        Commit();
        assert committed == old(committed) + [];
      }
      if !tableExists {
        Rollback();
        return Ok(TableMissing);
      }
      var batch := PrepareRows(features, now);
      ghost var committedBefore := committed;
      assert committedBefore == old(committed);
      var inserted := InsertEach(batch);
      ghost var accepted := Accepted(batch, accepts);
      assert pending == accepted;
      if inserted > 0 {
        Commit();
      } else {
        assert accepted == [];
        assert committed == committedBefore + accepted;
      }
      assert committed == committedBefore + accepted && pending == [];
      var totalCount := |committed| + |pending|;
      Rollback();
      assert inserted == |accepted| && totalCount == |committed|;
      return Ok(Loaded(inserted, totalCount));
    }
  }

  /** The batch-preparation loop: one row per feature, in order. */
  method PrepareRows(features: seq<Feature>, now: string) returns (batch: seq<Row>)
    ensures batch == Rows(features, now)
  {
    batch := [];
    var i := 0;
    while i < |features|
      invariant 0 <= i <= |features|
      invariant batch == Rows(features[..i], now)
    {
      batch := batch + [RowOf(features[i], now)];
      assert features[..i + 1][..i] == features[..i];
      i := i + 1;
    }
    assert features[..i] == features;
  }

  // ---------------------------------------------------------------------------
  // The run over all configured sources

  /**
   * What the outside world gives back for one source: the HTTP status (None
   * when the request raised), the extracted files (None for a corrupt
   * archive), and the parse of each extracted path (None when not well-formed).
   */
  datatype Fetch = Fetch(response: Option<int>, walk: Option<seq<WalkFile>>, parse: string -> Option<Element>)

  /** A configured source: its key, and its `name` and `kmz_file` (URL path) entries when present. */
  datatype Source = Source(id: string, name: Option<string>, kmzFile: Option<string>, fetch: Fetch)

  /**
   * Everything before the database for one source: the features, or the
   * exception that stops the run. The path the archive is saved to only names
   * the file that `walk` lists, so only the download's failure matters here.
   */
  function Prepare(s: Source): (r: Result<seq<Feature>, Error>)
    ensures r.Ok? ==> s.name.Some? && s.kmzFile.Some? && s.fetch.response.Some? && !IsErrorStatus(s.fetch.response.value)
  {
    if s.name.None? then Err(MissingKey("name"))
    else if s.kmzFile.None? then Err(MissingKey("kmz_file"))
    else if DownloadFailure(s.fetch.response).Some? then Err(DownloadFailure(s.fetch.response).value)
    else if ExtractKmz(s.fetch.walk).Err? then Err(ExtractKmz(s.fetch.walk).error)
    else ParseDocument(s.fetch.parse(ExtractKmz(s.fetch.walk).value), s.id)
  }

  /** What each source comes to before the database, in configuration order. */
  function PreparedAll(sources: seq<Source>): seq<Result<seq<Feature>, Error>>
  {
    seq(|sources|, i requires 0 <= i < |sources| => Prepare(sources[i]))
  }

  /**
   * One pass of main's loop: download, extract, parse, then insert. Any
   * exception is the result; a load into a reachable database with PostGIS
   * commits the source's accepted rows, or none when the table is missing.
   */
  method LoadSource(db: Database, s: Source, tempDir: string, now: string) returns (r: Result<(), Error>)
    requires db.pending == []
    modifies db
    ensures db.pending == []
    ensures Prepare(s).Err? ==> r == Err(Prepare(s).error) && db.committed == old(db.committed)
    ensures Prepare(s).Ok? && !db.reachable ==> r == Err(ConnectFailed) && db.committed == old(db.committed)
    ensures Prepare(s).Ok? && db.reachable && !old(db.PostgisReady()) ==>
      r == Err(PostgisUnavailable) && db.committed == old(db.committed)
    ensures Prepare(s).Ok? && db.reachable && old(db.PostgisReady()) ==>
      r == Ok(()) && db.PostgisReady()
      && db.committed == old(db.committed)
                         + (if db.tableExists then Accepted(Rows(Prepare(s).value, now), db.accepts) else [])
  {
    if s.name.None? {
      return Err(MissingKey("name"));
    }
    if s.kmzFile.None? {
      return Err(MissingKey("kmz_file"));
    }
    var download := DownloadKmz(s.kmzFile.value, s.fetch.response, tempDir);
    if download.Err? {
      return Err(download.error);
    }
    var extracted := ExtractKmz(s.fetch.walk);
    if extracted.Err? {
      return Err(extracted.error);
    }
    var parsed := ParseKml(s.fetch.parse(extracted.value), s.id);
    if parsed.Err? {
      return Err(parsed.error);
    }
    assert Prepare(s) == parsed;
    var loaded := db.InsertFeaturesToDb(parsed.value, now);
    if loaded.Err? {
      return Err(loaded.error);
    }
    return Ok(());
  }

  /**
   * The rows one source commits into a reachable database with PostGIS: its
   * accepted rows, or none when the table is missing or the source failed.
   */
  function LoadedBy(prepared: Result<seq<Feature>, Error>, now: string, tableExists: bool, accepts: Row -> bool): seq<Row>
  {
    if tableExists && prepared.Ok? then Accepted(Rows(prepared.value, now), accepts) else []
  }

  /** The rows committed by loading the given sources' outcomes in turn. */
  function LoadedRows(prepared: seq<Result<seq<Feature>, Error>>, now: string, tableExists: bool, accepts: Row -> bool): seq<Row>
  {
    if prepared == [] then []
    else LoadedRows(prepared[..|prepared| - 1], now, tableExists, accepts)
         + LoadedBy(prepared[|prepared| - 1], now, tableExists, accepts)
  }

  /** Loading one more source appends its rows after the earlier ones. */
  lemma LoadedRowsStep(start: seq<Row>, prepared: seq<Result<seq<Feature>, Error>>, n: nat, now: string, tableExists: bool, accepts: Row -> bool)
    requires n < |prepared|
    ensures start + LoadedRows(prepared[..n], now, tableExists, accepts) + LoadedBy(prepared[n], now, tableExists, accepts)
            == start + LoadedRows(prepared[..n + 1], now, tableExists, accepts)
  {
    var earlier := LoadedRows(prepared[..n], now, tableExists, accepts);
    var added := LoadedBy(prepared[n], now, tableExists, accepts);
    assert prepared[..n + 1][..n] == prepared[..n];
    assert LoadedRows(prepared[..n + 1], now, tableExists, accepts) == earlier + added;
    assert start + earlier + added == start + (earlier + added);
  }

  /**
   * The loop's next pass, from a state where the sources before `done` were
   * loaded: on success, the sources up to `done` have been loaded.
   */
  method LoadNext(db: Database, sources: seq<Source>, done: nat, tempDir: string, now: string, ghost ready: bool, ghost start: seq<Row>)
    returns (r: Result<(), Error>)
    requires done < |sources| && forall i :: 0 <= i < done ==> Prepare(sources[i]).Ok?
    requires db.pending == []
    requires ready == (db.reachable && db.PostgisReady())
    requires ready ==> db.committed == start + LoadedRows(PreparedAll(sources)[..done], now, db.tableExists, db.accepts)
    modifies db
    ensures db.pending == []
    ensures r.Err? ==>
      if Prepare(sources[done]).Err? then r.error == Prepare(sources[done]).error
      else (!db.reachable && r.error == ConnectFailed)
           || (db.reachable && !old(db.PostgisReady()) && r.error == PostgisUnavailable)
    ensures r.Ok? <==> ready && Prepare(sources[done]).Ok?
    ensures r.Ok? ==>
      (forall i :: 0 <= i < done + 1 ==> Prepare(sources[i]).Ok?)
      && db.reachable && db.PostgisReady()
      && db.committed == start + LoadedRows(PreparedAll(sources)[..done + 1], now, db.tableExists, db.accepts)
    ensures r.Err? ==> db.committed == old(db.committed)
  {
    ghost var prepared := PreparedAll(sources);
    assert prepared[done] == Prepare(sources[done]);
    r := LoadSource(db, sources[done], tempDir, now);
    if r.Ok? {
      LoadedRowsStep(start, prepared, done, now, db.tableExists, db.accepts);
    }
  }

  /**
   * main: the sources in configuration order, each downloaded, extracted,
   * parsed and loaded. There is no per-source isolation: the first exception
   * ends the run, so `done` sources completed and, on error, the one at index
   * `done` raised and none after it was started.
   */
  method RunUpload(db: Database, sources: seq<Source>, tempDir: string, now: string) returns (done: nat, r: Result<(), Error>)
    requires db.pending == []
    modifies db
    ensures done <= |sources|
    ensures r.Ok? <==> done == |sources|
    ensures forall i :: 0 <= i < done ==> Prepare(sources[i]).Ok?
    ensures r.Err? ==>
      if Prepare(sources[done]).Err? then r.error == Prepare(sources[done]).error
      else (!db.reachable && r.error == ConnectFailed)
           || (db.reachable && !old(db.PostgisReady()) && r.error == PostgisUnavailable)
    ensures db.reachable && old(db.PostgisReady()) ==>
      (r.Ok? <==> forall i :: 0 <= i < |sources| ==> Prepare(sources[i]).Ok?)
    ensures db.reachable && old(db.PostgisReady()) ==>
      db.committed == old(db.committed) + LoadedRows(PreparedAll(sources)[..done], now, db.tableExists, db.accepts)
    ensures !(db.reachable && old(db.PostgisReady())) ==> db.committed == old(db.committed)
    ensures db.pending == []
  {
    ghost var ready := db.reachable && db.PostgisReady();
    ghost var start := db.committed;
    done := 0;
    while done < |sources|
      invariant done <= |sources|
      invariant forall i :: 0 <= i < done ==> Prepare(sources[i]).Ok?
      invariant db.pending == []
      invariant ready == (db.reachable && db.PostgisReady())
      invariant ready ==> db.committed == start + LoadedRows(PreparedAll(sources)[..done], now, db.tableExists, db.accepts)
      invariant !ready ==> db.committed == start && done == 0
    {
      r := LoadNext(db, sources, done, tempDir, now, ready, start);
      if r.Err? {
        return;
      }
      done := done + 1;
    }
    r := Ok(());
  }
}
