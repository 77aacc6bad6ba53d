/**
 * Normalisation of power-plant CSV rows for the map: reading the output text,
 * sorting the energy source into a fixed set of types with their colours,
 * the North-America bounds check, and the row-by-row conversion into plants.
 */
module PowerPlants {
  import opened Wrappers
  import opened Text

  /** An RGB colour. */
  datatype Rgb = Rgb(r: int, g: int, b: int)

  /** A standardised source: its type and its map colour. */
  datatype SourceInfo = SourceInfo(kind: string, color: Rgb)

  const OtherSource: SourceInfo := SourceInfo("other", Rgb(200, 150, 255))

  /** The recognised source names (lower case) and what each stands for. */
  const SourceMap: map<string, SourceInfo> := map[
    "nuclear" := SourceInfo("nuclear", Rgb(255, 100, 100)),
    "hydro" := SourceInfo("hydro", Rgb(100, 150, 255)),
    "gas" := SourceInfo("gas", Rgb(255, 200, 100)),
    "coal" := SourceInfo("coal", Rgb(100, 100, 100)),
    "wind" := SourceInfo("wind", Rgb(150, 255, 150)),
    "solar" := SourceInfo("solar", Rgb(255, 255, 100)),
    "biomass" := OtherSource, "oil" := OtherSource, "diesel" := OtherSource,
    "battery" := OtherSource, "waste" := OtherSource, "geothermal" := OtherSource,
    "tidal" := OtherSource]

  /** The types a plant can be given, each with one colour. */
  predicate IsStandardSource(info: SourceInfo) {
    info == OtherSource || info in SourceMap.Values
  }

  predicate IsDigitCommaDot(c: char) { IsDigit(c) || c == ',' || c == '.' }

  predicate IsDigitOrDot(c: char) { IsDigit(c) || c == '.' }

  predicate NotComma(c: char) { c != ',' }

  /** JavaScript truthiness of an optional string: present and not empty. */
  predicate Truthy(s: Option<string>) { s.Some? && s.value != "" }

  /** `s || fallback` on an optional string. */
  function OrElse(s: Option<string>, fallback: string): (r: string)
    ensures Truthy(s) ==> r == s.value
    ensures !Truthy(s) ==> r == fallback
  {
    if Truthy(s) then s.value else fallback
  }

  /**
   * parseOutput: 0 for a missing or empty text; otherwise keep the digits,
   * commas and dots, drop the commas, and read the rest with `parseFloat`,
   * falling back to 0 when that is NaN or zero.
   */
  function ParseOutput(outputString: Option<string>): (r: real)
    ensures r >= 0.0
  {
    if !Truthy(outputString) then 0.0
    else
      var cleaned := Cleaned(outputString.value);
      var n := ParseFloat(cleaned);
      assert n.Truthy() ==> n.value >= 0.0 by {
        if cleaned != [] {
          ParseFloatUnsigned(cleaned);
        }
      }
      if n.Truthy() then n.value else 0.0
  }

  /** `replace(/[^\d,.]/g, '').replace(/,/g, '')`: the digits and dots of the text. */
  function Cleaned(s: string): (r: string)
    ensures r == FilterChars(s, IsDigitOrDot)
  {
    CleanedIsDigitsAndDots(s);
    FilterChars(FilterChars(s, IsDigitCommaDot), NotComma)
  }

  /** Dropping the commas after keeping digits, commas and dots keeps exactly the digits and dots. */
  lemma {:induction false} CleanedIsDigitsAndDots(s: string)
    ensures FilterChars(FilterChars(s, IsDigitCommaDot), NotComma) == FilterChars(s, IsDigitOrDot)
  {
    if s != [] {
      CleanedIsDigitsAndDots(s[1..]);
      var head := if IsDigitCommaDot(s[0]) then [s[0]] else [];
      FilterCharsAppend(head, FilterChars(s[1..], IsDigitCommaDot), NotComma);
    }
  }

  lemma {:induction false} FilterCharsAll(s: string, keep: char -> bool)
    requires forall i :: 0 <= i < |s| ==> keep(s[i])
    ensures FilterChars(s, keep) == s
  {
    if s != [] { FilterCharsAll(s[1..], keep); }
  }

  lemma {:induction false} FilterCharsNone(s: string, keep: char -> bool)
    requires forall i :: 0 <= i < |s| ==> !keep(s[i])
    ensures FilterChars(s, keep) == []
  {
    if s != [] { FilterCharsNone(s[1..], keep); }
  }

  /** `parseFloat` of a text starting with a digit or a dot has no sign and never goes below zero. */
  lemma ParseFloatUnsigned(s: string)
    requires s != [] && IsDigitOrDot(s[0])
    ensures ParseFloat(s).Num? ==> ParseFloat(s).value >= 0.0
  {
    ParseFloatOfUnsigned(s);
  }

  /** A comma between two texts is dropped from the cleaned text. */
  lemma CleanedDropsComma(a: string, b: string)
    ensures Cleaned(a + "," + b) == Cleaned(a + b)
  {
    var comma := [','];
    assert a + "," + b == (a + comma) + b;
    var x, y := FilterChars(a, IsDigitOrDot), FilterChars(b, IsDigitOrDot);
    assert FilterChars(comma, IsDigitOrDot) == [] by {
      FilterCharsNone(comma, IsDigitOrDot);
    }
    assert FilterChars(a + comma, IsDigitOrDot) == x by {
      FilterCharsAppend(a, comma, IsDigitOrDot);
    }
    FilterCharsAppend(a + comma, b, IsDigitOrDot);
    FilterCharsAppend(a, b, IsDigitOrDot);
  }

  /** Commas are thousands separators: removing one does not change the output. */
  lemma CommaIsIgnored(a: string, b: string)
    ensures ParseOutput(Some(a + "," + b)) == ParseOutput(Some(a + b))
  {
    CleanedDropsComma(a, b);
    if a + b == [] {
      assert ParseOutput(Some(a + "," + b)) == 0.0 by {
        assert Cleaned(a + "," + b) == [];
        ParseFloatOfNothing();
      }
    } else {
      assert Truthy(Some(a + b)) && Truthy(Some(a + "," + b));
    }
  }

  lemma ParseFloatOfNothing()
    ensures ParseFloat([]) == NaN
  {
    assert TrimStartBy([], IsJsSpace) == [];
  }

  /** A whole number with thousands separators and a unit, such as "6,232 MW", reads as that number. */
  lemma {:induction false} OutputOfGroupedDigits(hi: string, lo: string, unit: string)
    requires AllDigits(hi) && AllDigits(lo)
    requires forall i :: 0 <= i < |unit| ==> !IsDigitCommaDot(unit[i])
    ensures ParseOutput(Some(hi + "," + lo + unit)) == DigitsValue(hi + lo) as real
  {
    var ds := hi + lo;
    CommaIsIgnored(hi, lo + unit);
    assert hi + "," + lo + unit == hi + "," + (lo + unit);
    assert hi + (lo + unit) == ds + unit;
    CleanedDigitsThenUnit(ds, unit);
    ParseOutputOfDigits(ds + unit, ds);
  }

  /** Digits followed by text with no digit, comma or dot clean to the digits. */
  lemma CleanedDigitsThenUnit(ds: string, unit: string)
    requires AllDigits(ds)
    requires forall i :: 0 <= i < |unit| ==> !IsDigitCommaDot(unit[i])
    ensures Cleaned(ds + unit) == ds
  {
    FilterCharsAppend(ds, unit, IsDigitOrDot);
    FilterCharsNone(unit, IsDigitOrDot);
    FilterCharsAll(ds, IsDigitOrDot);
  }

  lemma ParseOutputOfDigits(text: string, ds: string)
    requires AllDigits(ds) && Cleaned(text) == ds
    ensures ParseOutput(Some(text)) == DigitsValue(ds) as real
  {
    if ds == [] {
      ParseOutputOfNothing(text);
    } else {
      ParseOutputOfRun(text, ds);
    }
  }

  /** A text with no digit and no dot reads as 0. */
  lemma ParseOutputOfNothing(text: string)
    requires Cleaned(text) == []
    ensures ParseOutput(Some(text)) == 0.0
  {
    ParseFloatOfNothing();
  }

  /** A text whose digits and dots are the digit string `ds` reads as the value of `ds`. */
  lemma ParseOutputOfRun(text: string, ds: string)
    requires ds != [] && AllDigits(ds) && Cleaned(text) == ds
    ensures ParseOutput(Some(text)) == DigitsValue(ds) as real
  {
    assert text != "";
    ParseFloatOfDigits(ds);
  }


  /** The position of the first part that, trimmed, is a recognised name. */
  function FirstKnown(parts: seq<string>): (r: Option<nat>)
    ensures r.None? <==> forall i :: 0 <= i < |parts| ==> Trim(parts[i]) !in SourceMap
    ensures r.Some? ==> (r.value < |parts| && Trim(parts[r.value]) in SourceMap
      && forall j :: 0 <= j < r.value ==> Trim(parts[j]) !in SourceMap)
  {
    FirstWhere(parts, (part: string) => Trim(part) in SourceMap)
  }

  /** `(source || '').toLowerCase().trim()` */
  function NormalizedSource(source: Option<string>): string
  {
    Trim(ToLower(if source.Some? then source.value else ""))
  }

  /** `sourceMap[name] || other`: the entry of a recognised name, "other" for any other text. */
  function Lookup(name: string): (r: SourceInfo)
    ensures IsStandardSource(r)
    ensures ';' in name ==> r == OtherSource
  {
    if name in SourceMap then
      SourceNamesAreWords(name);
      SourceMap[name]
    else OtherSource
  }

  /** Every recognised name is a lower-case word. */
  lemma SourceNamesAreWords(name: string)
    requires name in SourceMap
    ensures IsLowerWord(name) && ';' !in name
  {
    assert IsLowerWord(name);
    LowerWordHasNoSemicolon(name);
  }

  lemma LowerWordHasNoSemicolon(s: string)
    requires IsLowerWord(s)
    ensures ';' !in s
  {
    forall i | 0 <= i < |s|
      ensures s[i] != ';'
    {
      assert IsLowerAlpha(s[i]);
    }
  }

  /**
   * categorizeSource on the normalised text: with a `;`, the entry of the
   * first recognised trimmed part, else "other"; without one, the entry of
   * the whole text, else "other".
   */
  function Categorize(normalized: string): (r: SourceInfo)
    ensures IsStandardSource(r)
    ensures ';' in normalized ==>
      var parts := Split(normalized, ';');
      var first := FirstKnown(parts);
      r == if first.Some? then SourceMap[Trim(parts[first.value])] else OtherSource
  {
    if ';' in normalized then
      var parts := Split(normalized, ';');
      var first := FirstKnown(parts);
      if first.Some? then SourceMap[Trim(parts[first.value])] else Lookup(normalized)
    else Lookup(normalized)
  }

  /**
   * categorizeSource: the source text is lower-cased and trimmed before it is
   * categorised; the generation method the caller passes is not consulted.
   */
  function CategorizeSource(source: Option<string>): (r: SourceInfo)
    ensures IsStandardSource(r)
    ensures r == Categorize(NormalizedSource(source))
  {
    Categorize(NormalizedSource(source))
  }

  predicate IsLowerWord(s: string) { forall i :: 0 <= i < |s| ==> IsLowerAlpha(s[i]) }

  /** A recognised name, in any mix of cases and with surrounding blanks, gets its entry. */
  lemma KnownSourceAnyCase(source: string, name: string)
    requires name in SourceMap && Trim(ToLower(source)) == name
    ensures CategorizeSource(Some(source)) == SourceMap[name]
  {
    SourceNamesAreWords(name);
  }

  lemma {:induction false} LowerWordUnchanged(s: string)
    requires forall i :: 0 <= i < |s| ==> IsLowerAlpha(s[i]) || s[i] == ';'
    ensures ToLower(s) == s && Trim(s) == s
  {
    assert forall i :: 0 <= i < |s| ==> !IsJsSpace(s[i]);
  }

  /** A combined source such as "gas;oil" takes the type of its first recognised name. */
  lemma CombinedSourceTakesFirst(a: string, b: string)
    requires a in SourceMap && IsLowerWord(b)
    ensures CategorizeSource(Some(a + ";" + b)) == SourceMap[a]
  {
    var s := a + ";" + b;
    CombinedIsNormal(a, b);
    CombinedFirstPart(a, b);
    assert s[|a|] == ';';
    FirstPartRecognised(s);
  }

  /** When the first part is recognised, it decides. */
  lemma FirstPartRecognised(normalized: string)
    requires ';' in normalized && Trim(Split(normalized, ';')[0]) in SourceMap
    ensures Categorize(normalized) == SourceMap[Trim(Split(normalized, ';')[0])]
  {
    assert FirstKnown(Split(normalized, ';')) == Some(0);
  }

  lemma CombinedIsNormal(a: string, b: string)
    requires IsLowerWord(a) && IsLowerWord(b)
    ensures NormalizedSource(Some(a + ";" + b)) == a + ";" + b
  {
    var s := a + ";" + b;
    forall i | 0 <= i < |s| ensures IsLowerAlpha(s[i]) || s[i] == ';' {
      if i < |a| { assert s[i] == a[i]; }
      else if i > |a| { assert s[i] == b[i - |a| - 1]; }
    }
    LowerWordUnchanged(s);
  }

  lemma CombinedFirstPart(a: string, b: string)
    requires a in SourceMap
    ensures Trim(Split(a + ";" + b, ';')[0]) == a
  {
    SourceNamesAreWords(a);
    SplitHead(a, b, ';');
    LowerWordUnchanged(a);
  }

  /** validateCoordinates: inside the North-America box, bounds included. */
  predicate ValidateCoordinates(lat: real, lng: real)
    ensures ValidateCoordinates(lat, lng) ==> 0.0 < lat && lng < 0.0
  {
    25.0 <= lat <= 85.0 && -180.0 <= lng <= -50.0
  }

  /** A CSV row as the loader produces it: each column is text, or absent. */
  datatype CsvRow = CsvRow(
    name: Option<string>, operator: Option<string>, output: Option<string>,
    source: Option<string>, generation: Option<string>, wikidataId: Option<string>,
    latitude: Option<string>, longitude: Option<string>)

  /** The standardised plant the map draws. */
  datatype PowerPlant = PowerPlant(
    id: string, name: string, operator: string, output: real, outputDisplay: string,
    source: string, generation: string, wikidataId: Option<string>,
    latitude: real, longitude: real, coordinates: seq<real>)

  /** `parseFloat` of a column; NaN when the column is absent. */
  function ParseColumn(column: Option<string>): JsNum
  {
    if column.None? then NaN else ParseFloat(column.value)
  }

  /** The identifier of the plant made from row `i`. */
  function PlantId(i: nat): string
  {
    "plant_" + NatToString(i)
  }

  /** Rows at different positions give plants different identifiers. */
  lemma PlantIdsDistinct(i: nat, j: nat)
    requires i != j
    ensures PlantId(i) != PlantId(j)
  {
    assert PlantId(i)[6..] == NatToString(i);
    assert PlantId(j)[6..] == NatToString(j);
  }

  /** A row with its columns read: names, parsed coordinates, parsed output and source type. */
  datatype RowView =
    | Missing
    | RowView(name: Option<string>, operator: Option<string>, outputText: Option<string>,
              generation: Option<string>, wikidataId: Option<string>,
              lat: JsNum, lng: JsNum, output: real, sourceKind: string)

  /** Reads the columns of a row. */
  function View(row: Option<CsvRow>): (v: RowView)
    ensures row.None? <==> v.Missing?
    ensures v.RowView? ==> v.name == row.value.name && v.output >= 0.0
  {
    if row.None? then Missing
    else
      var r := row.value;
      RowView(r.name, r.operator, r.output, r.generation, r.wikidataId,
        ParseColumn(r.latitude), ParseColumn(r.longitude), ParseOutput(r.output),
        CategorizeSource(r.source).kind)
  }

  /** The rows with their columns read. */
  function Views(rows: seq<Option<CsvRow>>): (vs: seq<RowView>)
    ensures |vs| == |rows|
  {
    if rows == [] then [] else Views(rows[..|rows| - 1]) + [View(rows[|rows| - 1])]
  }

  lemma {:induction false} ViewsIndex(rows: seq<Option<CsvRow>>, i: nat)
    requires i < |rows|
    ensures Views(rows)[i] == View(rows[i])
    decreases |rows|
  {
    if i < |rows| - 1 {
      ViewsIndex(rows[..|rows| - 1], i);
    }
  }

  /** Each view is the view of its row (triggered by reading a row, so that no other row is unfolded). */
  lemma ViewsAll(rows: seq<Option<CsvRow>>)
    ensures forall i {:trigger View(rows[i])} :: 0 <= i < |rows| ==> Views(rows)[i] == View(rows[i])
  {
    forall i | 0 <= i < |rows|
      ensures Views(rows)[i] == View(rows[i])
    {
      ViewsIndex(rows, i);
    }
  }

  /** Whether the row at this view is skipped. */
  predicate Skipped(v: RowView) {
    v.Missing? || !Truthy(v.name)
    || v.lat.NaN? || v.lng.NaN? || !ValidateCoordinates(v.lat.value, v.lng.value)
    || v.output <= 0.0
  }

  /**
   * The plant row `i` yields, or None when the row is skipped: an empty row,
   * a row without a name, unparsable or out-of-bounds coordinates, or an
   * output that is not positive.
   */
  function PlantAt(v: RowView, i: nat): (p: Option<PowerPlant>)
    ensures p.None? <==> Skipped(v)
    ensures p.Some? ==> ValidPlant(p.value) && p.value.id == PlantId(i) && p.value.name == v.name.value
  {
    if Skipped(v) then None
    else
      Some(PowerPlant(
        PlantId(i), OrElse(v.name, "Unknown"), OrElse(v.operator, "Unknown"), v.output,
        OrElse(v.outputText, "Unknown"), v.sourceKind, OrElse(v.generation, "Unknown"),
        if Truthy(v.wikidataId) then v.wikidataId else None,
        v.lat.value, v.lng.value, [v.lng.value, v.lat.value]))
  }

  /** What every plant on the map satisfies. */
  predicate ValidPlant(p: PowerPlant) {
    ValidateCoordinates(p.latitude, p.longitude)
    && p.coordinates == [p.longitude, p.latitude]
    && p.output > 0.0
    && p.name != ""
  }

  /** The first row is skipped as a header when its name column reads "name". */
  function StartIndex(rows: seq<Option<CsvRow>>): (start: nat)
    ensures start <= 1 && (rows == [] ==> start == 0)
  {
    if rows != [] && rows[0].Some? && rows[0].value.name == Some("name") then 1 else 0
  }

  /** The positions in `start..n` whose row yields a plant, in increasing order. */
  function Kept(vs: seq<RowView>, start: nat, n: nat): (ks: seq<nat>)
    requires start <= n <= |vs|
    ensures forall k :: 0 <= k < |ks| ==> start <= ks[k] < n && !Skipped(vs[ks[k]])
    ensures |ks| <= n - start
    decreases n
  {
    if n == start then []
    else Kept(vs, start, n - 1) + (if !Skipped(vs[n - 1]) then [n - 1] else [])
  }

  /** The kept positions increase, and every position in `start..n` that yields a plant is among them. */
  lemma {:induction false} KeptExactly(vs: seq<RowView>, start: nat, n: nat)
    requires start <= n <= |vs|
    ensures forall k, l :: 0 <= k < l < |Kept(vs, start, n)| ==> Kept(vs, start, n)[k] < Kept(vs, start, n)[l]
    ensures forall i :: start <= i < n && !Skipped(vs[i]) ==> i in Kept(vs, start, n)
    decreases n
  {
    if n > start {
      KeptExactly(vs, start, n - 1);
    }
  }

  /** The plants of the kept positions, in the same order. */
  function PlantsAt(vs: seq<RowView>, ks: seq<nat>): (ps: seq<PowerPlant>)
    requires forall k :: 0 <= k < |ks| ==> ks[k] < |vs| && !Skipped(vs[ks[k]])
    ensures |ps| == |ks|
  {
    if ks == [] then []
    else
      var last := ks[|ks| - 1];
      PlantsAt(vs, ks[..|ks| - 1]) + [PlantAt(vs[last], last).value]
  }

  /** The plant at place `k` is the one of the `k`-th kept position. */
  lemma {:induction false} PlantsAtIndex(vs: seq<RowView>, ks: seq<nat>, k: nat)
    requires forall k :: 0 <= k < |ks| ==> ks[k] < |vs| && !Skipped(vs[ks[k]])
    requires k < |ks|
    ensures Some(PlantsAt(vs, ks)[k]) == PlantAt(vs[ks[k]], ks[k])
  {
    if k < |ks| - 1 {
      PlantsAtIndex(vs, ks[..|ks| - 1], k);
    }
  }

  /** What processCSV returns for a sequence of rows. */
  function Processed(rows: seq<Option<CsvRow>>): (r: seq<PowerPlant>)
    ensures |r| <= |rows| - StartIndex(rows)
  {
    var vs := Views(rows);
    PlantsAt(vs, Kept(vs, StartIndex(rows), |rows|))
  }

  /**
   * processCSV: nothing for a missing or empty input; otherwise, after an
   * optional header row, one plant for each row that is not skipped, in row
   * order.
   */
  method ProcessCsv(csvData: Option<seq<Option<CsvRow>>>) returns (powerPlants: seq<PowerPlant>)
    ensures csvData.None? ==> powerPlants == []
    ensures csvData.Some? ==> powerPlants == Processed(csvData.value)
  {
    if csvData.None? || |csvData.value| == 0 {
      return [];
    }
    var rows := csvData.value;
    var start := if rows[0].Some? && rows[0].value.name == Some("name") then 1 else 0;
    assert start == StartIndex(rows);
    ViewsAll(rows);
    powerPlants := CollectPlants(rows, start, Views(rows));
    CollectedKept(Views(rows), start, |rows|);
  }

  /** The plants of the rows of `vs` from `start` up to `n`, appended row by row as the loop does. */
  function Collected(vs: seq<RowView>, start: nat, n: nat): seq<PowerPlant>
    requires start <= n <= |vs|
    decreases n
  {
    if n == start then []
    else
      var plant := PlantAt(vs[n - 1], n - 1);
      Collected(vs, start, n - 1) + (if plant.Some? then [plant.value] else [])
  }

  /** Appending row by row gives the plants of the kept positions. */
  lemma {:induction false} CollectedKept(vs: seq<RowView>, start: nat, n: nat)
    requires start <= n <= |vs|
    ensures Collected(vs, start, n) == PlantsAt(vs, Kept(vs, start, n))
    decreases n
  {
    if n > start {
      CollectedKept(vs, start, n - 1);
      KeptStep(vs, start, n - 1, PlantAt(vs[n - 1], n - 1));
    }
  }

  /** The loop of processCSV: the plants of the rows from `start` on, in row order. */
  method CollectPlants(rows: seq<Option<CsvRow>>, start: nat, ghost vs: seq<RowView>) returns (powerPlants: seq<PowerPlant>)
    requires start <= |rows| == |vs|
    requires forall i {:trigger View(rows[i])} :: 0 <= i < |rows| ==> vs[i] == View(rows[i])
    ensures powerPlants == Collected(vs, start, |rows|)
  {
    powerPlants := [];
    var i := start;
    while i < |rows|
      invariant start <= i <= |rows|
      invariant powerPlants == Collected(vs, start, i)
    {
      var plant := RowPlant(rows, i, vs);
      if plant.Some? {
        powerPlants := powerPlants + [plant.value];
      }
      i := i + 1;
    }
  }

  /** The plant row `i` yields, if any. */
  method RowPlant(rows: seq<Option<CsvRow>>, i: nat, ghost vs: seq<RowView>) returns (plant: Option<PowerPlant>)
    requires i < |rows| == |vs|
    requires forall i {:trigger View(rows[i])} :: 0 <= i < |rows| ==> vs[i] == View(rows[i])
    ensures plant == PlantAt(vs[i], i)
  {
    plant := PlantAt(View(rows[i]), i);
  }

  /** One more row adds its plant, if any, at the end. */
  lemma KeptStep(vs: seq<RowView>, start: nat, i: nat, plant: Option<PowerPlant>)
    requires start <= i < |vs| && plant == PlantAt(vs[i], i)
    ensures plant.None? ==> PlantsAt(vs, Kept(vs, start, i + 1)) == PlantsAt(vs, Kept(vs, start, i))
    ensures plant.Some? ==> PlantsAt(vs, Kept(vs, start, i + 1)) == PlantsAt(vs, Kept(vs, start, i)) + [plant.value]
  {
    var before := Kept(vs, start, i);
    if !Skipped(vs[i]) {
      assert Kept(vs, start, i + 1) == before + [i];
      assert (before + [i])[..|before|] == before;
    } else {
      assert Kept(vs, start, i + 1) == before;
      assert PlantsAt(vs, before) + [] == PlantsAt(vs, before);
    }
  }

  /**
   * Every plant processCSV returns is valid and comes from a row after the
   * header whose name it carries, and no two plants share an identifier.
   */
  lemma {:induction false} ProcessedPlants(rows: seq<Option<CsvRow>>)
    ensures forall k :: 0 <= k < |Processed(rows)| ==>
      (ValidPlant(Processed(rows)[k])
       && exists i :: (StartIndex(rows) <= i < |rows| && Processed(rows)[k].id == PlantId(i)
                       && rows[i].Some? && rows[i].value.name == Some(Processed(rows)[k].name)))
    ensures forall k, l :: 0 <= k < l < |Processed(rows)| ==> Processed(rows)[k].id != Processed(rows)[l].id
  {
    var vs := Views(rows);
    var ks := Kept(vs, StartIndex(rows), |rows|);
    var ps := Processed(rows);
    KeptExactly(vs, StartIndex(rows), |rows|);
    forall k | 0 <= k < |ps|
      ensures ValidPlant(ps[k])
      ensures exists i :: (StartIndex(rows) <= i < |rows| && ps[k].id == PlantId(i)
                           && rows[i].Some? && rows[i].value.name == Some(ps[k].name))
    {
      PlantsAtIndex(vs, ks, k);
      ViewsIndex(rows, ks[k]);
    }
    forall k, l | 0 <= k < l < |ps|
      ensures ps[k].id != ps[l].id
    {
      PlantsAtIndex(vs, ks, k);
      PlantsAtIndex(vs, ks, l);
      PlantIdsDistinct(ks[k], ks[l]);
    }
  }

  /** A row after the header that is not skipped is never lost: its plant appears in the output. */
  lemma KeptRowAppears(rows: seq<Option<CsvRow>>, i: nat)
    requires StartIndex(rows) <= i < |rows| && !Skipped(View(rows[i]))
    ensures PlantAt(View(rows[i]), i).value in Processed(rows)
  {
    var vs := Views(rows);
    var ks := Kept(vs, StartIndex(rows), |rows|);
    ViewsIndex(rows, i);
    KeptExactly(vs, StartIndex(rows), |rows|);
    assert i in ks;
    var k :| 0 <= k < |ks| && ks[k] == i;
    PlantsAtIndex(vs, ks, k);
  }
}
