/**
 * The data helpers of the map front end: the quote-aware CSV reader that
 * turns CSV text into rows keyed by the header names, grouping rows by a
 * field, and the capacity statistics of a list of power plants.
 */
module DataUtils {
  import opened Wrappers
  import opened Text
  import opened Seqs

  // ---------------------------------------------------------------------
  // CSV lines
  // ---------------------------------------------------------------------

  predicate NotQuote(c: char) { c != '"' }

  /** `raw.trim().replace(/"/g, '')`: how a header or a field value is cleaned. */
  function Clean(raw: string): (r: string)
    ensures '"' !in r
  {
    var r := FilterChars(Trim(raw), NotQuote);
    assert forall i :: 0 <= i < |r| ==> r[i] != '"';
    r
  }

  /**
   * The scanner's variables: the fields finished so far (as read, before
   * cleaning), the field being read, and whether a quote is open.
   */
  datatype Scan = Scan(fields: seq<string>, current: string, inQuotes: bool)

  /**
   * One character of the line: a quote toggles the quote state and is
   * dropped; a comma outside quotes finishes the field; anything else is
   * appended to the field.
   */
  function ScanChar(s: Scan, c: char): Scan {
    if c == '"' then s.(inQuotes := !s.inQuotes)
    else if c == ',' && !s.inQuotes then Scan(s.fields + [s.current], "", s.inQuotes)
    else s.(current := s.current + [c])
  }

  /** The scanner's variables after the first `k` characters of `line`. */
  function ScanUpTo(line: string, k: nat): Scan
    requires k <= |line|
  {
    if k == 0 then Scan([], "", false) else ScanChar(ScanUpTo(line, k - 1), line[k - 1])
  }

  /** Each field cleaned. */
  function CleanAll(fields: seq<string>): (r: seq<string>)
    ensures |r| == |fields| && forall i :: 0 <= i < |fields| ==> r[i] == Clean(fields[i])
  {
    seq(|fields|, i requires 0 <= i < |fields| => Clean(fields[i]))
  }

  /** The fields of a whole line: the finished ones and the last. */
  function LineFields(line: string): seq<string>
  {
    var s := ScanUpTo(line, |line|);
    s.fields + [s.current]
  }

  /** The values of one data line: its fields, cleaned. */
  function LineValues(line: string): seq<string>
  {
    CleanAll(LineFields(line))
  }

  /** How many quote characters come before position `k`. */
  function QuotesBefore(line: string, k: nat): nat
    requires k <= |line|
  {
    if k == 0 then 0 else QuotesBefore(line, k - 1) + (if line[k - 1] == '"' then 1 else 0)
  }

  /** How many commas before position `k` stand outside quotes, that is after an even number of quotes. */
  function CommasOutsideQuotes(line: string, k: nat): nat
    requires k <= |line|
  {
    if k == 0 then 0
    else CommasOutsideQuotes(line, k - 1) + (if line[k - 1] == ',' && QuotesBefore(line, k - 1) % 2 == 0 then 1 else 0)
  }

  /**
   * After `k` characters the scanner has finished one field per comma
   * outside quotes, a quote is open exactly when an odd number of quotes has
   * been read, and no field holds a quote.
   */
  lemma {:induction false} ScanInvariant(line: string, k: nat)
    requires k <= |line|
    ensures var s := ScanUpTo(line, k);
      |s.fields| == CommasOutsideQuotes(line, k)
      && s.inQuotes == (QuotesBefore(line, k) % 2 == 1)
      && '"' !in s.current
      && forall i :: 0 <= i < |s.fields| ==> '"' !in s.fields[i]
  {
    if k > 0 {
      ScanInvariant(line, k - 1);
    }
  }

  /** A line has one value more than it has commas outside quotes. */
  lemma ValueCount(line: string)
    ensures |LineValues(line)| == 1 + CommasOutsideQuotes(line, |line|)
  {
    ScanInvariant(line, |line|);
  }

  /** No quote in the text and no white space at either end. */
  predicate IsCleanValue(v: string) {
    '"' !in v && (v != [] ==> !IsJsSpace(v[0]) && !IsJsSpace(v[|v| - 1]))
  }

  /** Every value is its field trimmed, so it is free of quotes and has no white space at either end. */
  lemma ValuesClean(line: string)
    ensures forall i :: 0 <= i < |LineValues(line)| ==>
      LineValues(line)[i] == Trim(LineFields(line)[i]) && IsCleanValue(LineValues(line)[i])
  {
    var fields := LineFields(line);
    ScanInvariant(line, |line|);
    forall i | 0 <= i < |fields|
      ensures CleanAll(fields)[i] == Trim(fields[i]) && IsCleanValue(CleanAll(fields)[i])
    {
      CleanUnquoted(fields[i]);
    }
  }

  /** Cleaning a text without quotes only trims it. */
  lemma CleanUnquoted(raw: string)
    requires '"' !in raw
    ensures Clean(raw) == Trim(raw) && IsCleanValue(Clean(raw))
  {
    var u := TrimStartBy(raw, IsJsSpace);
    var t := TrimEndBy(u, IsJsSpace);
    NoQuoteInSlice(raw, |raw| - |u|, |raw|);
    NoQuoteInSlice(u, 0, |t|);
    assert t == Trim(raw);
    forall i | 0 <= i < |t|
      ensures NotQuote(t[i])
    {
      assert t[i] in t;
    }
  }

  lemma NoQuoteInSlice(s: string, a: nat, b: nat)
    requires a <= b <= |s| && '"' !in s
    ensures '"' !in s[a..b]
  {
    forall j | 0 <= j < b - a
      ensures s[a..b][j] != '"'
    {
      assert s[a + j] in s;
    }
  }

  /** Splitting a text extended by one character: a separator opens a new part, anything else extends the last. */
  lemma {:induction false} SplitSnoc(s: string, c: char, sep: char)
    ensures Split(s + [c], sep) == Extended(Split(s, sep), c, sep)
  {
    if s == [] {
      assert Split([], sep) == [""];
      assert [c][1..] == [];
      assert s + [c] == [c];
      assert [c] + "" == [c] && "" + [c] == [c];
    } else {
      var t := s[1..];
      assert (s + [c])[0] == s[0] && (s + [c])[1..] == t + [c];
      SplitSnoc(t, c, sep);
      if s[0] != sep {
        ExtendedHead([s[0]], Split(t, sep), c, sep);
      }
    }
  }

  /** The parts after one more character `c`. */
  function Extended(p: seq<string>, c: char, sep: char): seq<string>
    requires |p| > 0
  {
    if c == sep then p + [""] else p[..|p| - 1] + [p[|p| - 1] + [c]]
  }

  /** Extending the parts commutes with prefixing the first part. */
  lemma ExtendedHead(h: string, q: seq<string>, c: char, sep: char)
    requires |q| > 0
    ensures var r := Extended(q, c, sep);
      [h + r[0]] + r[1..] == Extended([h + q[0]] + q[1..], c, sep)
  {
    var p := [h + q[0]] + q[1..];
    var r := Extended(q, c, sep);
    if c == sep {
      assert r[1..] == q[1..] + [""];
    } else if |q| == 1 {
      assert r == [q[0] + [c]];
      assert p[..0] == [] && p[0] == h + q[0];
      assert h + (q[0] + [c]) == (h + q[0]) + [c];
    } else {
      assert r[0] == q[0];
      assert r[1..] == q[1..|q| - 1] + [q[|q| - 1] + [c]];
      assert p[..|p| - 1] == [h + q[0]] + q[1..|q| - 1];
    }
  }

  /**
   * On a line without quotes the scanner is a plain comma split: after `k`
   * characters its fields are the parts of the split so far.
   */
  lemma {:induction false} UnquotedScan(line: string, k: nat)
    requires k <= |line| && '"' !in line
    ensures var s := ScanUpTo(line, k); s.fields + [s.current] == Split(line[..k], ',') && !s.inQuotes
  {
    if k > 0 {
      UnquotedScan(line, k - 1);
      assert line[..k] == line[..k - 1] + [line[k - 1]];
      SplitSnoc(line[..k - 1], line[k - 1], ',');
    }
  }

  /** Without quotes, a line's values are its comma-separated parts, trimmed. */
  lemma UnquotedLine(line: string)
    requires '"' !in line
    ensures LineFields(line) == Split(line, ',')
    ensures forall i :: 0 <= i < |LineValues(line)| ==> LineValues(line)[i] == Trim(Split(line, ',')[i])
  {
    UnquotedScan(line, |line|);
    assert line[..|line|] == line;
    ValuesClean(line);
  }

  /** The character loop of loadCSVData for one line, ending with the last field. */
  method SplitLine(line: string) returns (values: seq<string>)
    ensures values == LineValues(line)
  {
    values := [];
    var current := "";
    var inQuotes := false;
    ghost var fields := [];
    for j := 0 to |line|
      invariant ScanUpTo(line, j) == Scan(fields, current, inQuotes)
      invariant values == CleanAll(fields)
    {
      values, current, inQuotes, fields := ReadChar(values, current, inQuotes, line[j], fields);
    }
    values := FinishField(values, current, fields);
  }

  /** One character of the scanning loop. */
  method ReadChar(values: seq<string>, current: string, inQuotes: bool, c: char, ghost fields: seq<string>)
    returns (values': seq<string>, current': string, inQuotes': bool, ghost fields': seq<string>)
    requires values == CleanAll(fields)
    ensures Scan(fields', current', inQuotes') == ScanChar(Scan(fields, current, inQuotes), c)
    ensures values' == CleanAll(fields')
  {
    values', current', inQuotes', fields' := values, current, inQuotes, fields;
    if c == '"' {
      inQuotes' := !inQuotes;
    } else if c == ',' && !inQuotes {
      values' := FinishField(values, current, fields);
      fields' := fields + [current];
      current' := "";
    } else {
      current' := current + [c];
    }
  }

  /** `values.push(current.trim().replace(/"/g, ''))`. */
  method FinishField(values: seq<string>, current: string, ghost fields: seq<string>) returns (values': seq<string>)
    requires values == CleanAll(fields)
    ensures values' == CleanAll(fields + [current])
  {
    values' := values + [Clean(current)];
  }

  // ---------------------------------------------------------------------
  // CSV rows
  // ---------------------------------------------------------------------

  /** A row: field values keyed by header name, as a plain object holds them. */
  type Row = map<string, string>

  /** `values[index] || ''`: the value under a header, the empty text when the line is short. */
  function CellAt(values: seq<string>, index: nat): string
  {
    if index < |values| then values[index] else ""
  }

  /** The row after assigning the first `n` headers in order; a repeated header keeps its last value. */
  function RowUpTo(headers: seq<string>, values: seq<string>, n: nat): Row
    requires n <= |headers|
  {
    if n == 0 then map[] else RowUpTo(headers, values, n - 1)[headers[n - 1] := CellAt(values, n - 1)]
  }

  function RowOf(headers: seq<string>, values: seq<string>): Row
  {
    RowUpTo(headers, values, |headers|)
  }

  /** A row has exactly the header names as keys. */
  lemma {:induction false} RowKeys(headers: seq<string>, values: seq<string>, n: nat)
    requires n <= |headers|
    ensures forall h :: h in RowUpTo(headers, values, n) <==> h in headers[..n]
  {
    if n > 0 {
      RowKeys(headers, values, n - 1);
      assert headers[..n] == headers[..n - 1] + [headers[n - 1]];
    }
  }

  /**
   * Under the last occurrence of a header stands the value at that header's
   * position, or the empty text when the line has fewer values.
   */
  lemma {:induction false} RowLookup(headers: seq<string>, values: seq<string>, n: nat, j: nat)
    requires j < n <= |headers|
    requires forall i :: j < i < n ==> headers[i] != headers[j]
    ensures headers[j] in RowUpTo(headers, values, n)
    ensures RowUpTo(headers, values, n)[headers[j]] == CellAt(values, j)
  {
    if j < n - 1 {
      RowLookup(headers, values, n - 1, j);
    }
  }

  /** Missing trailing fields read as the empty text. */
  lemma MissingFieldIsEmpty(headers: seq<string>, values: seq<string>, j: nat)
    requires |values| <= j < |headers|
    requires forall i :: j < i < |headers| ==> headers[i] != headers[j]
    ensures headers[j] in RowOf(headers, values)
    ensures RowOf(headers, values)[headers[j]] == ""
  {
    RowLookup(headers, values, |headers|, j);
  }

  /** `headers.forEach(...)`: the row object filled header by header. */
  method BuildRow(headers: seq<string>, values: seq<string>) returns (row: Row)
    ensures row == RowOf(headers, values)
  {
    row := map[];
    for index := 0 to |headers|
      invariant row == RowUpTo(headers, values, index)
    {
      var header := headers[index];
      row := row[header := if index < |values| && values[index] != "" then values[index] else ""];
    }
  }

  /** The header names: the first line split on every comma, each cleaned. */
  function HeadersOf(lines: seq<string>): (r: seq<string>)
    requires |lines| > 0
    ensures var parts := Split(lines[0], ','); |r| == |parts| && forall i :: 0 <= i < |r| ==> r[i] == Clean(parts[i])
  {
    var parts := Split(lines[0], ',');
    seq(|parts|, i requires 0 <= i < |parts| => Clean(parts[i]))
  }

  predicate IsBlank(line: string) { Trim(line) == "" }

  /** The rows of the data lines `1 .. n - 1`, skipping blank lines. */
  function RowsUpTo(lines: seq<string>, headers: seq<string>, n: nat): seq<Row>
    requires 1 <= n <= |lines|
  {
    if n == 1 then []
    else RowsUpTo(lines, headers, n - 1) + (if IsBlank(lines[n - 1]) then [] else [RowOf(headers, LineValues(lines[n - 1]))])
  }

  /** What loadCSVData returns for the text it fetched. */
  function CsvRows(csvText: string): seq<Row>
  {
    var lines := Split(csvText, '\n');
    RowsUpTo(lines, HeadersOf(lines), |lines|)
  }

  /** The number of non-blank lines among the data lines `1 .. n - 1`. */
  function DataLines(lines: seq<string>, n: nat): nat
    requires 1 <= n <= |lines|
  {
    if n == 1 then 0 else DataLines(lines, n - 1) + (if IsBlank(lines[n - 1]) then 0 else 1)
  }

  /** One row per non-blank data line, each keyed by exactly the header names. */
  lemma {:induction false} RowsShape(lines: seq<string>, headers: seq<string>, n: nat)
    requires 1 <= n <= |lines|
    ensures var rows := RowsUpTo(lines, headers, n);
      |rows| == DataLines(lines, n)
      && forall k, h :: 0 <= k < |rows| ==> (h in rows[k] <==> h in headers)
  {
    if n > 1 {
      RowsShape(lines, headers, n - 1);
      RowKeys(headers, LineValues(lines[n - 1]), |headers|);
      assert headers[..|headers|] == headers;
    }
  }

  /**
   * The parsing half of loadCSVData: the first line gives the headers; each
   * later non-blank line becomes a row of its values under those headers.
   */
  method ParseCsvText(csvText: string) returns (data: seq<Row>)
    ensures data == CsvRows(csvText)
  {
    var lines := Split(csvText, '\n');
    var headers := HeadersOf(lines);
    data := [];
    for i := 1 to |lines|
      invariant data == RowsUpTo(lines, headers, i)
    {
      data := AddLine(data, headers, lines[i]);
    }
  }

  /** One iteration of the line loop: a blank line is skipped, any other becomes a row. */
  method AddLine(data: seq<Row>, headers: seq<string>, line: string) returns (data': seq<Row>)
    ensures data' == data + if IsBlank(line) then [] else [RowOf(headers, LineValues(line))]
  {
    data' := data;
    if Trim(line) != "" {
      var values := SplitLine(line);
      var row := BuildRow(headers, values);
      data' := data + [row];
    }
  }

  // ---------------------------------------------------------------------
  // groupBy
  // ---------------------------------------------------------------------

  /** `item[property] || 'unknown'`: the group of a row. */
  function GroupKey(item: Row, property: string): (k: string)
    ensures k != ""
  {
    if property in item && item[property] != "" then item[property] else "unknown"
  }

  /** The rows of `data` in group `k`, in order. */
  function GroupOf(data: seq<Row>, property: string, k: string): (g: seq<Row>)
    ensures forall i :: 0 <= i < |g| ==> GroupKey(g[i], property) == k
  {
    if data == [] then []
    else GroupOf(data[..|data| - 1], property, k) + (if GroupKey(data[|data| - 1], property) == k then [data[|data| - 1]] else [])
  }

  /** The size of a group is the number of rows with its key. */
  lemma {:induction false} GroupSize(data: seq<Row>, property: string, k: string)
    ensures |GroupOf(data, property, k)| == CountBy(data, (item: Row) => GroupKey(item, property), k)
  {
    if data != [] {
      GroupSize(data[..|data| - 1], property, k);
    }
  }

  /** A key no row has has an empty group. */
  lemma {:induction false} GroupOfAbsent(data: seq<Row>, property: string, k: string)
    requires forall i :: 0 <= i < |data| ==> GroupKey(data[i], property) != k
    ensures GroupOf(data, property, k) == []
  {
    if data != [] {
      GroupOfAbsent(data[..|data| - 1], property, k);
    }
  }

  /** Every row lands in the group of its own key. */
  lemma {:induction false} InOwnGroup(data: seq<Row>, property: string, i: nat)
    requires i < |data|
    ensures data[i] in GroupOf(data, property, GroupKey(data[i], property))
  {
    if i < |data| - 1 {
      InOwnGroup(data[..|data| - 1], property, i);
    }
  }

  /** No row is lost or counted twice: the sizes of the groups, over the distinct keys, add up to the row count. */
  lemma GroupSizesAddUp(data: seq<Row>, property: string)
    ensures var key := (item: Row) => GroupKey(item, property);
      SumCounts(Distinct(KeysOf(data, key)), data, key) == |data|
  {
    CountsAddUp(data, (item: Row) => GroupKey(item, property));
  }

  /** The group key of every row, in order. */
  function GroupKeys(data: seq<Row>, property: string): (ks: seq<string>)
    ensures |ks| == |data| && forall i :: 0 <= i < |data| ==> ks[i] == GroupKey(data[i], property)
  {
    seq(|data|, i requires 0 <= i < |data| => GroupKey(data[i], property))
  }

  /** Adding a row extends its own group and leaves every other group as it was. */
  lemma GroupOfSnoc(prefix: seq<Row>, item: Row, property: string)
    ensures forall k ::
      GroupOf(prefix + [item], property, k) == GroupOf(prefix, property, k) + (if GroupKey(item, property) == k then [item] else [])
    ensures GroupKeys(prefix + [item], property) == GroupKeys(prefix, property) + [GroupKey(item, property)]
  {
    assert (prefix + [item])[..|prefix|] == prefix;
  }

  /** Without any row holding key `k`, its group is empty. */
  lemma AbsentGroup(prefix: seq<Row>, property: string, k: string)
    requires k !in GroupKeys(prefix, property)
    ensures GroupOf(prefix, property, k) == []
  {
    forall i | 0 <= i < |prefix|
      ensures GroupKey(prefix[i], property) != k
    {
      assert GroupKeys(prefix, property)[i] == GroupKey(prefix[i], property);
    }
    GroupOfAbsent(prefix, property, k);
  }

  /** One step of the reduce: the item pushed onto its group, which is created when missing. */
  method AddToGroup(groups: map<string, seq<Row>>, ghost prefix: seq<Row>, item: Row, property: string)
    returns (groups': map<string, seq<Row>>)
    requires forall k :: k in groups <==> k in GroupKeys(prefix, property)
    requires forall k :: k in groups ==> groups[k] == GroupOf(prefix, property, k)
    ensures forall k :: k in groups' <==> k in GroupKeys(prefix + [item], property)
    ensures forall k :: k in groups' ==> groups'[k] == GroupOf(prefix + [item], property, k)
  {
    var group := GroupKey(item, property);
    groups' := groups;
    if group !in groups' {
      AbsentGroup(prefix, property, group);
      groups' := groups'[group := []];
    }
    groups' := groups'[group := groups'[group] + [item]];
    GroupOfSnoc(prefix, item, property);
  }

  /**
   * groupBy: one group per key that occurs, each holding the rows with that
   * key in their original order.
   */
  method GroupBy(data: seq<Row>, property: string) returns (groups: map<string, seq<Row>>)
    ensures forall k :: k in groups <==> k in GroupKeys(data, property)
    ensures forall k :: k in groups ==> groups[k] == GroupOf(data, property, k)
  {
    groups := map[];
    for n := 0 to |data|
      invariant forall k :: k in groups <==> k in GroupKeys(data[..n], property)
      invariant forall k :: k in groups ==> groups[k] == GroupOf(data[..n], property, k)
    {
      assert data[..n + 1] == data[..n] + [data[n]];
      groups := AddToGroup(groups, data[..n], data[n], property);
    }
    assert data[..|data|] == data;
  }

  /** A group is empty only for keys that do not occur, so every group of groupBy holds at least one row. */
  lemma {:induction false} GroupNonEmpty(data: seq<Row>, property: string, i: nat)
    requires i < |data|
    ensures |GroupOf(data, property, GroupKey(data[i], property))| > 0
  {
    InOwnGroup(data, property, i);
  }

  // ---------------------------------------------------------------------
  // calculatePowerPlantStats
  // ---------------------------------------------------------------------

  /** The fields the statistics read: `output` (absent when undefined or null) and `source`. */
  datatype Plant = Plant(output: Option<JsNum>, source: Option<string>)

  /** `plant.output || 0`: zero, NaN and a missing output all count as 0. */
  function Output(p: Plant): real
  {
    if p.output.Some? && p.output.value.Num? then p.output.value.value else 0.0
  }

  /** `plant.source || 'unknown'`. */
  function SourceKey(p: Plant): (k: string)
    ensures k != ""
  {
    if p.source.Some? && p.source.value != "" then p.source.value else "unknown"
  }

  datatype Breakdown = Breakdown(count: nat, capacity: real)

  datatype Stats = Stats(totalCapacity: real, sourceBreakdown: map<string, Breakdown>, plantCount: nat)

  /**
   * The running figures describe `plants`: their total output, and per
   * source that occurs the number of plants and their summed output.
   */
  ghost predicate Describes(totalCapacity: real, breakdown: map<string, Breakdown>, plants: seq<Plant>) {
    totalCapacity == TotalWeight(plants, Output)
    && (forall k :: k in breakdown <==> k in KeysOf(plants, SourceKey))
    && forall k :: k in breakdown ==>
         breakdown[k] == Breakdown(CountBy(plants, SourceKey, k), WeightBy(plants, SourceKey, Output, k))
  }

  /**
   * calculatePowerPlantStats: the plant count, the total output, and per
   * source that occurs the number of plants and their summed output.
   */
  method CalculatePowerPlantStats(powerPlants: seq<Plant>) returns (stats: Stats)
    ensures stats.plantCount == |powerPlants|
    ensures stats.totalCapacity == TotalWeight(powerPlants, Output)
    ensures forall k :: k in stats.sourceBreakdown <==> k in KeysOf(powerPlants, SourceKey)
    ensures forall k :: k in stats.sourceBreakdown ==>
      stats.sourceBreakdown[k] == Breakdown(CountBy(powerPlants, SourceKey, k), WeightBy(powerPlants, SourceKey, Output, k))
  {
    stats := Stats(0.0, map[], |powerPlants|);
    for n := 0 to |powerPlants|
      invariant stats.plantCount == |powerPlants|
      invariant Describes(stats.totalCapacity, stats.sourceBreakdown, powerPlants[..n])
    {
      assert powerPlants[..n + 1] == powerPlants[..n] + [powerPlants[n]];
      var total, breakdown := AddPlant(stats.totalCapacity, stats.sourceBreakdown, powerPlants[..n], powerPlants[n]);
      stats := Stats(total, breakdown, stats.plantCount);
    }
    assert powerPlants[..|powerPlants|] == powerPlants;
  }

  /** One plant of the loop: its output added to the total and to its source's entry, created when missing. */
  method AddPlant(totalCapacity: real, breakdown: map<string, Breakdown>, ghost prefix: seq<Plant>, plant: Plant)
    returns (totalCapacity': real, breakdown': map<string, Breakdown>)
    requires Describes(totalCapacity, breakdown, prefix)
    ensures Describes(totalCapacity', breakdown', prefix + [plant])
  {
    StatsSnoc(prefix, plant);
    totalCapacity' := totalCapacity + Output(plant);
    var source := SourceKey(plant);
    breakdown' := breakdown;
    if source !in breakdown' {
      AbsentKey(prefix, source);
      breakdown' := breakdown'[source := Breakdown(0, 0.0)];
    }
    breakdown' := breakdown'[source := Breakdown(breakdown'[source].count + 1, breakdown'[source].capacity + Output(plant))];
  }

  /** Adding a plant adds one to its source's count and its output to its source's capacity and to the total. */
  lemma StatsSnoc(prefix: seq<Plant>, plant: Plant)
    ensures TotalWeight(prefix + [plant], Output) == TotalWeight(prefix, Output) + Output(plant)
    ensures KeysOf(prefix + [plant], SourceKey) == KeysOf(prefix, SourceKey) + [SourceKey(plant)]
    ensures forall k ::
      CountBy(prefix + [plant], SourceKey, k) == CountBy(prefix, SourceKey, k) + (if SourceKey(plant) == k then 1 else 0)
    ensures forall k ::
      WeightBy(prefix + [plant], SourceKey, Output, k) == WeightBy(prefix, SourceKey, Output, k) + (if SourceKey(plant) == k then Output(plant) else 0.0)
  {
    assert (prefix + [plant])[..|prefix|] == prefix;
  }

  /** A source that no plant has so far has no plants and no capacity. */
  lemma AbsentKey(plants: seq<Plant>, source: string)
    requires source !in KeysOf(plants, SourceKey)
    ensures CountBy(plants, SourceKey, source) == 0 && WeightBy(plants, SourceKey, Output, source) == 0.0
  {
    CountByAbsent(plants, SourceKey, source);
    WeightByAbsent(plants, SourceKey, Output, source);
  }

  /**
   * The per-source figures add up: over the distinct sources, the counts
   * sum to the plant count and the capacities to the total capacity.
   */
  lemma BreakdownAddsUp(powerPlants: seq<Plant>)
    ensures SumCounts(Distinct(KeysOf(powerPlants, SourceKey)), powerPlants, SourceKey) == |powerPlants|
    ensures SumWeights(Distinct(KeysOf(powerPlants, SourceKey)), powerPlants, SourceKey, Output) == TotalWeight(powerPlants, Output)
  {
    CountsAddUp(powerPlants, SourceKey);
    WeightsAddUp(powerPlants, SourceKey, Output);
  }
}
