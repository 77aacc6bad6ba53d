# Energy and GPU infrastructure data tools, modelled in Dafny

This project models the data-handling core of a repository that collects
energy-infrastructure and GPU-market data and serves it to a map and a
pricing site. Its centre is the KMZ ingestion pipeline: it downloads each
configured KMZ archive, picks the primary KML file in it, extracts the
Placemark geometries in document order, wraps each one back into a KML
fragment with metadata, and inserts the rows one at a time, committing only
when at least one insert went in. Around it sit the small pure helpers that
the front end, the scrapers and the API routes rely on:

- GPU pricing arithmetic and provider-price parsing;
- the partner-revenue calculator;
- power-plant CSV normalisation;
- submarine-cable landing-point de-duplication;
- the Canadian terrestrial-link filter;
- a quote-aware CSV splitter, group-by and plant statistics;
- hex/RGB colour conversion and interpolation;
- centres and bounding boxes;
- the OpenInfraMap scraper's output, province, fuel-type and slug
  normalisers and its upsert loop;
- EIA period-date parsing;
- the map API's query-parameter list normalisation;
- the domain-migration redirect;
- contact-form validation;
- Vast.ai offer aggregation;
- the development seed's GPU-name bucketing.

Each source file becomes one module. Pure code is written as functions with
lemmas. Loops and in-place updates are written as methods with loop
invariants, each proved against a specification function. The PostGIS
database and the browser location are classes whose methods change their
fields. JavaScript numbers are exact `real`s, with NaN as a separate case
where it can arise; `parseFloat`, `parseInt`, `toLowerCase` and `trim` are
modelled on strings in `text.dfy`.

Shared modules: `Wrappers` (Option, Result), `Seqs` (order-preserving
subsequences, flattening) and `Text` (the string built-ins).

## Model

| member | source | states |
|---|---|---|
| KmlDocument.Named | scripts/kmz_upload.py:115 | every element selected by a tag test carries that tag |
| KmlDocument.NamedSelection | scripts/kmz_upload.py:115 | the selection keeps order and holds exactly the elements with that tag |
| KmlDocument.Placemarks | scripts/kmz_upload.py:115 | `findall('.//kml:Placemark')` returns only Placemarks |
| KmlDocument.PlacemarksInDocumentOrder | scripts/kmz_upload.py:115 | the Placemarks are exactly the Placemark descendants, in document order |
| KmlDocument.ChildStep | scripts/kmz_upload.py:123-125 | one child step of a path reaches only elements with that step's tag |
| KmlDocument.Select | scripts/kmz_upload.py:123-125 | a path reaches only elements with the path's last tag |
| KmlDocument.Find | scripts/kmz_upload.py:123-125 | `find` returns an element with the path's last tag, or nothing |
| KmlDocument.FirstNamed | scripts/kmz_upload.py:116-120 | the first child with a tag is such a child, and there is none exactly when no child has that tag |
| KmlDocument.FindChild | scripts/kmz_upload.py:116-120 | a one-step `find` (name, description) is the first child with that tag |
| KmlDocument.FirstNamedIsHead | scripts/kmz_upload.py:116-120 | the first child with a tag is the head of the tag selection |
| KmlDocument.NamedCons | scripts/kmz_upload.py:115 | the tag selection of a list is the selection of its head followed by that of its tail |
| KmzUpload.Basename | scripts/kmz_upload.py:60 | the basename has no `/`, is a suffix of the path, and is preceded by a `/` when shorter than the path |
| KmzUpload.PathJoin | scripts/kmz_upload.py:64 | an absolute name is the result as is; otherwise the result starts with the directory, ends with the name, and puts at most one `/` between them |
| KmzUpload.BasenameOfJoin | scripts/kmz_upload.py:64 | joining a non-empty name under a directory keeps the name's basename |
| KmzUpload.BasenameNoSlash | scripts/kmz_upload.py:60 | a name without `/` is its own basename |
| KmzUpload.DownloadFilename | scripts/kmz_upload.py:59-62 | the download name always ends in `.kmz` and contains no `/`, so it is a single path component |
| KmzUpload.DownloadFilenameCases | scripts/kmz_upload.py:59-62 | an empty path or one ending in `/` gives `downloaded.kmz`; otherwise it is the basename, with `.kmz` appended only when missing |
| KmzUpload.DownloadFilenameIdempotent | scripts/kmz_upload.py:59-62 | deriving the name from a derived name changes nothing |
| KmzUpload.DownloadFailure | scripts/kmz_upload.py:54-74 | the download raises exactly when the request itself raises (RequestException) or the status is 4xx/5xx (that status) |
| KmzUpload.DownloadKmz | scripts/kmz_upload.py:52-74 | the download fails exactly when the request raises or the status is 4xx/5xx; otherwise the file is saved at the output directory joined with the download name |
| KmzUpload.KmlPaths | scripts/kmz_upload.py:86-88 | the `.kml` paths in walk order; empty exactly when no extracted file ends in `.kml` |
| KmzUpload.FirstDocKml | scripts/kmz_upload.py:94 | the result is a listed path whose basename is `doc.kml`; there is none exactly when no path has that basename |
| KmzUpload.ExtractKmz | scripts/kmz_upload.py:76-100 | a bad archive raises BadZipFile; an archive without `.kml` files raises ValueError; otherwise the chosen path is one of the `.kml` paths |
| KmzUpload.FirstDocFile | scripts/kmz_upload.py:94 | the path of the earliest walked file named exactly `doc.kml`; none exactly when there is no such file |
| KmzUpload.ExtractKmzChoice | scripts/kmz_upload.py:94 | the chosen KML is the first file named `doc.kml` if any, else the first `.kml` file in walk order |
| KmzUpload.FirstDocKmlOfWalk | scripts/kmz_upload.py:86-94 | matching `doc.kml` on the basename of the joined paths finds the first walked file of that name |
| KmzUpload.CandidatesAreCoordinates | scripts/kmz_upload.py:123-125 | each of the three geometry lookups finds a `coordinates` element |
| KmzUpload.ChooseGeometry | scripts/kmz_upload.py:127-138 | Point wins over LineString, which wins over the Polygon outer ring; no geometry exactly when none of the three is present |
| KmzUpload.FeatureOf | scripts/kmz_upload.py:116-147 | a Placemark fails exactly when its chosen coordinates element has no text; it yields nothing exactly when it has no geometry or blank coordinates; otherwise it yields the source id, name, description, geometry type and stripped coordinates |
| KmzUpload.Outcomes | scripts/kmz_upload.py:115-147 | one outcome per Placemark, in order |
| KmzUpload.Views | scripts/kmz_upload.py:115-125 | one lookup view per Placemark, in order |
| KmzUpload.Collect | scripts/kmz_upload.py:115-153 | the loop over the Placemarks' outcomes never yields more features than there are Placemarks |
| KmzUpload.CollectFails | scripts/kmz_upload.py:115-153 | parsing fails exactly when some Placemark fails, and then with that Placemark's error |
| KmzUpload.CollectInOrder | scripts/kmz_upload.py:115-150 | the features are the Placemarks' contributions concatenated in order, and each comes from one Placemark |
| KmzUpload.CollectStep | scripts/kmz_upload.py:115-147 | one more Placemark appends its feature or stops the parse with its error |
| KmzUpload.CollectErrorSticks | scripts/kmz_upload.py:115-153 | once a Placemark fails, nothing after it changes the result |
| KmzUpload.ParseFeaturesFails | scripts/kmz_upload.py:102-153 | parse_kml raises exactly when one Placemark's coordinates have no text, with that error |
| KmzUpload.ParseFeaturesInOrder | scripts/kmz_upload.py:112-150 | the features keep document order, and there are never more features than Placemarks |
| KmzUpload.ParseFeaturesWellFormed | scripts/kmz_upload.py:140-147 | every feature carries the given source id and non-empty coordinates without surrounding whitespace |
| KmzUpload.YieldedFeature | scripts/kmz_upload.py:130-147 | a yielded feature has the source id and stripped, non-empty coordinates |
| KmzUpload.ParseDocument | scripts/kmz_upload.py:102-153 | a file that is not well-formed XML raises a parse error; every feature of a successful parse carries the source id and non-blank, stripped coordinates |
| KmzUpload.ParseKml | scripts/kmz_upload.py:102-153 | the loop over the Placemarks computes `ParseDocument`: an unparsable file raises, otherwise the features of all Placemarks in order or the first error |
| KmzUpload.FragmentRoundTrip | scripts/kmz_upload.py:224-229 | reading the fragment back gives the geometry type and the coordinates verbatim |
| KmzUpload.FragmentEnclosed | scripts/kmz_upload.py:224-229 | the fragment is enclosed by its geometry's tags, with the coordinates between them |
| KmzUpload.FragmentInjective | scripts/kmz_upload.py:224-229 | different geometry types or coordinates never give the same fragment |
| KmzUpload.RowOfFeature | scripts/kmz_upload.py:232-245 | a row keeps source id, name and description, records `original_geom_type` and `feature_count = 1`, and its fragment gives back the coordinates |
| KmzUpload.Rows | scripts/kmz_upload.py:215-249 | one row per feature |
| KmzUpload.RowsIndex | scripts/kmz_upload.py:217-245 | the row at each place is the row of the feature at that place |
| KmzUpload.PrepareRows | scripts/kmz_upload.py:215-249 | the preparation loop builds exactly one row per feature, in order |
| KmzUpload.AcceptedSelection | scripts/kmz_upload.py:253-268 | the successful inserts keep the rows' order, never outnumber the rows, and were each accepted |
| KmzUpload.AcceptedAll | scripts/kmz_upload.py:253-268 | when every row is accepted, every row is inserted |
| KmzUpload.Database.constructor | scripts/kmz_upload.py:186-211 | the database starts with the given reachability, PostGIS state, table presence, insert acceptance and committed rows, no open transaction, no statements and no commits |
| KmzUpload.Database.Commit | scripts/kmz_upload.py:270-271 | commit moves the open transaction's rows into the table and counts one commit |
| KmzUpload.Database.Rollback | scripts/kmz_upload.py:289-296 | rollback or close discards the open transaction and leaves the table unchanged |
| KmzUpload.Database.Insert | scripts/kmz_upload.py:256-268 | one INSERT is issued; it succeeds exactly when the database accepts the row, which is then in the open transaction |
| KmzUpload.Database.InsertEach | scripts/kmz_upload.py:253-268 | every row is tried in order, a failed insert is skipped, and the count is the number of accepted rows |
| KmzUpload.Database.InsertFeaturesToDb | scripts/kmz_upload.py:155-297 | connection failure and missing PostGIS raise; a missing table returns before any INSERT; otherwise all rows are tried, the accepted ones are committed, and a commit happens only when at least one was accepted |
| KmzUpload.Prepare | scripts/kmz_upload.py:312-322 | a source reaches the database only when it has `name` and `kmz_file` and its download succeeded |
| KmzUpload.RunUpload | scripts/kmz_upload.py:299-332 | sources run in order with no per-source isolation. The run succeeds exactly when every source completes; otherwise it stops at the first one that raises. The error is that source's download, extract or parse error, or else `ConnectFailed` for an unreachable database, or else `PostgisUnavailable` when PostGIS is neither installed nor creatable. For a reachable database with PostGIS, the run succeeds exactly when every source prepares, and the committed rows are the earlier ones followed by each completed source's accepted rows, in order (none when the table is missing). Otherwise nothing is committed |
| KmzUpload.LoadSource | scripts/kmz_upload.py:313-327 | one pass of the loop: the first download, extract or parse error is the result, with nothing committed. Otherwise the insert's outcome is the result, and with PostGIS ready the source's accepted rows are appended to the committed rows |
| KmzUpload.LoadedRowsStep | scripts/kmz_upload.py:312-327 | loading one more source appends its rows (its accepted rows; none when the table is missing or the source failed) after those of the sources before it |
| KmzUpload.LoadNext | scripts/kmz_upload.py:312-327 | one pass of the loop once the earlier sources completed: it succeeds exactly when the database is ready and the source prepares, and then all sources up to it have prepared and their rows follow the earlier committed ones; otherwise the error is the source's own or the database's, and nothing more is committed |
| Pricing.CalculatePricing | src/lib/pricingCalculations.ts:18-35 | base cost is rate × quantity × hours; total plus discount is the base cost; total is the effective rate × quantity × hours; with non-negative inputs and a discount in 0..100 the total lies between 0 and the base |
| Pricing.DiscountedWithin | src/lib/pricingCalculations.ts:24-26 | a discount of at most 100% on a non-negative base leaves an amount between 0 and the base |
| Pricing.PricingDiscountEnds | src/lib/pricingCalculations.ts:24-27 | a 100% discount leaves nothing to pay; no discount leaves the base cost and the base rate |
| Pricing.MonthsOf | src/lib/pricingCalculations.ts:47-59 | the table's months for a listed period id, one month for any other id; always 1, 3, 6 or 12 |
| Pricing.CalculateTotalReservationCost | src/lib/pricingCalculations.ts:43-61 | the total is the monthly cost times the months the period lists (1, 3, 6 or 12), and the monthly cost itself for an unknown id |
| Pricing.ReservationPeriods | src/lib/pricingCalculations.ts:47-60 | on-demand and quarterly bill one month, semi-annually three, annually six, two-years and 12-months twelve |
| Pricing.ParseProviderPrice | src/lib/pricingCalculations.ts:78-91 | null exactly for an empty text, a text mentioning "not" in any case, or a dash-free text that parses to NaN; a range gives the parse of the trimmed text before the first dash, NaN included; otherwise a number |
| Pricing.DigitsMentionNoNot | src/lib/pricingCalculations.ts:79 | a digit string never mentions "not" |
| Pricing.ProviderPriceOfDigits | src/lib/pricingCalculations.ts:89-90 | a plain whole price reads as its value |
| Pricing.ProviderPriceOfRange | src/lib/pricingCalculations.ts:84-87 | a range of whole prices reads as its lower end |
| Pricing.NoNotAcrossDash | src/lib/pricingCalculations.ts:79 | "not" cannot appear in a digit range around a dash |
| Calculator.GridRevenue | src/app/components/partner-section/CalculatorSection.tsx:19-24 | cumulative grid revenue is zero at year 0 and never negative for a non-negative rate, capacity, hours and year |
| Calculator.HeliosRevenue | src/app/components/partner-section/CalculatorSection.tsx:27-32 | cumulative partnership revenue is zero at year 0 and never negative for non-negative inputs and multiplier |
| Calculator.YearLabel | src/app/components/partner-section/CalculatorSection.tsx:39 | the label is `Year ` followed by decimal digits whose value is the year |
| Calculator.RevenueLinearInYear | src/app/components/partner-section/CalculatorSection.tsx:20-33 | cumulative grid and partnership revenue up to year n are n times the first year's |
| Calculator.HeliosIsMultipleOfGrid | src/app/components/partner-section/__tests__/CalculatorLogic.test.ts:119-130 | partnership revenue is the grid revenue times the multiplier, in every year |
| Calculator.ZeroRateOrCapacity | src/app/components/partner-section/__tests__/CalculatorLogic.test.ts:101-117 | a zero rate or a zero capacity earns nothing either way |
| Calculator.AnnualIncrease | src/app/components/partner-section/CalculatorSection.tsx:49-53 | the yearly gain is one year of grid revenue times (multiplier − 1), never negative for a multiplier of at least 1 and non-negative revenue |
| Calculator.GenerateChartData | src/app/components/partner-section/CalculatorSection.tsx:36-46 | exactly ten points, for years 1 to 10 in order, each labelled `Year n` with both cumulative revenues of that year |
| Calculator.YearLabelsDistinct | src/app/components/partner-section/CalculatorSection.tsx:40 | different years get different labels |
| Calculator.RateValue | src/app/components/partner-section/CalculatorSection.tsx:78 | the typed rate when it parses to a non-zero number, 0.10 otherwise; never zero |
| Calculator.CapacityValue | src/app/components/partner-section/CalculatorSection.tsx:69-74 | a text without digits or dots gives 500 |
| Calculator.CapacityFromLeadingRun | src/app/components/partner-section/CalculatorSection.tsx:70-73 | a text starting with a run of digits and dots reads that run, scaled when the text mentions MW |
| Calculator.CapacityOfWholeNumber | src/app/components/partner-section/CalculatorSection.tsx:69-74 | a whole number followed by a unit reads as that number, ×1000 when the text mentions MW |
| Calculator.RunLengthDigitsThenOther | src/app/components/partner-section/CalculatorSection.tsx:70 | the matched run stops at the end of the digits |
| Calculator.CapacityInKilowatts | src/app/components/partner-section/CalculatorSection.tsx:69-74 | "n kW" reads as n kW |
| Calculator.CapacityInMegawatts | src/app/components/partner-section/CalculatorSection.tsx:69-74 | "n MW" reads as 1000·n kW |
| PowerPlants.OrElse | frontend/src/components/DataProcessing/PowerPlantProcessor.js:114-120 | `s \|\| fallback` is the text when it is present and non-empty, the fallback otherwise |
| PowerPlants.Cleaned | frontend/src/components/DataProcessing/PowerPlantProcessor.js:12 | the cleaned text keeps exactly the digits and dots of the output text, in order |
| PowerPlants.CleanedIsDigitsAndDots | frontend/src/components/DataProcessing/PowerPlantProcessor.js:12 | keeping digits, commas and dots and then dropping commas keeps exactly the digits and dots |
| PowerPlants.ParseFloatUnsigned | frontend/src/components/DataProcessing/PowerPlantProcessor.js:13 | a cleaned text starting with a digit or dot never parses below zero |
| PowerPlants.ParseOutput | frontend/src/components/DataProcessing/PowerPlantProcessor.js:8-14 | a plant's output is never negative: the cleaned text has no sign, and NaN or zero gives 0 |
| PowerPlants.CleanedDropsComma | frontend/src/components/DataProcessing/PowerPlantProcessor.js:12 | a comma between two texts disappears from the cleaned text |
| PowerPlants.CommaIsIgnored | frontend/src/components/DataProcessing/PowerPlantProcessor.js:8-14 | commas are thousands separators: removing one never changes the output |
| PowerPlants.OutputOfGroupedDigits | frontend/src/components/DataProcessing/PowerPlantProcessor.js:8-14 | a grouped whole number with a unit, such as "6,232 MW", reads as that number |
| PowerPlants.CleanedDigitsThenUnit | frontend/src/components/DataProcessing/PowerPlantProcessor.js:12 | digits followed by a unit without digits, commas or dots clean to the digits |
| PowerPlants.ParseOutputOfDigits | frontend/src/components/DataProcessing/PowerPlantProcessor.js:8-14 | a text whose digits and dots are a digit string reads as its value, 0 when there are none |
| PowerPlants.ParseOutputOfNothing | frontend/src/components/DataProcessing/PowerPlantProcessor.js:13 | a text without digits or dots reads as 0 |
| PowerPlants.ParseOutputOfRun | frontend/src/components/DataProcessing/PowerPlantProcessor.js:12-13 | a text whose digits and dots form a non-empty digit string reads as its value |
| PowerPlants.FirstKnown | frontend/src/components/DataProcessing/PowerPlantProcessor.js:46-51 | the first part that is a recognised name once trimmed; none exactly when no part is |
| PowerPlants.Lookup | frontend/src/components/DataProcessing/PowerPlantProcessor.js:23-37 | the table entry of a recognised name, the "other" entry for any other text; a text with `;` is never a name |
| PowerPlants.SourceNamesAreWords | frontend/src/components/DataProcessing/PowerPlantProcessor.js:23-37 | every recognised name is a lower-case word without `;` |
| PowerPlants.Categorize | frontend/src/components/DataProcessing/PowerPlantProcessor.js:43-55 | with a `;`, the first recognised trimmed part decides, else "other"; the result is always a standard type and colour |
| PowerPlants.CategorizeSource | frontend/src/components/DataProcessing/PowerPlantProcessor.js:22-56 | the source is lower-cased and trimmed before it is categorised |
| PowerPlants.KnownSourceAnyCase | frontend/src/components/DataProcessing/PowerPlantProcessor.js:40-55 | a recognised name in any case and with surrounding blanks gets its entry |
| PowerPlants.CombinedSourceTakesFirst | frontend/src/components/DataProcessing/PowerPlantProcessor.js:43-51 | a combined source such as "gas;oil" takes the type of its first recognised name |
| PowerPlants.FirstPartRecognised | frontend/src/components/DataProcessing/PowerPlantProcessor.js:43-51 | when the first part is recognised, it decides |
| PowerPlants.CombinedIsNormal | frontend/src/components/DataProcessing/PowerPlantProcessor.js:40 | two lower-case words joined by `;` are already normalised |
| PowerPlants.CombinedFirstPart | frontend/src/components/DataProcessing/PowerPlantProcessor.js:44-47 | the first part of "a;b" is a |
| PowerPlants.LowerWordUnchanged | frontend/src/components/DataProcessing/PowerPlantProcessor.js:40 | lower-case words and `;` are unchanged by lower-casing and trimming |
| PowerPlants.ValidateCoordinates | frontend/src/components/DataProcessing/PowerPlantProcessor.js:64-70 | a position that passes the bounds check lies north of the equator and west of Greenwich |
| PowerPlants.PlantIdsDistinct | frontend/src/components/DataProcessing/PowerPlantProcessor.js:113 | rows at different positions give different `plant_i` ids |
| PowerPlants.View | frontend/src/components/DataProcessing/PowerPlantProcessor.js:88-103 | reading a row keeps its name and gives a non-negative output; an empty row stays empty |
| PowerPlants.Views | frontend/src/components/DataProcessing/PowerPlantProcessor.js:87-103 | one view per row |
| PowerPlants.ViewsIndex | frontend/src/components/DataProcessing/PowerPlantProcessor.js:87-103 | the view at each place is the view of the row there |
| PowerPlants.ViewsAll | frontend/src/components/DataProcessing/PowerPlantProcessor.js:87-103 | every view is the view of its row |
| PowerPlants.PlantAt | frontend/src/components/DataProcessing/PowerPlantProcessor.js:88-124 | a row is skipped exactly when it is empty, has no name, has unparsable or out-of-bounds coordinates, or has output ≤ 0; otherwise the plant is valid, has id `plant_i`, the row's name and coordinates [lng, lat] |
| PowerPlants.StartIndex | frontend/src/components/DataProcessing/PowerPlantProcessor.js:85 | at most one header row is skipped, and none from an empty input |
| PowerPlants.Kept | frontend/src/components/DataProcessing/PowerPlantProcessor.js:87-127 | the kept positions lie after the header and are rows that are not skipped |
| PowerPlants.KeptExactly | frontend/src/components/DataProcessing/PowerPlantProcessor.js:87-127 | the kept positions increase, and every row that is not skipped is among them |
| PowerPlants.PlantsAt | frontend/src/components/DataProcessing/PowerPlantProcessor.js:112-126 | one plant per kept position |
| PowerPlants.PlantsAtIndex | frontend/src/components/DataProcessing/PowerPlantProcessor.js:112-126 | the k-th plant is the plant of the k-th kept row |
| PowerPlants.Processed | frontend/src/components/DataProcessing/PowerPlantProcessor.js:77-130 | there are never more plants than rows after the optional header |
| PowerPlants.ProcessCsv | frontend/src/components/DataProcessing/PowerPlantProcessor.js:77-130 | a missing or empty input gives no plants; otherwise the plants of the rows after the optional header that are not skipped, in row order |
| PowerPlants.CollectedKept | frontend/src/components/DataProcessing/PowerPlantProcessor.js:87-127 | pushing row by row gives the plants of the kept positions |
| PowerPlants.CollectPlants | frontend/src/components/DataProcessing/PowerPlantProcessor.js:87-127 | the loop collects the plants of the rows from the start index on |
| PowerPlants.RowPlant | frontend/src/components/DataProcessing/PowerPlantProcessor.js:88-124 | one iteration yields the plant of its row, or nothing |
| PowerPlants.KeptStep | frontend/src/components/DataProcessing/PowerPlantProcessor.js:87-127 | one more row appends its plant, if any, at the end |
| PowerPlants.ProcessedPlants | frontend/src/components/DataProcessing/PowerPlantProcessor.js:77-130 | every plant is valid (coordinates inside lat 25..85 and lng −180..−50, [lng, lat], positive output, a name) and comes from a row after the header whose name it carries; ids are distinct |
| PowerPlants.KeptRowAppears | frontend/src/components/DataProcessing/PowerPlantProcessor.js:87-127 | no row after the header that is not skipped is lost |
| Cables.Positions | frontend/src/components/DataProcessing/CableProcessor.js:22-25 | one parsed position per raw coordinate pair |
| Cables.PropOr | frontend/src/components/DataProcessing/CableProcessor.js:30-35 | `a \|\| b \|\| null` is the first truthy property value, and null exactly when neither is truthy |
| Cables.Owners | frontend/src/components/DataProcessing/CableProcessor.js:34 | no owners for a missing or empty text; otherwise one owner more than there are `;` |
| Cables.BareCable | frontend/src/components/DataProcessing/CableProcessor.js:28-37 | a new cable has id `cable_<index>`, the parsed positions and no landing points yet |
| Cables.PaddedDigits | frontend/src/components/DataProcessing/CableProcessor.js:45-46 | the decimals of `toFixed(4)` have exactly the requested width |
| Cables.PaddedDigitsInjective | frontend/src/components/DataProcessing/CableProcessor.js:45-46 | numbers below the width's power of ten with the same padded decimals are equal |
| Cables.FourDecimalsInjective | frontend/src/components/DataProcessing/CableProcessor.js:45-46 | different numbers of ten-thousandths print differently |
| Cables.FourDecimals | frontend/src/components/DataProcessing/CableProcessor.js:45-46 | the four-decimal text of a rounded magnitude starts with a digit and has no comma |
| Cables.ToFixed4 | frontend/src/components/DataProcessing/CableProcessor.js:45-46 | `toFixed(4)` is never empty and has no comma; it starts with `N` exactly for NaN and with `-` exactly for a negative number |
| Cables.ToFixed4Exactly | frontend/src/components/DataProcessing/CableProcessor.js:45-46 | two numbers print alike to four decimals exactly when both are NaN or they have the same sign and the same rounded ten-thousandths |
| Cables.LandingKeyExactly | frontend/src/components/DataProcessing/CableProcessor.js:45-46 | two positions share a landing-point key exactly when their latitudes and their longitudes round alike to four decimals |
| Cables.LandingKey | frontend/src/components/DataProcessing/CableProcessor.js:45-46 | a landing-point key splits at its comma back into the latitude text and the longitude text |
| Cables.PointsInOrder | frontend/src/components/DataProcessing/CableProcessor.js:79 | the map's values in insertion order, never more than the keys inserted |
| Cables.PointsInOrderFresh | frontend/src/components/DataProcessing/CableProcessor.js:56 | a key set for the first time leaves the points listed before it unchanged |
| Cables.AddLandingKeeps | frontend/src/components/DataProcessing/CableProcessor.js:48-58 | adding a landing point inserts each key once and keeps each point under its own id; the key is then in the map |
| Cables.AddLandingLists | frontend/src/components/DataProcessing/CableProcessor.js:48-58 | the points in insertion order stay the earlier ones followed by those attached to the cable being built |
| Cables.AddEndsKeeps | frontend/src/components/DataProcessing/CableProcessor.js:40-71 | adding both ends keeps every key inserted once |
| Cables.AddEndsLists | frontend/src/components/DataProcessing/CableProcessor.js:40-71 | adding both ends lists the attached points at the end of the insertion order |
| Cables.AppendCable | frontend/src/components/DataProcessing/CableProcessor.js:73 | pushing a cable appends its landing points to those of the earlier cables |
| Cables.WithCableKeeps | frontend/src/components/DataProcessing/CableProcessor.js:39-73 | adding a cable keeps the invariant: each key once, and the attached points are exactly the map's values in insertion order |
| Cables.WithEndsKeeps | frontend/src/components/DataProcessing/CableProcessor.js:40-73 | adding a cable with its ends keeps the invariant, whatever the keys of the ends |
| Cables.StepKeeps | frontend/src/components/DataProcessing/CableProcessor.js:16-75 | each feature keeps the invariant |
| Cables.StepCables | frontend/src/components/DataProcessing/CableProcessor.js:16-75 | a feature adds one cable exactly when it is a LineString, after the others, with its index in the id and its positions |
| Cables.WithCableCables | frontend/src/components/DataProcessing/CableProcessor.js:28-73 | adding a cable appends it with its id and positions |
| Cables.WithEndsCables | frontend/src/components/DataProcessing/CableProcessor.js:40-73 | adding a cable with its ends appends exactly one cable with its id and positions |
| Cables.Walk | frontend/src/components/DataProcessing/CableProcessor.js:16-75 | the walk over the features builds one cable per LineString feature |
| Cables.WalkWellFormed | frontend/src/components/DataProcessing/CableProcessor.js:16-75 | the walk over all features keeps the invariant |
| Cables.Processed | frontend/src/components/DataProcessing/CableProcessor.js:8-81 | missing features give the empty result and nothing else does; otherwise there is one cable per LineString feature |
| Cables.LineStrings | frontend/src/components/DataProcessing/CableProcessor.js:17 | the listed positions are LineString features |
| Cables.LineStringsExactly | frontend/src/components/DataProcessing/CableProcessor.js:17 | the listed positions increase, and every LineString feature is listed |
| Cables.CablesFollowFeatures | frontend/src/components/DataProcessing/CableProcessor.js:16-75 | only LineString features become cables: the j-th cable comes from the j-th LineString, with id `cable_<index>` and its positions |
| Cables.ProcessSubmarineCables | frontend/src/components/DataProcessing/CableProcessor.js:8-81 | missing data or features give `[]`; otherwise the walk over the features builds the cables and the landing-point map |
| Cables.ProcessFeature | frontend/src/components/DataProcessing/CableProcessor.js:16-75 | the callback on one feature performs one step of the walk |
| Cables.AddLanding | frontend/src/components/DataProcessing/CableProcessor.js:47-57 | a key already in the map leaves it as it was; a new key gets the point `landing_<key>` with the given name, country and position, and every other point stays |
| Cables.AddEnds | frontend/src/components/DataProcessing/CableProcessor.js:39-70 | the map grows by the two end keys at most; a new start point has the start name (default "Unknown Start Point"), the start country (default "Unknown") and the first position; a new end point, when its key differs from the start's, has the end name (default "Unknown End Point"), the end country (default "Unknown") and the last position; points already in the map are not changed |
| Cables.AttachEnds | frontend/src/components/DataProcessing/CableProcessor.js:40-71 | the start end, then the end end, are added to the map and the cable when their key is new |
| Cables.LandingPointsDistinct | frontend/src/components/DataProcessing/CableProcessor.js:49-79 | the landing points are exactly the map values, with distinct ids, and they are the points attached to the cables, cable by cable |
| Cables.NewEnds | frontend/src/components/DataProcessing/CableProcessor.js:48-71 | the keys a cable gets points for are exactly its end keys that no earlier cable has at an end, each once |
| Cables.ClaimedAppend | frontend/src/components/DataProcessing/CableProcessor.js:73 | pushing a cable adds its end keys to those of the earlier cables |
| Cables.ClaimedAt | frontend/src/components/DataProcessing/CableProcessor.js:40-42 | every end key of every cable of two positions or more is among the cables' end keys |
| Cables.AddEndsAttaches | frontend/src/components/DataProcessing/CableProcessor.js:40-71 | adding both ends grows the map by the two keys, keeps the points already there, and attaches the points of the new keys, start first |
| Cables.WithCableAttaches | frontend/src/components/DataProcessing/CableProcessor.js:39-73 | adding a cable keeps the attachment invariant: the map holds exactly the cables' end keys, and each cable carries the points of its new ends |
| Cables.WithEndsAttaches | frontend/src/components/DataProcessing/CableProcessor.js:40-73 | adding a cable of two positions or more keeps the attachment invariant |
| Cables.AppendAttaches | frontend/src/components/DataProcessing/CableProcessor.js:73 | pushing a cable keeps the attachment invariant when the map grew by exactly its end keys and the cable carries the points of its new ends |
| Cables.CarriesGrow | frontend/src/components/DataProcessing/CableProcessor.js:48-71 | a cable's landing points stay the map's points for its keys as the map grows |
| Cables.WalkAttachesFirst | frontend/src/components/DataProcessing/CableProcessor.js:16-75 | the walk over all features keeps the attachment invariant |
| Cables.AttachedFirstAt | frontend/src/components/DataProcessing/CableProcessor.js:40-73 | under the invariant, both end keys of a cable are in the map, and it carries the point of a key exactly when the key is at one of its ends and at no end of an earlier cable |
| Cables.WalkFirstCable | frontend/src/components/DataProcessing/CableProcessor.js:16-75 | after the walk, every cable got its landing points from the first cable to reach their keys, start first |
| Cables.ListedValues | frontend/src/components/DataProcessing/CableProcessor.js:79 | the listed landing points are exactly the map's values, each with the id of its key |
| Cables.ListedFirstCable | frontend/src/components/DataProcessing/CableProcessor.js:49-79 | the first-cable rule of one cable holds on the listed points and their ids |
| Cables.ListedFirstAll | frontend/src/components/DataProcessing/CableProcessor.js:49-79 | the first-cable rule holds on the listed points for every cable |
| Cables.LandingPointsFirstCable | frontend/src/components/DataProcessing/CableProcessor.js:8-81 | in what processSubmarineCables returns, the ends of every cable of two positions or more are among the landing points, and a landing point is attached to a cable exactly when its key is at one of the cable's ends and at no end of an earlier cable |
| Cables.PointsInOrderIndex | frontend/src/components/DataProcessing/CableProcessor.js:79 | the i-th listed point is the map's value for the i-th key inserted |
| Cables.TwoEndedCable | frontend/src/components/DataProcessing/CableProcessor.test.js:27-31 | a lone cable whose two ends print differently yields two landing points, the start first, both attached to it |
| Cables.LoneCable | frontend/src/components/DataProcessing/CableProcessor.js:40-79 | the same for any key function |
| Cables.WalkOfOne | frontend/src/components/DataProcessing/CableProcessor.js:16-75 | walking one LineString is one cable step from the empty state |
| Cables.FreshEnds | frontend/src/components/DataProcessing/CableProcessor.js:48-70 | from the empty map, both ends with different keys become new landing points |
| Cables.IsNorthAmericanCoordinate | frontend/src/components/DataProcessing/CableProcessor.js:122-128 | a position in the North-American box lies north of the equator and west of Greenwich; NaN fails every comparison, so it is never inside |
| Cables.FilterNorthAmericaCables | frontend/src/components/DataProcessing/CableProcessor.js:88-114 | a cable is kept exactly when some landing point names a North-American country or region or lies in the box (lat 10..85, lng −170..−50), and order is kept |
| Cables.SimplifyStep | frontend/src/components/DataProcessing/CableProcessor.js:143 | the step is at least 1 |
| Cables.Strided | frontend/src/components/DataProcessing/CableProcessor.js:145-147 | the visited positions start at the first point, stay below the length, and the last one is within one step of the end |
| Cables.StridedIncreasing | frontend/src/components/DataProcessing/CableProcessor.js:145-147 | the visited positions increase |
| Cables.StridedSpacing | frontend/src/components/DataProcessing/CableProcessor.js:145 | consecutive visited positions are one step apart |
| Cables.KeptPositions | frontend/src/components/DataProcessing/CableProcessor.js:145-152 | the kept positions start at the first point, end at the last, and increase |
| Cables.PointsAt | frontend/src/components/DataProcessing/CableProcessor.js:145-152 | one point per kept position |
| Cables.PointsAtIndex | frontend/src/components/DataProcessing/CableProcessor.js:145-152 | the k-th point taken is the point at the k-th kept position |
| Cables.SimplifiedEnds | frontend/src/components/DataProcessing/CableProcessor.js:141-154 | the simplification keeps the first and last points and never keeps more points than it was given |
| Cables.IncreasingBounded | frontend/src/components/DataProcessing/CableProcessor.js:145-152 | increasing positions below n are at most n |
| Cables.SimplifyGeometry | frontend/src/components/DataProcessing/CableProcessor.js:136-155 | two points or fewer are returned unchanged; otherwise every step-th point from the first, then the last |
| Cables.TakeEvery | frontend/src/components/DataProcessing/CableProcessor.js:142-154 | the strided points, then the last point when the stride missed it |
| Cables.TakeStrided | frontend/src/components/DataProcessing/CableProcessor.js:145-147 | the loop takes the points at the strided positions and ends on the last one taken |
| Cables.TakeNext | frontend/src/components/DataProcessing/CableProcessor.js:145-147 | one round appends the next strided point, and the next position is one step further |
| Cables.TakeLast | frontend/src/components/DataProcessing/CableProcessor.js:150-152 | the last point is added exactly when it was not the last one taken |
| Terrestrial.IsCanadianCoordinate | frontend/src/components/DataProcessing/TerrestrialProcessor.js:94-100 | a position in the Canadian box lies north of the equator and west of Greenwich; NaN is never in it |
| Terrestrial.FirstPositionDecides | frontend/src/components/DataProcessing/TerrestrialProcessor.js:74-83 | the first position is always sampled, so a line starting in the Canadian box (lat 40..85, lng −145..−50) is Canadian |
| Terrestrial.ShortLineChecksEveryPosition | frontend/src/components/DataProcessing/TerrestrialProcessor.js:76-82 | a line of at most ten positions is Canadian when any position is in the box |
| Terrestrial.IsCanadianLink | frontend/src/components/DataProcessing/TerrestrialProcessor.js:54-87 | a line is Canadian only by a Canadian word in its properties or by a position, so without a word a line with no positions is not Canadian |
| Terrestrial.WordDecides | frontend/src/components/DataProcessing/TerrestrialProcessor.js:56-71 | a Canadian word in the lower-cased properties text decides on its own |
| Terrestrial.Parsed | frontend/src/components/DataProcessing/TerrestrialProcessor.js:25-28 | a position becomes `[parseFloat(c[0]), parseFloat(c[1])]` |
| Terrestrial.ParsedAll | frontend/src/components/DataProcessing/TerrestrialProcessor.js:25-28 | every position is parsed, in order |
| Terrestrial.LinkOf | frontend/src/components/DataProcessing/TerrestrialProcessor.js:31-38 | a link has id `terrestrial_<index>`, country "Canada" and the parsed positions |
| Terrestrial.QualifyingUpTo | frontend/src/components/DataProcessing/TerrestrialProcessor.js:15-43 | the listed indices are Canadian LineString features |
| Terrestrial.QualifyingExactly | frontend/src/components/DataProcessing/TerrestrialProcessor.js:15-43 | the listed indices increase, and every Canadian LineString feature is listed |
| Terrestrial.LinksFollowFeatures | frontend/src/components/DataProcessing/TerrestrialProcessor.js:15-43 | the k-th link is the link of the k-th qualifying feature |
| Terrestrial.EveryLinkIsCanadian | frontend/src/components/DataProcessing/TerrestrialProcessor.js:8-46 | there are never more links than features, and every link has country "Canada" and id `terrestrial_<index>` of its feature |
| Terrestrial.IncreasingBounded | frontend/src/components/DataProcessing/TerrestrialProcessor.js:15-43 | increasing indices below n are at most n |
| Terrestrial.FilterCanadianLinks | frontend/src/components/DataProcessing/TerrestrialProcessor.js:8-46 | a non-array input gives `[]`; otherwise each Canadian LineString feature becomes a link, in order |
| Terrestrial.SquaredComparison | frontend/src/components/DataProcessing/TerrestrialProcessor.js:122-127 | comparing the squared distance agrees with comparing the square root with the tolerance |
| Terrestrial.KeptUpTo | frontend/src/components/DataProcessing/TerrestrialProcessor.js:114-130 | the kept points start with the first point and never outnumber the points looked at |
| Terrestrial.KeptUpToShape | frontend/src/components/DataProcessing/TerrestrialProcessor.js:114-130 | the kept points are an ordered selection of those looked at, each farther than the tolerance from the one kept before it |
| Terrestrial.SimplifiedShape | frontend/src/components/DataProcessing/TerrestrialProcessor.js:108-136 | the simplification keeps the first and last points, never grows the list, keeps order, and keeps an interior point only when it is farther than the tolerance from the one kept before |
| Terrestrial.SimplifyGeometry | frontend/src/components/DataProcessing/TerrestrialProcessor.js:108-136 | two points or fewer are returned unchanged; otherwise the loop computes the kept points followed by the last point |
| DataUtils.Clean | frontend/src/utils/dataUtils.js:31 | a cleaned value never holds a double quote |
| DataUtils.CleanAll | frontend/src/utils/dataUtils.js:31 | every field is cleaned, one value per field, in order |
| DataUtils.ScanInvariant | frontend/src/utils/dataUtils.js:21-36 | after any number of characters the scanner has closed one field per comma outside quotes, is inside quotes exactly after an odd number of quotes, and holds no quote in any field |
| DataUtils.ValueCount | frontend/src/utils/dataUtils.js:21-39 | a line yields one value more than it has commas outside quotes |
| DataUtils.ValuesClean | frontend/src/utils/dataUtils.js:31-39 | every value is its field trimmed: free of quotes and of white space at either end |
| DataUtils.CleanUnquoted | frontend/src/utils/dataUtils.js:31 | on a text without quotes, cleaning is trimming |
| DataUtils.NoQuoteInSlice | frontend/src/utils/dataUtils.js:31 | a slice of a quote-free text is quote-free |
| DataUtils.SplitSnoc | frontend/src/utils/dataUtils.js:30-35 | splitting at a separator is extended one character at a time: a separator opens a new part, any other character extends the last part |
| DataUtils.ExtendedHead | frontend/src/utils/dataUtils.js:30-35 | extending a split never changes its first part unless it has only one part |
| DataUtils.UnquotedScan | frontend/src/utils/dataUtils.js:21-36 | on a line without quotes the scanner's fields so far are the comma split of the characters read |
| DataUtils.UnquotedLine | frontend/src/utils/dataUtils.js:21-39 | without quotes a line's values are its comma-separated parts, trimmed |
| DataUtils.SplitLine | frontend/src/utils/dataUtils.js:21-39 | the character loop yields exactly the quote-aware values of the line |
| DataUtils.ReadChar | frontend/src/utils/dataUtils.js:26-35 | one character: a quote toggles the quote state, a comma outside quotes closes the field, anything else extends it |
| DataUtils.FinishField | frontend/src/utils/dataUtils.js:39 | the last field is closed and cleaned like the others |
| DataUtils.RowKeys | frontend/src/utils/dataUtils.js:41-45 | a row's keys are exactly the header names |
| DataUtils.RowLookup | frontend/src/utils/dataUtils.js:43-45 | the value under a header is the value in the same position, later duplicate headers overwriting earlier ones |
| DataUtils.MissingFieldIsEmpty | frontend/src/utils/dataUtils.js:44 | a header without a value of its own gets the empty text |
| DataUtils.BuildRow | frontend/src/utils/dataUtils.js:41-45 | the row built by the loop over the headers is the row of those headers and values |
| DataUtils.HeadersOf | frontend/src/utils/dataUtils.js:14 | the headers are the first line's comma parts, trimmed and stripped of quotes |
| DataUtils.RowsShape | frontend/src/utils/dataUtils.js:17-48 | one row per non-blank data line, each keyed by exactly the header names |
| DataUtils.ParseCsvText | frontend/src/utils/dataUtils.js:13-50 | the rows read are the header-keyed rows of every non-blank line after the first |
| DataUtils.AddLine | frontend/src/utils/dataUtils.js:18-47 | a blank line adds nothing; any other line adds its row |
| DataUtils.GroupKey | frontend/src/utils/dataUtils.js:115 | a row's group key is never empty: a missing or empty property falls back to 'unknown' |
| DataUtils.GroupOf | frontend/src/utils/dataUtils.js:113-122 | every row of a group has that group's key |
| DataUtils.GroupSize | frontend/src/utils/dataUtils.js:113-122 | a group holds as many rows as there are rows with its key |
| DataUtils.GroupOfAbsent | frontend/src/utils/dataUtils.js:113-122 | a key no row has gets an empty group |
| DataUtils.InOwnGroup | frontend/src/utils/dataUtils.js:113-122 | every row lies in the group of its own key |
| DataUtils.GroupSizesAddUp | frontend/src/utils/dataUtils.js:113-122 | no row is lost or counted twice: over the distinct keys the group sizes add up to the number of rows |
| DataUtils.GroupKeys | frontend/src/utils/dataUtils.js:115 | one key per row, in order |
| DataUtils.GroupOfSnoc | frontend/src/utils/dataUtils.js:116-119 | adding a row extends its own group and leaves every other group as it was |
| DataUtils.AbsentGroup | frontend/src/utils/dataUtils.js:116-118 | a key that no row seen so far has has an empty group |
| DataUtils.AddToGroup | frontend/src/utils/dataUtils.js:115-120 | one step of the reduce: the groups after it are the groups of the rows seen so far plus this one |
| DataUtils.GroupBy | frontend/src/utils/dataUtils.js:113-122 | the keys are exactly the rows' keys, and each key's group is its rows in their original order |
| DataUtils.GroupNonEmpty | frontend/src/utils/dataUtils.js:113-122 | a key that some row has never gets an empty group |
| DataUtils.SourceKey | frontend/src/utils/dataUtils.js:141 | a plant's source key is never empty: a missing or empty source counts as 'unknown' |
| DataUtils.CalculatePowerPlantStats | frontend/src/utils/dataUtils.js:129-153 | the plant count is the number of plants, the total is the sum of outputs, and per source that occurs the count and summed output of its plants |
| DataUtils.AddPlant | frontend/src/utils/dataUtils.js:136-150 | one plant adds its output to the total and one plant and its output to its source, creating the entry when missing |
| DataUtils.StatsSnoc | frontend/src/utils/dataUtils.js:138-149 | adding a plant adds one to its source's count and its output to its source's capacity and to the total, other sources unchanged |
| DataUtils.AbsentKey | frontend/src/utils/dataUtils.js:142-147 | a source no plant has so far has no plants and no capacity |
| DataUtils.BreakdownAddsUp | frontend/src/utils/dataUtils.js:129-153 | the per-source counts add up to the plant count and the per-source capacities to the total capacity |
| Colors.GetSourceColor | frontend/src/utils/colorUtils.js:4-32 | a known power source gets its own colour; a missing, empty or unknown source gets the colour of 'other'; the result is always one of the scheme's colours |
| Colors.GetInfrastructureColor | frontend/src/utils/colorUtils.js:14-45 | a known infrastructure type gets its own colour; the light grey default comes back exactly when the type is missing, empty or unknown |
| Colors.PairValue | frontend/src/utils/colorUtils.js:55-57 | two hexadecimal digits read base 16 give a channel value of at most 255 |
| Colors.HexToRgb | frontend/src/utils/colorUtils.js:52-59 | every channel is in 0..255, and a text that is not `#`-optional six hexadecimal digits gives black |
| Colors.HexChar | frontend/src/utils/colorUtils.js:67 | a digit value becomes the lower-case hexadecimal digit of that value |
| Colors.ToHexString | frontend/src/utils/colorUtils.js:67 | `toString(16)` gives at least one hexadecimal digit |
| Colors.HexSnoc | frontend/src/utils/colorUtils.js:67 | the hexadecimal text of `16q + d` is that of `q` followed by the digit `d` |
| Colors.RgbToHex | frontend/src/utils/colorUtils.js:66-68 | for channels in 0..255 the text is `#` followed by two lower-case digits per channel, red, green, blue |
| Colors.ColorNumberText | frontend/src/utils/colorUtils.js:67 | the hexadecimal text of `2^24` plus the packed channels is `1` followed by the six channel digits |
| Colors.PrefixByte | frontend/src/utils/colorUtils.js:67 | appending a byte to a number appends its two digits to the number's text |
| Colors.ByteRoundTrip | frontend/src/utils/colorUtils.js:55-67 | a channel written as two digits reads back as itself |
| Colors.HexRoundTrip | frontend/src/utils/colorUtils.js:52-68 | converting a colour with channels in 0..255 to hexadecimal and back gives the colour |
| Colors.HexCharOfDigit | frontend/src/utils/colorUtils.js:53-67 | a hexadecimal digit read and written again is its lower-case form |
| Colors.RgbRoundTrip | frontend/src/utils/colorUtils.js:52-68 | converting a hexadecimal colour to channels and back gives `#` and its six digits in lower case |
| Colors.DigitsRoundTrip | frontend/src/utils/colorUtils.js:52-68 | six digits read as channels and written back give their lower-case form |
| Colors.ChannelDigits | frontend/src/utils/colorUtils.js:55-67 | the digits of the three channels read from six digits are those six digits in lower case |
| Colors.LowerDigits | frontend/src/utils/colorUtils.js:53-67 | lowering six hexadecimal digits is writing each digit's value again |
| Colors.PairDigits | frontend/src/utils/colorUtils.js:55-67 | a channel read from two digits is written back as those digits in lower case |
| Colors.InterpolateColor | frontend/src/utils/colorUtils.js:77-83 | factor 0 gives the first colour and factor 1 the second, each channel rounded as `Math.round` does |
| Colors.RoundWhole | frontend/src/utils/colorUtils.js:79-81 | rounding a whole number gives it back |
| Colors.RoundBetween | frontend/src/utils/colorUtils.js:79-81 | rounding a number between two integers stays between them |
| Colors.InterpolateEnds | frontend/src/utils/colorUtils.js:77-83 | for whole-number colours, factor 0 gives the first colour exactly and factor 1 the second |
| Colors.ChannelBetween | frontend/src/utils/colorUtils.js:79-81 | with a factor in 0..1 each channel lies between its two ends, whichever is larger |
| Colors.ChannelUp | frontend/src/utils/colorUtils.js:79-81 | a rising channel stays between its ends |
| Colors.ChannelDown | frontend/src/utils/colorUtils.js:79-81 | a falling channel stays between its ends |
| Colors.RoundAfterStep | frontend/src/utils/colorUtils.js:79-81 | a step no longer than the gap, rounded, stays between the ends |
| Colors.InterpolateInRange | frontend/src/utils/colorUtils.js:77-83 | two colours with channels in 0..255 and a factor in 0..1 give a colour with channels in 0..255 |
| Geo.Min | frontend/src/utils/geoUtils.js:37-39 | `Math.min`: NaN when either argument is NaN, otherwise one of the two arguments and no greater than either |
| Geo.Max | frontend/src/utils/geoUtils.js:38-40 | `Math.max`: NaN when either argument is NaN, otherwise one of the two arguments and no less than either |
| Geo.NestedSmaller | frontend/src/utils/geoUtils.js:41-43 | a nested object's own coordinates are strictly smaller than the list holding it, so the recursion ends |
| Geo.GetCenter | frontend/src/utils/geoUtils.js:26-52 | the loop computes the centre: [0, 0] for an empty list, otherwise the midpoint of the least and greatest longitude and latitude over the positions, a nested object counting as its own centre |
| Geo.ProcessPositions | frontend/src/utils/geoUtils.js:67-88 | the inner loop widens the bounds by each position of a list of positions, skipping entries that are not positions |
| Geo.GetBoundingBox | frontend/src/utils/geoUtils.js:59-97 | the loop computes the bounding box: the whole world for an empty list, otherwise the bounds over every position, list of positions and nested object's box |
| Geo.IsPointInBoundingBox | frontend/src/utils/geoUtils.js:105-111 | a point is inside a box only if neither coordinate is NaN and the box's bounds are in order |
| Geo.CornersInside | frontend/src/utils/geoUtils.js:105-111 | the bounds are inclusive: both corners of a well-formed box lie inside it |
| Geo.LeTrans | frontend/src/utils/geoUtils.js:108-109 | the order on numbers is transitive |
| Geo.WithinTrans | frontend/src/utils/geoUtils.js:64-96 | a box inside a box inside a third lies inside the third |
| Geo.AbsorbWidens | frontend/src/utils/geoUtils.js:67-75 | taking a position into the bounds keeps any NaN, and otherwise contains the position and the old bounds |
| Geo.MergeWidens | frontend/src/utils/geoUtils.js:80-84 | merging a nested box keeps any NaN, and otherwise contains both boxes |
| Geo.InsideWider | frontend/src/utils/geoUtils.js:105-111 | a point inside a box is inside every box containing it |
| Geo.CoversWider | frontend/src/utils/geoUtils.js:105-111 | points inside a box are inside every box containing it |
| Geo.ProcessAllCovers | frontend/src/utils/geoUtils.js:67-88 | after the inner loop every position processed lies inside the bounds, which contain the bounds before it, unless a NaN was met |
| Geo.BoundingBox | frontend/src/utils/geoUtils.js:59-97 | every position the list holds, at any depth, lies inside the bounding box getBoundingBox returns unless a NaN reached one of its bounds |
| Geo.BoxBoundsCover | frontend/src/utils/geoUtils.js:64-94 | after any number of entries the bounds so far contain every position seen so far unless a NaN was met |
| Geo.CoversAppend | frontend/src/utils/geoUtils.js:77-94 | a box containing two lists of points contains their concatenation |
| Geo.FlatBoundsAgree | frontend/src/utils/geoUtils.js:34-75 | on a flat list of positions getCenter and getBoundingBox gather the same bounds |
| Geo.Center | frontend/src/utils/geoUtils.js:26-52 | on a non-empty flat list of positions getCenter returns the middle of the box getBoundingBox returns |
| Geo.FlatBoundsFinite | frontend/src/utils/geoUtils.js:64-75 | the bounds of a non-empty flat list without NaN are finite and well ordered |
| Geo.MidBetween | frontend/src/utils/geoUtils.js:51 | the midpoint of two ordered numbers lies between them |
| Geo.CenterInsideBox | frontend/src/utils/geoUtils.js:26-111 | on a non-empty flat list of positions without NaN the centre lies inside the bounding box |
| OpenInfraMap.FirstMwMatchLeftmost | scripts/canada_openinframap_scraper.ts:85 | the regular expression's match is the leftmost place where a run of digits and commas is followed, after optional white space, by `MW`; no match exactly when there is no such place |
| OpenInfraMap.ParseFloatEmpty | scripts/canada_openinframap_scraper.ts:87 | `parseFloat` of a run of commas alone, once the commas are dropped, is NaN |
| OpenInfraMap.ParseOutputMW | scripts/canada_openinframap_scraper.ts:83-93 | null exactly when no run of digits and commas is followed by `MW`; a number it reads is never negative |
| OpenInfraMap.ParseOutputMWIsParseFloat | scripts/canada_openinframap_scraper.ts:83-93 | the output is absent without a match, and otherwise `parseFloat` of the matched digits with the commas dropped |
| OpenInfraMap.ParseOutputMWMeaning | scripts/canada_openinframap_scraper.ts:83-93 | with a match, the number written by the digits of the leftmost amount followed by `MW`, NaN when that amount holds only commas |
| OpenInfraMap.FirstProvinceMeaning | scripts/canada_openinframap_scraper.ts:96-133 | no province exactly when no rule's keyword occurs in the text; otherwise the province of the first rule with a keyword in the text |
| OpenInfraMap.DetermineProvinceAsWritten | scripts/canada_openinframap_scraper.ts:96-133 | as written: no province exactly when none of the keywords occurs in the lower-cased name and operator; Quebec exactly when one of the Quebec keywords, as the file spells them, occurs |
| OpenInfraMap.DetermineProvince | scripts/canada_openinframap_scraper.ts:96-133 | with the keyword spelt as meant: no province exactly when none of the keywords occurs; Quebec exactly when one of the Quebec keywords occurs |
| OpenInfraMap.QuebecOnlyFirst | scripts/canada_openinframap_scraper.ts:99-102 | Quebec is tried first and no later rule returns it, so the answer is Quebec exactly when a Quebec keyword occurs |
| OpenInfraMap.LowerCharNeverAtilde | scripts/canada_openinframap_scraper.ts:97-99 | lower-casing never produces the capital letter A with tilde |
| OpenInfraMap.MisspeltKeywordNeverMatches | scripts/canada_openinframap_scraper.ts:97-99 | no lower-cased text contains the Quebec keyword as the source spells it, so that keyword can never match |
| OpenInfraMap.AbsentAllNotMentioned | scripts/canada_openinframap_scraper.ts:99-129 | keywords shown absent one by one are not in the text |
| OpenInfraMap.LowersToToLower | scripts/canada_openinframap_scraper.ts:97 | lower-casing a text character by character gives its lower-case form |
| OpenInfraMap.HydroQuebecProvinceText | scripts/canada_openinframap_scraper.ts:97 | the text checked for the plant name "Hydro-Québec" without an operator is its lower-case form followed by a space |
| OpenInfraMap.HydroQuebecMissed | scripts/canada_openinframap_scraper.ts:96-133 | as written, a plant named "Hydro-Québec" is not placed in Quebec |
| OpenInfraMap.HydroQuebecFound | scripts/canada_openinframap_scraper.ts:96-133 | with the keyword spelt as meant, a plant named "Hydro-Québec" is placed in Quebec |
| OpenInfraMap.ProvincesAgree | scripts/canada_openinframap_scraper.ts:96-133 | the keyword as written and as meant place a plant in the same province whenever its text does not contain "hydro-québec" |
| OpenInfraMap.MentionsAnyOtherHead | scripts/canada_openinframap_scraper.ts:99-100 | keyword lists that differ only in a first keyword the text contains in neither form match the text alike |
| OpenInfraMap.FirstProvinceOtherHead | scripts/canada_openinframap_scraper.ts:99-133 | rule lists that differ only in a first rule for the same province that matches alike give the same province |
| OpenInfraMap.NormalizeFuelType | scripts/canada_openinframap_scraper.ts:136-150 | the fuel type is the source unchanged, or one of the keywords that the lower-cased source contains |
| OpenInfraMap.NormalizeFuelTypeMeaning | scripts/canada_openinframap_scraper.ts:136-150 | the source comes back unchanged exactly when it contains none of the keywords, and otherwise the first keyword it contains in the fixed order |
| OpenInfraMap.NuclearBeforeGas | scripts/canada_openinframap_scraper.ts:139-141 | a source mentioning nuclear is nuclear whatever else it mentions |
| OpenInfraMap.CharAbsentNotIn | scripts/canada_openinframap_scraper.ts:139-147 | a character shown absent position by position does not occur |
| OpenInfraMap.ExcludesNotContains | scripts/canada_openinframap_scraper.ts:139-147 | a text lacking one of a word's characters does not contain the word |
| OpenInfraMap.KeywordSettles | scripts/canada_openinframap_scraper.ts:139-147 | each keyword is lower case and contains none of the keywords before it |
| OpenInfraMap.LowerFromToLower | scripts/canada_openinframap_scraper.ts:137 | a text already in lower case is its own lower-case form |
| OpenInfraMap.ContainsSelf | scripts/canada_openinframap_scraper.ts:139-147 | every text contains itself |
| OpenInfraMap.NormalizeIdempotent | scripts/canada_openinframap_scraper.ts:136-150 | normalising a normalised fuel type changes nothing |
| OpenInfraMap.HyphenateHead | scripts/canada_openinframap_scraper.ts:226 | hyphenating keeps a text empty or not, and starts it with a hyphen exactly where it started with one or with white space |
| OpenInfraMap.HyphenateSlugChars | scripts/canada_openinframap_scraper.ts:225-226 | on letters, digits and white space, hyphenating gives only letters, digits and hyphens |
| OpenInfraMap.HyphenateNoDoubleHyphen | scripts/canada_openinframap_scraper.ts:226 | a run of white space becomes a single hyphen, so a text without hyphens never gets two in a row |
| OpenInfraMap.Slug | scripts/canada_openinframap_scraper.ts:224-227 | the id is at most 100 characters of `[a-z0-9-]` with no two hyphens in a row |
| OpenInfraMap.SlugOfPlainName | scripts/canada_openinframap_scraper.ts:224-227 | a name of at most 100 lower-case letters and digits is its own id |
| OpenInfraMap.HyphenateNoSpace | scripts/canada_openinframap_scraper.ts:226 | a text without white space is left as it is |
| OpenInfraMap.RowOf | scripts/canada_openinframap_scraper.ts:204-253 | the upserted row is keyed by the slug of the name (at most 100 characters), keeps the scraped name and operator, carries the parsed `MW` amount (at least 10), the normalised fuel type (the source or a keyword the source names) and the province the rules as written give |
| OpenInfraMap.OutcomeOf | scripts/canada_openinframap_scraper.ts:202-265 | a plant is upserted exactly when its processing does not throw and its parsed `MW` amount is a number other than 0 and NaN and at least 10; so a missing amount, 0, NaN or anything below 10 MW is skipped; an upserted plant carries the row built for it |
| OpenInfraMap.UpsertsUpTo | scripts/canada_openinframap_scraper.ts:256 | no more plants are upserted than were looked at |
| OpenInfraMap.ApplyOutcomes | scripts/canada_openinframap_scraper.ts:202-266 | the loop leaves the table with each upserted row under its id, a later row replacing an earlier one, counts the upserts, and counts every other plant as skipped |
| OpenInfraMap.ProcessPlants | scripts/canada_openinframap_scraper.ts:202-266 | every plant is upserted or skipped: a plant below 10 MW, without an output, or whose processing throws is skipped, and the counts add up to the number of plants; an upserted row carries the province the rules as written give |
| OpenInfraMap.TableAfterRows | scripts/canada_openinframap_scraper.ts:238-253 | after the loop every row is either untouched from before or keyed by its own slug-shaped id with at least 10 MW |
| OpenInfraMap.TableAfterKeeps | scripts/canada_openinframap_scraper.ts:238-253 | upserting never removes a row, and every row either is untouched or is keyed by its own id |
| EiaDates.FullYear | scripts/eia/eia_scrape.ts:121-136 | `Date.UTC` reads a year 0..99 as 1900 onwards and any other year as itself |
| EiaDates.DateUtc | scripts/eia/eia_scrape.ts:121-136 | the date is the first of a month in 0..11, the month index carried into the year as `Date.UTC` does |
| EiaDates.ParseQuarterDate | scripts/eia/eia_scrape.ts:112-140 | a date comes back exactly when the text is `YYYYQd`, `YYYYMM` or `YYYY`, and otherwise (the empty text included) nothing; a date is always the first of a month |
| EiaDates.PatternsExclusive | scripts/eia/eia_scrape.ts:116-133 | no text matches two of the three patterns, so the order they are tried in does not matter |
| EiaDates.QuarterRoundTrip | scripts/eia/eia_scrape.ts:116-121 | `YYYYQq` with q in 1..4 gives the first day of the quarter's first month |
| EiaDates.YearMonthRoundTrip | scripts/eia/eia_scrape.ts:125-129 | `YYYYMM` with a month 01..12 gives the first day of that month |
| EiaDates.YearRoundTrip | scripts/eia/eia_scrape.ts:133-136 | `YYYY` gives the first of January of that year |
| EiaDates.TwoDigitYear | scripts/eia/eia_scrape.ts:133-136 | a year below 100 is read as 1900 onwards |
| EiaDates.ZeroPeriodRollsBack | scripts/eia/eia_scrape.ts:116-129 | quarter 0 and month 00 are let through and roll back into the year before |
| MapQuery.NormalizeStates | server/src/routes/map_data.ts:25-38 | no filter exactly when the parameter is missing or falsy, or an array that is empty or holds a single empty value; otherwise every value it carries, in order |
| MapQuery.NormalizeList | server/src/routes/map_data.ts:41-54 | no filter for a missing or falsy parameter; a value without commas is the only value; a value with commas is split at them with blank parts dropped, and gives no filter when nothing is left |
| MapQuery.NonBlank | server/src/routes/map_data.ts:46 | filtering never adds values |
| MapQuery.NonBlankMeaning | server/src/routes/map_data.ts:46 | the values kept are exactly the parts that are not blank, and a list without blank parts is kept whole |
| MapQuery.NonBlankIn | server/src/routes/map_data.ts:46 | a value is kept exactly when it is a part and not blank |
| MapQuery.NonBlankAll | server/src/routes/map_data.ts:46 | a list without blank parts passes the filter unchanged |
| MapQuery.SplitValuesMeaning | server/src/routes/map_data.ts:45-46 | every value of a comma-bearing parameter is free of commas and not blank; with no blank part, joining the values with commas gives the parameter back |
| MapQuery.RepeatedValues | server/src/routes/map_data.ts:43-46 | a parameter repeated with at least two comma-free, non-blank values comes back as exactly those values |
| DomainRedirect.Location.constructor | src/lib/domainRedirect.ts:22 | a page's address starts with no replacements |
| DomainRedirect.Location.Replace | src/lib/domainRedirect.ts:34-41 | `loc.replace` records the new address and leaves the page's own fields as they were |
| DomainRedirect.MaybeRedirectForDomainMigration | src/lib/domainRedirect.ts:22-43 | the page is replaced once with the address the redirect rule gives, and not at all when the rule gives none; the page's fields stay as they were |
| DomainRedirect.IsLocalHost | src/lib/domainRedirect.ts:9-13 | apart from `127.0.0.1` and `::1`, every name counted as local ends with `localhost` |
| DomainRedirect.MatchesHost | src/lib/domainRedirect.ts:15-16 | a matching name ends with the expected host and is either that host or four characters (`www.`) longer |
| DomainRedirect.IsBrandTransitionPath | src/lib/domainRedirect.ts:18-19 | a brand-transition path starts with the brand path |
| DomainRedirect.Redirect | src/lib/domainRedirect.ts:22-43 | a redirect happens only for a host that, whatever its case, is not local and is the legacy or the primary host with or without `www.`; it keeps the query and fragment, and goes either to the same path (never the root) or to the root |
| DomainRedirect.ToLowerIdempotent | src/lib/domainRedirect.ts:23-27 | lower-casing twice is lower-casing once |
| DomainRedirect.LowerCharIdempotent | src/lib/domainRedirect.ts:23 | lower-casing a character twice is lower-casing it once |
| DomainRedirect.LegacyHostMoves | src/lib/domainRedirect.ts:26-36 | on the legacy host, with or without `www.`, a page stays exactly when it is the root or the brand page; any other page moves to the primary origin with the same path, query and fragment |
| DomainRedirect.PrimaryHostMoves | src/lib/domainRedirect.ts:27-42 | on the primary host, with or without `www.`, exactly the brand page and the pages below it move, to the primary root with the same query and fragment |
| DomainRedirect.LegacyIsNotPrimary | src/lib/domainRedirect.ts:15-27 | with distinct, non-local site host names no host matches both the legacy and the primary name, and neither is local |
| DomainRedirect.WwwIsNotLocal | src/lib/domainRedirect.ts:9-16 | adding `www.` to a host that is not local keeps it not local |
| DomainRedirect.WwwLocalSuffix | src/lib/domainRedirect.ts:13-16 | `www.` and a host end with `.localhost` only when the host is `localhost` or ends with it |
| DomainRedirect.RedirectSettles | src/lib/domainRedirect.ts:22-43 | a redirect never loops: the page it lands on, on the primary host, is not redirected again |
| ContactRequest.ValidEmailMatchesPattern | src/app/api/contact-request/route.ts:16-17 | the e-mail check holds exactly when the text matches `^[^\s@]+@[^\s@]+\.[^\s@]+$` |
| ContactRequest.ValidEmailIsPattern | src/app/api/contact-request/route.ts:16 | a text passing the e-mail check matches the pattern |
| ContactRequest.PatternIsValidEmail | src/app/api/contact-request/route.ts:16 | a text matching the pattern passes the e-mail check |
| ContactRequest.FirstWhereAt | src/app/api/contact-request/route.ts:16 | the first position holding the separator is found at that position |
| ContactRequest.Post | src/app/api/contact-request/route.ts:3-67 | a body that is not JSON, or a null body, gives the 500 answer; otherwise the answer is the first failed check in the order required fields, e-mail, GPU count, use case, each with its own 400 message, and the 200 answer exactly when every check passes |
| ContactRequest.DigitCount | src/app/api/contact-request/route.ts:25-26 | a GPU count written as digits passes exactly when its value is from 1 to 20000 |
| VastStats.AggregateVastStats | scripts/vast/vast_api_scrape.ts:393-420 | the summary has one entry per GPU name the offers mention, and each entry holds the number of that GPU's offers, their lowest, highest and mean hourly price, and an empty offer list |
| VastStats.GroupStep | scripts/vast/vast_api_scrape.ts:396-408 | one more offer adds its GPU name and extends exactly its own group |
| VastStats.MinPriceIsLeast | scripts/vast/vast_api_scrape.ts:414 | the lowest price is the price of one of the offers and no offer is cheaper |
| VastStats.MaxPriceIsGreatest | scripts/vast/vast_api_scrape.ts:415 | the highest price is the price of one of the offers and no offer costs more |
| VastStats.SummaryBounds | scripts/vast/vast_api_scrape.ts:411-415 | the mean price lies between the lowest and the highest |
| VastStats.DivideBetween | scripts/vast/vast_api_scrape.ts:413 | a sum between n times two bounds, divided by n, lies between them |
| VastStats.SumBounded | scripts/vast/vast_api_scrape.ts:413 | the sum of prices lying between two bounds lies between the count times each bound |
| VastStats.TotalsAddUp | scripts/vast/vast_api_scrape.ts:393-420 | no offer is lost or counted twice: over the GPU names the group sizes add up to the number of offers |
| VastStats.MatchingEmpty | scripts/vast/vast_api_scrape.ts:397 | a GPU name no offer has so far has no offers |
| VastStats.DistinctNamesDistinct | scripts/vast/vast_api_scrape.ts:410 | every GPU name is listed once |
| VastStats.GroupSizesStep | scripts/vast/vast_api_scrape.ts:407 | one more offer adds one to the group sizes exactly when its name is listed |
| DevSeedGpus.FormatGpuNameMeaning | database/schema/seed/primary_dev_seed.py:49-58 | a name containing L40S is an RTX4090, else one containing A100 an A100, else one containing H100 an H100, and anything else NONE, which is not a GPU type |
| DevSeedGpus.TallyTypes | database/schema/seed/primary_dev_seed.py:62-65 | the loop's keys are the recognised GPU types in the order first seen and its counts the number of times each occurs |
| DevSeedGpus.TallyStep | database/schema/seed/primary_dev_seed.py:64-65 | one more recognised type adds one to its count, and adds it as a key at the end when it is new |
| DevSeedGpus.CountGpus | database/schema/seed/primary_dev_seed.py:60-68 | the answer is the summary of the list: ["NONE"] when nothing is recognised, else one `<type>x<count>` entry per type in the order first seen |
| DevSeedGpus.RecognisedStep | database/schema/seed/primary_dev_seed.py:63-65 | one more line adds its type when it is not NONE and nothing otherwise |
| DevSeedGpus.CountAbsent | database/schema/seed/primary_dev_seed.py:65 | a type that does not occur has count zero |
| DevSeedGpus.CountStep | database/schema/seed/primary_dev_seed.py:62-65 | one more type adds one to its own count only, and is appended to the types first seen when it is new |
| DevSeedGpus.RecognisedAreGpuTypes | database/schema/seed/primary_dev_seed.py:61-65 | every type counted is one of RTX4090, A100 and H100 |
| DevSeedGpus.OnlyGpuTypes | database/schema/seed/primary_dev_seed.py:64 | skipping NONE leaves only GPU types |
| DevSeedGpus.RecognisedLast | database/schema/seed/primary_dev_seed.py:63-65 | a type at the end is counted exactly when it is not NONE |
| DevSeedGpus.NoneIgnored | database/schema/seed/primary_dev_seed.py:49-68 | a line naming no known GPU changes nothing in the answer |
| DevSeedGpus.NothingRecognised | database/schema/seed/primary_dev_seed.py:60-68 | the answer is ["NONE"] exactly when no line names a known GPU |
| DevSeedGpus.EntriesNone | database/schema/seed/primary_dev_seed.py:66-68 | with only GPU types counted, the answer is ["NONE"] exactly when nothing is counted |
| DevSeedGpus.RecognisedEmpty | database/schema/seed/primary_dev_seed.py:63-66 | nothing is counted exactly when every type is NONE |
| DevSeedGpus.FirstSeenMembers | database/schema/seed/primary_dev_seed.py:62-68 | the keys are exactly the types that occur, each once |
| DevSeedGpus.CountPositive | database/schema/seed/primary_dev_seed.py:65 | a type that occurs has a count of at least one |
| DevSeedGpus.SumCountsStep | database/schema/seed/primary_dev_seed.py:65 | one more type adds one to the total of the counts of the listed keys exactly when it is listed |
| DevSeedGpus.SumCountsAppend | database/schema/seed/primary_dev_seed.py:68 | listing one more key adds its count to the total |
| DevSeedGpus.CountsAddUp | database/schema/seed/primary_dev_seed.py:62-68 | the counts over the keys add up to the number of types counted |
| DevSeedGpus.EntrySplits | database/schema/seed/primary_dev_seed.py:68 | an entry splits at `x` back into its GPU type and the digits of its count, which read back as the count |
| DevSeedGpus.CountGpusEntries | database/schema/seed/primary_dev_seed.py:60-68 | when something is counted there is one entry per distinct GPU type, in the order first seen, each a GPU type with a count of at least one, and the counts add up to the number of lines recognised |

## Left out

- Network, file system and database I/O are parameters. The HTTP status of a download, the files an archive extracts to, the parse of each KML file, whether the database connects and whether PostGIS is present all come in as arguments. Whether one INSERT succeeds is the opaque `accepts` predicate of `KmzUpload.Database`. PostGIS geometry construction and Postgres transaction-abort behaviour are external.
- The temporary directories of `kmz_upload.py`, its logging, and the ANALYZE and sample-row printing after a load produce no data the pipeline uses.
- XML parsing itself is not modelled. A KML file is given as its parsed element tree.
- The code has no per-source isolation, so the first exception ends the run. A missing `kmz_features` table makes the load return quietly rather than raise. No failed-insert counter exists; only successes are counted.
- JavaScript and Python numbers are exact reals, with NaN as its own case where it can arise. Binary floating-point rounding is not modelled. Neither is `toFixed` beyond four decimals of ordinary-sized numbers, nor infinities other than the bounding-box start values.
- `parseFloat` reads white space, a sign, digits, a fraction and an exponent, and `parseInt` also reads a `0x` prefix. `parseFloat`'s `Infinity` and the overflow of very long numbers to infinity are not modelled.
- `toLowerCase` is modelled for ASCII and the Latin-1 capitals. Other Unicode case mappings, such as Greek, Cyrillic and the special cases, are not. Texts are sequences of characters; UTF-16 surrogate pairs are not modelled.
- Objects used as dictionaries are maps from strings. The inherited prototype keys of a JavaScript object (`constructor`, `toString`, ...) are not modelled. A GPU or source named like one of them would behave differently in the source.
- `String(x)` of numbers, arrays and objects is not modelled. Query values, JSON fields and CSV cells are modelled as the strings they carry; a JSON number field is read through the text it is written as.
- Random coordinate estimates, the Wikidata coordinate lookup, scrape timestamps and the metadata column of the OpenInfraMap scraper are left out; they depend on the network and the clock. Whether processing one plant throws is the `failed` argument of `OpenInfraMap.ProcessPlants`.
- `calculateDistance`, `toRadians`, `toDegrees`, `simplifyLine` and `reduceCoordinatePrecision` are trigonometric or floating-point formatting code and are not part of this model.
- The `console` output of every module, and the contact route's log of the request, are left out.
- `src/lib/site.ts` is not part of this model. The brand path, the legacy and primary host names and the primary origin are the fields of `DomainRedirect.Site`, and the redirect lemmas assume only that they are coherent. `LEGACY_ORIGIN` is imported but never used by the redirect.
- A request body that is not JSON makes `request.json()` throw. It is modelled as a missing body, which `ContactRequest.Post` answers with the 500 response.
- The map query parameters are a missing value, a string or an array of strings. Nested objects that a query-string parser can produce are not modelled.
- `geoUtils` is modelled on nested arrays of numbers and objects with `coordinates`. Entries that are neither, `null` entries and numeric coercion of strings are not modelled.
- The rest of `primary_dev_seed.py` (the `lspci` and `nvidia-smi` calls that produce the GPU list, and the database writes) is external.
- KmzUpload.DownloadKmz: its argument is the path part of the download URL. `urlparse` is not modelled: a source's `kmz_file` entry is taken to be that path already, so a URL with a host name, a query string or a fragment is not first reduced to its path as `scripts/kmz_upload.py` does at line 59.
- KmzUpload.Rows: every row of one load carries the same `processing_time`, the single clock reading `now`. The script reads the clock again for each feature (`scripts/kmz_upload.py` line 235), so its rows can carry different times.
- Calculator.CapacityValue: its own contract states only the no-number case; the reading of a number is stated by `CapacityFromLeadingRun` and the lemmas after it, for texts that start with the number.
- Colors.RgbToHex: requires channels in 0..255; the bit shifts of the source on other values (wrap-around at 32 bits, fractional channels) are not modelled.
- DataUtils.GroupKey: every falsy property value (a missing or empty text) falls back to `unknown`; other falsy JavaScript values such as `0` or `false` do not occur in the text-valued rows modelled.
- VastStats.AggregateVastStats: each offer carries only its GPU name and price; the other offer fields are not read by the aggregation.

## Findings

| source | as written | input that shows it | evidently intended | confidence | as-written member | corrected member |
|---|---|---|---|---|---|---|
| scripts/canada_openinframap_scraper.ts:99 | the first Quebec keyword is `hydro-qu` followed by U+00C3 U+00A9 and `bec`, which a lower-cased text can never contain, since lower-casing never yields U+00C3 | plant name "Hydro-Québec" with no operator: no rule matches, so the province is null | the keyword "hydro-québec", so that the plant is placed in Quebec | not executed; the keyword is garbled in the file as stored in the repository, whose emoji at line 153 are garbled the same way | OpenInfraMap.HydroQuebecMissed | OpenInfraMap.HydroQuebecFound |

The scrape loop keeps the keyword as written: `OpenInfraMap.RowOf` places a plant with `DetermineProvinceAsWritten`, as the script does. `OpenInfraMap.ProvincesAgree` shows that the corrected rules would change the province only of plants whose name or operator contains "hydro-québec".
