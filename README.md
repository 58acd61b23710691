# City population finder — a Dafny model

This project models the core of `CityPopulationFinder` (Program.cs), a tool that looks up the
population of settlements. It reads settlements (name, longitude, latitude) from a spreadsheet.
For each one it asks three providers in a fixed order: Wikidata by coordinates, then a Wikidata
label search, then OpenStreetMap (Overpass). The first provider that answers fills in
`Population` and `DataSource`, and one of four outcome counters goes up.

The modules follow the program:

- `Records` (records.dfy): the `City` and `SearchStatistics` classes.
  - A `City`'s name and point are constants, because they are set only when the object is created.
  - `Population` and `DataSource` are mutable fields.
- `Text` (text.dfy): `String.Trim()` over a white-space class, and `Replace(",", ".")`.
- `IntParse` (int_parse.dfy): `int.TryParse` under its default style, and `int.ToString()`.
- `Providers` (providers.dfy): what each provider does with the reply it receives.
  - The Wikidata providers read the first SPARQL binding.
  - The OSM provider scans the Overpass elements for the first integer `population` tag.
  - An exception inside a provider is caught and becomes "no value".
  - The HTTP exchange is a `Network` value: a function from the request (the parameters of the query) to a reply.
- `Cascade` (cascade.dfy): the `PopulationFinder` class.
  - Its three provider methods append to a ghost request log.
  - `GetPopulationData` loops over the city list.
  - Its contract gives each city's new fields, the counters and the request log, each in terms of specification functions.
  - The lemmas show that the nested ifs are the "first answer wins" rule, and that every completed city is counted exactly once.
- `Ingestion` (ingestion.dfy): the row loop of `ReadCitiesFromExcel` over the worksheet's rows.
  - It is proved to produce, in row order, exactly the settlements of the rows that pass the filter, as fresh and distinct `City` objects.

On these points the model follows the code exactly:

- A population is any value `int.TryParse` accepts, negative numbers included.
- `TotalCities` is set once from the list length; it is not counted up per city.
- A city whose loop body raises before its outcome is recorded is not counted in any bucket. `TallyCountsEveryCompletedCity` states this exactly: the buckets grow by `TotalCities` minus the number of such cities, so for a new finder they add up to exactly that.
- A name of white space only passes `string.IsNullOrEmpty`, so the row is kept, and the name is stored as the empty string (`BlankNameStoredEmpty`).
- When no provider answers, `Population` and `DataSource` keep what they held; they are not cleared.
- `GetPopulationData` does not reset the four buckets.

## Model

| member | source | states |
|---|---|---|
| Text.LeadingRun | Program.cs:90-91 | the leading count is the longest white prefix: all of it is white and the next character is not |
| Text.TrailingRun | Program.cs:90-91 | the trailing count is the longest white suffix: all of it is white and the character before it is not |
| Text.TrimSpan | Program.cs:107 | `Trim` keeps an infix with only white space around it and no white space at either end; it is empty exactly when the string is all white space |
| Text.LeadingCountIs | Program.cs:90-91 | any white prefix followed by a non-white character (or the end) is the one the leading count measures |
| Text.TrailingCountIs | Program.cs:90-91 | any white suffix preceded by a non-white character (or the start) is the one the trailing count measures |
| Text.TrimUnique | Program.cs:90-91 | `Trim` gives the unique infix with white space around it and non-white ends |
| Text.TrimOfPadded | Program.cs:90-91 | padding with more white space does not change which infix `Trim` keeps |
| Text.TrimAbsorbsPadding | Program.cs:90-91 | `Trim(pre + s + post) == Trim(s)` for white `pre` and `post` |
| Text.TrimIdempotent | Program.cs:107 | trimming twice is trimming once |
| Text.ReplaceCommasSpec | Program.cs:90-91 | same length, no comma left, every comma became a period, every other character is unchanged |
| IntParse.ParseInt32 | Program.cs:263 | a parsed value fits in a 32-bit signed integer |
| IntParse.ParseSignedDigits | Program.cs:263 | a parsed value fits in 32 bits, and the text between the white space holds only digits and signs |
| IntParse.FormatNat | Program.cs:263 | `int.ToString()` of a non-negative value, the inverse in the parse round trip: a non-empty run of digits with no leading zero |
| IntParse.DigitsValueOfFormat | Program.cs:263 | the digits printed for `n` read back as `n` |
| IntParse.SignedDigitsOfFormat | Program.cs:263 | the printed signed number reads back as itself exactly when it fits in 32 bits |
| IntParse.ParseFormatRoundTrip | Program.cs:263 | `TryParse(ToString(n))` succeeds with `n` for every 32-bit `n` and fails for every other `n` |
| IntParse.ParseIgnoresPadding | Program.cs:263 | white space around a number does not change what `int.TryParse` reads |
| IntParse.SignedDigitsGrammar | Program.cs:263 | one optional '+' or '-' followed by a non-empty run of digits, leading zeros allowed, reads as its signed decimal value when that fits in 32 bits and as no value otherwise |
| IntParse.ParseGrammar | Program.cs:263 | white space, an optional sign, digits, white space: `int.TryParse` reads the signed decimal value when it fits in 32 bits, and no value otherwise |
| IntParse.ParsedShape | Program.cs:263 | conversely, accepted text is, between its white space, one optional sign and a non-empty run of digits, and the value read is their signed decimal value |
| Providers.WikidataPopulation | Program.cs:253-275 | a failed exchange gives no value; a value is returned exactly when the first binding's population value exists and parses, and it is that parsed value |
| Providers.ScanFindsFirstPopulation | Program.cs:348-360 | the scan finds nothing exactly when no element has an integer population; otherwise it returns the population of the first element that has one |
| Providers.OsmPopulation | Program.cs:342-366 | a failed exchange or a missing `elements` array gives no value; otherwise the result is the scan of the elements |
| Providers.WikidataReadsTopAnswer | Program.cs:259-269 | an endpoint answer is read back as its first population when that value fits in 32 bits, and as no value when the answer is empty or the first value does not fit, whatever follows |
| Providers.ScanSkipsElementsWithoutPopulation | Program.cs:348-358 | elements without a population in front of the list do not change the scan's result |
| Providers.ScanDropsHead | Program.cs:350-351 | an element without a population at the head is passed over |
| Providers.ScanStopsAtFirstPopulation | Program.cs:351-356 | once an element yields a population, nothing after it is looked at |
| Records.City.constructor | Program.cs:105-110 | a new city holds the given name and point, with no population and no source |
| Records.SearchStatistics.constructor | Program.cs:22-28 | all counters start at zero |
| Records.DistinctApart | Program.cs:175 | two positions of a list of distinct cities hold different objects |
| Records.DistinctAppend | Program.cs:105-110 | appending a city that is not yet in the list keeps the cities distinct |
| Records.PlacesAppend | Program.cs:105-110 | appending a city appends its name and point |
| Cascade.AnswersServe | Program.cs:181-201 | the network's own answers are an oracle the finder's methods accept |
| Cascade.QueriesFor | Program.cs:247-342 | one request per provider asked, in the order asked, each built from the settlement: the Wikidata GET (247-248), the label-search GET (293-294) and the Overpass POST (337-342) |
| Cascade.FirstAnswerIndex | Program.cs:181-211 | the position of the first provider with a value: every provider before it has none |
| Cascade.FirstAnswerWins | Program.cs:181-211 | the outcome is the first provider's value, tagged with that provider; exactly the providers up to it are asked; when none answers, nothing is found and all are asked |
| Cascade.CascadeFollowsPriority | Program.cs:180-213 | the nested ifs equal the first-answer rule over the order Wikidata, Wikidata search, OSM, in outcome and in the providers asked |
| Cascade.RecordKeepsFieldsTogether | Program.cs:184-210 | `Population` and `DataSource` stay set together; a found value is stored; a newly set tag names the provider that answered |
| Cascade.Outcomes | Program.cs:175-213 | one outcome per city, in list order |
| Cascade.TallyCountsEveryCompletedCity | Program.cs:172-222 | counters stay non-negative, and the buckets grow by exactly the number of cities whose body completed |
| Cascade.FilledAt | Program.cs:175-223 | after the first `n` cities, each passed city holds its settled fields and every other city is unchanged |
| Cascade.CompletedStep | Program.cs:175-222 | counting helper for the request log: the number of completed loop bodies grows by one exactly when the next body completes |
| Cascade.RequestsSentPerCity | Program.cs:175-223 | the log is only appended to, and each completed city sends between one and three requests |
| Cascade.RequestsInOrder | Program.cs:181-201 | the requests for each outcome, listed in the order the providers are asked |
| Cascade.PopulationFinder.constructor | Program.cs:159-168 | fresh statistics at zero and an empty request log |
| Cascade.PopulationFinder.GetPopulationFromWikidata | Program.cs:228-276 | sends exactly the coordinate query for the city, and returns what Wikidata yields for it |
| Cascade.PopulationFinder.GetPopulationFromWiderdataSearch | Program.cs:278-322 | sends exactly the label query for the city, and returns what the search yields for it |
| Cascade.PopulationFinder.GetPopulationFromOSM | Program.cs:324-367 | sends exactly the Overpass query for the city, and returns what OSM yields for it |
| Cascade.PopulationFinder.ResolveCity | Program.cs:178-213 | the outcome is the cascade's lookup; the city's fields record it; exactly one bucket goes up; the requests are those of the providers asked, in order |
| Cascade.PopulationFinder.Visit | Program.cs:175-222 | one loop pass: only the i-th city changes; an aborted pass changes no field, counter or log |
| Cascade.PopulationFinder.GetPopulationData | Program.cs:170-226 | every city holds its outcome's fields, or its old ones when its body aborted; `TotalCities` is the list length; the buckets are the old ones plus one bump per completed city, so their total plus the aborted cities is the old total plus the number of cities; the log is the requests of every completed city, in list order |
| Ingestion.CollectKeepsRowOrder | Program.cs:79-118 | the list is the accepted data rows, in row order: each entry comes from a data row, the rows increase, and every accepted row contributes |
| Ingestion.CollectAtMostDataRows | Program.cs:79 | at most one settlement per data row, so at most `rowCount - 1` |
| Ingestion.BlankNameStoredEmpty | Program.cs:85-107 | a name of white space only is kept, and stored as the empty string |
| Ingestion.CoordinateIgnoresPadding | Program.cs:90-93 | white space around a coordinate cell does not change the value read |
| Ingestion.ReadCitiesFromExcel | Program.cs:69-121 | no result exactly when the sheet has no used cell; otherwise fresh, distinct cities with no population, whose names and points are the accepted rows in order |

## Left out

- HTTP, the 30-second timeout, `EnsureSuccessStatusCode` and `JObject.Parse`: each becomes a `Reply`, with `Failed` covering every failure.
- A `Network` answers the same request the same way every time; remote data that changes between two requests is not modelled.
- The SPARQL and Overpass query text and its URL escaping: a `Request` holds only the parameters the query embeds.
- The JSON tree is reduced to the fields the providers read. A `population` tag whose value is not a string is not modelled.
- `double.TryParse` with `NumberStyles.Any` and the invariant culture is the parameter `parse`; doubles are `real`.
- EPPlus cell access. The sheet is given as its rows from row 1 to `Dimension.Rows`, so the used range is assumed to start at row 1.
- Ingestion.ReadCitiesFromExcel: the row loop's catch (lines 114-117) is not a path of the model, because no statement of the modelled loop body raises.
- Ingestion.ReadCitiesFromExcel: opening the file, and a missing or unreadable file, are not modelled.
- IntParse.ParseInt32: trailing NUL characters, and sign symbols of a culture other than the invariant one, are not modelled.
- Console output, `LogToFile` (which catches its own failures), `Task.Delay` and `PrintStatistics` are left out. They have no effect on the modelled state.
- Cascade.PopulationFinder.GetPopulationData: a failure of the loop body is given as `aborts`. An abort is placed before any provider is asked, so it changes nothing. An exception raised after the counter was bumped (the progress line, the delay) has the same effect as a completed body.
- Cascade.PopulationFinder.GetPopulationData requires the buckets plus the number of cities to stay within `int.MaxValue`. That holds for any fresh finder, and then no 32-bit counter wraps around.
- Cascade.PopulationFinder.GetPopulationData requires the cities to be distinct objects, as `ReadCitiesFromExcel` produces them. A list holding one object twice is not modelled.
- Cascade.PopulationFinder.GetPopulationData is stated over a ghost oracle `answers` that agrees with the network (`Serves`); `AnswersServe` shows that the network itself is one.
- `await` and the asynchronous tasks are left out; cities are processed one after another, as the loop awaits each call.
- `Main` and `SaveResultsToExcel` are not part of this model.
