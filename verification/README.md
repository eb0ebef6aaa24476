# LaMetric TRIAS departures, modelled in Dafny

The service answers `GET /api/departures/:stationId` for a LaMetric display. For
each request it:

- builds a TRIAS StopEventRequest document for the station;
- posts it to the configured TRIAS endpoint;
- turns the StopEventResponse into bus departures (line label and display time);
- keeps each station's list in a cache for 300 seconds;
- renders the list as display frames, one per line with at most two times, or a
  fixed fallback frame when there is nothing to show.

The model has seven modules:

| file | module | models |
|---|---|---|
| `types.dfy` | `Types` | the record shapes `BusDeparture`, `LaMetricFrame`, `LaMetricResponse`, `TriasConfig` |
| `results.dfy` | `Results` | `Option` (absent values) and `Result` (a value or a thrown error) |
| `sequences.dfy` | `Sequences` | first-appearance de-duplication, filtering, a stable sort and their ordering facts |
| `ecma_object.dfy` | `EcmaObject` | a JavaScript plain object used as a dictionary, and the key order of `Object.entries` |
| `lametric_formatter.dfy` | `LametricFormatter` | `formatForLametric` |
| `trias_service.dfy` | `Trias` | the parsed response and its normalisation, the request template, the cache and the `TriasService` class |
| `app.dfy` | `App` | the route handler's choice between the fallback frame and the formatted frames |

Code that mutates state is modelled imperatively:

- The grouping `reduce` in the formatter is the method `GroupByLine`. Its loop updates a `PlainObject` accumulator.
- `getDepartures` is the method `TriasService.GetDepartures`. It updates the class's `cache` map field.

Both methods are proved against the specification functions `Formatted` and `Fetch`. The lemmas state their properties.

Frames are not in first-appearance order. The code builds the groups in a plain object and reads them back with `Object.entries`, which follows OrdinaryOwnPropertyKeys (section 10.1.11.1 of ECMA-262, 2022 edition):

- keys that are array indices come first, in ascending numeric order;
- all other keys follow, in creation order.

For lines 12, 12, 5, 12 the frame for line 5 therefore comes first (`NumericLabelsComeFirst`).

An absent path through `Trias/ServiceDelivery/...` yields `[]`, not an error (`|| []` at src/services/triasService.ts:83). In the model such a document is `Document(Absent)`, which parses to an empty list.

## Model

| member | source | states |
|---|---|---|
| LametricFormatter.GroupByLine | src/utils/lametricFormatter.ts:5-11 | the grouping object's keys are the line labels in first-appearance order, each created once, and each key holds exactly the times of that line's departures in input order |
| LametricFormatter.StartEntry | src/utils/lametricFormatter.ts:6-8 | after a missing key is created with `[]`, the keys are the line labels of the first i + 1 departures in first-appearance order, and each key still holds its line's times among the first i |
| LametricFormatter.AppendTimes | src/utils/lametricFormatter.ts:9 | pushing a departure's time extends its own line's times by that time and leaves every other line's times unchanged |
| LametricFormatter.GroupStep | src/utils/lametricFormatter.ts:6-10 | one step of the `reduce` turns the grouping of the first i departures into the grouping of the first i + 1 |
| LametricFormatter.FormatForLametric | src/utils/lametricFormatter.ts:3-20 | the payload is one frame per entry of the grouping object, in `Object.entries` order, each built from the line label and its times |
| LametricFormatter.FrameCount | src/utils/lametricFormatter.ts:5-17 | there are as many frames as distinct line labels in the input, and no frames exactly when the input is empty |
| LametricFormatter.FrameLinesAreTheLines | src/utils/lametricFormatter.ts:6-14 | every input line label heads exactly one frame and no frame has any other label |
| LametricFormatter.FrameShowsFirstTwo | src/utils/lametricFormatter.ts:15-16 | a frame's text is the label, ": ", the first time and, when there is a second, a space and the second; later times are dropped; the icon is "a6175" |
| LametricFormatter.FrameText | src/utils/lametricFormatter.ts:9-16 | frame k shows its line's first and (if present) second departure time in input order, taken from departures on that line, with icon "a6175" |
| LametricFormatter.Positions | src/utils/lametricFormatter.ts:6-9 | every listed position is a departure on the given line |
| LametricFormatter.PositionsAscendingAndComplete | src/utils/lametricFormatter.ts:6-9 | the positions ascend and include every departure on the line |
| LametricFormatter.TimesAtPositions | src/utils/lametricFormatter.ts:9 | a line's collected times are the times of its departures, in input order |
| LametricFormatter.FrameOrder | src/utils/lametricFormatter.ts:11-14 | array-index labels precede all other labels and strictly ascend numerically; the other labels keep the order of their first departure |
| LametricFormatter.NumericLabelsComeFirst | src/utils/lametricFormatter.ts:5-17 | for lines 12, 12, 5, 12 the frames are "5: 10:02" then "12: 10:01 10:07" |
| EcmaObject.PlainObject.Put | src/utils/lametricFormatter.ts:7-9 | `acc[line] = value` stores the value, appends a new key after the existing ones and keeps the object well formed |
| EcmaObject.EmptyObject | src/utils/lametricFormatter.ts:11 | `{}` has no keys |
| EcmaObject.PlainObject.Entries | src/utils/lametricFormatter.ts:14 | `Object.entries` lists each key once, in own-property-key order, with its stored value |
| EcmaObject.OwnPropertyKeysPermutation | src/utils/lametricFormatter.ts:14 | the reported keys rearrange the created keys: same keys, same number, no repeats |
| EcmaObject.OwnPropertyKeysOrder | src/utils/lametricFormatter.ts:14 | array indices come before other keys and strictly ascend numerically, since canonical numerals have distinct values; other keys keep creation order |
| Sequences.DistinctKeepsFirstAppearanceOrder | src/utils/lametricFormatter.ts:6-7 | keys are created in the order in which line labels first occur in the input |
| Sequences.SortedThenOthersOrder | src/utils/lametricFormatter.ts:14 | the selected elements come first and ascend by rank; the rest keep their original order |
| Trias.ParseSingleStopEvent | src/services/triasService.ts:99-117 | a departure exists exactly when the line name is non-empty and the estimated or the timetabled time is non-empty; it carries the line name and the formatted estimated time, or the timetabled time when the estimated one is missing or empty |
| Trias.PresentElements | src/services/triasService.ts:90-92 | `filter(Boolean)` keeps a departure exactly when some mapped element holds it |
| Trias.KeptAscendingAndComplete | src/services/triasService.ts:90-92 | the indices of the kept elements ascend and include every element that produced a departure |
| Trias.PresentAtKept | src/services/triasService.ts:90-92 | the k-th result is the departure produced by the k-th kept element |
| Trias.PresentAppend | src/services/triasService.ts:90-92 | filtering a concatenation is the concatenation of the filtered parts |
| Trias.ParseStopEvents | src/services/triasService.ts:90-92 | an array yields at most one departure per event, each with a non-empty line |
| Trias.ParseStopEventsContents | src/services/triasService.ts:90-92 | the array case is an order-preserving filter-map: the i-th departure comes from an earlier event than the (i+1)-th, and every event that yields a departure contributes it |
| Trias.ParseStopEventsAppend | src/services/triasService.ts:90-92 | parsing an array piecewise and concatenating gives the same departures |
| Trias.ParseTriasResponse | src/services/triasService.ts:73-97 | the result fails exactly when the XML cannot be parsed, always with the single error "Failed to parse TRIAS response"; an absent result gives []; every departure has a non-empty line |
| Trias.SingleEventAsArray | src/services/triasService.ts:85-88 | a lone StopEventResult is handled exactly as a one-element array |
| Trias.CreateStopEventRequest | src/services/triasService.ts:46-70 | the request holds the token between RequestorRef tags and the station id between StopPointRef tags, both verbatim; it holds NumberOfResults 20, StopEventType departure, no previous or onward calls and real-time data; its length is the template's plus theirs |
| Trias.FillLayout | src/services/triasService.ts:51-56 | the token and the station id sit at fixed offsets of the filled template, and the closing part follows them |
| Trias.FillTags | src/services/triasService.ts:51-56 | both inserted values appear between their tags, and the closing part appears in the request |
| Trias.ClosingHasParams | src/services/triasService.ts:59-65 | each of the five parameter elements occurs in the request |
| Trias.RequestRoundTrip | src/services/triasService.ts:51-56 | the token and the station id can be read back from the request given the token's length |
| Trias.CacheHit | src/services/triasService.ts:13-22 | a live entry, including an empty list, is returned without a request and the cache is unchanged |
| Trias.CacheMiss | src/services/triasService.ts:24-39 | a miss posts the request, passes on a POST error or the parse result, and stores a successful result at the time the store runs, after the POST and the parse |
| Trias.FailureLeavesCache | src/services/triasService.ts:27-43 | a failing call passes on the POST's error or the parse error and leaves the cache unchanged |
| Trias.OtherStationsUnchanged | src/services/triasService.ts:37 | no call adds, removes or changes another station's entry |
| Trias.RepeatWithinTtl | src/services/triasService.ts:13-37 | after a stored fetch, a call for the same station within 300 seconds of the store returns the same list without a request, whatever the network would now answer |
| Trias.ExpiredEntryRefetched | src/services/triasService.ts:13-26 | once 300 seconds have passed, the entry no longer answers and the request is sent again |
| Trias.FetchKeepsCacheWellFormed | src/services/triasService.ts:34-37 | only departures with a non-empty line are ever cached or returned |
| Trias.SentRequest | src/services/triasService.ts:18-28 | a request is posted exactly on a miss, and it is `createStopEventRequest` for the station: it holds the configured token, the station id and NumberOfResults 20 |
| Trias.TriasService.constructor | src/services/triasService.ts:10-14 | a new service keeps its configuration and starts with an empty cache |
| Trias.TriasService.GetDepartures | src/services/triasService.ts:16-44 | the result, the request sent and the new cache are those `Fetch` gives for the old cache and the station's `createStopEventRequest` document, with the lookup at `now` and a fetched list stored at `storedAt` |
| App.RespondWith | src/app.ts:17-29 | the status is always 200; the body is the single "Keine Abfahrten gefunden"/"bus" frame exactly when the fetch failed or found nothing, and otherwise `formatForLametric`'s frames, of which there is at least one |
| App.HandleDeparturesRequest | src/app.ts:16-30 | the handler makes one `getDepartures` call, answers as `RespondWith` decides for its outcome, and leaves the cache as that call does |

## Left out

- The HTTP POST (axios) is the parameter `post`: a function from endpoint and body to an error or a parsed document. Headers, status handling, timeouts and retries are not modelled. A non-success status is one of the errors `post` can return.
- XML parsing (xml2js, including the `trias:`/`siri:` prefix stripping) is not modelled. Its output is the datatype `TriasDocument`:
  - a parse failure;
  - or a document whose StopEventResult value is absent, a single element, or an array.
  Each element is reduced to the three optional text leaves that `parseSingleStopEvent` reads.
- Trias.ParseSingleStopEvent: leaves that are not strings are not modelled. The parser drops attributes (`ignoreAttrs: true`, src/services/triasService.ts:77), so an element with attributes and text still arrives as its text. Two cases do arrive as non-strings, which JavaScript treats as truthy and copies into the record: an element with child elements arrives as an object, and a repeated element arrives as an array, because `explicitArray: false` (line 76) unwraps only single occurrences. A StopEventResult value that is a non-empty string is modelled as a single element with no fields.
- Time formatting (`new Date(...).toLocaleTimeString('de-DE', ...)`) is the uninterpreted parameter `formatTime`. An unreadable timestamp yields "Invalid Date" in JavaScript rather than an exception, so the catch in `parseSingleStopEvent` is not reached and is not modelled.
- The clock is two parameters, in seconds: `now`, read when the cache is looked up, and `storedAt`, read when `cache.set` runs after the awaited POST and parse. An entry answers while `now < storedAt + 300`. The time between the two readings is not constrained.
- Trias.TriasService.GetDepartures: the cache does not model these node-cache internals:
  - deleting expired entries, which is observably the same as ignoring them;
  - cloning stored values;
  - the periodic check timer.
- `async`/`await` is modelled as sequential code. Concurrent requests interleaving around the cache are not modelled.
- These parts of app.ts are not modelled: Express routing, `app.listen`, dotenv and reading `process.env` (src/app.ts:1-14 and 32-34).
- Logging through `console` is not modelled.
- LametricFormatter.GroupByLine: labels that clash with `Object.prototype` members are not modelled (for example "constructor", "__proto__" or "toString"). The model's object is a plain map over all strings.
- EcmaObject.OrdinaryOwnPropertyKeys: symbol keys are not modelled, because the grouping object never has any.
