/**
 * The TRIAS client of src/services/triasService.ts: it builds the
 * StopEventRequest document, turns the parsed StopEventResponse into bus
 * departures, and keeps each station's departures in a cache for 300 seconds.
 *
 * The XML parser's output is modelled by `TriasDocument`, the HTTP POST by a
 * function parameter `post`, the clock by an explicit `now` in seconds, and
 * the locale time formatting by a function parameter `formatTime`.
 */
module Trias {
  import opened Results
  import opened Types

  // ---------------------------------------------------------------------
  // The parsed response
  // ---------------------------------------------------------------------

  /** Turns a TRIAS timestamp into the text shown on the display ("HH:MM"). */
  type TimeFormatter = string -> string

  /**
   * One StopEventResult element as the XML parser delivers it: each field is
   * the text found at its path, or None where the path breaks off.
   *   publishedLineName: StopEvent/Service/ServiceSection/PublishedLineName/Text
   *   estimatedTime:     StopEvent/ThisCall/CallAtStop/ServiceDeparture/EstimatedTime
   *   timetabledTime:    StopEvent/ThisCall/CallAtStop/ServiceDeparture/TimetabledTime
   */
  datatype StopEventResult = StopEventResult(
    publishedLineName: Option<string>,
    estimatedTime: Option<string>,
    timetabledTime: Option<string>)

  /**
   * The value at Trias/ServiceDelivery/DeliveryPayload/StopEventResponse/StopEventResult:
   * nothing (or a falsy value), one element (the parser does not wrap a lone
   * element in an array), or an array of elements.
   */
  datatype StopEventResults =
    | Absent
    | Single(event: StopEventResult)
    | Many(events: seq<StopEventResult>)

  /** The outcome of parsing the response body: a parse error, or a document. */
  datatype TriasDocument =
    | NotWellFormed
    | Document(stopEventResults: StopEventResults)

  datatype Error = Error(message: string)

  /** The message of the error every parsing failure is turned into. */
  const ParseFailureMessage := "Failed to parse TRIAS response"

  /** JavaScript truthiness of an optional string: present and not "". */
  predicate Truthy(o: Option<string>) {
    o.Some? && o.value != ""
  }

  /** JavaScript `a || b` on optional strings. */
  function Or(a: Option<string>, b: Option<string>): Option<string> {
    if Truthy(a) then a else b
  }

  /**
   * `parseSingleStopEvent`: a departure exists exactly when the line name is
   * truthy and the estimated or the timetabled time is; the estimated time
   * wins when it is truthy.
   */
  function ParseSingleStopEvent(event: StopEventResult, formatTime: TimeFormatter): (r: Option<BusDeparture>)
    ensures r.Some? <==>
      Truthy(event.publishedLineName) && (Truthy(event.estimatedTime) || Truthy(event.timetabledTime))
    ensures r.Some? ==> r.value.line == event.publishedLineName.value && r.value.line != ""
    ensures r.Some? && Truthy(event.estimatedTime) ==> r.value.time == formatTime(event.estimatedTime.value)
    ensures r.Some? && !Truthy(event.estimatedTime) ==> r.value.time == formatTime(event.timetabledTime.value)
  {
    var serviceInfo := event.publishedLineName;
    var time := Or(event.estimatedTime, event.timetabledTime);
    if !Truthy(serviceInfo) || !Truthy(time) then None
    else Some(BusDeparture(serviceInfo.value, formatTime(time.value)))
  }

  /** `.filter(Boolean)`: the departures that were produced, in order. */
  function Present(parsed: seq<Option<BusDeparture>>): (r: seq<BusDeparture>)
    ensures |r| <= |parsed|
  {
    if parsed == [] then []
    else
      var n := |parsed| - 1;
      Present(parsed[..n]) + Produced(parsed[n])
  }

  /** The filter keeps a departure exactly when some element holds it. */
  lemma {:induction false} PresentElements(parsed: seq<Option<BusDeparture>>)
    ensures forall d :: d in Present(parsed) <==> Some(d) in parsed
  {
    if parsed != [] {
      var n := |parsed| - 1;
      PresentElements(parsed[..n]);
      assert parsed == parsed[..n] + [parsed[n]];
    }
  }

  /** What `filter(Boolean)` keeps of one parsed element. */
  function Produced(o: Option<BusDeparture>): seq<BusDeparture> {
    if o.Some? then [o.value] else []
  }

  /** The indices of the produced departures, ascending. */
  function Kept(parsed: seq<Option<BusDeparture>>): (ks: seq<nat>)
    ensures forall k | 0 <= k < |ks| :: ks[k] < |parsed| && parsed[ks[k]].Some?
  {
    if parsed == [] then []
    else
      var n := |parsed| - 1;
      var prefix := parsed[..n];
      assert forall i | 0 <= i < n :: prefix[i] == parsed[i];
      Kept(prefix) + (if parsed[n].Some? then [n] else [])
  }

  /** The kept indices ascend, and every index whose element is present is kept. */
  lemma {:induction false} KeptAscendingAndComplete(parsed: seq<Option<BusDeparture>>)
    ensures var ks := Kept(parsed);
      && (forall k, m | 0 <= k < m < |ks| :: ks[k] < ks[m])
      && (forall i | 0 <= i < |parsed| && parsed[i].Some? :: i in ks)
  {
    if parsed != [] {
      var n := |parsed| - 1;
      var prefix := parsed[..n];
      KeptAscendingAndComplete(prefix);
      var kept := Kept(prefix);
      assert Kept(parsed) == kept + (if parsed[n].Some? then [n] else []);
      forall i | 0 <= i < n && parsed[i].Some?
        ensures i in kept
      {
        assert prefix[i] == parsed[i];
      }
    }
  }

  /** The filter keeps exactly the produced departures, in their original order. */
  lemma {:induction false} PresentAtKept(parsed: seq<Option<BusDeparture>>)
    ensures |Present(parsed)| == |Kept(parsed)|
    ensures forall k | 0 <= k < |Present(parsed)| :: Present(parsed)[k] == parsed[Kept(parsed)[k]].value
  {
    if parsed != [] {
      var n := |parsed| - 1;
      var prefix := parsed[..n];
      PresentAtKept(prefix);
      var present, kept := Present(prefix), Kept(prefix);
      if parsed[n].Some? {
        assert Present(parsed) == present + [parsed[n].value];
        assert Kept(parsed) == kept + [n];
        forall k | 0 <= k < |present|
          ensures Present(parsed)[k] == parsed[Kept(parsed)[k]].value
        {
          assert prefix[kept[k]] == parsed[kept[k]];
        }
      } else {
        assert Present(parsed) == present && Kept(parsed) == kept;
        forall k | 0 <= k < |present|
          ensures Present(parsed)[k] == parsed[Kept(parsed)[k]].value
        {
          assert prefix[kept[k]] == parsed[kept[k]];
        }
      }
    }
  }

  lemma {:induction false} PresentAppend(a: seq<Option<BusDeparture>>, b: seq<Option<BusDeparture>>)
    ensures Present(a + b) == Present(a) + Present(b)
  {
    if b == [] {
      assert a + b == a;
    } else {
      var n := |b| - 1;
      var front := b[..n];
      var ab := a + b;
      assert ab[..|ab| - 1] == a + front;
      assert ab[|ab| - 1] == b[n];
      assert Present(ab) == Present(a + front) + Produced(b[n]);
      PresentAppend(a, front);
      assert Present(b) == Present(front) + Produced(b[n]);
    }
  }

  /** `events.map(parseSingleStopEvent)`. */
  function ParsedEach(events: seq<StopEventResult>, formatTime: TimeFormatter): (parsed: seq<Option<BusDeparture>>)
    ensures |parsed| == |events|
  {
    seq(|events|, i requires 0 <= i < |events| => ParseSingleStopEvent(events[i], formatTime))
  }

  /** `events.map(parseSingleStopEvent).filter(Boolean)`. */
  function ParseStopEvents(events: seq<StopEventResult>, formatTime: TimeFormatter): (r: seq<BusDeparture>)
    ensures |r| <= |events|
    ensures forall d | d in r :: d.line != ""
  {
    PresentElements(ParsedEach(events, formatTime));
    Present(ParsedEach(events, formatTime))
  }

  /**
   * The array case is an order-preserving filter-map: the result lists, in
   * input order, the departure of every event that yields one, and nothing else.
   */
  lemma {:induction false} ParseStopEventsContents(events: seq<StopEventResult>, formatTime: TimeFormatter)
    ensures var r, ks := ParseStopEvents(events, formatTime), Kept(ParsedEach(events, formatTime));
      && |r| == |ks|
      && (forall k, m | 0 <= k < m < |ks| :: ks[k] < ks[m])
      && (forall k | 0 <= k < |ks| :: ks[k] < |events| && Some(r[k]) == ParseSingleStopEvent(events[ks[k]], formatTime))
      && (forall i | 0 <= i < |events| && ParseSingleStopEvent(events[i], formatTime).Some? :: i in ks)
  {
    PresentAtKept(ParsedEach(events, formatTime));
    KeptAscendingAndComplete(ParsedEach(events, formatTime));
  }

  /** Parsing an array piecewise and concatenating gives the same departures. */
  lemma {:induction false} ParseStopEventsAppend(a: seq<StopEventResult>, b: seq<StopEventResult>, formatTime: TimeFormatter)
    ensures ParseStopEvents(a + b, formatTime) == ParseStopEvents(a, formatTime) + ParseStopEvents(b, formatTime)
  {
    assert ParsedEach(a + b, formatTime) == ParsedEach(a, formatTime) + ParsedEach(b, formatTime);
    PresentAppend(ParsedEach(a, formatTime), ParsedEach(b, formatTime));
  }

  /**
   * `parseTriasResponse`: a document that cannot be parsed fails with the
   * fixed message; a missing StopEventResult gives no departures; a single
   * element is wrapped in a one-element array; an array is filter-mapped.
   */
  function ParseTriasResponse(doc: TriasDocument, formatTime: TimeFormatter): (r: Result<seq<BusDeparture>, Error>)
    ensures r.Failure? <==> doc.NotWellFormed?
    ensures r.Failure? ==> r.error == Error(ParseFailureMessage)
    ensures doc == Document(Absent) ==> r == Success([])
    ensures r.Success? ==> forall d | d in r.value :: d.line != ""
  {
    match doc
    case NotWellFormed => Failure(Error(ParseFailureMessage))
    case Document(Absent) => Success(ParseStopEvents([], formatTime))
    case Document(Single(event)) =>
      PresentElements([ParseSingleStopEvent(event, formatTime)]);
      var wrapped := Present([ParseSingleStopEvent(event, formatTime)]);
      Success(wrapped)
    case Document(Many(events)) => Success(ParseStopEvents(events, formatTime))
  }

  /** A lone StopEventResult is handled exactly as an array holding only it. */
  lemma {:induction false} SingleEventAsArray(event: StopEventResult, formatTime: TimeFormatter)
    ensures ParseTriasResponse(Document(Single(event)), formatTime)
      == ParseTriasResponse(Document(Many([event])), formatTime)
    ensures ParseTriasResponse(Document(Single(event)), formatTime).value
      == (match ParseSingleStopEvent(event, formatTime) case Some(d) => [d] case None => [])
  {
  }

  // ---------------------------------------------------------------------
  // The request document
  // ---------------------------------------------------------------------

  const Prologue := "\n      <?xml version=\"1.0\" encoding=\"UTF-8\"?>\n    <Trias version=\"1.2\" xmlns=\"http://www.vdv.de/trias\" xmlns:siri=\"http://www.siri.org.uk/siri\">\n    <ServiceRequest>\n        "
  const RequestorRefOpen := "<siri:RequestorRef>"
  const RequestorRefClose := "</siri:RequestorRef>"
  const PayloadOpen := "\n        <RequestPayload>\n        <StopEventRequest>\n            <Location>\n            <LocationRef>\n                "
  const StopPointRefOpen := "<StopPointRef>"
  const StopPointRefClose := "</StopPointRef>"
  const ParamsOpen := "\n            </LocationRef>\n            </Location>\n            <Params>\n            "
  const ParamSeparator := "\n            "
  const NumberOfResultsParam := "<NumberOfResults>20</NumberOfResults>"
  const StopEventTypeParam := "<StopEventType>departure</StopEventType>"
  const PreviousCallsParam := "<IncludePreviousCalls>false</IncludePreviousCalls>"
  const OnwardCallsParam := "<IncludeOnwardCalls>false</IncludeOnwardCalls>"
  const RealtimeDataParam := "<IncludeRealtimeData>true</IncludeRealtimeData>"
  const Epilogue := "\n            </Params>\n        </StopEventRequest>\n        </RequestPayload>\n    </ServiceRequest>\n    </Trias>\n    "

  /** The five request parameters, one per line. */
  const Params := Lines5(ParamSeparator, NumberOfResultsParam, StopEventTypeParam,
    PreviousCallsParam, OnwardCallsParam, RealtimeDataParam)

  /** The parameter block and the closing tags. */
  const RequestClosing := ParamsOpen + Params + Epilogue

  /** A request document with two holes: one for the token, one for the station id. */
  datatype RequestTemplate = RequestTemplate(head: string, middle: string, tail: string)

  /** The StopEventRequest document of `createStopEventRequest`. */
  const StopEventTemplate := RequestTemplate(
    Prologue + RequestorRefOpen,
    RequestorRefClose + PayloadOpen + StopPointRefOpen,
    StopPointRefClose + RequestClosing)

  /** The template with the token and the station id inserted verbatim. */
  function Fill(template: RequestTemplate, token: string, stationId: string): string {
    template.head + token + template.middle + stationId + template.tail
  }

  /** The length of a filled template without token and station id. */
  function FixedLength(template: RequestTemplate): nat {
    |template.head| + |template.middle| + |template.tail|
  }

  /** Five lines joined by a separator. */
  function Lines5(sep: string, a: string, b: string, c: string, d: string, e: string): string {
    a + sep + b + sep + c + sep + d + sep + e
  }

  predicate OccursAt(s: string, sub: string, i: nat) {
    i + |sub| <= |s| && s[i..i + |sub|] == sub
  }

  predicate Contains(s: string, sub: string) {
    exists i: nat | i <= |s| :: OccursAt(s, sub, i)
  }

  lemma {:induction false} ContainsInfix(p: string, sub: string, q: string)
    ensures Contains(p + sub + q, sub)
  {
    assert (p + sub + q)[|p|..|p| + |sub|] == sub;
    assert OccursAt(p + sub + q, sub, |p|);
  }

  lemma {:induction false} ContainsTransitive(s: string, t: string, u: string)
    requires Contains(s, t) && Contains(t, u)
    ensures Contains(s, u)
  {
    var i: nat :| i <= |s| && OccursAt(s, t, i);
    var j: nat :| j <= |t| && OccursAt(t, u, j);
    forall k | 0 <= k < |u|
      ensures s[i + j..i + j + |u|][k] == u[k]
    {
      assert u[k] == t[j..j + |u|][k] == t[j + k];
      assert t[j + k] == s[i..i + |t|][j + k] == s[i + j + k];
    }
    assert s[i + j..i + j + |u|] == u;
    assert OccursAt(s, u, i + j);
  }

  lemma {:induction false} ContainsEnds(p: string, q: string)
    ensures Contains(p + q, p) && Contains(p + q, q)
  {
    assert (p + q)[..|p|] == p;
    assert OccursAt(p + q, p, 0);
    assert (p + q)[|p|..|p| + |q|] == q;
    assert OccursAt(p + q, q, |p|);
  }

  /** Each of five joined lines occurs in the joined text. */
  lemma {:induction false} Lines5Contains(sep: string, a: string, b: string, c: string, d: string, e: string)
    ensures var s := Lines5(sep, a, b, c, d, e);
      Contains(s, a) && Contains(s, b) && Contains(s, c) && Contains(s, d) && Contains(s, e)
  {
    var p1 := a + sep;
    var p2 := p1 + b;
    var p3 := p2 + sep;
    var p4 := p3 + c;
    var p5 := p4 + sep;
    var p6 := p5 + d;
    var p7 := p6 + sep;
    var s := p7 + e;
    ContainsEnds(p7, e);
    ContainsEnds(p6, sep);
    ContainsTransitive(s, p7, p6);
    ContainsEnds(p5, d);
    ContainsTransitive(s, p6, d);
    ContainsTransitive(s, p6, p5);
    ContainsEnds(p4, sep);
    ContainsTransitive(s, p5, p4);
    ContainsEnds(p3, c);
    ContainsTransitive(s, p4, c);
    ContainsTransitive(s, p4, p3);
    ContainsEnds(p2, sep);
    ContainsTransitive(s, p3, p2);
    ContainsEnds(p1, b);
    ContainsTransitive(s, p2, b);
    ContainsTransitive(s, p2, p1);
    ContainsEnds(a, sep);
    ContainsTransitive(s, p1, a);
  }

  /** Where the pieces of a filled template sit. */
  lemma {:induction false} FillLayout(template: RequestTemplate, token: string, stationId: string)
    ensures var r := Fill(template, token, stationId);
      && |r| == FixedLength(template) + |token| + |stationId|
      && r[|template.head|..|template.head| + |token|] == token
      && r[|template.head| + |token| + |template.middle|..|r| - |template.tail|] == stationId
      && Contains(r, template.tail)
  {
    var r := Fill(template, token, stationId);
    ContainsInfix(template.head + token + template.middle + stationId, template.tail, []);
    assert r == r + [];
  }

  /** The token between its tags occurs in the text up to the end of the middle part. */
  lemma {:induction false} TokenTagged(pre: string, open1: string, token: string, close1: string, mid: string,
                                       open2: string)
    ensures Contains(pre + open1 + token + (close1 + mid + open2), open1 + token + close1)
  {
    var r := pre + open1 + token + (close1 + mid + open2);
    assert r == pre + (open1 + token + close1) + (mid + open2);
    ContainsInfix(pre, open1 + token + close1, mid + open2);
  }

  /** The station id between its tags occurs in the text from the middle part on. */
  lemma {:induction false} StationTagged(before: string, open2: string, stationId: string, close2: string,
                                         post: string)
    ensures Contains(before + open2 + stationId + (close2 + post), open2 + stationId + close2)
  {
    var r := before + open2 + stationId + (close2 + post);
    assert r == before + (open2 + stationId + close2) + post;
    ContainsInfix(before, open2 + stationId + close2, post);
  }

  /** Both tag pairs and the closing part occur in the filled template. */
  lemma {:induction false} FillTags(pre: string, open1: string, token: string, close1: string, mid: string,
                                    open2: string, stationId: string, close2: string, post: string)
    ensures var r := Fill(RequestTemplate(pre + open1, close1 + mid + open2, close2 + post), token, stationId);
      Contains(r, open1 + token + close1) && Contains(r, open2 + stationId + close2) && Contains(r, post)
  {
    var middle, tail := close1 + mid + open2, close2 + post;
    var y := pre + open1 + token + middle;
    var r := y + stationId + tail;
    assert Fill(RequestTemplate(pre + open1, middle, tail), token, stationId) == r;
    ContainsEnds(y + stationId, tail);
    ContainsEnds(y, stationId);
    ContainsTransitive(r, y + stationId, y);
    TokenTagged(pre, open1, token, close1, mid, open2);
    ContainsTransitive(r, y, open1 + token + close1);
    assert r == (pre + open1 + token + close1 + mid) + open2 + stationId + (close2 + post);
    StationTagged(pre + open1 + token + close1 + mid, open2, stationId, close2, post);
    ContainsEnds(close2, post);
    ContainsTransitive(r, tail, post);
  }

  /** Each parameter line occurs in a text that contains the closing part of the template. */
  lemma {:induction false} ClosingHasParams(r: string)
    requires Contains(r, RequestClosing)
    ensures Contains(r, NumberOfResultsParam) && Contains(r, StopEventTypeParam)
    ensures Contains(r, PreviousCallsParam) && Contains(r, OnwardCallsParam) && Contains(r, RealtimeDataParam)
  {
    ContainsInfix(ParamsOpen, Params, Epilogue);
    ContainsTransitive(r, RequestClosing, Params);
    Lines5Contains(ParamSeparator, NumberOfResultsParam, StopEventTypeParam,
      PreviousCallsParam, OnwardCallsParam, RealtimeDataParam);
    ContainsTransitive(r, Params, NumberOfResultsParam);
    ContainsTransitive(r, Params, StopEventTypeParam);
    ContainsTransitive(r, Params, PreviousCallsParam);
    ContainsTransitive(r, Params, OnwardCallsParam);
    ContainsTransitive(r, Params, RealtimeDataParam);
  }

  /**
   * `createStopEventRequest`: the token and the station id are inserted
   * verbatim (no escaping) between the RequestorRef and the StopPointRef
   * tags of the fixed template, which asks for 20 departures with real-time
   * data and no previous or onward calls.
   */
  function CreateStopEventRequest(config: TriasConfig, stationId: string): (r: string)
    ensures |r| == FixedLength(StopEventTemplate) + |config.token| + |stationId|
    ensures Contains(r, RequestorRefOpen + config.token + RequestorRefClose)
    ensures Contains(r, StopPointRefOpen + stationId + StopPointRefClose)
    ensures Contains(r, NumberOfResultsParam) && Contains(r, StopEventTypeParam)
    ensures Contains(r, PreviousCallsParam) && Contains(r, OnwardCallsParam) && Contains(r, RealtimeDataParam)
  {
    FillLayout(StopEventTemplate, config.token, stationId);
    FillTags(Prologue, RequestorRefOpen, config.token, RequestorRefClose, PayloadOpen,
      StopPointRefOpen, stationId, StopPointRefClose, RequestClosing);
    ClosingHasParams(Fill(StopEventTemplate, config.token, stationId));
    Fill(StopEventTemplate, config.token, stationId)
  }

  /** Reads the token and the station id back out of a filled template, given the token's length. */
  function RequestFields(template: RequestTemplate, request: string, tokenLength: nat): (string, string)
    requires |request| >= FixedLength(template) + tokenLength
  {
    var stationStart := |template.head| + tokenLength + |template.middle|;
    (request[|template.head|..|template.head| + tokenLength], request[stationStart..|request| - |template.tail|])
  }

  /** A filled template determines the token and the station id it was filled with. */
  lemma {:induction false} RequestRoundTrip(template: RequestTemplate, token: string, stationId: string)
    ensures var r := Fill(template, token, stationId);
      |r| >= FixedLength(template) + |token| && RequestFields(template, r, |token|) == (token, stationId)
  {
    FillLayout(template, token, stationId);
  }

  // ---------------------------------------------------------------------
  // The cache
  // ---------------------------------------------------------------------

  /** The cache's standard time to live, in seconds. */
  const StdTtl := 300

  /** A cached departure list and the time (in seconds) it was stored. */
  datatype CacheEntry = CacheEntry(departures: seq<BusDeparture>, storedAt: int)

  predicate Live(entry: CacheEntry, now: int) {
    now < entry.storedAt + StdTtl
  }

  /** `cache.get(stationId)`: the stored list if the entry has not expired. */
  function Lookup(cache: map<string, CacheEntry>, stationId: string, now: int): Option<seq<BusDeparture>> {
    if stationId in cache && Live(cache[stationId], now) then Some(cache[stationId].departures) else None
  }

  /** What the HTTP POST of the request body to the endpoint gives: an error, or the parsed body. */
  datatype PostOutcome =
    | PostFailed(error: Error)
    | PostSucceeded(data: TriasDocument)

  /** The POST to the TRIAS endpoint: (endpoint, body) to outcome. */
  type Post = (string, string) -> PostOutcome

  /** The result of one `getDepartures` call, the cache after it, and the request it sent, if any. */
  datatype FetchOutcome = FetchOutcome(
    result: Result<seq<BusDeparture>, Error>,
    cache: map<string, CacheEntry>,
    request: Option<string>)

  /**
   * `getDepartures` for a station whose request document is `request`. The
   * cache is read at time `now`: a live entry is returned without a request
   * (an empty array is truthy, so an empty cached list is a hit too).
   * Otherwise the request is posted to `endpoint` and the answer parsed; a
   * success is stored at `storedAt`, the clock reading once the awaited POST
   * and parse are done, and any error is passed on with the cache untouched.
   */
  function Fetch(endpoint: string, request: string, cache: map<string, CacheEntry>, stationId: string,
                 now: int, storedAt: int, post: Post, formatTime: TimeFormatter): FetchOutcome
  {
    match Lookup(cache, stationId, now)
    case Some(cached) => FetchOutcome(Success(cached), cache, None)
    case None =>
      var result := match post(endpoint, request)
        case PostFailed(error) => Failure(error)
        case PostSucceeded(data) => ParseTriasResponse(data, formatTime);
      var cache' := if result.Success? then cache[stationId := CacheEntry(result.value, storedAt)] else cache;
      FetchOutcome(result, cache', Some(request))
  }

  /** Every cached departure has a non-empty line name. */
  ghost predicate CacheWellFormed(cache: map<string, CacheEntry>) {
    forall id | id in cache :: forall d | d in cache[id].departures :: d.line != ""
  }

  /** A hit returns the stored list, sends nothing and leaves the cache as it is; an empty list is a hit. */
  lemma {:induction false} CacheHit(endpoint: string, request: string, cache: map<string, CacheEntry>,
                                    stationId: string, now: int, storedAt: int, post: Post,
                                    formatTime: TimeFormatter)
    requires stationId in cache && Live(cache[stationId], now)
    ensures var o := Fetch(endpoint, request, cache, stationId, now, storedAt, post, formatTime);
      && o.result == Success(cache[stationId].departures)
      && o.cache == cache
      && o.request == None
  {
  }

  /** A miss posts the request, passes on the answer, and stores a successful result at `storedAt`. */
  lemma {:induction false} CacheMiss(endpoint: string, request: string, cache: map<string, CacheEntry>,
                                     stationId: string, now: int, storedAt: int, post: Post,
                                     formatTime: TimeFormatter)
    requires stationId !in cache || !Live(cache[stationId], now)
    ensures var o := Fetch(endpoint, request, cache, stationId, now, storedAt, post, formatTime);
      && o.request == Some(request)
      && (post(endpoint, request).PostFailed? ==> o.result == Failure(post(endpoint, request).error))
      && (post(endpoint, request).PostSucceeded? ==>
            o.result == ParseTriasResponse(post(endpoint, request).data, formatTime))
      && (o.result.Success? ==> o.cache == cache[stationId := CacheEntry(o.result.value, storedAt)])
  {
  }

  /** A failed call passes on the POST's error or the parse error, and leaves the cache as it is. */
  lemma {:induction false} FailureLeavesCache(endpoint: string, request: string, cache: map<string, CacheEntry>,
                                              stationId: string, now: int, storedAt: int, post: Post,
                                              formatTime: TimeFormatter)
    requires Fetch(endpoint, request, cache, stationId, now, storedAt, post, formatTime).result.Failure?
    ensures var o := Fetch(endpoint, request, cache, stationId, now, storedAt, post, formatTime);
      && o.cache == cache
      && o.request == Some(request)
      && (post(endpoint, request) == PostFailed(o.result.error) || o.result.error == Error(ParseFailureMessage))
  {
  }

  /** Entries of other stations are never touched. */
  lemma {:induction false} OtherStationsUnchanged(endpoint: string, request: string, cache: map<string, CacheEntry>,
                                                  stationId: string, now: int, storedAt: int, post: Post,
                                                  formatTime: TimeFormatter,
                                                  other: string)
    requires other != stationId
    ensures var o := Fetch(endpoint, request, cache, stationId, now, storedAt, post, formatTime);
      && (other in o.cache <==> other in cache)
      && (other in cache ==> o.cache[other] == cache[other])
  {
  }

  /**
   * After a fetched list is stored, a call for the same station within the
   * 300 seconds that follow the store (not the lookup) is served from the
   * cache: no request, the same list, whatever the network would now answer.
   */
  lemma {:induction false} RepeatWithinTtl(endpoint: string, request: string, cache: map<string, CacheEntry>,
                                           stationId: string, now: int, storedAt: int, later: int, storedAt': int,
                                           post: Post, post': Post, formatTime: TimeFormatter)
    requires Fetch(endpoint, request, cache, stationId, now, storedAt, post, formatTime).request.Some?
    requires Fetch(endpoint, request, cache, stationId, now, storedAt, post, formatTime).result.Success?
    requires storedAt <= later < storedAt + StdTtl
    ensures var first := Fetch(endpoint, request, cache, stationId, now, storedAt, post, formatTime);
      Fetch(endpoint, request, first.cache, stationId, later, storedAt', post', formatTime)
        == FetchOutcome(first.result, first.cache, None)
  {
  }

  /** Once the time to live has passed, the entry no longer answers and the request is sent again. */
  lemma {:induction false} ExpiredEntryRefetched(endpoint: string, request: string, cache: map<string, CacheEntry>,
                                                 stationId: string, now: int, storedAt: int, post: Post,
                                                 formatTime: TimeFormatter)
    requires stationId in cache && now >= cache[stationId].storedAt + StdTtl
    ensures Fetch(endpoint, request, cache, stationId, now, storedAt, post, formatTime).request == Some(request)
  {
  }

  /** Only departures with a line name ever enter the cache, and a call returns only such departures. */
  lemma {:induction false} FetchKeepsCacheWellFormed(endpoint: string, request: string, cache: map<string, CacheEntry>,
                                                     stationId: string, now: int, storedAt: int, post: Post,
                                                     formatTime: TimeFormatter)
    requires CacheWellFormed(cache)
    ensures var o := Fetch(endpoint, request, cache, stationId, now, storedAt, post, formatTime);
      && CacheWellFormed(o.cache)
      && (o.result.Success? ==> forall d | d in o.result.value :: d.line != "")
  {
  }

  /**
   * The request `getDepartures` posts on a miss is `createStopEventRequest`
   * for the station: it names the configured token and the station id and
   * asks for 20 departures.
   */
  lemma {:induction false} SentRequest(config: TriasConfig, cache: map<string, CacheEntry>, stationId: string,
                                       now: int, storedAt: int, post: Post, formatTime: TimeFormatter)
    ensures var o := Fetch(config.endpoint, CreateStopEventRequest(config, stationId), cache, stationId, now,
                           storedAt, post, formatTime);
      && (o.request.Some? <==> stationId !in cache || !Live(cache[stationId], now))
      && (o.request.Some? ==>
            && o.request.value == CreateStopEventRequest(config, stationId)
            && Contains(o.request.value, RequestorRefOpen + config.token + RequestorRefClose)
            && Contains(o.request.value, StopPointRefOpen + stationId + StopPointRefClose)
            && Contains(o.request.value, NumberOfResultsParam))
  {
  }

  /** The service object: its configuration and the station cache it updates. */
  class TriasService {
    const config: TriasConfig
    var cache: map<string, CacheEntry>

    /** A new service keeps its configuration and starts with an empty cache. */
    constructor(config: TriasConfig)
      ensures this.config == config
      ensures cache == map[]
    {
      this.config := config;
      cache := map[];
    }

    /**
     * `getDepartures`: returns the departures (or the error) and the request
     * it posted, if any, and updates the cache as `Fetch` describes for the
     * station's request document. The cache is read at `now`; `storedAt` is
     * the clock reading when a fetched list is stored, after the POST.
     */
    method GetDepartures(stationId: string, now: int, storedAt: int, post: Post, formatTime: TimeFormatter)
      returns (departures: Result<seq<BusDeparture>, Error>, request: Option<string>)
      modifies this
      ensures FetchOutcome(departures, cache, request)
        == Fetch(config.endpoint, CreateStopEventRequest(config, stationId), old(cache), stationId, now,
                 storedAt, post, formatTime)
    {
      var cached := Lookup(cache, stationId, now);
      if cached.Some? {
        return Success(cached.value), None;
      }
      var requestXml := CreateStopEventRequest(config, stationId);
      request := Some(requestXml);
      var response := post(config.endpoint, requestXml);
      if response.PostFailed? {
        departures := Failure(response.error);
        return;
      }
      departures := ParseTriasResponse(response.data, formatTime);
      if departures.Success? {
        cache := cache[stationId := CacheEntry(departures.value, storedAt)];
      }
    }
  }
}
