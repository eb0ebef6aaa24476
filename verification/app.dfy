/**
 * The HTTP handler of src/app.ts for GET /api/departures/:stationId: it asks
 * the service for the station's departures and answers, always with status
 * 200, either their LaMetric frames or a single fallback frame.
 */
module App {
  import opened Results
  import opened Types
  import opened LametricFormatter
  import opened Trias

  /** The status of every answer, the error case included. */
  const OkStatus := 200

  const FallbackText := "Keine Abfahrten gefunden"
  const FallbackIcon := "bus"

  /** The single frame shown when there is nothing to show. */
  const Fallback := LaMetricResponse([LaMetricFrame(FallbackText, FallbackIcon)])

  datatype HttpResponse = HttpResponse(status: int, body: LaMetricResponse)

  /**
   * The answer for the outcome of `getDepartures`: the fallback frame when it
   * failed or found no departures, the formatted frames otherwise. The
   * display always gets at least one frame, and the fallback can be told
   * apart from real frames by its icon.
   */
  function RespondWith(outcome: Result<seq<BusDeparture>, Error>): (r: HttpResponse)
    ensures r.status == OkStatus
    ensures |r.body.frames| >= 1
    ensures r.body == Fallback <==> outcome.Failure? || outcome.value == []
    ensures outcome.Success? && outcome.value != [] ==> r.body == Formatted(outcome.value)
  {
    if outcome.Failure? || outcome.value == [] then
      HttpResponse(OkStatus, Fallback)
    else
      var departures := outcome.value;
      FrameCount(departures);
      FrameText(departures, 0);
      HttpResponse(OkStatus, Formatted(departures))
  }

  /** The route handler: one `getDepartures` call, then the answer for its outcome. */
  method HandleDeparturesRequest(service: TriasService, stationId: string, now: int, storedAt: int,
                                 post: Post, formatTime: TimeFormatter)
    returns (response: HttpResponse)
    modifies service
    ensures var o := Fetch(service.config.endpoint, CreateStopEventRequest(service.config, stationId),
                           old(service.cache), stationId, now, storedAt, post, formatTime);
      && response == RespondWith(o.result)
      && service.cache == o.cache
  {
    var departures, _ := service.GetDepartures(stationId, now, storedAt, post, formatTime);
    if departures.Failure? || departures.value == [] {
      response := HttpResponse(OkStatus, Fallback);
    } else {
      var body := FormatForLametric(departures.value);
      response := HttpResponse(OkStatus, body);
    }
  }
}
