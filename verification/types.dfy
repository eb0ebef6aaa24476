/** The record shapes declared in src/types/types.ts. */
module Types {

  /** One departure as the parser produces it: a line label and a display time. */
  datatype BusDeparture = BusDeparture(line: string, time: string)

  /** One line of text on the display, with its icon identifier. */
  datatype LaMetricFrame = LaMetricFrame(text: string, icon: string)

  /** The JSON payload the display device consumes. */
  datatype LaMetricResponse = LaMetricResponse(frames: seq<LaMetricFrame>)

  /** Upstream endpoint and requestor token, fixed for the process lifetime. */
  datatype TriasConfig = TriasConfig(endpoint: string, token: string)
}
