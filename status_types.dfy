/** The service status record the server sends and the viewer keeps, and
    the level markers its log lines carry. */
module StatusTypes {
  import opened Text

  /** A `MicroserviceStatus`; the time stamps are JavaScript millisecond
      numbers. */
  datatype MicroserviceStatus = MicroserviceStatus(
    name: string,
    status: seq<string>,
    logs: seq<string>,
    lastUpdateTimeStamp: real,
    receivedLastResponse: bool,
    viewedTimeStamp: real)

  /** The levels a log line names. */
  datatype Level = Debug | Info | Warning | Error

  /** How a log line names its level. */
  function Marker(l: Level): string {
    match l
    case Debug => "(debug)"
    case Info => "(info)"
    case Warning => "(warning)"
    case Error => "(error)"
  }

  /** `line.includes(marker)`. */
  predicate Mentions(line: string, l: Level) {
    Contains(line, Marker(l))
  }
}
