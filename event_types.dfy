/** The event types shared by the server and the viewer: the event filter
    with its default, and the fields of an event list item the model uses.
    JavaScript numbers are reals. */
module EventTypes {
  import opened Wrappers

  /** A date or energy filter: `enabled`, `lte`, `gte`. */
  datatype RangeFilter = RangeFilter(enabled: bool, lte: real, gte: real)

  /** The state filter: `enabled` and one flag per processing state, the
      flag of state `k` at index `k`. */
  datatype StateFilter = StateFilter(enabled: bool, flags: seq<bool>)

  datatype EventFilter = EventFilter(approxTriggerTime: RangeFilter, approxEnergyJ: RangeFilter,
                                     stateFilter: StateFilter, unviewed: bool)

  /** The processing states, in enum order. */
  datatype ProcessingState = New | Waiting | Processing | Failed | ParameterEstimation | UserAnalysis
                           | Accepted | Deferred | Rejected | NoSolution | NoData

  /** The number of a state: its place in the enum. */
  function StateNumber(s: ProcessingState): (n: nat)
    ensures n < ProcessingStateCount
  {
    match s
    case New => 0
    case Waiting => 1
    case Processing => 2
    case Failed => 3
    case ParameterEstimation => 4
    case UserAnalysis => 5
    case Accepted => 6
    case Deferred => 7
    case Rejected => 8
    case NoSolution => 9
    case NoData => 10
  }

  /** The number of the processing states. */
  const ProcessingStateCount: nat := 11

  /** `Number.MAX_SAFE_INTEGER`. */
  const MaxSafeInteger: real := 9007199254740991.0

  /** `defaultFilter`: nothing enabled, the widest ranges, every state flag
      false. */
  const DefaultFilter: EventFilter := EventFilter(
    RangeFilter(false, MaxSafeInteger, -MaxSafeInteger),
    RangeFilter(false, MaxSafeInteger, -MaxSafeInteger),
    StateFilter(false, seq(ProcessingStateCount, _ => false)),
    false)

  /** An event list item: its id, its parent, its trigger time, its
      processing state number, whether a user viewed it, and its energy. */
  datatype EventListItem = EventListItem(eventId: string, parentId: Option<string>, approxTriggerTime: real,
                                         processingState: int, userViewed: bool, approxEnergyJ: Option<real>)
}
