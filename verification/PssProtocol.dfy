/** The part of the PSS wire protocol that a decision maker reads: event types,
    causes, operational modes and the DecisionRequest batch, with the bit layouts
    of the presence and input-state reports. */
module PssProtocol {

  const MAX_SUMMARY: nat := 8

  type EventCause = c: nat | c < 256

  const CAUSE_NONE: EventCause := 0
  const CAUSE_SAIM_INIT: EventCause := 1
  const CAUSE_PSS_REQUEST_SEQUENCE_GAP: EventCause := 10
  const CAUSE_PSS_REQUEST_ID_INVALID: EventCause := 11
  const CAUSE_PSS_ERROR: EventCause := 12
  const CAUSE_CLIENT_INPUT_UNUSABLE: EventCause := 13
  const CAUSE_PSS_COMM_RECOVERED: EventCause := 14
  const CAUSE_SAFETY_MONITOR_LOST: EventCause := 15
  const CAUSE_SOURCE_PRESENCE: EventCause := 16
  const CAUSE_PERCEPTION_MONITOR_LOST: EventCause := 17
  const CAUSE_MDX_CLIENT_LOST: EventCause := 18

  type Bit = b: nat | b < 32

  /** A uint32 mask, as the set of its bit positions. */
  type Mask = set<Bit>

  const PRESENCE_SAFETY_MONITOR: Mask := {0}
  const PRESENCE_PERCEPTION_MONITOR: Mask := {1}
  const PRESENCE_MDX: Mask := set b: Bit | 8 <= b < 16
  const INPUT_ANONYMOUS_CLIENT: Mask := {2}
  const INPUT_STATE: Mask := set b: Bit | b < 3 || 8 <= b < 16
  const INPUT_STATE_SHIFT: nat := 16

  /** The input-state field of a report word: (w >> 16) & INPUT_STATE. */
  function InputStateField(w: Mask): Mask {
    set b: Bit | b in INPUT_STATE && b + INPUT_STATE_SHIFT in w
  }

  /** `Generic(n)` is EVENT_n; the other constructors are the special events. */
  datatype EventType =
    | Generic(n: nat)
    | SwFail
    | UnknownEvent
    | SensorInvalid
    | SensorValid
    | AiPipelineInvalid
    | AiPipelineValid
    | StatusNoop

  datatype EventStatus = Fused | Passthrough | Stale | StatusUnknown

  datatype OperationalMode = Normal | Degraded | Error

  /** A FusedSafetyEvent, reduced to the fields a fault rule reads. The two
      object ids carry the source masks on SW_FAIL and presence reports. */
  datatype Event = Event(
    id: nat,
    eventType: EventType,
    cause: EventCause,
    status: EventStatus,
    pipelineId: nat,
    objectId0: Mask,
    objectId1: Mask)

  datatype SensorData = SensorData(isHealthy: bool, isTrustedSource: bool, event: Event)

  datatype RawDecisionRequest =
    DecisionRequest(summarySize: nat, summary: seq<SensorData>, mode: OperationalMode)

  const NO_EVENT := Event(0, Generic(0), CAUSE_NONE, Fused, 0, {}, {})

  const NO_ENTRY := SensorData(true, true, NO_EVENT)

  /** The wire struct: a one-byte count in front of a fixed array of slots. The
      count is not trusted to stay within the array. */
  type DecisionRequest = r: RawDecisionRequest | |r.summary| == MAX_SUMMARY && r.summarySize < 256
    witness DecisionRequest(0, [NO_ENTRY, NO_ENTRY, NO_ENTRY, NO_ENTRY, NO_ENTRY, NO_ENTRY, NO_ENTRY, NO_ENTRY], Normal)

  /** How many slots a reader looks at: the count, capped at the array. */
  function Count(req: DecisionRequest): (n: nat)
    ensures n <= MAX_SUMMARY
  {
    if req.summarySize > MAX_SUMMARY then MAX_SUMMARY else req.summarySize
  }

  /** A request of one entry. */
  function OneEntry(sd: SensorData): DecisionRequest {
    DecisionRequest(1, [sd, NO_ENTRY, NO_ENTRY, NO_ENTRY, NO_ENTRY, NO_ENTRY, NO_ENTRY, NO_ENTRY], Normal)
  }
}
