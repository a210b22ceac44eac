/** The entities of the ingestion server: wire models, table rows, settings. */
module Types {
  import opened Wrappers

  type Id = string

  const HEARTBEAT := "heartbeat"

  /**
   A payload, seen through the accessors the server uses on it.  `queuePending` is None when reading the
   queue depth raises (the queue is not an object, or its depth is not a number).
   */
  datatype Payload = Payload(
    percentage: Option<real>,
    charging: bool,
    connected: bool,
    locationAvailable: bool,
    magnitude: Option<real>,
    queuePending: Option<int>,
    enabledCollectors: seq<string>)

  /** One observation.  `rest` stands for the columns that are stored and never read by the modelled code. */
  datatype Event = Event(id: Id, device: Id, source: string, kind: string, time: string, size: nat, payload: Payload,
                         rest: string)

  datatype Batch = Batch(id: Id, device: Id, events: seq<Event>)

  datatype Settings = Settings(maxEventBytes: nat, maxFutureSkew: nat, retentionEnabled: bool, retentionDays: int)

  datatype Reason = DeviceMismatch | TooLarge | BadTimestamp | TooFarInFuture | ImplausiblyOld

  datatype Rejection = Rejection(id: Id, reason: Reason)

  datatype Status = Stored | Duplicate | Rejected(reason: Reason)

  datatype Entry = Entry(id: Id, status: Status)

  datatype RawRow = RawRow(event: Event, receivedAt: int, firstBatch: Id)

  datatype BeatRow = BeatRow(device: Id, time: string, queuePending: int, enabledCollectors: seq<string>)

  datatype BatchRow = BatchRow(device: Id, receivedAt: int, events: nat, stored: nat, duplicate: nat, rejected: nat,
                               replays: nat)

  /** The tables an ingest writes.  `lastSeen` holds the enrolled devices only. */
  datatype Tables = Tables(
    raw: map<Id, RawRow>,
    beats: map<Id, BeatRow>,
    batches: map<Id, BatchRow>,
    acks: map<(Id, Id), Status>,
    lastSeen: map<Id, int>)
}
