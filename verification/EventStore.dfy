/** The event bus as its adapter presents it: one atomic operation per call. */
module EventStore {
  import opened Wrappers
  import opened Trace

  /** One row of the events table. `claimed` stands for a claim that has not gone stale:
      a claim older than the timeout is as good as none. */
  datatype Row = Row(event: Event, processed: bool, claimed: bool, retries: nat)

  /** The events table and the retry count of each row of dead_letter_events. */
  datatype Store = Store(rows: map<EventId, Row>, dlq: map<EventId, nat>)

  datatype StoreError = MissingTraceField | OrphanEvent | NotFound | Unavailable

  /** How one call ended: carried out and confirmed, carried out with the reply lost,
      or not carried out. The caller sees an error in the last two cases. */
  datatype Ack = Done | Lost | Failed

  /** Why InsertEvent refuses an event. A row that exists already is left alone before the
      foreign key is looked at, and a row may name itself as its cause. */
  function Refusal(s: Store, e: Event): Option<StoreError> {
    if e.trace.traceId == "" || e.trace.correlationId == "" || e.trace.versionId == "" then
      Some(MissingTraceField)
    else if e.id in s.rows || e.trace.causationId.None? then None
    else if e.trace.causationId.value in s.rows || e.trace.causationId.value == e.id then None
    else Some(OrphanEvent)
  }

  function Inserted(s: Store, e: Event): Store {
    if e.id in s.rows then s
    else s.(rows := s.rows[e.id := Row(e, false, false, 0)])
  }

  predicate Claimable(s: Store, id: EventId) {
    id in s.rows && !s.rows[id].processed && !s.rows[id].claimed
  }

  function Claimed(s: Store, id: EventId): Store
    requires id in s.rows
  {
    s.(rows := s.rows[id := s.rows[id].(claimed := true)])
  }

  function MarkedProcessed(s: Store, id: EventId): Store {
    if id !in s.rows then s
    else s.(rows := s.rows[id := s.rows[id].(processed := true, claimed := false)])
  }

  /** Clears the claim of whoever holds it, unless the row is processed. */
  function Released(s: Store, id: EventId): Store {
    if id !in s.rows || s.rows[id].processed then s
    else s.(rows := s.rows[id := s.rows[id].(claimed := false)])
  }

  function Counted(s: Store, id: EventId): Store
    requires id in s.rows
  {
    s.(rows := s.rows[id := s.rows[id].(retries := s.rows[id].retries + 1)])
  }

  /** Keeps the first dead-letter row of an event and marks the event processed. */
  function Buried(s: Store, id: EventId, count: nat): Store {
    var t := if id in s.dlq then s else s.(dlq := s.dlq[id := count]);
    if id !in s.rows then t
    else t.(rows := t.rows[id := t.rows[id].(processed := true)])
  }

  /** The claim timeout passes. */
  function Expired(s: Store, id: EventId): Store
    requires id in s.rows
  {
    s.(rows := s.rows[id := s.rows[id].(claimed := false)])
  }
}
