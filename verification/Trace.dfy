/** Correlation fields carried by every event, and content-addressed event identifiers. */
module Trace {
  import opened Wrappers

  type EventId = string

  datatype TraceFields = TraceFields(
    traceId: string,
    correlationId: string,
    causationId: Option<EventId>,   // None only for root events
    versionId: string)

  /** The trace fields a handler gives its output while processing the event `causationId`. */
  function PropagateTrace(tf: TraceFields, causationId: EventId): (r: TraceFields)
  {
    TraceFields(tf.traceId, tf.correlationId, Some(causationId), tf.versionId)
  }

  datatype Event = Event(id: EventId, kind: string, payload: string, trace: TraceFields)

  /** contentID: a digest of the payload alone, taken as an injective function. */
  type Digest = string -> EventId

  ghost predicate Injective(digest: Digest) {
    forall a, b :: digest(a) == digest(b) ==> a == b
  }

  /** NewEventEnvelope, after the payload has been marshalled. */
  function NewEventEnvelope(digest: Digest, kind: string, payload: string, trace: TraceFields): Event {
    Event(digest(payload), kind, payload, trace)
  }

  /** The kind and the trace of an event can be read back from its payload: every
      payload is the JSON of one DTO type, and the DTO carries the trace fields. */
  ghost predicate SelfDescribing(digest: Digest, read: string -> (string, TraceFields), e: Event) {
    && e == NewEventEnvelope(digest, e.kind, e.payload, e.trace)
    && read(e.payload) == (e.kind, e.trace)
  }

  /** Distinct events of a set never share an identifier. */
  ghost predicate Collisionless(events: iset<Event>) {
    forall a, b :: a in events && b in events && a.id == b.id ==> a == b
  }

  /** Content addressing gives distinct events distinct identifiers, although the
      digest covers neither the kind nor the trace fields beside the payload. */
  lemma ContentAddressing(digest: Digest, read: string -> (string, TraceFields), events: iset<Event>)
    requires Injective(digest)
    requires forall e :: e in events ==> SelfDescribing(digest, read, e)
    ensures Collisionless(events)
  {
    forall a, b | a in events && b in events && a.id == b.id
      ensures a == b
    {
      assert SelfDescribing(digest, read, a) && SelfDescribing(digest, read, b);
      assert digest(a.payload) == digest(b.payload);
    }
  }

  /** The hypothesis on the payload is needed: two envelopes around one payload always
      share their identifier, whatever their kinds and traces are. */
  lemma SharedPayloadSharesId(digest: Digest, payload: string, k0: string, k1: string, t0: TraceFields, t1: TraceFields)
    requires k0 != k1 || t0 != t1
    ensures var a := NewEventEnvelope(digest, k0, payload, t0);
            var b := NewEventEnvelope(digest, k1, payload, t1);
            a != b && !Collisionless(iset{a, b})
  {
    var a := NewEventEnvelope(digest, k0, payload, t0);
    var b := NewEventEnvelope(digest, k1, payload, t1);
    assert a in iset{a, b} && b in iset{a, b};
  }
}
