/** The causation links of the stored events, and why the outputs of propagating handlers are
    accepted. */
module Causality {
  import opened Wrappers
  import opened Trace
  import opened EventStore
  import opened WorkerProtocol
  import opened ExactlyOnce
  import opened Attempts

  type Rows = map<EventId, Row>

  function Cause(rows: Rows, id: EventId): Option<EventId>
    requires id in rows
  {
    rows[id].event.trace.causationId
  }

  /** Following causation from `id` stays in the table and meets an event without a cause
      in at most n steps. */
  predicate Rooted(rows: Rows, id: EventId, n: nat)
    decreases n
  {
    id in rows &&
    (Cause(rows, id).None? || (n > 0 && Rooted(rows, Cause(rows, id).value, n - 1)))
  }

  /** No row names itself as its cause, which the foreign key would allow. */
  ghost predicate NoSelfCause(rows: Rows) {
    forall id :: id in rows ==> Cause(rows, id) != Some(id)
  }

  ghost predicate Forest(rows: Rows) {
    forall id :: id in rows ==> exists n: nat :: Rooted(rows, id, n)
  }

  lemma {:induction false} RootedGrows(a: Rows, b: Rows, id: EventId, n: nat, m: nat)
    requires forall i :: i in a ==> i in b && b[i].event == a[i].event
    requires Rooted(a, id, n) && n <= m
    ensures Rooted(b, id, m)
    decreases n
  {
    if Cause(a, id).Some? {
      RootedGrows(a, b, Cause(a, id).value, n - 1, m - 1);
    }
  }

  lemma {:induction false} SelfCauseNeverEnds(rows: Rows, id: EventId, n: nat)
    requires id in rows && Cause(rows, id) == Some(id)
    ensures !Rooted(rows, id, n)
  {
    if n > 0 {
      SelfCauseNeverEnds(rows, id, n - 1);
    }
  }

  /** Unless some row causes itself, every chain ends within the size of the table. */
  ghost predicate Grounded(rows: Rows) {
    NoSelfCause(rows) ==> forall id :: id in rows ==> Rooted(rows, id, |rows| - 1)
  }

  lemma GroundedInsert(s: Store, e: Event)
    requires Grounded(s.rows) && Refusal(s, e).None?
    ensures Grounded(Inserted(s, e).rows)
  {
    var a, b := s.rows, Inserted(s, e).rows;
    if e.id !in a && NoSelfCause(b) {
      assert |b| == |a| + 1;
      assert forall id :: id in a ==> Cause(b, id) == Cause(a, id);
      assert Cause(b, e.id) == e.trace.causationId;
      forall id | id in b
        ensures Rooted(b, id, |b| - 1)
      {
        if id in a {
          RootedGrows(a, b, id, |a| - 1, |b| - 1);
        } else if e.trace.causationId.Some? {
          RootedGrows(a, b, e.trace.causationId.value, |a| - 1, |b| - 2);
        }
      }
    }
  }

  lemma GroundedSame(a: Rows, b: Rows)
    requires Grounded(a) && a.Keys == b.Keys
    requires forall id :: id in a ==> b[id].event == a[id].event
    ensures Grounded(b)
  {
    if NoSelfCause(b) {
      assert |a.Keys| == |b.Keys| && |a| == |a.Keys| && |b| == |b.Keys|;
      assert forall id :: id in a ==> Cause(b, id) == Cause(a, id);
      forall id | id in b
        ensures Rooted(b, id, |b| - 1)
      {
        RootedGrows(a, b, id, |a| - 1, |b| - 1);
      }
    }
  }

  /** The event a step tries to insert, if it does. */
  function Inserting(s: State, l: Label): Option<Event> {
    match l
    case Ingest(root, ack) => if ack.Failed? then None else Some(root)
    case Insert(w, _, ack) =>
      if ack.Failed? || !PhaseOf(s, w).Emitting? then None else Some(PhaseOf(s, w).out)
    case _ => None
  }

  /** Rows come into being through InsertEvent only. */
  lemma RowsChange(W: World, s: State, l: Label)
    requires Enabled(W, s, l)
    ensures var e := Inserting(s, l);
            var rows := Apply(W, s, l).store.rows;
            if e.Some? && Refusal(s.store, e.value).None? then rows == Inserted(s.store, e.value).rows
            else rows.Keys == s.store.rows.Keys && forall id :: id in rows ==> rows[id].event == s.store.rows[id].event
  {
  }

  lemma {:induction false} AlwaysGrounded(W: World, ls: seq<Label>)
    requires Run(W, ls)
    ensures Grounded(After(W, ls).store.rows)
  {
    if ls != [] {
      var front, l := ls[..|ls| - 1], ls[|ls| - 1];
      AlwaysGrounded(W, front);
      var s := After(W, front);
      RowsChange(W, s, l);
      var e := Inserting(s, l);
      if e.Some? && Refusal(s.store, e.value).None? {
        GroundedInsert(s.store, e.value);
      } else {
        GroundedSame(s.store.rows, After(W, ls).store.rows);
      }
    }
  }

  /** In every reachable store causation is a forest exactly when no event was inserted
      as its own cause; then each chain is shorter than the table. */
  lemma CausalityIsForest(W: World, ls: seq<Label>)
    requires Run(W, ls)
    ensures var rows := After(W, ls).store.rows;
            && (Forest(rows) <==> NoSelfCause(rows))
            && (NoSelfCause(rows) ==> forall id :: id in rows ==> Rooted(rows, id, |rows| - 1))
  {
    AlwaysGrounded(W, ls);
    var rows := After(W, ls).store.rows;
    if !NoSelfCause(rows) {
      var id :| id in rows && Cause(rows, id) == Some(id);
      forall n: nat ensures !Rooted(rows, id, n) { SelfCauseNeverEnds(rows, id, n); }
    } else {
      forall id | id in rows ensures exists n: nat :: Rooted(rows, id, n) {
        assert Rooted(rows, id, |rows| - 1);
      }
    }
  }

  // ---- trace propagation ---------------------------------------------------------

  /** Handlers build the trace of their output with PropagateTrace; roots have no cause. */
  ghost predicate Propagating(W: World) {
    && (forall r :: r in W.roots ==> r.trace.causationId.None?)
    && (forall e: Event :: W.handle(e).Some? ==> W.handle(e).value.trace == PropagateTrace(e.trace, e.id))
  }

  predicate SameTrace(a: TraceFields, b: TraceFields) {
    a.traceId == b.traceId && a.correlationId == b.correlationId && a.versionId == b.versionId
  }

  /** Every stored event is a root or shares its trace with its stored cause. */
  ghost predicate Linked(W: World, rows: Rows) {
    forall id :: id in rows ==>
      var e := rows[id].event;
      match e.trace.causationId
      case None => e in W.roots
      case Some(c) => c != id && c in rows && SameTrace(e.trace, rows[c].event.trace)
  }

  lemma {:induction false} AlwaysLinked(W: World, ls: seq<Label>)
    requires Run(W, ls) && Propagating(W)
    ensures Linked(W, After(W, ls).store.rows)
  {
    if ls != [] {
      var front, l := ls[..|ls| - 1], ls[|ls| - 1];
      AlwaysLinked(W, front);
      RunSound(W, front);
      var s := After(W, front);
      RowsChange(W, s, l);
      if l.Insert? {
        assert PhaseSound(W, s.store, PhaseOf(s, l.w));
      }
    }
  }

  /** The event at the end of the causation chain. */
  function Origin(rows: Rows, id: EventId, n: nat): EventId
    requires Rooted(rows, id, n)
    decreases n
  {
    if Cause(rows, id).None? then id else Origin(rows, Cause(rows, id).value, n - 1)
  }

  lemma {:induction false} OriginKeepsTrace(W: World, rows: Rows, id: EventId, n: nat)
    requires Linked(W, rows) && Rooted(rows, id, n)
    ensures var o := Origin(rows, id, n);
            o in rows && rows[o].event in W.roots && SameTrace(rows[id].event.trace, rows[o].event.trace)
    decreases n
  {
    if Cause(rows, id).Some? {
      OriginKeepsTrace(W, rows, Cause(rows, id).value, n - 1);
    }
  }

  /** With propagating handlers every chain ends, it ends at a root event, and trace,
      correlation and version are the same at both ends. */
  lemma TraceLeadsToRoot(W: World, ls: seq<Label>, id: EventId)
    requires Run(W, ls) && Propagating(W) && id in After(W, ls).store.rows
    ensures var rows := After(W, ls).store.rows;
            && Rooted(rows, id, |rows| - 1)
            && var o := Origin(rows, id, |rows| - 1);
               o in rows && rows[o].event in W.roots && SameTrace(rows[id].event.trace, rows[o].event.trace)
  {
    var rows := After(W, ls).store.rows;
    AlwaysLinked(W, ls);
    CausalityIsForest(W, ls);
    OriginKeepsTrace(W, rows, id, |rows| - 1);
  }

  // ---- accepted outputs -------------------------------------------------------------

  predicate Filled(t: TraceFields) {
    t.traceId != "" && t.correlationId != "" && t.versionId != ""
  }

  /** InsertEvent lets no event in without its trace fields. */
  lemma {:induction false} StoredTracesFilled(W: World, ls: seq<Label>)
    requires Run(W, ls)
    ensures forall id :: id in After(W, ls).store.rows ==> Filled(After(W, ls).store.rows[id].event.trace)
  {
    if ls != [] {
      var front, l := ls[..|ls| - 1], ls[|ls| - 1];
      StoredTracesFilled(W, front);
      RowsChange(W, After(W, front), l);
    }
  }

  /** In no reachable store is the output of a propagating handler for a stored event
      refused. */
  lemma PropagatedOutputAccepted(W: World, ls: seq<Label>, id: EventId)
    requires Run(W, ls) && Propagating(W)
    requires id in After(W, ls).store.rows && W.handle(After(W, ls).store.rows[id].event).Some?
    ensures Refusal(After(W, ls).store, W.handle(After(W, ls).store.rows[id].event).value).None?
  {
    StoredTracesFilled(W, ls);
    RunSound(W, ls);
    assert RowSound(W, ls, After(W, ls).store, id);
  }

  /** An event that names itself as its cause. */
  const SELF_CAUSED: Event := Event("a", "kind", "payload", TraceFields("t", "c", Some("a"), "v"))

  const LONELY: World := World({SELF_CAUSED}, e => None, {}, 5)

  /** The store takes it, and causation is no forest any more. */
  lemma SelfCausedIsStored()
    ensures Run(LONELY, [Ingest(SELF_CAUSED, Done)])
    ensures !Forest(After(LONELY, [Ingest(SELF_CAUSED, Done)]).store.rows)
  {
    FirstIngest(LONELY, SELF_CAUSED);
    CausalityIsForest(LONELY, [Ingest(SELF_CAUSED, Done)]);
    var rows := After(LONELY, [Ingest(SELF_CAUSED, Done)]).store.rows;
    assert Cause(rows, "a") == Some("a");
  }
}
