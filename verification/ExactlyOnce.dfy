/** At-least-once delivery that looks exactly-once: what is stored is always derived from
    the roots, nothing processed is lost without a record, and a run that finishes cleanly
    stores the same events whatever its schedule was. */
module ExactlyOnce {
  import opened Wrappers
  import opened Trace
  import opened EventStore
  import opened WorkerProtocol

  /** The output of the stage that consumes e, if there is such a stage and it emits one. */
  function Output(W: World, e: Event): Option<Event> {
    if e.kind in W.consumed then W.handle(e) else None
  }

  /** The event n stages downstream of e. */
  function Descend(W: World, e: Event, n: nat): Option<Event> {
    if n == 0 then Some(e)
    else
      var x := Descend(W, e, n - 1);
      if x.None? then None else Output(W, x.value)
  }

  ghost predicate Derived(W: World, e: Event) {
    exists r, n: nat :: r in W.roots && Descend(W, r, n) == Some(e)
  }

  /** The closure of the roots under the handlers. */
  ghost function Closure(W: World): iset<Event> {
    iset e | Derived(W, e)
  }

  lemma DerivedRoot(W: World, r: Event)
    requires r in W.roots
    ensures Derived(W, r)
  {
    assert Descend(W, r, 0) == Some(r);
  }

  lemma DerivedOutput(W: World, e: Event)
    requires Derived(W, e) && Output(W, e).Some?
    ensures Derived(W, Output(W, e).value)
  {
    var r, n: nat :| r in W.roots && Descend(W, r, n) == Some(e);
    assert Descend(W, r, n + 1) == Output(W, e);
  }

  /** Some worker marked `id` processed because its lifecycle had already advanced. */
  predicate Skipped(ls: seq<Label>, id: EventId) {
    exists i :: 0 <= i < |ls| && ls[i].MarkSkipped? && ls[i].id == id && !ls[i].ack.Failed?
  }

  /** The handler's output for e is stored, or the handler chose no output. */
  predicate Delivered(W: World, s: Store, e: Event) {
    W.handle(e).Some? ==> W.handle(e).value.id in s.rows
  }

  /** Why a processed row is no loss. */
  predicate Settled(W: World, ls: seq<Label>, s: Store, id: EventId)
    requires id in s.rows
  {
    || Delivered(W, s, s.rows[id].event)
    || Skipped(ls, id)
    || (id in s.dlq && s.rows[id].retries >= s.dlq[id] > W.cap)
  }

  /** What a worker knows about the event it holds. */
  predicate PhaseSound(W: World, s: Store, p: Phase) {
    !p.Idle? ==>
      && p.e.id in s.rows
      && s.rows[p.e.id].event == p.e
      && p.e.kind in W.consumed
      && (p.Emitting? ==> W.handle(p.e) == Some(p.out))
      && (p.Marking? ==> Delivered(W, s, p.e))
      && (p.Burying? ==> s.rows[p.e.id].retries >= p.count > W.cap)
  }

  ghost predicate RowSound(W: World, ls: seq<Label>, s: Store, id: EventId)
    requires id in s.rows
  {
    var row := s.rows[id];
    && row.event.id == id
    && Derived(W, row.event)
    && (row.processed ==> row.event.kind in W.consumed && Settled(W, ls, s, id))
  }

  /** Instantiated by hand: the fact about one row leads to the row of its output. */
  ghost predicate RowsSound(W: World, ls: seq<Label>, s: Store) {
    forall id {:trigger RowSound(W, ls, s, id)} :: id in s.rows ==> RowSound(W, ls, s, id)
  }

  ghost predicate Sound(W: World, ls: seq<Label>, s: State) {
    && RowsSound(W, ls, s.store)
    && (forall w :: w in s.workers ==> PhaseSound(W, s.store, s.workers[w]))
    && (forall id :: id in s.store.dlq ==>
          id in s.store.rows && s.store.rows[id].processed && s.store.rows[id].retries >= s.store.dlq[id] > W.cap)
  }

  /** Rows are only added, keep their event and never lose a retry count. */
  predicate Grows(s: Store, t: Store) {
    && s.dlq.Keys <= t.dlq.Keys
    && (forall id :: id in s.dlq ==> t.dlq[id] == s.dlq[id])
    && forall id :: id in s.rows ==>
         && id in t.rows
         && t.rows[id].event == s.rows[id].event
         && t.rows[id].retries >= s.rows[id].retries
         && (s.rows[id].processed ==> t.rows[id].processed)
  }

  lemma StoreGrows(W: World, s: State, l: Label)
    requires Enabled(W, s, l)
    ensures Grows(s.store, Apply(W, s, l).store)
  {
  }

  lemma SettledStays(W: World, ls: seq<Label>, s: Store, l: Label, t: Store, id: EventId)
    requires id in s.rows && Settled(W, ls, s, id) && Grows(s, t)
    ensures Settled(W, ls + [l], t, id)
  {
    if Skipped(ls, id) {
      var i :| 0 <= i < |ls| && ls[i].MarkSkipped? && ls[i].id == id && !ls[i].ack.Failed?;
      assert (ls + [l])[i] == ls[i];
    }
  }

  lemma SoundRows(W: World, ls: seq<Label>, s: State, l: Label)
    requires Sound(W, ls, s) && Enabled(W, s, l)
    ensures RowsSound(W, ls + [l], Apply(W, s, l).store)
  {
    var t := Apply(W, s, l);
    StoreGrows(W, s, l);
    forall id | id in t.store.rows
      ensures RowSound(W, ls + [l], t.store, id)
    {
      assert (ls + [l])[|ls|] == l;
      if id !in s.store.rows {
        if l.Ingest? {
          DerivedRoot(W, l.root);
        } else {
          var p := PhaseOf(s, l.w);
          assert PhaseSound(W, s.store, p);
          assert RowSound(W, ls, s.store, p.e.id);
          DerivedOutput(W, p.e);
        }
      } else {
        assert RowSound(W, ls, s.store, id);
        if s.store.rows[id].processed {
          SettledStays(W, ls, s.store, l, t.store, id);
        } else if t.store.rows[id].processed {
          var p := PhaseOf(s, l.w);
          assert PhaseSound(W, s.store, p);
        }
      }
    }
  }

  lemma PhaseStays(W: World, s: Store, t: Store, p: Phase)
    requires PhaseSound(W, s, p) && Grows(s, t)
    ensures PhaseSound(W, t, p)
  {
  }

  lemma ActorSound(W: World, ls: seq<Label>, s: State, l: Label)
    requires Sound(W, ls, s) && Enabled(W, s, l) && !l.Ingest? && !l.Expire?
    ensures PhaseSound(W, Apply(W, s, l).store, NextPhase(W, s, l))
  {
    if l.w in s.workers {
      assert PhaseSound(W, s.store, s.workers[l.w]);
    }
    if l.Claim? && l.ack.Done? {
      assert RowSound(W, ls, s.store, l.id);
    }
  }

  lemma SoundPhases(W: World, ls: seq<Label>, s: State, l: Label)
    requires Sound(W, ls, s) && Enabled(W, s, l)
    ensures forall w :: w in Apply(W, s, l).workers ==> PhaseSound(W, Apply(W, s, l).store, Apply(W, s, l).workers[w])
  {
    var t := Apply(W, s, l);
    StoreGrows(W, s, l);
    forall w | w in t.workers
      ensures PhaseSound(W, t.store, t.workers[w])
    {
      if !l.Ingest? && !l.Expire? && l.w == w {
        ActorSound(W, ls, s, l);
      } else {
        PhaseStays(W, s.store, t.store, s.workers[w]);
      }
    }
  }

  lemma {:induction false} RunSound(W: World, ls: seq<Label>)
    requires Run(W, ls)
    ensures Sound(W, ls, After(W, ls))
  {
    if ls != [] {
      var front, l := ls[..|ls| - 1], ls[|ls| - 1];
      RunSound(W, front);
      var s := After(W, front);
      SoundRows(W, front, s, l);
      SoundPhases(W, front, s, l);
      StoreGrows(W, s, l);
      assert front + [l] == ls;
      if l.Bury? {
        assert PhaseSound(W, s.store, PhaseOf(s, l.w));
      }
    }
  }

  // ---- safety --------------------------------------------------------------------

  /** Whatever the interleaving, faults, crashes and expiries, every stored event is
      derived from the roots, and no two rows carry the same identifier. */
  lemma StoredEventsAreDerived(W: World, ls: seq<Label>)
    requires Run(W, ls)
    ensures var rows := After(W, ls).store.rows;
            && (forall id :: id in rows ==> rows[id].event in Closure(W))
            && (forall i, j :: i in rows && j in rows && rows[i].event.id == rows[j].event.id ==> i == j)
  {
    RunSound(W, ls);
    var s := After(W, ls).store;
    forall id | id in s.rows
      ensures s.rows[id].event in Closure(W) && s.rows[id].event.id == id
    {
      assert RowSound(W, ls, s, id);
    }
  }

  /** No silent loss, also when two workers hold one event after its claim expired. */
  lemma NoSilentLoss(W: World, ls: seq<Label>, id: EventId)
    requires Run(W, ls)
    requires id in After(W, ls).store.rows && After(W, ls).store.rows[id].processed
    ensures var s := After(W, ls).store;
            || W.handle(s.rows[id].event).None?
            || W.handle(s.rows[id].event).value.id in s.rows
            || Skipped(ls, id)
            || (id in s.dlq && s.rows[id].retries >= s.dlq[id] > W.cap)
  {
    RunSound(W, ls);
    assert RowSound(W, ls, After(W, ls).store, id);
  }

  /** A dead-letter row is only written after the stored counter itself passed the cap:
      a failed counter write, which the worker takes for a first failure, never leads there. */
  lemma DeadLetterNeedsCountedFailures(W: World, ls: seq<Label>, id: EventId)
    requires Run(W, ls) && id in After(W, ls).store.dlq
    ensures var s := After(W, ls).store;
            id in s.rows && s.rows[id].processed && s.rows[id].retries >= s.dlq[id] > W.cap
  {
    RunSound(W, ls);
  }

  lemma FailedCounterWriteReleases(W: World, s: State, w: WorkerId, id: EventId, ack: Ack)
    requires !ack.Done? && Enabled(W, s, Count(w, id, ack))
    ensures PhaseOf(Apply(W, s, Count(w, id, ack)), w) == Releasing(PhaseOf(s, w).e)
  {
  }

  // ---- completeness --------------------------------------------------------------

  /** Every root was accepted, every event with a consumer is processed, and none of them
      was dead-lettered or skipped. */
  ghost predicate Complete(W: World, ls: seq<Label>, s: Store) {
    && (forall r :: r in W.roots ==> r.id in s.rows)
    && (forall id :: id in s.rows && s.rows[id].event.kind in W.consumed ==> s.rows[id].processed)
    && s.dlq == map[]
    && (forall id :: id in s.rows ==> !Skipped(ls, id))
  }

  lemma StoredAsItself(W: World, ls: seq<Label>, s: Store, e: Event)
    requires Collisionless(Closure(W)) && Derived(W, e)
    requires e.id in s.rows && RowSound(W, ls, s, e.id)
    ensures s.rows[e.id].event == e
  {
    assert s.rows[e.id].event in Closure(W) && e in Closure(W);
  }

  lemma OutputStored(W: World, ls: seq<Label>, s: Store, d: Event)
    requires d.id in s.rows && s.rows[d.id].event == d && RowSound(W, ls, s, d.id)
    requires Complete(W, ls, s) && Output(W, d).Some?
    ensures Output(W, d).value.id in s.rows
  {
    assert Settled(W, ls, s, d.id);
  }

  lemma OutputStoredAsItself(W: World, ls: seq<Label>, s: Store, d: Event, e: Event)
    requires RowsSound(W, ls, s) && Complete(W, ls, s) && Collisionless(Closure(W))
    requires d.id in s.rows && s.rows[d.id].event == d && Output(W, d) == Some(e) && Derived(W, e)
    ensures e.id in s.rows && s.rows[e.id].event == e
  {
    assert RowSound(W, ls, s, d.id);
    OutputStored(W, ls, s, d);
    assert RowSound(W, ls, s, e.id);
    StoredAsItself(W, ls, s, e);
  }

  lemma {:induction false} DescendantStored(W: World, ls: seq<Label>, s: Store, r: Event, n: nat, e: Event)
    requires RowsSound(W, ls, s)
    requires Complete(W, ls, s) && Collisionless(Closure(W))
    requires r in W.roots && Descend(W, r, n) == Some(e)
    ensures e.id in s.rows && s.rows[e.id].event == e
  {
    if n == 0 {
      DerivedRoot(W, r);
      assert RowSound(W, ls, s, e.id);
      StoredAsItself(W, ls, s, e);
    } else {
      var d := Descend(W, r, n - 1).value;
      DescendantStored(W, ls, s, r, n - 1, d);
      DerivedBy(W, r, n, e);
      OutputStoredAsItself(W, ls, s, d, e);
    }
  }

  lemma DerivedBy(W: World, r: Event, n: nat, e: Event)
    requires r in W.roots && Descend(W, r, n) == Some(e)
    ensures Derived(W, e)
  {
  }

  ghost function StoredEvents(s: Store): iset<Event> {
    iset e: Event | e.id in s.rows && s.rows[e.id].event == e
  }

  /** A table has one event per identifier. */
  lemma StoredEventsDiffer(s: Store)
    ensures Collisionless(StoredEvents(s))
  {
  }

  /** A complete run has stored exactly the closure of the roots, if and only if no two
      events of the closure share an identifier. */
  lemma CompleteRunStoresClosure(W: World, ls: seq<Label>)
    requires Run(W, ls) && Complete(W, ls, After(W, ls).store)
    ensures StoredEvents(After(W, ls).store) == Closure(W) <==> Collisionless(Closure(W))
  {
    var s := After(W, ls).store;
    RunSound(W, ls);
    StoredEventsDiffer(s);
    if Collisionless(Closure(W)) {
      forall e: Event
        ensures e in StoredEvents(s) <==> e in Closure(W)
      {
        if e in StoredEvents(s) {
          assert RowSound(W, ls, s, e.id);
        }
        if e in Closure(W) {
          var r, n: nat :| r in W.roots && Descend(W, r, n) == Some(e);
          DescendantStored(W, ls, s, r, n, e);
        }
      }
    }
  }

  /** The table is determined by the set of events it holds. */
  lemma RowsFromEvents(s: Store, t: Store)
    requires forall id :: id in s.rows ==> s.rows[id].event.id == id
    requires StoredEvents(s) == StoredEvents(t)
    ensures forall id :: id in s.rows ==> id in t.rows && t.rows[id].event == s.rows[id].event
  {
    forall id | id in s.rows
      ensures id in t.rows && t.rows[id].event == s.rows[id].event
    {
      assert s.rows[id].event in StoredEvents(s);
      assert s.rows[id].event in StoredEvents(t);
    }
  }

  /** Two complete runs store the same events under the same identifiers, however their
      steps interleaved and whichever faults they met. */
  lemma ScheduleIndependence(W: World, ls: seq<Label>, ks: seq<Label>)
    requires Run(W, ls) && Complete(W, ls, After(W, ls).store)
    requires Run(W, ks) && Complete(W, ks, After(W, ks).store)
    requires Collisionless(Closure(W))
    ensures var s, t := After(W, ls).store.rows, After(W, ks).store.rows;
            s.Keys == t.Keys && forall id :: id in s ==> s[id].event == t[id].event
  {
    var s, t := After(W, ls).store, After(W, ks).store;
    RunSound(W, ls);
    RunSound(W, ks);
    forall id | id in s.rows ensures s.rows[id].event.id == id { assert RowSound(W, ls, s, id); }
    forall id | id in t.rows ensures t.rows[id].event.id == id { assert RowSound(W, ks, t, id); }
    CompleteRunStoresClosure(W, ls);
    CompleteRunStoresClosure(W, ks);
    RowsFromEvents(s, t);
    RowsFromEvents(t, s);
  }
}
