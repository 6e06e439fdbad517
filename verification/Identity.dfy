/** How the pipeline names its events, and when no two of them share a name. Roots are named
    after their place on the chain; an output is named after its stage and a key that the
    stage takes from its input, in most stages the input's own identifier. */
module Identity {
  import opened Wrappers
  import opened Text
  import opened Trace
  import opened WorkerProtocol
  import opened ExactlyOnce

  /** What a stage puts around the key: its tag, and what it decided, if that is part of the
      name. */
  datatype Recipe = Recipe(tag: string, rest: Option<string>)

  /** "tag:key" or "tag:key:rest". */
  function Spell(r: Recipe, key: string): string {
    r.tag + ":" + key + if r.rest.None? then "" else ":" + r.rest.value
  }

  predicate Plain(s: string) { ':' !in s }

  lemma SpellTail(r: Recipe, key: string)
    ensures Spell(r, key) + ":" == r.tag + [':'] + (key + [':'] + if r.rest.None? then "" else r.rest.value + ":")
  {
    var tail := if r.rest.None? then "" else r.rest.value + ":";
    if r.rest.Some? {
      assert ":" + r.rest.value + ":" == [':'] + tail;
    }
    assert Spell(r, key) + ":" == r.tag + ":" + (key + ([':'] + tail));
    assert key + ([':'] + tail) == key + [':'] + tail;
  }

  /** The name spells out the tag and the key. */
  lemma SpellInjective(r: Recipe, key: string, q: Recipe, other: string)
    requires Plain(r.tag) && Plain(q.tag) && Plain(key) && Plain(other)
    requires Spell(r, key) == Spell(q, other)
    ensures r.tag == q.tag && key == other
  {
    SpellTail(r, key);
    SpellTail(q, other);
    var x := if r.rest.None? then "" else r.rest.value + ":";
    var y := if q.rest.None? then "" else q.rest.value + ":";
    SplitAt(':', r.tag, q.tag, key + [':'] + x, other + [':'] + y);
    SplitAt(':', key, other, x, y);
  }

  /** "chain|transaction|index": the place of a root on its chain. */
  datatype Place = Place(chain: string, transaction: string, index: string)

  function SpellPlace(p: Place): string {
    p.chain + "|" + p.transaction + "|" + p.index
  }

  /** How a world names its events: the digest, the place of a root, and the recipe and key
      by which the stage of an event names its output. */
  datatype Naming = Naming(digest: Digest, place: Event -> Place, recipe: Event -> Recipe, key: Event -> string)

  function OutputName(N: Naming, e: Event): string {
    Spell(N.recipe(e), N.key(e))
  }

  /** The world's identifiers are digests of these names; chain names, transaction hashes,
      positions, tags and keys contain no separator, and roots have different places. */
  ghost predicate Named(W: World, N: Naming) {
    && Injective(N.digest)
    && (forall r :: r in W.roots ==> r.id == N.digest(SpellPlace(N.place(r))) && Plain(SpellPlace(N.place(r))))
    && (forall r, q :: r in W.roots && q in W.roots && SpellPlace(N.place(r)) == SpellPlace(N.place(q)) ==> r == q)
    && (forall e :: Output(W, e).Some? ==>
          Output(W, e).value.id == N.digest(OutputName(N, e)) && Plain(N.recipe(e).tag) && Plain(N.key(e)))
  }

  /** Events of the closure whose outputs get one name have one output. */
  ghost predicate NamesTellOutputs(W: World, N: Naming) {
    forall e, f ::
      && Derived(W, e) && Derived(W, f)
      && Output(W, e).Some? && Output(W, f).Some?
      && OutputName(N, e) == OutputName(N, f)
      ==> Output(W, e) == Output(W, f)
  }

  lemma RootOrOutput(W: World, a: Event) returns (e: Option<Event>)
    requires Derived(W, a)
    ensures e.None? ==> a in W.roots
    ensures e.Some? ==> Derived(W, e.value) && Output(W, e.value) == Some(a)
  {
    var r, n: nat :| r in W.roots && Descend(W, r, n) == Some(a);
    if n == 0 {
      e := None;
    } else {
      e := Descend(W, r, n - 1);
      assert Descend(W, r, n - 1) == e;
    }
  }

  lemma OutputNameHasSeparator(N: Naming, e: Event)
    ensures ':' in OutputName(N, e)
  {
    assert OutputName(N, e)[|N.recipe(e).tag|] == ':';
  }

  lemma SameIdSameEvent(W: World, N: Naming, a: Event, b: Event)
    requires Named(W, N) && NamesTellOutputs(W, N) && Derived(W, a) && Derived(W, b) && a.id == b.id
    ensures a == b
  {
    var e := RootOrOutput(W, a);
    var f := RootOrOutput(W, b);
    if e.Some? {
      OutputNameHasSeparator(N, e.value);
    }
    if f.Some? {
      OutputNameHasSeparator(N, f.value);
    }
  }

  /** The identifiers of the closure do not collide exactly if outputs with one name are one
      output: roots never collide, neither with each other nor with an output. */
  lemma CollisionlessExactly(W: World, N: Naming)
    requires Named(W, N)
    ensures Collisionless(Closure(W)) <==> NamesTellOutputs(W, N)
  {
    if NamesTellOutputs(W, N) {
      forall a, b | a in Closure(W) && b in Closure(W) && a.id == b.id ensures a == b {
        SameIdSameEvent(W, N, a, b);
      }
    } else {
      var e, f :| Derived(W, e) && Derived(W, f) && Output(W, e).Some? && Output(W, f).Some? &&
                  OutputName(N, e) == OutputName(N, f) && Output(W, e) != Output(W, f);
      DerivedOutput(W, e);
      DerivedOutput(W, f);
      assert Output(W, e).value in Closure(W) && Output(W, f).value in Closure(W);
    }
  }

  /** Equal keys come from equal inputs: what a stage takes as the key determines the input. */
  ghost predicate KeysTellInputs(W: World, N: Naming) {
    forall e, f ::
      && Derived(W, e) && Derived(W, f)
      && Output(W, e).Some? && Output(W, f).Some?
      && N.recipe(e).tag == N.recipe(f).tag && N.key(e) == N.key(f)
      ==> e.id == f.id
  }

  /** In particular where every stage that emits takes its input's identifier as the key. */
  ghost predicate KeyedByInput(W: World, N: Naming) {
    forall e :: Output(W, e).Some? ==> N.key(e) == e.id
  }

  lemma InputsAreTold(W: World, N: Naming)
    requires KeyedByInput(W, N)
    ensures KeysTellInputs(W, N)
  {
  }

  lemma RootIsNoOutput(W: World, N: Naming, r: Event, e: Event)
    requires Named(W, N) && r in W.roots && Output(W, e).Some?
    ensures r.id != Output(W, e).value.id
  {
    OutputNameHasSeparator(N, e);
  }

  lemma SameNameSameInput(W: World, N: Naming, e: Event, f: Event)
    requires Named(W, N) && KeysTellInputs(W, N) && Derived(W, e) && Derived(W, f)
    requires Output(W, e).Some? && Output(W, f).Some? && Output(W, e).value.id == Output(W, f).value.id
    ensures e.id == f.id
  {
    SpellInjective(N.recipe(e), N.key(e), N.recipe(f), N.key(f));
  }

  /** What the names achieve at one step: roots differ from each other and from outputs, and
      outputs with one identifier come from inputs with one. */
  ghost predicate TellsApart(W: World) {
    && (forall r, q :: r in W.roots && q in W.roots && r.id == q.id ==> r == q)
    && (forall r, e :: r in W.roots && Output(W, e).Some? ==> r.id != Output(W, e).value.id)
    && (forall e, f :: Derived(W, e) && Derived(W, f) && SameOutputId(W, e, f) ==> e.id == f.id)
  }

  ghost predicate SameOutputId(W: World, e: Event, f: Event) {
    Output(W, e).Some? && Output(W, f).Some? && Output(W, e).value.id == Output(W, f).value.id
  }

  lemma NamesTellApart(W: World, N: Naming)
    requires Named(W, N) && KeysTellInputs(W, N)
    ensures TellsApart(W)
  {
    forall r, e | r in W.roots && Output(W, e).Some? ensures r.id != Output(W, e).value.id {
      RootIsNoOutput(W, N, r, e);
    }
    forall e, f | Derived(W, e) && Derived(W, f) && SameOutputId(W, e, f) ensures e.id == f.id {
      SameNameSameInput(W, N, e, f);
    }
  }

  lemma OneBack(W: World, r: Event, n: nat, a: Event) returns (e: Event)
    requires r in W.roots && n > 0 && Descend(W, r, n) == Some(a)
    ensures Descend(W, r, n - 1) == Some(e) && Derived(W, e) && Output(W, e) == Some(a)
  {
    e := Descend(W, r, n - 1).value;
    DerivedBy(W, r, n - 1, e);
  }

  /** By induction along the pipeline: outputs with one identifier have one input. */
  lemma {:induction false} ChainsAgree(W: World, r: Event, n: nat, a: Event, q: Event, m: nat, b: Event)
    requires TellsApart(W) && a.id == b.id
    requires r in W.roots && Descend(W, r, n) == Some(a)
    requires q in W.roots && Descend(W, q, m) == Some(b)
    ensures a == b
    decreases n
  {
    if n > 0 && m > 0 {
      var e := OneBack(W, r, n, a);
      var f := OneBack(W, q, m, b);
      assert SameOutputId(W, e, f);
      assert e.id == f.id;
      ChainsAgree(W, r, n - 1, e, q, m - 1, f);
      assert e == f;
    } else if n > 0 {
      var e := OneBack(W, r, n, a);
    } else if m > 0 {
      var f := OneBack(W, q, m, b);
    }
  }

  /** Where every stage names its output after a key that tells its input, no two events of
      the closure share an identifier, whatever tags and decisions the stages add. */
  lemma InputKeysSuffice(W: World, N: Naming)
    requires Named(W, N) && KeysTellInputs(W, N)
    ensures Collisionless(Closure(W))
  {
    NamesTellApart(W, N);
    forall a, b | a in Closure(W) && b in Closure(W) && a.id == b.id ensures a == b {
      var r, n: nat :| r in W.roots && Descend(W, r, n) == Some(a);
      var q, m: nat :| q in W.roots && Descend(W, q, m) == Some(b);
      ChainsAgree(W, r, n, a, q, m, b);
    }
  }

  /** Exactly-once for stages whose keys tell their inputs: complete runs store the closure of
      the roots, and any two of them the same events. */
  lemma PipelineExactlyOnce(W: World, N: Naming, ls: seq<Label>, ks: seq<Label>)
    requires Named(W, N) && KeysTellInputs(W, N)
    requires Run(W, ls) && Complete(W, ls, After(W, ls).store)
    requires Run(W, ks) && Complete(W, ks, After(W, ks).store)
    ensures StoredEvents(After(W, ls).store) == Closure(W)
    ensures var s, t := After(W, ls).store.rows, After(W, ks).store.rows;
            s.Keys == t.Keys && forall id :: id in s ==> s[id].event == t[id].event
  {
    InputKeysSuffice(W, N);
    CompleteRunStoresClosure(W, ls);
    ScheduleIndependence(W, ls, ks);
  }

  /** A stage may take another key, as the execution stage takes the execution id. Exactly if
      the outputs named alike are one output, a complete run stores the whole closure. */
  lemma OtherKeysExactly(W: World, N: Naming, ls: seq<Label>)
    requires Named(W, N) && Run(W, ls) && Complete(W, ls, After(W, ls).store)
    ensures StoredEvents(After(W, ls).store) == Closure(W) <==> NamesTellOutputs(W, N)
  {
    CollisionlessExactly(W, N);
    CompleteRunStoresClosure(W, ls);
  }
}
