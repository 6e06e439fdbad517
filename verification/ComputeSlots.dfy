/** The lock-free slot counter, with an entry's atomic add and its undo as separate steps. */
module ComputeSlots {
  import Sums
  import opened Wrappers

  type Thread = nat

  datatype Phase =
    | Outside
    | EntrySlot     // an entry that was let in
    | ExitSlot      // an exit, which is always let in
    | Undoing       // an entry that was refused and has not yet taken its add back

  datatype State = State(depth: int, threads: map<Thread, Phase>)

  datatype Label = Add(t: Thread, isExit: bool) | Undo(t: Thread) | Dequeue(t: Thread)

  function PhaseOf(s: State, t: Thread): Phase {
    if t in s.threads then s.threads[t] else Outside
  }

  predicate Enabled(s: State, l: Label) {
    match l
    case Add(t, _) => PhaseOf(s, t).Outside?
    case Undo(t) => PhaseOf(s, t).Undoing?
    case Dequeue(t) => PhaseOf(s, t).EntrySlot? || PhaseOf(s, t).ExitSlot?
  }

  /** The counter is added to first and compared afterwards. */
  function Apply(maxDepth: int, s: State, l: Label): State {
    match l
    case Add(t, isExit) =>
      var cur := s.depth + 1;
      var p := if isExit then ExitSlot else if cur > maxDepth then Undoing else EntrySlot;
      State(cur, s.threads[t := p])
    case Undo(t) => State(s.depth - 1, s.threads[t := Outside])
    case Dequeue(t) => State(s.depth - 1, s.threads[t := Outside])
  }

  function Run(maxDepth: int, ls: seq<Label>): Option<State> {
    if ls == [] then Some(State(0, map[]))
    else
      var before := Run(maxDepth, ls[..|ls| - 1]);
      var l := ls[|ls| - 1];
      if before.None? || !Enabled(before.value, l) then None else Some(Apply(maxDepth, before.value, l))
  }

  /** The threads in a given phase. */
  function In(threads: map<Thread, Phase>, p: Phase): set<Thread> {
    set t | t in threads && threads[t] == p
  }

  function Held(s: State): nat {
    |In(s.threads, EntrySlot)| + |In(s.threads, ExitSlot)|
  }

  function Pending(s: State): nat {
    |In(s.threads, Undoing)|
  }

  lemma Reassign(threads: map<Thread, Phase>, t: Thread, p: Phase, q: Phase)
    ensures var was := if t in threads then threads[t] else Outside;
            p != Outside ==>
              |In(threads[t := q], p)| == |In(threads, p)| - (if was == p then 1 else 0) + if q == p then 1 else 0
  {
    var a, b := In(threads, p), In(threads[t := q], p);
    assert a - {t} == b - {t};
    Sums.Exchange(a, b, t);
  }

  /** In every interleaving the counter is the slots held plus the undos still due, and no
      more than maxDepth slots are held by entries. */
  lemma {:induction false} DepthIsHeldPlusPending(maxDepth: nat, ls: seq<Label>)
    requires Run(maxDepth, ls).Some?
    ensures var s := Run(maxDepth, ls).value;
            && s.depth == Held(s) + Pending(s)
            && |In(s.threads, EntrySlot)| <= maxDepth
  {
    if ls == [] {
      assert forall p :: In(State(0, map[]).threads, p) == {};
    } else {
      var front, l := ls[..|ls| - 1], ls[|ls| - 1];
      DepthIsHeldPlusPending(maxDepth, front);
      var s := Run(maxDepth, front).value;
      var q := Apply(maxDepth, s, l).threads[l.t];
      Reassign(s.threads, l.t, EntrySlot, q);
      Reassign(s.threads, l.t, ExitSlot, q);
      Reassign(s.threads, l.t, Undoing, q);
    }
  }

  /** An exit is never refused. An entry is refused exactly when held slots and undos still
      due already reach maxDepth. */
  lemma Admission(maxDepth: nat, ls: seq<Label>, t: Thread, isExit: bool)
    requires Run(maxDepth, ls).Some? && Enabled(Run(maxDepth, ls).value, Add(t, isExit))
    ensures var s := Run(maxDepth, ls).value;
            PhaseOf(Apply(maxDepth, s, Add(t, isExit)), t) ==
              if isExit then ExitSlot
              else if Held(s) + Pending(s) >= maxDepth then Undoing
              else EntrySlot
  {
    DepthIsHeldPlusPending(maxDepth, ls);
  }

  /** A refusal while slots are free is possible, but only with an undo still due. */
  lemma SpuriousRefusal(maxDepth: nat, ls: seq<Label>, t: Thread)
    requires Run(maxDepth, ls).Some? && Enabled(Run(maxDepth, ls).value, Add(t, false))
    requires PhaseOf(Apply(maxDepth, Run(maxDepth, ls).value, Add(t, false)), t) == Undoing
    ensures var s := Run(maxDepth, ls).value;
            Held(s) < maxDepth ==> Pending(s) >= maxDepth - Held(s) > 0
  {
    Admission(maxDepth, ls, t, false);
  }

  /** One slot in all: its holder leaves while a refused entry has not undone its add, and
      the next entry is refused although no slot is held. */
  lemma SpuriousRefusalHappens()
    ensures var ls := [Add(0, false), Add(1, false), Dequeue(0)];
            && Run(1, ls).Some? && Held(Run(1, ls).value) == 0
            && Enabled(Run(1, ls).value, Add(2, false))
            && PhaseOf(Apply(1, Run(1, ls).value, Add(2, false)), 2) == Undoing
  {
    var a, b, c := Add(0, false), Add(1, false), Dequeue(0);
    RunOne(1, [], a);
    assert [] + [a] == [a];
    RunOne(1, [a], b);
    assert [a] + [b] == [a, b];
    RunOne(1, [a, b], c);
    assert [a, b] + [c] == [a, b, c];
    var s := Run(1, [a, b, c]).value;
    assert s == State(1, map[0 := Outside, 1 := Undoing]);
    assert In(s.threads, EntrySlot) == {} && In(s.threads, ExitSlot) == {};
  }

  lemma RunOne(maxDepth: int, ls: seq<Label>, l: Label)
    requires Run(maxDepth, ls).Some? && Enabled(Run(maxDepth, ls).value, l)
    ensures Run(maxDepth, ls + [l]) == Some(Apply(maxDepth, Run(maxDepth, ls).value, l))
  {
    assert (ls + [l])[..|ls|] == ls;
  }

  // ---- the object ----------------------------------------------------------------

  /** One caller at a time: the counter is the number of slots held. */
  class ComputeBudget {
    var depth: int
    const maxDepth: int

    constructor (maxDepth: int)
      ensures depth == 0 && this.maxDepth == maxDepth
    {
      depth := 0;
      this.maxDepth := maxDepth;
    }

    method Enqueue(isExit: bool) returns (ok: bool)
      modifies this
      ensures ok <==> isExit || old(depth) < maxDepth
      ensures depth == if ok then old(depth) + 1 else old(depth)
    {
      depth := depth + 1;
      var cur := depth;
      if !isExit && cur > maxDepth {
        depth := depth - 1;
        return false;
      }
      ok := true;
    }

    method Dequeue()
      modifies this
      ensures depth == old(depth) - 1
    {
      depth := depth - 1;
    }
  }
}
