/** The system state row, written by compare-and-swap on its version: operator mode changes
    among any other writers. */
module SystemState {
  import opened Wrappers
  import opened Text

  datatype Row = Row(
    mode: string, drawdownPct: real, drawdownWindowHours: int, openPositions: int, totalExposureUsd: real,
    activeStrategyId: string, shadowStrategyId: string, lastTransitionReason: string,
    updatedAt: int, versionId: string, stateVersion: int)

  datatype Source = Telegram | Dashboard

  function TransitionReason(source: Source): string {
    if source == Dashboard then "manual_dashboard" else "manual_telegram"
  }

  /** What a writer makes of the row it has read: ExecuteMode, or any other writer, such as
      the risk controller. */
  datatype Command = SetMode(mode: string, source: Source) | Update(f: Row -> Row)

  function Transform(cmd: Command, row: Row): Row {
    match cmd
    case SetMode(mode, source) => row.(mode := mode, lastTransitionReason := TransitionReason(source))
    case Update(f) => f(row)
  }

  /** What UPDATE leaves: the writer's columns, the database's clock, the next version. */
  function Stamped(written: Row, before: Row, now: int): Row {
    written.(stateVersion := before.stateVersion + 1, updatedAt := now)
  }

  datatype Commit = Commit(cmd: Command, at: int)

  /** The writes one after the other, each reading the row the one before has left. */
  function Replay(row: Row, cs: seq<Commit>): Row {
    if cs == [] then row
    else
      var before := Replay(row, cs[..|cs| - 1]);
      var c := cs[|cs| - 1];
      Stamped(Transform(c.cmd, before), before, c.at)
  }

  lemma {:induction false} ReplayVersion(row: Row, cs: seq<Commit>)
    ensures Replay(row, cs).stateVersion == row.stateVersion + |cs|
  {
    if cs != [] {
      ReplayVersion(row, cs[..|cs| - 1]);
    }
  }

  // ---- the table and the command -------------------------------------------------

  datatype OperatorError = ModeRequired | ReadFailed | StaleState

  class SystemStateTable {
    var row: Option<Row>

    constructor (row: Option<Row>)
      ensures this.row == row
    {
      this.row := row;
    }

    method UpsertSystemState(state: Row, expectedVersion: int, now: int) returns (r: Result<int, OperatorError>)
      modifies this
      ensures old(row).Some? && old(row).value.stateVersion == expectedVersion ==>
                row == Some(Stamped(state, old(row).value, now)) && r == Success(expectedVersion + 1)
      ensures !(old(row).Some? && old(row).value.stateVersion == expectedVersion) ==>
                row == old(row) && r == Failure(StaleState)
    {
      if row.None? || row.value.stateVersion != expectedVersion {
        return Failure(StaleState);
      }
      row := Some(state.(stateVersion := expectedVersion + 1, updatedAt := now));
      r := Success(expectedVersion + 1);
    }

    /** The command with whatever other writers commit between its read and its write: it
        takes effect if there were no such commits, and otherwise leaves theirs alone. */
    method ExecuteMode(rawMode: string, source: Source, others: seq<Commit>, now: int)
        returns (r: Result<int, OperatorError>)
      modifies this
      ensures TrimmedTo(rawMode, Trim(rawMode))
      ensures Upper(Trim(rawMode)) == "" ==> r == Failure(ModeRequired) && row == old(row)
      ensures Upper(Trim(rawMode)) != "" && old(row).None? ==> r == Failure(ReadFailed) && row == old(row)
      ensures Upper(Trim(rawMode)) != "" && old(row).Some? && others == [] ==>
                r.Success? &&
                row == Some(old(row).value.(mode := Upper(Trim(rawMode)),
                                            lastTransitionReason := if source.Dashboard? then "manual_dashboard" else "manual_telegram",
                                            stateVersion := old(row).value.stateVersion + 1, updatedAt := now))
      ensures Upper(Trim(rawMode)) != "" && old(row).Some? && others != [] ==>
                r == Failure(StaleState) && row == Some(Replay(old(row).value, others))
    {
      TrimExact(rawMode);
      var mode := Upper(Trim(rawMode));
      if mode == "" {
        return Failure(ModeRequired);
      }
      if row.None? {
        return Failure(ReadFailed);
      }
      var current := row.value;
      var newState := current.(mode := mode, lastTransitionReason := TransitionReason(source));
      for i := 0 to |others|
        invariant row == Some(Replay(current, others[..i]))
      {
        assert others[..i + 1][..i] == others[..i];
        var theirs := UpsertSystemState(Transform(others[i].cmd, row.value), row.value.stateVersion, others[i].at);
      }
      assert others[..|others|] == others;
      ReplayVersion(current, others);
      r := UpsertSystemState(newState, current.stateVersion, now);
    }
  }

  // ---- any interleaving of writers ------------------------------------------------

  type Writer = nat

  datatype Pending = Pending(cmd: Command, read: Row)

  datatype State = State(row: Row, writers: map<Writer, Pending>)

  datatype Label =
    | Begin(w: Writer, cmd: Command)   // GetSystemState
    | Write(w: Writer, now: int)       // UpsertSystemState, refused or not
    | Abandon(w: Writer)               // an error or a crash before the write

  predicate Enabled(s: State, l: Label) {
    match l
    case Begin(w, cmd) => w !in s.writers
    case _ => l.w in s.writers
  }

  /** The compare-and-swap of this step succeeds. */
  predicate Commits(s: State, l: Label) {
    l.Write? && l.w in s.writers && s.writers[l.w].read.stateVersion == s.row.stateVersion
  }

  function Apply(s: State, l: Label): State
    requires Enabled(s, l)
  {
    match l
    case Begin(w, cmd) => s.(writers := s.writers[w := Pending(cmd, s.row)])
    case Abandon(w) => s.(writers := s.writers - {w})
    case Write(w, now) =>
      var p := s.writers[w];
      State(if Commits(s, l) then Stamped(Transform(p.cmd, p.read), s.row, now) else s.row, s.writers - {w})
  }

  function Run(row: Row, ls: seq<Label>): Option<State> {
    if ls == [] then Some(State(row, map[]))
    else
      var before := Run(row, ls[..|ls| - 1]);
      var l := ls[|ls| - 1];
      if before.None? || !Enabled(before.value, l) then None else Some(Apply(before.value, l))
  }

  /** The writes that succeeded, in the order they did. */
  function Committed(row: Row, ls: seq<Label>): seq<Commit>
    requires Run(row, ls).Some?
  {
    if ls == [] then []
    else
      var front, l := ls[..|ls| - 1], ls[|ls| - 1];
      var s := Run(row, front).value;
      Committed(row, front) + if Commits(s, l) then [Commit(s.writers[l.w].cmd, l.now)] else []
  }

  /** A held copy is never from the future, and a copy of the current version is exact. */
  ghost predicate CopiesSound(s: State) {
    forall w :: w in s.writers ==>
      && s.writers[w].read.stateVersion <= s.row.stateVersion
      && (s.writers[w].read.stateVersion == s.row.stateVersion ==> s.writers[w].read == s.row)
  }

  lemma {:induction false} CopiesStaySound(row: Row, ls: seq<Label>)
    requires Run(row, ls).Some?
    ensures CopiesSound(Run(row, ls).value)
  {
    if ls != [] {
      CopiesStaySound(row, ls[..|ls| - 1]);
    }
  }

  /** However the reads and writes interleave, the row is what the successful writes give
      one after the other, each on the row the one before has left: no update is lost. */
  lemma {:induction false} WritesAreSequential(row: Row, ls: seq<Label>)
    requires Run(row, ls).Some?
    ensures Run(row, ls).value.row == Replay(row, Committed(row, ls))
    ensures Run(row, ls).value.row.stateVersion == row.stateVersion + |Committed(row, ls)|
  {
    if ls != [] {
      var front, l := ls[..|ls| - 1], ls[|ls| - 1];
      WritesAreSequential(row, front);
      CopiesStaySound(row, front);
      var s := Run(row, front).value;
      if Commits(s, l) {
        var c := Commit(s.writers[l.w].cmd, l.now);
        assert (Committed(row, front) + [c])[..|Committed(row, front)|] == Committed(row, front);
      } else {
        assert Committed(row, ls) == Committed(row, front);
      }
    }
  }

  /** Each successful mode change alters the mode and its reason, relative to the row right
      before it, with the database's own version and time; a refused one alters nothing. */
  lemma ModeChangeIsExact(row: Row, ls: seq<Label>, l: Label)
    requires Run(row, ls).Some? && Enabled(Run(row, ls).value, l)
    requires l.Write? && Run(row, ls).value.writers[l.w].cmd.SetMode?
    ensures var s := Run(row, ls).value;
            var cmd := s.writers[l.w].cmd;
            Apply(s, l).row ==
              if Commits(s, l)
              then s.row.(mode := cmd.mode,
                          lastTransitionReason := if cmd.source.Dashboard? then "manual_dashboard" else "manual_telegram",
                          stateVersion := s.row.stateVersion + 1, updatedAt := l.now)
              else s.row
  {
    CopiesStaySound(row, ls);
  }

  lemma {:induction false} HeldSinceBegin(row: Row, ls: seq<Label>, i: nat)
    requires Run(row, ls).Some? && i < |ls| && ls[i].Begin?
    requires forall j :: i < j < |ls| ==> ls[j].w != ls[i].w
    ensures Run(row, ls[..i]).Some?
    ensures |Committed(row, ls[..i])| <= |Committed(row, ls)|
    ensures ls[i].w in Run(row, ls).value.writers
    ensures Run(row, ls).value.writers[ls[i].w] == Pending(ls[i].cmd, Run(row, ls[..i]).value.row)
  {
    var front := ls[..|ls| - 1];
    if i < |front| {
      HeldSinceBegin(row, front, i);
      assert front[..i] == ls[..i];
    } else {
      assert front == ls[..i];
    }
  }

  /** A write succeeds exactly if no write of anybody has succeeded since its own read. */
  lemma CommitsExactlyWhen(row: Row, ls: seq<Label>, i: nat, now: int)
    requires Run(row, ls).Some? && i < |ls| && ls[i].Begin?
    requires forall j :: i < j < |ls| ==> ls[j].w != ls[i].w
    ensures Run(row, ls[..i]).Some?
    ensures Commits(Run(row, ls).value, Write(ls[i].w, now)) <==>
            |Committed(row, ls[..i])| == |Committed(row, ls)|
  {
    HeldSinceBegin(row, ls, i);
    WritesAreSequential(row, ls);
    WritesAreSequential(row, ls[..i]);
  }

  /** Mode changes keep what the latest other writer has written. */
  lemma {:induction false} OtherColumnsSurvive(row: Row, cs: seq<Commit>, i: nat)
    requires i <= |cs| && forall k :: i <= k < |cs| ==> cs[k].cmd.SetMode?
    ensures var a, b := Replay(row, cs[..i]), Replay(row, cs);
            b == a.(mode := b.mode, lastTransitionReason := b.lastTransitionReason,
                    stateVersion := b.stateVersion, updatedAt := b.updatedAt)
    ensures i < |cs| ==> Replay(row, cs).mode == cs[|cs| - 1].cmd.mode
  {
    if i < |cs| {
      OtherColumnsSurvive(row, cs[..|cs| - 1], i);
      assert cs[..|cs| - 1][..i] == cs[..i];
    } else {
      assert cs[..i] == cs;
    }
  }
}
