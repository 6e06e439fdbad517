/** Force-closing positions by a token or position prefix: which positions are touched, and
    what an interrupted command leaves when it is replayed. */
module ForceClose {
  import opened Sorting
  import opened Text
  import opened Trace
  import opened Wrappers
  import Filter

  /** details stands for the columns a force close copies unread. */
  datatype Position = Position(
    eventId: EventId, causationId: string, positionId: string, tokenAddress: string, chain: string,
    status: string, currentPrice: string, exitPrice: string, exitReason: string, exitedAt: string,
    snapshotAt: string, details: string)

  /** The arguments of the command; now is the clock, read if no snapshot time is given. */
  datatype Command = Command(issuer: string, target: string, snapshotAt: string, commandId: string, now: string)

  datatype Refusal = TargetRequired | ReadFailed | NothingMatches | MultipleTokens | InsertFailed(positionId: string)

  datatype Closed = Closed(positionIds: seq<string>, tokenAddress: string, chain: string)

  // ---- event identifiers -----------------------------------------------------------

  function Seed(positionId: string, issuer: string, key: string): string {
    "force_close|" + positionId + "|" + issuer + "|" + key
  }

  function At(c: Command): string {
    if c.snapshotAt == "" then c.now else c.snapshotAt
  }

  /** The event id a command gives the exit row of a position. */
  type Ident = string -> EventId

  function EventIdOf(digest: Digest, c: Command): Ident {
    positionId => digest(Seed(positionId, c.issuer, Key(c)))
  }

  function Key(c: Command): string {
    if c.commandId != "" then c.commandId else At(c)
  }

  lemma SeedTail(p: string, issuer: string, key: string)
    ensures var tail := "|" + issuer + "|" + key; var s := Seed(p, issuer, key);
            |s| == 12 + |p| + |tail| && s[12..12 + |p|] == p && s[12..] == p + tail
  {
    assert |"force_close|"| == 12;
  }

  /** One command gives different positions different identifiers. */
  lemma EventIdInjective(digest: Digest, c: Command)
    requires Injective(digest)
    ensures forall p, q :: EventIdOf(digest, c)(p) == EventIdOf(digest, c)(q) ==> p == q
  {
    var key := Key(c);
    forall p, q | EventIdOf(digest, c)(p) == EventIdOf(digest, c)(q)
      ensures p == q
    {
      SeedTail(p, c.issuer, key);
      SeedTail(q, c.issuer, key);
    }
  }

  /** Two commands share an identifier only for the same position, issuer and key, provided
      that positions and issuers contain no separator. */
  lemma SeedsDiffer(p: string, i: string, k: string, q: string, j: string, m: string)
    requires '|' !in p && '|' !in q && '|' !in i && '|' !in j
    ensures Seed(p, i, k) == Seed(q, j, m) <==> p == q && i == j && k == m
  {
    if Seed(p, i, k) == Seed(q, j, m) {
      SeedTail(p, i, k);
      SeedTail(q, j, m);
      assert p + ("|" + i + "|" + k) == p + "|" + (i + "|" + k);
      assert q + ("|" + j + "|" + m) == q + "|" + (j + "|" + m);
      SplitAt('|', p, q, i + "|" + k, j + "|" + m);
      SplitAt('|', i, j, k, m);
    }
  }

  /** With a separator in the issuer the seed can be read in two ways. */
  lemma SeedAmbiguous(p: string, i: string, j: string, k: string)
    ensures Seed(p, i + "|" + j, k) == Seed(p, i, j + "|" + k)
  {
    assert "force_close|" + p + "|" + (i + "|" + j) + "|" + k == "force_close|" + p + "|" + i + "|" + (j + "|" + k);
  }

  // ---- which positions ---------------------------------------------------------------

  predicate TokenMatches(p: Position, prefix: string) {
    prefix <= Lower(p.tokenAddress)
  }

  predicate PositionMatches(p: Position, prefix: string) {
    prefix <= Lower(p.positionId)
  }

  function ByToken(open: seq<Position>, prefix: string): seq<Position> {
    if open == [] then []
    else
      var p := open[|open| - 1];
      ByToken(open[..|open| - 1], prefix) + if TokenMatches(p, prefix) then [p] else []
  }

  function ByPosition(open: seq<Position>, prefix: string): seq<Position> {
    if open == [] then []
    else
      var p := open[|open| - 1];
      ByPosition(open[..|open| - 1], prefix) + if PositionMatches(p, prefix) then [p] else []
  }

  lemma {:induction false} ByTokenExact(open: seq<Position>, prefix: string, p: Position)
    ensures p in ByToken(open, prefix) <==> p in open && TokenMatches(p, prefix)
  {
    if open != [] {
      assert open == open[..|open| - 1] + [open[|open| - 1]];
      ByTokenExact(open[..|open| - 1], prefix, p);
    }
  }

  lemma {:induction false} ByPositionExact(open: seq<Position>, prefix: string, p: Position)
    ensures p in ByPosition(open, prefix) <==> p in open && PositionMatches(p, prefix)
  {
    if open != [] {
      assert open == open[..|open| - 1] + [open[|open| - 1]];
      ByPositionExact(open[..|open| - 1], prefix, p);
    }
  }

  lemma SelectionExact(open: seq<Position>, prefix: string)
    ensures forall p :: p in ByToken(open, prefix) <==> p in open && TokenMatches(p, prefix)
    ensures forall p :: p in ByPosition(open, prefix) <==> p in open && PositionMatches(p, prefix)
  {
    forall p
      ensures p in ByToken(open, prefix) <==> p in open && TokenMatches(p, prefix)
      ensures p in ByPosition(open, prefix) <==> p in open && PositionMatches(p, prefix)
    {
      ByTokenExact(open, prefix, p);
      ByPositionExact(open, prefix, p);
    }
  }

  /** Token prefixes first; position prefixes only if no token matches. */
  function Matching(open: seq<Position>, prefix: string): seq<Position> {
    if ByToken(open, prefix) != [] then ByToken(open, prefix) else ByPosition(open, prefix)
  }

  predicate OneToken(ps: seq<Position>) {
    forall i, j :: 0 <= i < |ps| && 0 <= j < |ps| ==> Lower(ps[i].tokenAddress) == Lower(ps[j].tokenAddress)
  }

  function Targets(open: seq<Position>, target: string): Result<seq<Position>, Refusal> {
    var prefix := Lower(Trim(target));
    var ps := Matching(open, prefix);
    if Trim(target) == "" then Failure(TargetRequired)
    else if ps == [] then Failure(NothingMatches)
    else if !OneToken(ps) then Failure(MultipleTokens)
    else Success(ps)
  }

  // ---- the rows ------------------------------------------------------------------------

  /** The positions table is append-only, keyed by event id. */
  type Table = map<EventId, Position>

  function Exit(ident: Ident, at: string, p: Position): Position {
    p.(status := "exited", exitReason := "MANUAL", exitedAt := at, snapshotAt := at,
       eventId := ident(p.positionId), causationId := p.eventId,
       exitPrice := if p.exitPrice == "" then p.currentPrice else p.exitPrice)
  }

  /** INSERT ... ON CONFLICT DO NOTHING. */
  function Inserted(t: Table, p: Position): Table {
    if p.eventId in t then t else t[p.eventId := p]
  }

  function InsertAll(ident: Ident, at: string, t: Table, ps: seq<Position>): Table {
    if ps == [] then t
    else Inserted(InsertAll(ident, at, t, ps[..|ps| - 1]), Exit(ident, at, ps[|ps| - 1]))
  }

  /** The table after the command c has got as far as inserting the rows of ps. */
  function Written(digest: Digest, c: Command, t: Table, ps: seq<Position>): Table {
    InsertAll(EventIdOf(digest, c), At(c), t, ps)
  }

  // ---- the outcome of a command, without the functions that compute it ----------------

  /** s begins with t, letter case aside. */
  predicate Starts(s: string, t: string) {
    |t| <= |s| && forall i :: 0 <= i < |t| ==> LowerChar(s[i]) == LowerChar(t[i])
  }

  function TokenStarts(t: string): Position -> bool {
    (p: Position) => Starts(p.tokenAddress, t)
  }

  function IdStarts(t: string): Position -> bool {
    (p: Position) => Starts(p.positionId, t)
  }

  predicate Same(p: Position, q: Position) { p == q }

  /** ps are the open positions whose token begins with t, in their order, or where there are
      none of these, those whose own id does. */
  ghost predicate Chosen(open: seq<Position>, t: string, ps: seq<Position>) {
    if exists p :: p in open && Starts(p.tokenAddress, t)
    then Filter.Keeps(open, TokenStarts(t), Same, ps)
    else Filter.Keeps(open, IdStarts(t), Same, ps)
  }

  /** row closes p for this command, column by column. */
  ghost predicate ExitRow(digest: Digest, c: Command, p: Position, row: Position) {
    var at := if c.snapshotAt != "" then c.snapshotAt else c.now;
    var key := if c.commandId != "" then c.commandId else at;
    && row.eventId == digest("force_close|" + p.positionId + "|" + c.issuer + "|" + key)
    && row.causationId == p.eventId
    && row.status == "exited" && row.exitReason == "MANUAL"
    && row.exitedAt == at && row.snapshotAt == at
    && (p.exitPrice != "" ==> row.exitPrice == p.exitPrice)
    && (p.exitPrice == "" ==> row.exitPrice == p.currentPrice)
    && row.positionId == p.positionId && row.tokenAddress == p.tokenAddress && row.chain == p.chain
    && row.currentPrice == p.currentPrice && row.details == p.details
  }

  ghost predicate ExitsOneOf(digest: Digest, c: Command, ps: seq<Position>, row: Position) {
    exists p :: p in ps && ExitRow(digest, c, p, row)
  }

  /** Nothing old is changed; each new row is the exit row of one of ps, and none of them is
      left without a row under its identifier. */
  ghost predicate AddsExits(digest: Digest, c: Command, before: Table, ps: seq<Position>, after: Table) {
    && (forall id :: id in before ==> id in after && after[id] == before[id])
    && (forall id :: id in after && id !in before ==>
          after[id].eventId == id && ExitsOneOf(digest, c, ps, after[id]))
    && (forall p :: p in ps ==> exists row :: ExitRow(digest, c, p, row) && row.eventId in after)
  }

  predicate SameTokens(ps: seq<Position>) {
    forall i, j :: 0 <= i < |ps| && 0 <= j < |ps| ==>
      Starts(ps[i].tokenAddress, ps[j].tokenAddress) && |ps[i].tokenAddress| == |ps[j].tokenAddress|
  }

  /** What becomes of the table, and the answer. */
  ghost predicate Closing(digest: Digest, c: Command, ps: seq<Position>, stopAt: nat, before: Table, after: Table,
                          r: Result<Closed, Refusal>) {
    if ps == [] then r == Failure(NothingMatches) && after == before
    else if !SameTokens(ps) then r == Failure(MultipleTokens) && after == before
    else if stopAt < |ps| then
      r == Failure(InsertFailed(ps[stopAt].positionId)) && AddsExits(digest, c, before, ps[..stopAt], after)
    else
      && AddsExits(digest, c, before, ps, after)
      && r.Success? && r.value.tokenAddress == ps[0].tokenAddress && r.value.chain == ps[0].chain
      && |r.value.positionIds| == |ps|
      && forall i :: 0 <= i < |ps| ==> r.value.positionIds[i] == ps[i].positionId
  }

  ghost predicate Outcome(digest: Digest, c: Command, open: Option<seq<Position>>, stopAt: nat, before: Table,
                          after: Table, r: Result<Closed, Refusal>) {
    exists t :: TrimmedTo(c.target, t) &&
      if t == "" then r == Failure(TargetRequired) && after == before
      else if open.None? then r == Failure(ReadFailed) && after == before
      else exists ps :: Chosen(open.value, t, ps) && Closing(digest, c, ps, stopAt, before, after, r)
  }

  /** What the command answers if its targets are these. */
  function Answer(c: Command, targets: Result<seq<Position>, Refusal>, stopAt: nat): Result<Closed, Refusal>
    requires targets.Success? ==> targets.value != []
  {
    if targets.Failure? then Failure(targets.error)
    else
      var ps := targets.value;
      if stopAt < |ps| then Failure(InsertFailed(ps[stopAt].positionId))
      else Success(Closed(PositionIds(ps), ps[0].tokenAddress, ps[0].chain))
  }

  function Rows(digest: Digest, c: Command, t: Table, targets: Result<seq<Position>, Refusal>, stopAt: nat): Table {
    if targets.Failure? then t
    else Written(digest, c, t, if stopAt < |targets.value| then targets.value[..stopAt] else targets.value)
  }

  lemma TargetsOutcome(digest: Digest, c: Command, open: seq<Position>, stopAt: nat, t: Table)
    requires Trim(c.target) != ""
    ensures var targets := Targets(open, c.target);
            && (targets.Success? ==> targets.value != [])
            && Outcome(digest, c, Some(open), stopAt, t, Rows(digest, c, t, targets, stopAt), Answer(c, targets, stopAt))
  {
    var target, targets := Trim(c.target), Targets(open, c.target);
    var ps := Matching(open, Lower(target));
    TrimExact(c.target);
    MatchingChosen(open, target);
    SameTokensExactly(ps);
    if targets.Success? {
      WrittenAddsExits(digest, c, t, if stopAt < |ps| then ps[..stopAt] else ps);
    }
    assert Closing(digest, c, ps, stopAt, t, Rows(digest, c, t, targets, stopAt), Answer(c, targets, stopAt));
  }

  lemma StartsExactly(s: string, t: string)
    ensures Starts(s, t) <==> Lower(t) <= Lower(s)
  {
    if Lower(t) <= Lower(s) {
      forall i | 0 <= i < |t| ensures LowerChar(s[i]) == LowerChar(t[i]) {
        assert Lower(s)[i] == Lower(t)[i];
      }
    }
  }

  lemma SameTokensExactly(ps: seq<Position>)
    ensures SameTokens(ps) <==> OneToken(ps)
  {
    forall i, j | 0 <= i < |ps| && 0 <= j < |ps|
      ensures Starts(ps[i].tokenAddress, ps[j].tokenAddress) && |ps[i].tokenAddress| == |ps[j].tokenAddress| <==>
              Lower(ps[i].tokenAddress) == Lower(ps[j].tokenAddress)
    {
      StartsExactly(ps[i].tokenAddress, ps[j].tokenAddress);
    }
  }

  lemma {:induction false} TokensKept(open: seq<Position>, t: string)
    ensures Filter.Keeps(open, TokenStarts(t), Same, ByToken(open, Lower(t)))
  {
    if open != [] {
      var front, p := open[..|open| - 1], open[|open| - 1];
      TokensKept(front, t);
      StartsExactly(p.tokenAddress, t);
      Filter.KeepsPush(front, TokenStarts(t), Same, ByToken(front, Lower(t)), p, p);
      assert open == front + [p];
    }
  }

  lemma {:induction false} IdsKept(open: seq<Position>, t: string)
    ensures Filter.Keeps(open, IdStarts(t), Same, ByPosition(open, Lower(t)))
  {
    if open != [] {
      var front, p := open[..|open| - 1], open[|open| - 1];
      IdsKept(front, t);
      StartsExactly(p.positionId, t);
      Filter.KeepsPush(front, IdStarts(t), Same, ByPosition(front, Lower(t)), p, p);
      assert open == front + [p];
    }
  }

  lemma MatchingChosen(open: seq<Position>, t: string)
    ensures Chosen(open, t, Matching(open, Lower(t)))
  {
    TokensKept(open, t);
    IdsKept(open, t);
    SelectionExact(open, Lower(t));
    var ps := ByToken(open, Lower(t));
    if ps != [] {
      assert ps[0] in ps;
      StartsExactly(ps[0].tokenAddress, t);
    }
    forall p | p in open && Starts(p.tokenAddress, t) ensures p in ps {
      StartsExactly(p.tokenAddress, t);
    }
  }

  lemma ExitIsExitRow(digest: Digest, c: Command, p: Position)
    ensures ExitRow(digest, c, p, Exit(EventIdOf(digest, c), At(c), p))
  {
    var at := if c.snapshotAt != "" then c.snapshotAt else c.now;
    var key := if c.commandId != "" then c.commandId else at;
    assert Key(c) == key;
    assert Seed(p.positionId, c.issuer, Key(c)) == "force_close|" + p.positionId + "|" + c.issuer + "|" + key;
  }

  lemma WrittenAddsExits(digest: Digest, c: Command, t: Table, ps: seq<Position>)
    ensures AddsExits(digest, c, t, ps, Written(digest, c, t, ps))
  {
    var after := Written(digest, c, t, ps);
    InsertAllAdds(EventIdOf(digest, c), At(c), t, ps);
    forall id | id in after && id !in t
      ensures after[id].eventId == id && ExitsOneOf(digest, c, ps, after[id])
    {
      var p :| p in ps && after[id] == Exit(EventIdOf(digest, c), At(c), p);
      ExitIsExitRow(digest, c, p);
    }
    forall p | p in ps ensures exists row :: ExitRow(digest, c, p, row) && row.eventId in after {
      ExitIsExitRow(digest, c, p);
    }
  }

  class PositionTable {
    var rows: Table

    constructor ()
      ensures rows == map[]
    {
      rows := map[];
    }

    method InsertPositionState(p: Position)
      modifies this
      ensures rows == Inserted(old(rows), p)
    {
      if p.eventId !in rows {
        rows := rows[p.eventId := p];
      }
    }

    /** One exit row after the other, stopping before insert number stopAt if there is one. */
    method InsertExits(ident: Ident, at: string, ps: seq<Position>, stopAt: nat) returns (closed: seq<string>)
      modifies this
      ensures var done := if stopAt < |ps| then stopAt else |ps|;
              rows == InsertAll(ident, at, old(rows), ps[..done]) && closed == PositionIds(ps[..done])
              && |closed| == done
    {
      closed := [];
      ghost var start := rows;
      for i := 0 to |ps|
        invariant i <= stopAt && |closed| == i
        invariant rows == InsertAll(ident, at, start, ps[..i])
        invariant closed == PositionIds(ps[..i])
      {
        if i == stopAt {
          return;
        }
        assert ps[..i + 1][..i] == ps[..i];
        InsertPositionState(Exit(ident, at, ps[i]));
        closed := closed + [ps[i].positionId];
      }
    }

    /** The command once its positions are chosen. */
    method CloseAll(digest: Digest, c: Command, ps: seq<Position>, stopAt: nat) returns (r: Result<Closed, Refusal>)
      requires ps != []
      modifies this
      ensures if stopAt < |ps|
              then rows == Written(digest, c, old(rows), ps[..stopAt]) && r == Failure(InsertFailed(ps[stopAt].positionId))
              else rows == Written(digest, c, old(rows), ps)
                   && r == Success(Closed(PositionIds(ps), ps[0].tokenAddress, ps[0].chain))
    {
      var closed := InsertExits(EventIdOf(digest, c), At(c), ps, stopAt);
      if |closed| < |ps| {
        return Failure(InsertFailed(ps[|closed|].positionId));
      }
      assert ps[..|ps|] == ps;
      r := Success(Closed(closed, ps[0].tokenAddress, ps[0].chain));
    }

    /** open is what GetOpenPositions answers; insert number stopAt fails, if there is one. */
    method ForceClosePositions(digest: Digest, c: Command, open: Option<seq<Position>>, stopAt: nat)
        returns (r: Result<Closed, Refusal>)
      modifies this
      ensures Trim(c.target) == "" ==> r == Failure(TargetRequired)
      ensures Trim(c.target) != "" && open.None? ==> r == Failure(ReadFailed)
      ensures open.None? || Targets(open.value, c.target).Failure? ==> rows == old(rows)
      ensures open.Some? && Targets(open.value, c.target).Failure? ==>
                r == Failure(Targets(open.value, c.target).error)
      ensures open.Some? && Targets(open.value, c.target).Success? ==>
                var ps := Targets(open.value, c.target).value;
                if stopAt < |ps|
                then rows == Written(digest, c, old(rows), ps[..stopAt]) && r == Failure(InsertFailed(ps[stopAt].positionId))
                else rows == Written(digest, c, old(rows), ps)
                     && r == Success(Closed(PositionIds(ps), ps[0].tokenAddress, ps[0].chain))
      ensures Outcome(digest, c, open, stopAt, old(rows), rows, r)
    {
      TrimExact(c.target);
      if Trim(c.target) == "" {
        return Failure(TargetRequired);
      }
      if open.None? {
        return Failure(ReadFailed);
      }
      TargetsOutcome(digest, c, open.value, stopAt, rows);
      var targets := SelectTargets(open.value, c.target);
      if targets.Failure? {
        return Failure(targets.error);
      }
      r := CloseAll(digest, c, targets.value, stopAt);
    }
  }

  function PositionIds(ps: seq<Position>): (ids: seq<string>)
    ensures |ids| == |ps| && forall i :: 0 <= i < |ps| ==> ids[i] == ps[i].positionId
  {
    if ps == [] then [] else PositionIds(ps[..|ps| - 1]) + [ps[|ps| - 1].positionId]
  }

  method SelectTargets(open: seq<Position>, target: string) returns (r: Result<seq<Position>, Refusal>)
    ensures r == Targets(open, target)
  {
    var trimmed := Trim(target);
    if trimmed == "" {
      return Failure(TargetRequired);
    }
    var ps := Select(open, Lower(trimmed));
    if ps == [] {
      return Failure(NothingMatches);
    }
    if !OneToken(ps) {
      return Failure(MultipleTokens);
    }
    r := Success(ps);
  }

  method Select(open: seq<Position>, prefix: string) returns (ps: seq<Position>)
    ensures ps == Matching(open, prefix)
  {
    ps := [];
    for i := 0 to |open|
      invariant ps == ByToken(open[..i], prefix)
    {
      assert open[..i + 1][..i] == open[..i];
      if TokenMatches(open[i], prefix) {
        ps := ps + [open[i]];
      }
    }
    assert open[..|open|] == open;
    if ps == [] {
      for i := 0 to |open|
        invariant ps == ByPosition(open[..i], prefix)
      {
        assert open[..i + 1][..i] == open[..i];
        if PositionMatches(open[i], prefix) {
          ps := ps + [open[i]];
        }
      }
    }
  }

  // ---- what a command adds -------------------------------------------------------------

  /** The positions differ in their position id. */
  ghost predicate OneRowEach(ps: seq<Position>) {
    forall p, q :: p in ps && q in ps && p.positionId == q.positionId ==> p == q
  }

  ghost predicate OneToOne(ident: Ident) {
    forall p, q :: ident(p) == ident(q) ==> p == q
  }

  /** The row closes one of ps. */
  ghost predicate Closes(ident: Ident, at: string, ps: seq<Position>, row: Position) {
    exists p :: p in ps && row == Exit(ident, at, p)
  }

  /** after is before with an exit row for each of ps, where its identifier was free. */
  ghost predicate Adds(ident: Ident, at: string, before: Table, ps: seq<Position>, after: Table) {
    && (forall id :: id in before ==> id in after && after[id] == before[id])
    && (forall p :: p in ps ==> ident(p.positionId) in after)
    && (forall id :: id in after && id !in before ==> after[id].eventId == id && Closes(ident, at, ps, after[id]))
  }

  lemma ClosesMore(ident: Ident, at: string, ps: seq<Position>, qs: seq<Position>, row: Position)
    requires Closes(ident, at, ps, row) && forall p :: p in ps ==> p in qs
    ensures Closes(ident, at, qs, row)
  {
  }

  lemma AddsOne(ident: Ident, at: string, t: Table, ps: seq<Position>, p: Position, mid: Table)
    requires Adds(ident, at, t, ps, mid)
    ensures Adds(ident, at, t, ps + [p], Inserted(mid, Exit(ident, at, p)))
  {
    var all, after := ps + [p], Inserted(mid, Exit(ident, at, p));
    assert p in all;
    forall id | id in after && id !in t
      ensures after[id].eventId == id && Closes(ident, at, all, after[id])
    {
      if id in mid {
        ClosesMore(ident, at, ps, all, mid[id]);
      }
    }
  }

  lemma {:induction false} InsertAllAdds(ident: Ident, at: string, t: Table, ps: seq<Position>)
    ensures Adds(ident, at, t, ps, InsertAll(ident, at, t, ps))
  {
    if ps != [] {
      var front, last := ps[..|ps| - 1], ps[|ps| - 1];
      InsertAllAdds(ident, at, t, front);
      AddsOne(ident, at, t, front, last, InsertAll(ident, at, t, front));
      assert ps == front + [last];
    }
  }

  lemma AddsIncluded(ident: Ident, at: string, t: Table, ps: seq<Position>, a: Table, b: Table, id: EventId)
    requires OneToOne(ident) && OneRowEach(ps)
    requires Adds(ident, at, t, ps, a) && Adds(ident, at, t, ps, b) && id in a
    ensures id in b && b[id] == a[id]
  {
    if id !in t {
      var p :| p in ps && a[id] == Exit(ident, at, p);
      assert id == ident(p.positionId);
      var q :| q in ps && b[id] == Exit(ident, at, q);
      assert id == ident(q.positionId);
    }
  }

  /** The added rows are determined. */
  lemma AddsUnique(ident: Ident, at: string, t: Table, ps: seq<Position>, a: Table, b: Table)
    requires OneToOne(ident) && OneRowEach(ps)
    requires Adds(ident, at, t, ps, a) && Adds(ident, at, t, ps, b)
    ensures a == b
  {
    forall id | id in a ensures id in b && b[id] == a[id] {
      AddsIncluded(ident, at, t, ps, a, b, id);
    }
    forall id | id in b ensures id in a {
      AddsIncluded(ident, at, t, ps, b, a, id);
    }
  }

  /** A part first and then a part that completes it. */
  lemma AddsInTwoGoes(ident: Ident, at: string, t: Table, ps: seq<Position>, qs: seq<Position>, all: seq<Position>,
                      mid: Table, end: Table)
    requires Adds(ident, at, t, ps, mid) && Adds(ident, at, mid, qs, end)
    requires forall p :: p in all <==> p in ps || p in qs
    ensures Adds(ident, at, t, all, end)
  {
    forall id | id in end && id !in t
      ensures end[id].eventId == id && Closes(ident, at, all, end[id])
    {
      if id in mid {
        ClosesMore(ident, at, ps, all, mid[id]);
      } else {
        ClosesMore(ident, at, qs, all, end[id]);
      }
    }
  }

  // ---- replay --------------------------------------------------------------------------

  /** The open positions of the replay: those of the first time, of which some that have been
      closed since may be missing. */
  ghost predicate Remaining(open: seq<Position>, again: seq<Position>, closed: seq<Position>) {
    && (forall p :: p in again ==> p in open)
    && (forall p :: p in open && p !in closed ==> p in again)
  }

  /** At least one of ps is on the list. */
  ghost predicate Listed(open: seq<Position>, ps: seq<Position>) {
    exists p :: p in ps && p in open
  }

  ghost predicate DistinctRows(ps: seq<Position>) {
    forall i, j :: 0 <= i < j < |ps| ==> ps[i] != ps[j]
  }

  lemma {:induction false} SelectionDistinct(open: seq<Position>, prefix: string)
    requires DistinctRows(open)
    ensures DistinctRows(ByToken(open, prefix)) && DistinctRows(ByPosition(open, prefix))
  {
    if open != [] {
      var front, last := open[..|open| - 1], open[|open| - 1];
      SelectionDistinct(front, prefix);
      SelectionExact(front, prefix);
    }
  }

  lemma NotYetClosed(ps: seq<Position>, k: nat, p: Position)
    requires DistinctRows(ps) && k <= |ps| && p in ps[k..]
    ensures p in ps && p !in ps[..k]
  {
    var i :| 0 <= i < |ps[k..]| && ps[k..][i] == p;
    assert ps[k + i] == p;
    forall j | 0 <= j < k ensures ps[..k][j] != p {
      assert ps[..k][j] == ps[j];
    }
  }

  /** The replay selects by the same rule as the first run: by token prefix if that did. */
  lemma SameRule(open: seq<Position>, again: seq<Position>, prefix: string, p: Position)
    requires forall q :: q in again ==> q in open
    requires p in Matching(open, prefix) && p in again
    ensures ByToken(open, prefix) != [] <==> ByToken(again, prefix) != []
  {
    SelectionExact(open, prefix);
    SelectionExact(again, prefix);
    assert p in ByToken(open, prefix) ==> p in ByToken(again, prefix);
    if ByToken(again, prefix) != [] {
      assert ByToken(again, prefix)[0] in ByToken(again, prefix);
      assert ByToken(again, prefix)[0] in ByToken(open, prefix);
    }
  }

  /** The replay selects from what the first run selected, and all that it did not close. */
  lemma ReplaySelects(open: seq<Position>, again: seq<Position>, prefix: string, k: nat)
    requires k <= |Matching(open, prefix)| && DistinctRows(open)
    requires Remaining(open, again, Matching(open, prefix)[..k])
    requires k < |Matching(open, prefix)| || Listed(again, Matching(open, prefix))
    ensures forall p :: p in Matching(again, prefix) ==> p in Matching(open, prefix)
    ensures forall p :: p in Matching(open, prefix)[k..] ==> p in Matching(again, prefix)
    ensures Matching(again, prefix) != []
  {
    var ps := Matching(open, prefix);
    SelectionDistinct(open, prefix);
    MatchingFromOpen(open, prefix);
    forall p | p in ps[k..] ensures p in ps && p in again {
      NotYetClosed(ps, k, p);
    }
    assert k < |ps| ==> ps[k..][0] in ps[k..];
    var p :| p in ps && p in again;
    SameRule(open, again, prefix, p);
    SelectionExact(open, prefix);
    SelectionExact(again, prefix);
    assert p in Matching(again, prefix);
  }

  lemma MatchingFromOpen(open: seq<Position>, prefix: string)
    ensures forall p :: p in Matching(open, prefix) ==> p in open
  {
    SelectionExact(open, prefix);
  }

  lemma OneTokenOfPart(ps: seq<Position>, qs: seq<Position>)
    requires OneToken(ps) && forall q :: q in qs ==> q in ps
    ensures OneToken(qs)
  {
    forall i, j | 0 <= i < |qs| && 0 <= j < |qs|
      ensures Lower(qs[i].tokenAddress) == Lower(qs[j].tokenAddress)
    {
      assert qs[i] in ps && qs[j] in ps;
    }
  }

  /** Rows of a part ps[..k] and then of a rest qs make the rows of ps. */
  lemma TwoGoes(ident: Ident, at: string, t: Table, ps: seq<Position>, k: nat, qs: seq<Position>)
    requires OneToOne(ident) && OneRowEach(ps) && k <= |ps|
    requires forall p :: p in qs ==> p in ps
    requires forall p :: p in ps[k..] ==> p in qs
    ensures InsertAll(ident, at, InsertAll(ident, at, t, ps[..k]), qs) == InsertAll(ident, at, t, ps)
  {
    TwoGoesAdd(ident, at, t, ps, k, qs);
    AddsIsInsertAll(ident, at, t, ps, InsertAll(ident, at, InsertAll(ident, at, t, ps[..k]), qs));
  }

  lemma TwoGoesAdd(ident: Ident, at: string, t: Table, ps: seq<Position>, k: nat, qs: seq<Position>)
    requires k <= |ps|
    requires forall p :: p in qs ==> p in ps
    requires forall p :: p in ps[k..] ==> p in qs
    ensures Adds(ident, at, t, ps, InsertAll(ident, at, InsertAll(ident, at, t, ps[..k]), qs))
  {
    var mid := InsertAll(ident, at, t, ps[..k]);
    InsertAllAdds(ident, at, t, ps[..k]);
    InsertAllAdds(ident, at, mid, qs);
    CoverBySplit(ps, k, qs);
    AddsInTwoGoes(ident, at, t, ps[..k], qs, ps, mid, InsertAll(ident, at, mid, qs));
  }

  lemma CoverBySplit(ps: seq<Position>, k: nat, qs: seq<Position>)
    requires k <= |ps|
    requires forall p :: p in qs ==> p in ps
    requires forall p :: p in ps[k..] ==> p in qs
    ensures forall p :: p in ps <==> p in ps[..k] || p in qs
  {
    assert ps == ps[..k] + ps[k..];
  }

  lemma AddsIsInsertAll(ident: Ident, at: string, t: Table, ps: seq<Position>, end: Table)
    requires OneToOne(ident) && OneRowEach(ps) && Adds(ident, at, t, ps, end)
    ensures end == InsertAll(ident, at, t, ps)
  {
    InsertAllAdds(ident, at, t, ps);
    AddsUnique(ident, at, t, ps, end, InsertAll(ident, at, t, ps));
  }

  /** A command that stopped after k inserts, replayed with the same command id and time
      while a match is still listed, leaves the same rows as one uninterrupted run, whether or
      not the store goes on listing positions that were closed. */
  lemma ReplayCompletes(digest: Digest, c: Command, t: Table, open: seq<Position>, again: seq<Position>, k: nat)
    requires Injective(digest) && OneRowEach(open) && DistinctRows(open)
    requires Targets(open, c.target).Success? && k <= |Targets(open, c.target).value|
    requires Remaining(open, again, Targets(open, c.target).value[..k])
    requires k < |Targets(open, c.target).value| || Listed(again, Targets(open, c.target).value)
    ensures Targets(again, c.target).Success?
    ensures Written(digest, c, Written(digest, c, t, Targets(open, c.target).value[..k]), Targets(again, c.target).value)
            == Written(digest, c, t, Targets(open, c.target).value)
  {
    var prefix := Lower(Trim(c.target));
    var ps, qs := Matching(open, prefix), Matching(again, prefix);
    ReplaySelects(open, again, prefix, k);
    OneTokenOfPart(ps, qs);
    MatchingFromOpen(open, prefix);
    EventIdInjective(digest, c);
    TwoGoes(EventIdOf(digest, c), At(c), t, ps, k, qs);
  }

  lemma TargetsAreOpen(open: seq<Position>, target: string)
    requires Targets(open, target).Success?
    ensures var ps := Targets(open, target).value;
            ps != [] && OneToken(ps) && forall p :: p in ps ==> p in open
  {
    MatchingFromOpen(open, Lower(Trim(target)));
  }

  /** after keeps the rows of before, and its other rows are exit rows of positions on the
      list, all of the given token. */
  ghost predicate ClosesOnly(digest: Digest, c: Command, before: Table, open: seq<Position>, token: string, after: Table) {
    && (forall id :: id in before ==> id in after && after[id] == before[id])
    && (forall id :: id in after && id !in before ==>
          Lower(after[id].tokenAddress) == token && ExitsOneOf(digest, c, open, after[id]))
  }

  lemma ExitsOneOfMore(digest: Digest, c: Command, qs: seq<Position>, open: seq<Position>, token: string, row: Position)
    requires ExitsOneOf(digest, c, qs, row)
    requires forall p :: p in qs ==> p in open && Lower(p.tokenAddress) == token
    ensures ExitsOneOf(digest, c, open, row) && Lower(row.tokenAddress) == token
  {
    var p :| p in qs && ExitRow(digest, c, p, row);
    assert p in open && row.tokenAddress == p.tokenAddress;
  }

  lemma NewRowsClose(digest: Digest, c: Command, t: Table, after: Table, open: seq<Position>, qs: seq<Position>, token: string)
    requires AddsExits(digest, c, t, qs, after)
    requires forall p :: p in qs ==> p in open && Lower(p.tokenAddress) == token
    ensures ClosesOnly(digest, c, t, open, token, after)
  {
    forall id | id in after && id !in t
      ensures Lower(after[id].tokenAddress) == token && ExitsOneOf(digest, c, open, after[id])
    {
      ExitsOneOfMore(digest, c, qs, open, token, after[id]);
    }
  }

  /** The rows of a command: nothing old is changed, and every new row closes an open
      position of one and the same token. */
  lemma OnlyOneTokenTouched(digest: Digest, c: Command, t: Table, open: seq<Position>, k: nat)
    requires Targets(open, c.target).Success? && k <= |Targets(open, c.target).value|
    ensures var ps := Targets(open, c.target).value;
            && ps != []
            && ClosesOnly(digest, c, t, open, Lower(ps[0].tokenAddress), Written(digest, c, t, ps[..k]))
  {
    TargetsAreOpen(open, c.target);
    var ps := Targets(open, c.target).value;
    forall p | p in ps[..k] ensures p in open && Lower(p.tokenAddress) == Lower(ps[0].tokenAddress) {
      assert p in ps;
    }
    WrittenAddsExits(digest, c, t, ps[..k]);
    NewRowsClose(digest, c, t, Written(digest, c, t, ps[..k]), open, ps[..k], Lower(ps[0].tokenAddress));
  }

  // ---- the listing of open positions -----------------------------------------------------

  /** What the Postgres engine lists: for each position with a row of status "open", its
      latest such row; rows of any other status are not looked at. */
  ghost predicate EngineLists(t: Table, open: seq<Position>) {
    && (forall p :: p in open ==> p.eventId in t && t[p.eventId] == p && p.status == "open")
    && (forall p, id :: p in open && id in t && t[id].status == "open" && t[id].positionId == p.positionId ==>
          AtMost(t[id].snapshotAt, p.snapshotAt))
    && (forall id :: id in t && t[id].status == "open" ==> Represented(open, t[id].positionId))
    && (forall i, j :: 0 <= i < j < |open| ==> open[i].positionId != open[j].positionId)
  }

  ghost predicate Represented(open: seq<Position>, positionId: string) {
    exists p :: p in open && p.positionId == positionId
  }

  lemma ExitsAreNotListed(t: Table, after: Table, open: seq<Position>)
    requires forall id :: id in t ==> id in after && after[id] == t[id]
    requires forall id :: id in after && id !in t ==> after[id].status != "open"
    ensures EngineLists(t, open) <==> EngineLists(after, open)
  {
  }

  lemma ExitsKeepListing(ident: Ident, at: string, t: Table, ps: seq<Position>, open: seq<Position>)
    ensures EngineLists(t, open) <==> EngineLists(InsertAll(ident, at, t, ps), open)
  {
    var after := InsertAll(ident, at, t, ps);
    InsertAllAdds(ident, at, t, ps);
    forall id | id in after && id !in t ensures after[id].status != "open" {
      var p :| p in ps && after[id] == Exit(ident, at, p);
      assert after[id].status == "exited";
      assert "exited"[0] != "open"[0];
    }
    ExitsAreNotListed(t, after, open);
  }

  /** A force close does not take a position off the engine's list: the same listings are
      right before and after it. */
  lemma EngineKeepsListing(digest: Digest, c: Command, t: Table, ps: seq<Position>, open: seq<Position>)
    ensures EngineLists(t, open) <==> EngineLists(Written(digest, c, t, ps), open)
  {
    ExitsKeepListing(EventIdOf(digest, c), At(c), t, ps, open);
  }

  /** What a force close writes under an identifier that was free. */
  lemma InsertedRow(ident: Ident, at: string, t: Table, ps: seq<Position>, p: Position)
    requires OneToOne(ident) && OneRowEach(ps) && p in ps && ident(p.positionId) !in t
    ensures var after := InsertAll(ident, at, t, ps);
            ident(p.positionId) in after && after[ident(p.positionId)] == Exit(ident, at, p)
  {
    var after, id := InsertAll(ident, at, t, ps), ident(p.positionId);
    InsertAllAdds(ident, at, t, ps);
    var q :| q in ps && after[id] == Exit(ident, at, q);
    assert ident(q.positionId) == id;
  }

  /** Two commands that name their rows differently, and no separator in the names. */
  predicate OtherIds(c: Command, d: Command) {
    '|' !in c.issuer && '|' !in d.issuer && (c.issuer != d.issuer || Key(c) != Key(d))
  }

  predicate Barless(ps: seq<Position>) {
    forall p :: p in ps ==> '|' !in p.positionId
  }

  lemma IdsDiffer(digest: Digest, c: Command, d: Command, p: string, q: string)
    requires Injective(digest) && OtherIds(c, d) && '|' !in p && '|' !in q
    ensures EventIdOf(digest, c)(p) != EventIdOf(digest, d)(q)
  {
    SeedsDiffer(p, c.issuer, Key(c), q, d.issuer, Key(d));
  }

  lemma StaysFree(ident: Ident, at: string, t: Table, ps: seq<Position>, id: EventId)
    requires id !in t && forall q :: q in ps ==> ident(q.positionId) != id
    ensures id !in InsertAll(ident, at, t, ps)
  {
    InsertAllAdds(ident, at, t, ps);
  }

  /** There is an exit row for p by either command. */
  ghost predicate ClosedTwice(ident: Ident, at: string, ident': Ident, at': string, p: Position, t: Table) {
    && ident(p.positionId) != ident'(p.positionId)
    && ident(p.positionId) in t && t[ident(p.positionId)] == Exit(ident, at, p)
    && ident'(p.positionId) in t && t[ident'(p.positionId)] == Exit(ident', at', p)
  }

  /** So a second command with another id, selecting from the same list, closes every match
      once more: there are two exit rows for each. */
  lemma SecondCommandClosesAgain(digest: Digest, c: Command, d: Command, t: Table, ps: seq<Position>, p: Position)
    requires Injective(digest) && OneRowEach(ps) && Barless(ps) && p in ps && OtherIds(c, d)
    requires EventIdOf(digest, c)(p.positionId) !in t && EventIdOf(digest, d)(p.positionId) !in t
    ensures ClosedTwice(EventIdOf(digest, c), At(c), EventIdOf(digest, d), At(d), p,
                        Written(digest, d, Written(digest, c, t, ps), ps))
  {
    EventIdInjective(digest, c);
    EventIdInjective(digest, d);
    forall q | q in ps ensures EventIdOf(digest, c)(q.positionId) != EventIdOf(digest, d)(p.positionId) {
      IdsDiffer(digest, c, d, q.positionId, p.positionId);
    }
    StaysFree(EventIdOf(digest, c), At(c), t, ps, EventIdOf(digest, d)(p.positionId));
    BothRows(EventIdOf(digest, c), At(c), EventIdOf(digest, d), At(d), t, ps, p);
  }

  lemma BothRows(ident: Ident, at: string, ident': Ident, at': string, t: Table, ps: seq<Position>, p: Position)
    requires OneToOne(ident) && OneToOne(ident') && OneRowEach(ps) && p in ps
    requires ident(p.positionId) != ident'(p.positionId)
    requires ident(p.positionId) !in t && ident'(p.positionId) !in InsertAll(ident, at, t, ps)
    ensures ClosedTwice(ident, at, ident', at', p, InsertAll(ident', at', InsertAll(ident, at, t, ps), ps))
  {
    InsertedRow(ident, at, t, ps, p);
    InsertedRow(ident', at', InsertAll(ident, at, t, ps), ps, p);
    InsertAllAdds(ident', at', InsertAll(ident, at, t, ps), ps);
  }

  /** With a store that takes closed positions off its list, as the adapter's contract has it:
      once all matches of a token prefix are closed, the same command falls back to position
      prefixes, and the replay is free to close other positions. The Postgres engine keeps
      them on the list. */
  lemma ReplayAfterCompletionWidens(open: seq<Position>, again: seq<Position>, prefix: string)
    requires ByToken(open, prefix) != []
    requires forall p :: p in again <==> p in open && p !in ByToken(open, prefix)
    ensures Matching(again, prefix) == ByPosition(again, prefix)
    ensures forall p :: p in Matching(again, prefix) <==>
              p in open && !TokenMatches(p, prefix) && PositionMatches(p, prefix)
  {
    SelectionExact(open, prefix);
    SelectionExact(again, prefix);
    assert |ByToken(again, prefix)| > 0 ==> ByToken(again, prefix)[0] in ByToken(again, prefix);
  }

  function Sample(positionId: string, token: string): Position {
    Position("e", "", positionId, token, "solana", "open", "1", "", "", "", "", "")
  }

  lemma SelectOne(p: Position, prefix: string)
    ensures ByToken([p], prefix) == if TokenMatches(p, prefix) then [p] else []
    ensures ByPosition([p], prefix) == if PositionMatches(p, prefix) then [p] else []
  {
    assert [p][..0] == [];
    assert ByToken([], prefix) == [] && ByPosition([], prefix) == [];
  }

  lemma SelectTwo(p: Position, q: Position, prefix: string)
    requires TokenMatches(p, prefix) && !TokenMatches(q, prefix) && PositionMatches(q, prefix)
    ensures Matching([p, q], prefix) == [p] && Matching([q], prefix) == [q]
  {
    SelectOne(p, prefix);
    SelectOne(q, prefix);
    assert [p, q][..1] == [p];
  }

  lemma SamplePrefixes(p: Position, q: Position)
    requires p == Sample("7f", "abc") && q == Sample("ab", "xyz")
    ensures TokenMatches(p, "ab") && !TokenMatches(q, "ab") && PositionMatches(q, "ab")
  {
    assert Lower("abc")[..2] == "ab";
    assert Lower("xyz")[0] == 'x' && "ab"[0] == 'a';
    assert Lower("ab") == "ab";
  }

  lemma SampleTarget()
    ensures Trim("ab") == "ab" && Lower("ab") == "ab" && "ab" != ""
  {
    assert "ab"[0] == 'a' && "ab"[1] == 'b' && |"ab"| == 2;
    assert TrimLeft("ab") == "ab";
    assert TrimRight("ab") == "ab";
  }

  /** Two open positions: "ab" first closes the one of the token abc; with that gone from the
      list, it selects the position of another token whose own id begins with ab. */
  lemma WideningHappens(p: Position, q: Position)
    requires p == Sample("7f", "abc") && q == Sample("ab", "xyz")
    ensures Targets([p, q], "ab") == Success([p]) && Targets([q], "ab") == Success([q])
    ensures Lower(p.tokenAddress) != Lower(q.tokenAddress)
  {
    SampleTarget();
    SamplePrefixes(p, q);
    SelectTwo(p, q, "ab");
    assert OneToken([p]) && OneToken([q]);
    assert Lower("abc")[0] == 'a' && Lower("xyz")[0] == 'x';
  }
}
