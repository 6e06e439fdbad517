/** The migration runner: pending files in name order, each executed and then recorded,
    over any number of runs that may stop anywhere. */
module Migrations {
  import opened Wrappers
  import opened Sorting

  datatype Dirent = Dirent(name: string, isDir: bool)

  /** What becomes of one file: nothing (it cannot be read, or its SQL fails and is rolled
      back, or the process stops before it); executed but not recorded; recorded, with an
      error or a stop right after; recorded. */
  datatype Fate = NoEffect | Unrecorded | RecordedThenStopped | Applied

  /** What the environment supplies to one run. The lookups named in spurious fail although
      their row exists. */
  datatype Env = Env(tableReady: bool, listing: Option<seq<Dirent>>, spurious: set<string>, fate: string -> Fate)

  /** recorded is the _migrations table; executed is the log of the files whose SQL took
      effect. */
  datatype State = State(recorded: set<string>, executed: seq<string>)

  const Fresh: State := State({}, [])

  predicate IsMigration(name: string) {
    |name| >= 4 && name[|name| - 4..] == ".sql"
  }

  /** The file name without its suffix. */
  function Id(name: string): string {
    if IsMigration(name) then name[..|name| - 4] else name
  }

  lemma IdInjective(a: string, b: string)
    requires IsMigration(a) && IsMigration(b) && Id(a) == Id(b)
    ensures a == b
  {
    assert a == Id(a) + ".sql" && b == Id(b) + ".sql";
  }

  function Names(entries: seq<Dirent>): seq<string> {
    if entries == [] then []
    else
      var e := entries[|entries| - 1];
      Names(entries[..|entries| - 1]) + if !e.isDir && IsMigration(e.name) then [e.name] else []
  }

  function Files(entries: seq<Dirent>): seq<string> {
    SortStrings(Names(entries))
  }

  function Pending(files: seq<string>, recorded: set<string>, spurious: set<string>): seq<string> {
    if files == [] then []
    else
      var f := files[|files| - 1];
      Pending(files[..|files| - 1], recorded, spurious) +
      if Id(f) !in recorded || Id(f) in spurious then [f] else []
  }

  function ApplyFile(s: State, f: string, fate: Fate): State {
    match fate
    case NoEffect => s
    case Unrecorded => s.(executed := s.executed + [f])
    case _ => State(s.recorded + {Id(f)}, s.executed + [f])
  }

  /** The files in turn until one does not end well. */
  function ApplyAll(s: State, files: seq<string>, fate: string -> Fate): (r: (State, bool)) {
    if files == [] then (s, true)
    else
      var before := ApplyAll(s, files[..|files| - 1], fate);
      var f := files[|files| - 1];
      if !before.1 then before else (ApplyFile(before.0, f, fate(f)), fate(f) == Applied)
  }

  function RunOnce(s: State, e: Env): (State, bool) {
    if !e.tableReady || e.listing.None? then (s, false)
    else ApplyAll(s, Pending(Files(e.listing.value), s.recorded, e.spurious), e.fate)
  }

  predicate ListedOnce(entries: seq<Dirent>) {
    forall i, j :: 0 <= i < j < |entries| ==> entries[i].name != entries[j].name
  }

  /** The .sql files among the entries whose row is missing or not found, in name order, and
      each once if it is listed once. */
  ghost predicate Awaiting(entries: seq<Dirent>, recorded: set<string>, spurious: set<string>, pending: seq<string>) {
    && (forall f :: f in pending <==>
          && Dirent(f, false) in entries && |f| >= 4 && f[|f| - 4..] == ".sql"
          && (f[..|f| - 4] !in recorded || f[..|f| - 4] in spurious))
    && InNameOrder(pending)
    && (ListedOnce(entries) ==> Distinct(pending))
  }

  /** The log goes on with files in name order: a file whose name is smaller at the first
      difference is executed before the other. */
  ghost predicate Continues(log: seq<string>, more: seq<string>) {
    log <= more && InNameOrder(more[|log|..])
  }

  lemma {:induction false} StoppedStays(s: State, files: seq<string>, fate: string -> Fate, k: nat)
    requires k <= |files| && !ApplyAll(s, files[..k], fate).1
    ensures ApplyAll(s, files, fate) == ApplyAll(s, files[..k], fate)
  {
    if k == |files| {
      assert files[..k] == files;
    } else {
      assert files[..|files| - 1][..k] == files[..k];
      StoppedStays(s, files[..|files| - 1], fate, k);
    }
  }

  class MigrationRunner {
    var recorded: set<string>
    ghost var executed: seq<string>

    ghost function Contents(): State
      reads this
    {
      State(recorded, executed)
    }

    constructor ()
      ensures Contents() == Fresh
    {
      recorded := {};
      executed := [];
    }

    /** The .sql files of the directory whose lookup finds no row, in name order, each once
        if the directory lists it once. */
    method PendingFiles(entries: seq<Dirent>, spurious: set<string>) returns (pending: seq<string>)
      ensures pending == Pending(Files(entries), recorded, spurious)
      ensures Awaiting(entries, recorded, spurious, pending)
    {
      var all: seq<string> := [];
      for i := 0 to |entries|
        invariant all == Names(entries[..i])
      {
        assert entries[..i + 1][..i] == entries[..i];
        if !entries[i].isDir && IsMigration(entries[i].name) {
          all := all + [entries[i].name];
        }
      }
      assert entries[..|entries|] == entries;
      all := SortStrings(all);
      pending := [];
      for i := 0 to |all|
        invariant pending == Pending(all[..i], recorded, spurious)
      {
        assert all[..i + 1][..i] == all[..i];
        if Id(all[i]) !in recorded || Id(all[i]) in spurious {
          pending := pending + [all[i]];
        }
      }
      assert all[..|all|] == all;
      PendingAreFiles(entries, recorded, spurious);
    }

    /** Executes the SQL, then inserts the row, with "on conflict do nothing". */
    method Apply(f: string, fate: Fate) returns (ok: bool)
      modifies this
      ensures Contents() == ApplyFile(old(Contents()), f, fate) && (ok <==> fate == Applied)
      ensures executed == if fate.NoEffect? then old(executed) else old(executed) + [f]
      ensures recorded == if fate.NoEffect? || fate.Unrecorded? then old(recorded) else old(recorded) + {Id(f)}
    {
      if fate == NoEffect {
        return false;
      }
      executed := executed + [f];
      if fate == Unrecorded {
        return false;
      }
      recorded := recorded + {Id(f)};
      ok := fate == Applied;
    }

    method Run(e: Env) returns (ok: bool)
      modifies this
      ensures (Contents(), ok) == RunOnce(old(Contents()), e)
      ensures !e.tableReady || e.listing.None? ==> !ok && Contents() == old(Contents())
      ensures Continues(old(executed), executed)
    {
      RunInNameOrder(Contents(), e);
      if !e.tableReady || e.listing.None? {
        return false;
      }
      var files := PendingFiles(e.listing.value, e.spurious);
      ok := ApplyInTurn(files, e.fate);
    }

    /** The loop of Run: each file in turn, until one does not end well. */
    method ApplyInTurn(files: seq<string>, fate: string -> Fate) returns (ok: bool)
      modifies this
      ensures (Contents(), ok) == ApplyAll(old(Contents()), files, fate)
    {
      ghost var start := Contents();
      for i := 0 to |files|
        invariant (Contents(), true) == ApplyAll(start, files[..i], fate)
      {
        assert files[..i + 1][..i] == files[..i];
        ok := Apply(files[i], fate(files[i]));
        if !ok {
          StoppedStays(start, files, fate, i + 1);
          return;
        }
      }
      assert files[..|files|] == files;
      ok := true;
    }
  }

  // ---- one run without an error -------------------------------------------------

  lemma {:induction false} NamesAreMigrations(entries: seq<Dirent>)
    ensures forall f :: f in Names(entries) <==> IsMigration(f) && Dirent(f, false) in entries
  {
    if entries != [] {
      var front, e := entries[..|entries| - 1], entries[|entries| - 1];
      assert entries == front + [e];
      NamesAreMigrations(front);
    }
  }

  lemma FilesAreMigrations(entries: seq<Dirent>)
    ensures forall f :: f in Files(entries) <==> IsMigration(f) && Dirent(f, false) in entries
  {
    NamesAreMigrations(entries);
    SortStringsSorts(Names(entries));
    forall f ensures f in Files(entries) <==> f in Names(entries) {
      SameMembers(Files(entries), Names(entries), f);
    }
  }

  lemma {:induction false} PendingMembers(files: seq<string>, recorded: set<string>, spurious: set<string>, f: string)
    ensures f in Pending(files, recorded, spurious) <==> f in files && (Id(f) !in recorded || Id(f) in spurious)
  {
    if files != [] {
      var front := files[..|files| - 1];
      assert files == front + [files[|files| - 1]];
      PendingMembers(front, recorded, spurious, f);
    }
  }

  lemma {:induction false} NamesDistinct(entries: seq<Dirent>)
    requires ListedOnce(entries)
    ensures Distinct(Names(entries))
  {
    if entries != [] {
      var front, e := entries[..|entries| - 1], entries[|entries| - 1];
      NamesDistinct(front);
      NamesAreMigrations(front);
    }
  }

  lemma {:induction false} PendingKeepsOrder(files: seq<string>, recorded: set<string>, spurious: set<string>)
    ensures Ordered(files, AtMost) ==> Ordered(Pending(files, recorded, spurious), AtMost)
    ensures Distinct(files) ==> Distinct(Pending(files, recorded, spurious))
  {
    if files != [] {
      var front, f := files[..|files| - 1], files[|files| - 1];
      PendingKeepsOrder(front, recorded, spurious);
      var done := Pending(front, recorded, spurious);
      forall i | 0 <= i < |done|
        ensures Ordered(files, AtMost) ==> AtMost(done[i], f)
        ensures Distinct(files) ==> done[i] != f
      {
        PendingMembers(front, recorded, spurious, done[i]);
        var k :| 0 <= k < |front| && front[k] == done[i];
        assert files[k] == done[i];
      }
    }
  }

  lemma PendingAreFiles(entries: seq<Dirent>, recorded: set<string>, spurious: set<string>)
    ensures Awaiting(entries, recorded, spurious, Pending(Files(entries), recorded, spurious))
  {
    var pending := Pending(Files(entries), recorded, spurious);
    FilesAreMigrations(entries);
    forall f
      ensures f in pending <==> IsMigration(f) && Dirent(f, false) in entries && (Id(f) !in recorded || Id(f) in spurious)
    {
      PendingMembers(Files(entries), recorded, spurious, f);
    }
    SortStringsSorts(Names(entries));
    PendingKeepsOrder(Files(entries), recorded, spurious);
    InNameOrderExactly(pending);
    if ListedOnce(entries) {
      NamesDistinct(entries);
      SortedDistinct(Names(entries));
    }
  }

  /** However it ends, a pass executes the first so many of its files. */
  lemma {:induction false} PassExecutes(s: State, files: seq<string>, fate: string -> Fate) returns (m: nat)
    ensures m <= |files| && ApplyAll(s, files, fate).0.executed == s.executed + files[..m]
    ensures ApplyAll(s, files, fate).1 ==> m == |files|
  {
    if files == [] {
      m := 0;
    } else {
      var front, f := files[..|files| - 1], files[|files| - 1];
      m := PassExecutes(s, front, fate);
      assert front[..m] == files[..m];
      if ApplyAll(s, front, fate).1 && fate(f) != NoEffect {
        m := |files|;
        assert files[..m] == front + [f];
      }
    }
  }

  /** Every run executes its files in name order, however it ends. */
  lemma RunInNameOrder(s: State, e: Env)
    ensures Continues(s.executed, RunOnce(s, e).0.executed)
  {
    var t := RunOnce(s, e).0;
    if e.tableReady && e.listing.Some? {
      var files := Pending(Files(e.listing.value), s.recorded, e.spurious);
      var m := PassExecutes(s, files, e.fate);
      PendingAreFiles(e.listing.value, s.recorded, e.spurious);
      InNameOrderFront(files, m);
      assert t.executed[|s.executed|..] == files[..m];
    } else {
      assert s.executed[|s.executed|..] == [];
    }
  }

  lemma InNameOrderFront(xs: seq<string>, m: nat)
    requires InNameOrder(xs) && m <= |xs|
    ensures InNameOrder(xs[..m])
  {
    forall i, j | 0 <= i < j < m
      ensures xs[..m][i] <= xs[..m][j] || exists k: nat :: Smaller(xs[..m][i], xs[..m][j], k)
    {
      assert xs[i] <= xs[j] || exists k: nat :: Smaller(xs[i], xs[j], k);
    }
  }

  lemma {:induction false} CleanPass(s: State, files: seq<string>, fate: string -> Fate)
    requires ApplyAll(s, files, fate).1
    ensures var t := ApplyAll(s, files, fate).0;
            && t.executed == s.executed + files
            && s.recorded <= t.recorded
            && forall f :: f in files ==> Id(f) in t.recorded
  {
    if files != [] {
      var front := files[..|files| - 1];
      assert files == front + [files[|files| - 1]];
      CleanPass(s, front, fate);
    }
  }

  /** A run that returns no error leaves every migration file of the directory recorded,
      whatever was recorded or executed before and whichever lookups failed. It executes
      exactly the files whose lookup found no row, in name order. */
  lemma CleanRunRecordsAll(s: State, e: Env)
    requires RunOnce(s, e).1
    ensures e.listing.Some?
    ensures forall f :: IsMigration(f) && Dirent(f, false) in e.listing.value ==> Id(f) in RunOnce(s, e).0.recorded
    ensures RunOnce(s, e).0.executed == s.executed + Pending(Files(e.listing.value), s.recorded, e.spurious)
    ensures Awaiting(e.listing.value, s.recorded, e.spurious, Pending(Files(e.listing.value), s.recorded, e.spurious))
  {
    PendingAreFiles(e.listing.value, s.recorded, e.spurious);
    var files := Files(e.listing.value);
    FilesAreMigrations(e.listing.value);
    CleanPass(s, Pending(files, s.recorded, e.spurious), e.fate);
    forall f | f in files ensures Id(f) in RunOnce(s, e).0.recorded {
      PendingMembers(files, s.recorded, e.spurious, f);
    }
  }

  /** A lookup that fails for any other reason reads as "not applied": a run without an
      error executes a recorded migration again exactly if its lookup failed spuriously. */
  lemma SpuriousLookupRepeats(s: State, e: Env, f: string)
    requires RunOnce(s, e).1 && f in Files(e.listing.value) && Id(f) in s.recorded
    ensures |s.executed| <= |RunOnce(s, e).0.executed|
    ensures f in RunOnce(s, e).0.executed[|s.executed|..] <==> Id(f) in e.spurious
  {
    CleanRunRecordsAll(s, e);
    PendingMembers(Files(e.listing.value), s.recorded, e.spurious, f);
    assert RunOnce(s, e).0.executed[|s.executed|..] == Pending(Files(e.listing.value), s.recorded, e.spurious);
  }

  // ---- runs over a directory that only grows at its end -----------------------------

  /** The final list of the directory: ascending and without repetition. */
  ghost predicate Catalogue(all: seq<string>) {
    && (forall i :: 0 <= i < |all| ==> IsMigration(all[i]))
    && (forall i, j {:trigger Differ(all[i], all[j])} :: 0 <= i < j < |all| ==> Differ(all[i], all[j]))
  }

  predicate Differ(f: string, g: string) { f != g }

  function Ids(files: seq<string>): set<string> {
    set i | 0 <= i < |files| :: Id(files[i])
  }

  /** The log with immediate repetitions of a file taken out. */
  function Collapsed(log: seq<string>): seq<string> {
    if log == [] then []
    else
      var front, f := log[..|log| - 1], log[|log| - 1];
      if front != [] && front[|front| - 1] == f then Collapsed(front) else Collapsed(front) + [f]
  }

  lemma {:induction false} CollapsedLast(log: seq<string>)
    requires log != []
    ensures Collapsed(log) != [] && Collapsed(log)[|Collapsed(log)| - 1] == log[|log| - 1]
  {
    if |log| > 1 {
      CollapsedLast(log[..|log| - 1]);
    }
  }

  lemma CollapsedPush(log: seq<string>, f: string)
    ensures Collapsed(log + [f]) ==
            if log != [] && log[|log| - 1] == f then Collapsed(log) else Collapsed(log) + [f]
  {
    var all := log + [f];
    assert all[..|all| - 1] == log && all[|all| - 1] == f;
  }

  /** With the first n files present: the first m are recorded and no others, and the
      executions, repetitions aside, are those m files in order, perhaps with the next one. */
  ghost predicate Resumable(s: State, all: seq<string>, n: nat, m: nat) {
    && m <= n <= |all|
    && s.recorded == Ids(all[..m])
    && (Collapsed(s.executed) == all[..m] || (m < n && Collapsed(s.executed) == all[..m + 1]))
  }

  lemma IdsStep(all: seq<string>, m: nat)
    requires m < |all|
    ensures Ids(all[..m]) + {Id(all[m])} == Ids(all[..m + 1])
  {
    var a, b := all[..m], all[..m + 1];
    forall i | 0 <= i < m ensures Id(a[i]) in Ids(b) {
      assert b[i] == a[i];
    }
    assert b[m] == all[m];
    forall i | 0 <= i < m + 1 ensures Id(b[i]) in Ids(a) + {Id(all[m])} {
      assert i < m ==> b[i] == a[i];
    }
  }

  lemma ExecuteNext(s: State, all: seq<string>, n: nat, m: nat)
    requires Catalogue(all) && Resumable(s, all, n, m) && m < n
    ensures Collapsed(s.executed + [all[m]]) == all[..m + 1]
  {
    assert m > 0 ==> Differ(all[m - 1], all[m]);
    CollapsedPush(s.executed, all[m]);
    assert all[..m] + [all[m]] == all[..m + 1];
    if s.executed != [] {
      CollapsedLast(s.executed);
    }
  }

  lemma ApplyNext(s: State, all: seq<string>, n: nat, m: nat, fate: Fate) returns (m': nat)
    requires Catalogue(all) && Resumable(s, all, n, m) && m < n
    ensures m <= m' <= m + 1 && Resumable(ApplyFile(s, all[m], fate), all, n, m')
    ensures fate == Applied ==> m' == m + 1
  {
    ExecuteNext(s, all, n, m);
    IdsStep(all, m);
    m' := if fate == NoEffect || fate == Unrecorded then m else m + 1;
  }

  lemma ApplyAllPush(s: State, files: seq<string>, f: string, fate: string -> Fate)
    ensures var before := ApplyAll(s, files, fate);
            ApplyAll(s, files + [f], fate) ==
              if !before.1 then before else (ApplyFile(before.0, f, fate(f)), fate(f) == Applied)
  {
    assert (files + [f])[..|files|] == files;
  }

  lemma PassOneMore(s: State, all: seq<string>, n: nat, m: nat, k: nat, fate: string -> Fate, m0: nat)
      returns (m': nat)
    requires Catalogue(all) && m <= m0 <= k < n <= |all|
    requires Resumable(ApplyAll(s, all[m..k], fate).0, all, n, m0) && (ApplyAll(s, all[m..k], fate).1 ==> m0 == k)
    ensures m0 <= m' <= k + 1 && Resumable(ApplyAll(s, all[m..k + 1], fate).0, all, n, m')
    ensures ApplyAll(s, all[m..k + 1], fate).1 ==> m' == k + 1
  {
    assert all[m..k + 1] == all[m..k] + [all[k]];
    ApplyAllPush(s, all[m..k], all[k], fate);
    var before := ApplyAll(s, all[m..k], fate);
    if before.1 {
      m' := ApplyNext(before.0, all, n, k, fate(all[k]));
    } else {
      m' := m0;
    }
  }

  lemma {:induction false} PassKeepsResumable(s: State, all: seq<string>, n: nat, m: nat, k: nat, fate: string -> Fate)
      returns (m': nat)
    requires Catalogue(all) && Resumable(s, all, n, m) && m <= k <= n
    ensures m <= m' <= k && Resumable(ApplyAll(s, all[m..k], fate).0, all, n, m')
    ensures ApplyAll(s, all[m..k], fate).1 ==> m' == k
    decreases k
  {
    if k == m {
      m' := m;
    } else {
      m' := PassKeepsResumable(s, all, n, m, k - 1, fate);
      m' := PassOneMore(s, all, n, m, k - 1, fate, m');
    }
  }

  lemma {:induction false} PendingIsRest(all: seq<string>, n: nat, m: nat)
    requires Catalogue(all) && m <= n <= |all|
    ensures Pending(all[..n], Ids(all[..m]), {}) == all[m..n]
    decreases n
  {
    if n == m {
      AllRecorded(all, m, m);
    } else {
      PendingIsRest(all, n - 1, m);
      NotRecorded(all, m, n - 1);
      PendingPush(all[..n - 1], all[n - 1], Ids(all[..m]), {});
      assert all[..n] == all[..n - 1] + [all[n - 1]];
      assert all[m..n] == all[m..n - 1] + [all[n - 1]];
    }
  }

  lemma PendingPush(files: seq<string>, f: string, recorded: set<string>, spurious: set<string>)
    ensures Pending(files + [f], recorded, spurious) ==
            Pending(files, recorded, spurious) + if Id(f) !in recorded || Id(f) in spurious then [f] else []
  {
    assert (files + [f])[..|files|] == files;
  }

  lemma NotRecorded(all: seq<string>, m: nat, k: nat)
    requires Catalogue(all) && m <= k < |all|
    ensures Id(all[k]) !in Ids(all[..m])
  {
    if Id(all[k]) in Ids(all[..m]) {
      var i :| 0 <= i < m && Id(all[..m][i]) == Id(all[k]);
      assert Differ(all[i], all[k]);
      IdInjective(all[i], all[k]);
    }
  }

  lemma {:induction false} AllRecorded(all: seq<string>, m: nat, k: nat)
    requires k <= m <= |all|
    ensures Pending(all[..k], Ids(all[..m]), {}) == []
    decreases k
  {
    if k > 0 {
      AllRecorded(all, m, k - 1);
      PendingPush(all[..k - 1], all[k - 1], Ids(all[..m]), {});
      assert all[..k] == all[..k - 1] + [all[k - 1]];
      assert all[..m][k - 1] == all[k - 1];
    }
  }

  /** A run sees the first n files of the catalogue, or cannot list them. */
  ghost predicate Sees(e: Env, all: seq<string>, n: nat) {
    && n <= |all|
    && (e.listing.Some? ==> Files(e.listing.value) == all[..n])
  }

  /** Files are only ever added after all present ones. */
  ghost predicate Appending(envs: seq<Env>, sizes: seq<nat>, all: seq<string>) {
    && |sizes| == |envs|
    && (forall k :: 0 <= k < |envs| ==> Sees(envs[k], all, sizes[k]))
    && (forall j, k :: 0 <= j < k < |sizes| ==> sizes[j] <= sizes[k])
  }

  predicate TrueLookups(envs: seq<Env>) {
    forall k :: 0 <= k < |envs| ==> envs[k].spurious == {}
  }

  function AfterRuns(envs: seq<Env>): State {
    if envs == [] then Fresh else RunOnce(AfterRuns(envs[..|envs| - 1]), envs[|envs| - 1]).0
  }

  function Last(sizes: seq<nat>): nat {
    if sizes == [] then 0 else sizes[|sizes| - 1]
  }

  lemma AppendingFront(envs: seq<Env>, sizes: seq<nat>, all: seq<string>)
    requires Appending(envs, sizes, all) && envs != []
    ensures Appending(envs[..|envs| - 1], sizes[..|envs| - 1], all)
    ensures Sees(envs[|envs| - 1], all, Last(sizes)) && Last(sizes[..|envs| - 1]) <= Last(sizes) <= |all|
  {
  }

  // ---- whatever the lookups say ------------------------------------------------------

  /** The first m files are recorded, no others, and have been executed; besides them at most
      the next one has been. */
  ghost predicate Prefixed(s: State, all: seq<string>, n: nat, m: nat) {
    && m <= n <= |all|
    && s.recorded == Ids(all[..m])
    && (forall f :: f in all[..m] ==> f in s.executed)
    && (forall f :: f in s.executed ==> f in all[..m] || (m < n && f == all[m]))
  }

  lemma PrefixGrows(all: seq<string>, m: nat)
    requires m < |all|
    ensures forall f :: f in all[..m + 1] <==> f in all[..m] || f == all[m]
  {
    assert all[..m + 1] == all[..m] + [all[m]];
  }

  /** A file that is recorded already is executed once more and recorded again. */
  lemma AgainKeepsPrefixed(s: State, all: seq<string>, n: nat, m: nat, k: nat, fate: Fate)
    requires Prefixed(s, all, n, m) && k < m
    ensures Prefixed(ApplyFile(s, all[k], fate), all, n, m)
  {
    assert all[..m][k] == all[k] && all[k] in all[..m] && Id(all[k]) in Ids(all[..m]);
    assert Ids(all[..m]) + {Id(all[k])} == Ids(all[..m]);
  }

  lemma NextKeepsPrefixed(s: State, all: seq<string>, n: nat, m: nat, fate: Fate) returns (m': nat)
    requires Prefixed(s, all, n, m) && m < n
    ensures m <= m' <= m + 1 && Prefixed(ApplyFile(s, all[m], fate), all, n, m')
    ensures fate == Applied ==> m' == m + 1
  {
    IdsStep(all, m);
    PrefixGrows(all, m);
    m' := if fate == NoEffect || fate == Unrecorded then m else m + 1;
  }

  /** File k, executed when no earlier file is missing. */
  lemma FileKeepsPrefixed(s: State, all: seq<string>, n: nat, m: nat, k: nat, fate: Fate) returns (m': nat)
    requires Prefixed(s, all, n, m) && k < n && k <= m
    ensures m <= m' && (m' == m || m' == k + 1) && Prefixed(ApplyFile(s, all[k], fate), all, n, m')
    ensures fate == Applied ==> m' > k
  {
    if k < m {
      m' := m;
      AgainKeepsPrefixed(s, all, n, m, k, fate);
    } else {
      m' := NextKeepsPrefixed(s, all, n, m, fate);
    }
  }

  lemma PendingUpTo(all: seq<string>, k: nat, recorded: set<string>, spurious: set<string>)
    requires k < |all|
    ensures Pending(all[..k + 1], recorded, spurious) ==
            Pending(all[..k], recorded, spurious) +
            if Id(all[k]) !in recorded || Id(all[k]) in spurious then [all[k]] else []
  {
    assert all[..k + 1] == all[..k] + [all[k]];
    PendingPush(all[..k], all[k], recorded, spurious);
  }

  /** A pass over what is pending among the first k files. */
  lemma {:induction false} PassKeepsPrefixed(s: State, all: seq<string>, n: nat, m: nat, k: nat, spurious: set<string>,
                                            fate: string -> Fate) returns (m': nat)
    requires Catalogue(all) && Prefixed(s, all, n, m) && k <= n
    ensures m <= m' && (m' == m || m' <= k)
    ensures Prefixed(ApplyAll(s, Pending(all[..k], Ids(all[..m]), spurious), fate).0, all, n, m')
    ensures ApplyAll(s, Pending(all[..k], Ids(all[..m]), spurious), fate).1 ==> m' >= k
    decreases k
  {
    var known := Ids(all[..m]);
    if k == 0 {
      m' := m;
    } else {
      var j := k - 1;
      var front := Pending(all[..j], known, spurious);
      var before := ApplyAll(s, front, fate);
      m' := PassKeepsPrefixed(s, all, n, m, j, spurious, fate);
      PendingUpTo(all, j, known, spurious);
      if Id(all[j]) !in known || Id(all[j]) in spurious {
        ApplyAllPush(s, front, all[j], fate);
        if before.1 {
          m' := FileKeepsPrefixed(before.0, all, n, m', j, fate(all[j]));
        }
      } else {
        assert front + [] == front;
        KnownIsBefore(all, m, j);
      }
    }
  }

  lemma KnownIsBefore(all: seq<string>, m: nat, k: nat)
    requires Catalogue(all) && m <= |all| && k < |all| && Id(all[k]) in Ids(all[..m])
    ensures k < m
  {
    if k >= m {
      NotRecorded(all, m, k);
    }
  }

  lemma RunKeepsPrefixed(s: State, e: Env, all: seq<string>, n: nat, m: nat) returns (m': nat)
    requires Catalogue(all) && Sees(e, all, n) && Prefixed(s, all, n, m)
    ensures m <= m' && Prefixed(RunOnce(s, e).0, all, n, m')
    ensures RunOnce(s, e).1 ==> m' == n
  {
    if !e.tableReady || e.listing.None? {
      m' := m;
    } else {
      m' := PassKeepsPrefixed(s, all, n, m, n, e.spurious, e.fate);
    }
  }

  /** Over any runs, stopped anywhere and whatever their lookups said, the recorded set is the
      set of a prefix of the list, and at most the one next file is executed and not yet
      recorded; after a run without an error, all files of the directory are recorded. */
  lemma {:induction false} RecordedIsPrefix(envs: seq<Env>, sizes: seq<nat>, all: seq<string>) returns (m: nat)
    requires Catalogue(all) && Appending(envs, sizes, all)
    ensures Prefixed(AfterRuns(envs), all, Last(sizes), m)
    ensures envs != [] && RunOnce(AfterRuns(envs[..|envs| - 1]), envs[|envs| - 1]).1 ==> m == Last(sizes)
  {
    if envs == [] {
      m := 0;
      assert all[..0] == [];
    } else {
      var last := |envs| - 1;
      AppendingFront(envs, sizes, all);
      m := RecordedIsPrefix(envs[..last], sizes[..last], all);
      m := RunKeepsPrefixed(AfterRuns(envs[..last]), envs[last], all, Last(sizes), m);
    }
  }

  // ---- with true lookups ---------------------------------------------------------------

  /** With true lookups a run takes up where the record ends. */
  lemma RunTakesUp(s: State, e: Env, all: seq<string>, n: nat, m: nat)
    requires Catalogue(all) && Sees(e, all, n) && e.spurious == {} && Resumable(s, all, n, m)
    requires e.tableReady && e.listing.Some?
    ensures RunOnce(s, e) == ApplyAll(s, all[m..n], e.fate)
  {
    PendingIsRest(all, n, m);
  }

  lemma RunKeepsResumable(s: State, e: Env, all: seq<string>, n: nat, m: nat) returns (m': nat)
    requires Catalogue(all) && Sees(e, all, n) && e.spurious == {} && Resumable(s, all, n, m)
    ensures m <= m' && Resumable(RunOnce(s, e).0, all, n, m')
  {
    if !e.tableReady || e.listing.None? {
      m' := m;
    } else {
      RunTakesUp(s, e, all, n, m);
      m' := PassKeepsResumable(s, all, n, m, n, e.fate);
    }
  }

  /** If no lookup fails spuriously, the executions, immediate repetitions aside, are the
      recorded files in order, perhaps with the one next file: a file is repeated only right
      after itself. */
  lemma {:induction false} ExecutedInOrder(envs: seq<Env>, sizes: seq<nat>, all: seq<string>) returns (m: nat)
    requires Catalogue(all) && Appending(envs, sizes, all) && TrueLookups(envs)
    ensures Resumable(AfterRuns(envs), all, Last(sizes), m)
  {
    if envs == [] {
      m := 0;
      assert all[..0] == [];
    } else {
      var last := |envs| - 1;
      AppendingFront(envs, sizes, all);
      m := ExecutedInOrder(envs[..last], sizes[..last], all);
      m := RunKeepsResumable(AfterRuns(envs[..last]), envs[last], all, Last(sizes), m);
    }
  }
}
