/** The daily gas ledger. Dates are the day strings the source compares; they are modelled
    by day numbers. */
module GasLedger {
  import opened Wrappers
  import Sums

  datatype GasError = WalletGasCap | SystemGasCap

  datatype Ledger = Ledger(wallets: map<string, int>, system: int, walletCap: int, systemCap: int, day: int)

  function Spent(g: Ledger, w: string): int {
    Sums.At(g.wallets, w)
  }

  function Cleared(g: Ledger, today: int): Ledger {
    g.(wallets := map[], system := 0, day := today)
  }

  function MaybeReset(g: Ledger, today: int): Ledger {
    if today != g.day then Cleared(g, today) else g
  }

  predicate OverSystemCap(g: Ledger, amount: int) {
    g.system + amount > g.systemCap
  }

  /** The refusal of a record of `amount`, after the day has been rolled over. */
  function Refusal(g: Ledger, w: string, amount: int): Option<GasError> {
    if Spent(g, w) + amount > g.walletCap then Some(WalletGasCap)
    else if OverSystemCap(g, amount) then Some(SystemGasCap)
    else None
  }

  /** A refused record still leaves an empty entry for its wallet. */
  function Recorded(g: Ledger, w: string, amount: int, today: int): Ledger {
    var r := MaybeReset(g, today);
    if Refusal(r, w, amount).None? then
      r.(wallets := r.wallets[w := Spent(r, w) + amount], system := r.system + amount)
    else r.(wallets := r.wallets[w := Spent(r, w)])
  }

  datatype Op =
    | Record(wallet: string, amount: int, today: int)
    | CheckWallet(wallet: string, today: int)
    | CheckSystem(today: int)
    | Reset(today: int)

  function Apply(g: Ledger, op: Op): Ledger {
    match op
    case Record(w, amount, today) => Recorded(g, w, amount, today)
    case CheckWallet(_, today) => MaybeReset(g, today)
    case CheckSystem(today) => MaybeReset(g, today)
    case Reset(today) => Cleared(g, today)
  }

  function Run(g: Ledger, ops: seq<Op>): Ledger {
    if ops == [] then g else Apply(Run(g, ops[..|ops| - 1]), ops[|ops| - 1])
  }

  function Fresh(walletCap: int, systemCap: int, today: int): Ledger {
    Ledger(map[], 0, walletCap, systemCap, today)
  }

  // ---- conservation --------------------------------------------------------------

  ghost predicate Balanced(g: Ledger) {
    g.system == Sums.Total(g.wallets)
  }

  lemma ApplyBalanced(g: Ledger, op: Op)
    requires Balanced(g)
    ensures Balanced(Apply(g, op))
  {
    if op.Record? {
      var r := MaybeReset(g, op.today);
      Sums.TotalUpdate(r.wallets, op.wallet, Spent(r, op.wallet) + op.amount);
      Sums.TotalUpdate(r.wallets, op.wallet, Spent(r, op.wallet));
    }
  }

  /** After any run of operations the system total is the sum of the wallet totals. */
  lemma {:induction false} Conservation(walletCap: int, systemCap: int, today: int, ops: seq<Op>)
    ensures Balanced(Run(Fresh(walletCap, systemCap, today), ops))
  {
    if ops != [] {
      Conservation(walletCap, systemCap, today, ops[..|ops| - 1]);
      ApplyBalanced(Run(Fresh(walletCap, systemCap, today), ops[..|ops| - 1]), ops[|ops| - 1]);
    }
  }

  // ---- daily totals --------------------------------------------------------------

  predicate Accepts(g: Ledger, op: Op) {
    op.Record? && Refusal(MaybeReset(g, op.today), op.wallet, op.amount).None?
  }

  /** What wallet w (or every wallet, for None) had accepted on a day since the last manual
      reset, read off the history alone. */
  function Accepted(g: Ledger, ops: seq<Op>, day: int, w: Option<string>): int {
    if ops == [] then 0
    else
      var front, op := ops[..|ops| - 1], ops[|ops| - 1];
      if op.Reset? && op.today == day then 0
      else
        Accepted(g, front, day, w) +
        if Accepts(Run(g, front), op) && op.today == day && (w.None? || w.value == op.wallet) then op.amount else 0
  }

  function Dates(ops: seq<Op>): (ds: seq<int>)
    ensures |ds| == |ops| && forall i :: 0 <= i < |ops| ==> ds[i] == ops[i].today
  {
    if ops == [] then [] else Dates(ops[..|ops| - 1]) + [ops[|ops| - 1].today]
  }

  /** No day comes back after a different one. */
  ghost predicate NoReturn(ds: seq<int>) {
    forall i, j, k :: 0 <= i < j < k < |ds| && ds[i] == ds[k] ==> ds[j] == ds[k]
  }

  /** The total of wallet w, or of the system for None, and its cap. */
  function Standing(g: Ledger, w: Option<string>): int {
    if w.None? then g.system else Spent(g, w.value)
  }

  function Cap(g: Ledger, w: Option<string>): int {
    if w.None? then g.systemCap else g.walletCap
  }

  lemma DatesPush(ops: seq<Op>)
    requires ops != []
    ensures Dates(ops) == Dates(ops[..|ops| - 1]) + [ops[|ops| - 1].today]
  {
  }

  lemma NoReturnFront(ds: seq<int>, d: int)
    requires NoReturn(ds + [d])
    ensures NoReturn(ds)
    ensures ds != [] && d in ds ==> ds[|ds| - 1] == d
  {
    var all := ds + [d];
    forall i, j, k | 0 <= i < j < k < |ds| && ds[i] == ds[k]
      ensures ds[j] == ds[k]
    {
      assert all[i] == all[k] && all[j] == ds[j];
    }
    if ds != [] && d in ds {
      var i :| 0 <= i < |ds| && ds[i] == d;
      assert i < |ds| - 1 ==> all[i] == all[|ds|] && all[|ds| - 1] == ds[|ds| - 1];
    }
  }

  /** The day the ledger is on. */
  function Today(start: int, ds: seq<int>): int {
    if ds == [] then start else ds[|ds| - 1]
  }

  lemma TrackStep(g: Ledger, op: Op, day: int, w: Option<string>, a: int)
    requires day == g.day ==> a == Standing(g, w)
    requires op.today == day && day != g.day ==> a == 0
    requires a != 0 ==> a <= Cap(g, w)
    ensures var more := if Accepts(g, op) && op.today == day && (w.None? || w.value == op.wallet) then op.amount else 0;
            var b := if op.Reset? && op.today == day then 0 else a + more;
            var h := Apply(g, op);
            && h.day == op.today && h.walletCap == g.walletCap && h.systemCap == g.systemCap
            && (day == h.day ==> b == Standing(h, w))
            && (b != 0 ==> b <= Cap(g, w))
  {
  }

  /** On its current day the ledger stands at what was accepted on it, nothing has been
      accepted on a day not met yet, and no day went over the cap. */
  lemma {:induction false} AlwaysTracks(g0: Ledger, ops: seq<Op>, day: int, w: Option<string>)
    requires g0 == Fresh(g0.walletCap, g0.systemCap, g0.day) && NoReturn(Dates(ops))
    ensures var g, a := Run(g0, ops), Accepted(g0, ops, day, w);
            && g.walletCap == g0.walletCap && g.systemCap == g0.systemCap
            && g.day == Today(g0.day, Dates(ops))
            && (day !in Dates(ops) ==> a == 0)
            && (day == g.day ==> a == Standing(g, w))
            && (a != 0 ==> a <= Cap(g0, w))
  {
    if ops != [] {
      var front, op := ops[..|ops| - 1], ops[|ops| - 1];
      DatesPush(ops);
      NoReturnFront(Dates(front), op.today);
      AlwaysTracks(g0, front, day, w);
      TrackStep(Run(g0, front), op, day, w, Accepted(g0, front, day, w));
    }
  }

  /** As long as no day comes back after a different one, what a wallet has had accepted on
      any day since the last manual reset stays within its cap, and what all wallets have,
      within the system's, whatever the amounts are. */
  lemma DailyCaps(g0: Ledger, ops: seq<Op>, day: int, w: Option<string>)
    requires g0 == Fresh(g0.walletCap, g0.systemCap, g0.day) && NoReturn(Dates(ops))
    ensures 0 < Accepted(g0, ops, day, w) ==> Accepted(g0, ops, day, w) <= Cap(g0, w)
    ensures day == Run(g0, ops).day ==> Accepted(g0, ops, day, w) == Standing(Run(g0, ops), w)
  {
    AlwaysTracks(g0, ops, day, w);
  }

  // ---- days that come back ----------------------------------------------------------

  /** A record of the whole cap at the positions i and k, checks everywhere else. */
  function TwoRecords(ds: seq<int>, w: string, cap: int, i: int, k: int): (ops: seq<Op>)
    ensures |ops| == |ds|
  {
    if ds == [] then []
    else
      var last := |ds| - 1;
      TwoRecords(ds[..last], w, cap, i, k) +
      [if last == i || last == k then Record(w, cap, ds[last]) else CheckSystem(ds[last])]
  }

  lemma {:induction false} TwoRecordsDates(ds: seq<int>, w: string, cap: int, i: int, k: int)
    ensures Dates(TwoRecords(ds, w, cap, i, k)) == ds
  {
    if ds != [] {
      TwoRecordsDates(ds[..|ds| - 1], w, cap, i, k);
    }
  }

  /** The ledger is on the day of position i with its one record, or empty. */
  function Loaded(w: string, cap: int, day: int, full: bool): Ledger {
    if full then Ledger(map[w := cap], cap, cap, cap, day) else Ledger(map[], 0, cap, cap, day)
  }

  lemma LoadedCheck(w: string, cap: int, day: int, full: bool, today: int)
    ensures Apply(Loaded(w, cap, day, full), CheckSystem(today)) == Loaded(w, cap, today, full && today == day)
  {
  }

  lemma LoadedRecord(w: string, cap: int, day: int, full: bool, today: int)
    requires cap > 0 && !(full && today == day)
    ensures Apply(Loaded(w, cap, day, full), Record(w, cap, today)) == Loaded(w, cap, today, true)
    ensures Accepts(Loaded(w, cap, day, full), Record(w, cap, today))
  {
    var r := MaybeReset(Loaded(w, cap, day, full), today);
    assert r == Loaded(w, cap, today, false);
    assert map[][w := cap] == map[w := cap];
  }

  /** The day of position i does not last until k: the first other day after it is met at
      j, and k is the first position on that day again. */
  ghost predicate Returns(ds: seq<int>, i: nat, j: nat, k: nat) {
    && i < j < k < |ds|
    && ds[i] == ds[k] != ds[j]
    && (forall t :: j <= t < k ==> ds[t] != ds[i])
    && (forall t :: i <= t < j ==> ds[t] == ds[i])
  }

  /** Before k the ledger holds the first record while its day lasts; from k on it has
      accepted the cap twice for that day. */
  lemma {:induction false} TwiceTheCap(ds: seq<int>, w: string, cap: int, today: int, i: nat, j: nat, k: nat, n: nat)
    requires cap > 0 && Returns(ds, i, j, k) && n <= |ds|
    ensures var ops := TwoRecords(ds[..n], w, cap, i, k);
            && (n <= k ==> Run(Fresh(cap, cap, today), ops) == Loaded(w, cap, Today(today, ds[..n]), i < n <= j))
            && Accepted(Fresh(cap, cap, today), ops, ds[i], Some(w)) ==
                 (if i < n then cap else 0) + (if k < n then cap else 0)
    decreases n
  {
    if n == 0 {
      assert ds[..0] == [];
    } else {
      var last := n - 1;
      TwiceTheCap(ds, w, cap, today, i, j, k, last);
      assert ds[..n][..last] == ds[..last] && ds[..n][last] == ds[last];
      var before := TwoRecords(ds[..last], w, cap, i, k);
      var op := if last == i || last == k then Record(w, cap, ds[last]) else CheckSystem(ds[last]);
      OneMore(Fresh(cap, cap, today), before, op, ds[i], Some(w));
      assert Today(today, ds[..n]) == ds[last];
      if last <= k {
        LoadedStep(ds, w, cap, today, i, j, k, last);
      }
    }
  }

  lemma LoadedStep(ds: seq<int>, w: string, cap: int, today: int, i: nat, j: nat, k: nat, last: nat)
    requires cap > 0 && Returns(ds, i, j, k) && last <= k
    ensures var g := Loaded(w, cap, Today(today, ds[..last]), i < last <= j);
            var op := if last == i || last == k then Record(w, cap, ds[last]) else CheckSystem(ds[last]);
            && (last < k ==> Apply(g, op) == Loaded(w, cap, ds[last], i < last + 1 <= j))
            && (Accepts(g, op) <==> op.Record?)
  {
    var day := Today(today, ds[..last]);
    assert last > 0 ==> day == ds[last - 1];
    if last == i || last == k {
      LoadedRecord(w, cap, day, i < last <= j, ds[last]);
    } else {
      LoadedCheck(w, cap, day, i < last <= j, ds[last]);
    }
  }

  lemma OneMore(g: Ledger, ops: seq<Op>, op: Op, day: int, w: Option<string>)
    requires !op.Reset?
    ensures Run(g, ops + [op]) == Apply(Run(g, ops), op)
    ensures Accepted(g, ops + [op], day, w) ==
            Accepted(g, ops, day, w) +
            if Accepts(Run(g, ops), op) && op.today == day && (w.None? || w.value == op.wallet) then op.amount else 0
  {
    assert (ops + [op])[..|ops|] == ops;
  }

  /** From any repetition the two nearest positions can be found. */
  lemma {:induction false} NearestReturn(ds: seq<int>, i: nat, j: nat, k: nat) returns (i': nat, j': nat, k': nat)
    requires i < j < k < |ds| && ds[i] == ds[k] != ds[j]
    ensures Returns(ds, i', j', k')
    decreases k - i
  {
    if t :| j < t < k && ds[t] == ds[i] {
      i', j', k' := NearestReturn(ds, i, j, t);
    } else if t :| i < t < j && ds[t] == ds[i] {
      i', j', k' := NearestReturn(ds, t, j, k);
    } else if t :| i < t < j && ds[t] != ds[i] {
      i', j', k' := i, i + 1, k;
    } else {
      i', j', k' := i, j, k;
    }
  }

  /** Any sequence of dates on which a day comes back has a run that lets a wallet have its
      cap twice on that day. */
  lemma ReturnBreaksCaps(ds: seq<int>, w: string, cap: int, today: int) returns (ops: seq<Op>, day: int)
    requires cap > 0 && !NoReturn(ds)
    ensures Dates(ops) == ds && Accepted(Fresh(cap, cap, today), ops, day, Some(w)) == 2 * cap
  {
    var i, j, k := FindReturn(ds);
    ops, day := TwoRecords(ds, w, cap, i, k), ds[i];
    TwoRecordsDates(ds, w, cap, i, k);
    TwiceTheCap(ds, w, cap, today, i, j, k, |ds|);
    assert ds[..|ds|] == ds;
  }

  lemma FindReturn(ds: seq<int>) returns (i: nat, j: nat, k: nat)
    requires !NoReturn(ds)
    ensures Returns(ds, i, j, k)
  {
    var p, q, r :| 0 <= p < q < r < |ds| && ds[p] == ds[r] && ds[q] != ds[r];
    i, j, k := NearestReturn(ds, p, q, r);
  }

  /** The caps hold in every run over the given dates exactly if no day comes back after a
      different one. */
  lemma DailyCapsExactly(ds: seq<int>, w: string, cap: int, today: int)
    requires cap > 0
    ensures NoReturn(ds) <==>
              forall ops :: Dates(ops) == ds ==> forall day :: Accepted(Fresh(cap, cap, today), ops, day, Some(w)) <= cap
  {
    var g0 := Fresh(cap, cap, today);
    if NoReturn(ds) {
      forall ops, day | Dates(ops) == ds
        ensures Accepted(g0, ops, day, Some(w)) <= cap
      {
        DailyCaps(g0, ops, day, Some(w));
      }
    } else {
      var ops, day := ReturnBreaksCaps(ds, w, cap, today);
      assert Accepted(g0, ops, day, Some(w)) > cap;
    }
  }

  /** The shortest such run: a clock that goes back a day and returns. */
  lemma BackwardDatesBreakCaps(w: string, cap: int, day: int)
    requires cap > 0
    ensures var ops := [Record(w, cap, day), CheckSystem(day - 1), Record(w, cap, day)];
            Accepted(Fresh(cap, cap, day), ops, day, Some(w)) == 2 * cap
  {
    var g0 := Fresh(cap, cap, day);
    var a, b, c := Record(w, cap, day), CheckSystem(day - 1), Record(w, cap, day);
    assert [a, b, c][..2] == [a, b] && [a, b][..1] == [a] && [a][..0] == [];
    assert Run(g0, [a]) == Apply(g0, a) && Run(g0, [a, b]) == Apply(Run(g0, [a]), b);
    assert Accepted(g0, [a], day, Some(w)) == cap;
    assert Accepted(g0, [a, b], day, Some(w)) == cap;
  }

  /** A refused record changes no total. */
  lemma RefusedChangesNothing(g: Ledger, w: string, amount: int, v: string)
    requires Refusal(g, w, amount).Some?
    ensures var r := Recorded(g, w, amount, g.day); r.system == g.system && Spent(r, v) == Spent(g, v)
  {
  }

  predicate WalletCheckRefuses(g: Ledger, w: string) {
    w in g.wallets && g.wallets[w] >= g.walletCap
  }

  predicate SystemCheckRefuses(g: Ledger) {
    g.system >= g.systemCap
  }

  /** Every positive record for the wallet would be refused for the wallet's cap. */
  ghost predicate WalletIsClosed(g: Ledger, w: string) {
    forall amount :: amount > 0 ==> Refusal(g, w, amount) == Some(WalletGasCap)
  }

  /** CheckWallet refuses exactly the wallets of the ledger for which every positive record
      would be refused; a wallet it does not know passes, although with a cap of zero or
      less nothing would be recorded for it either. */
  lemma RefusingChecks(g: Ledger, w: string)
    ensures WalletCheckRefuses(g, w) <==> w in g.wallets && WalletIsClosed(g, w)
    ensures w !in g.wallets ==> (WalletIsClosed(g, w) <==> g.walletCap <= 0)
    ensures SystemCheckRefuses(g) <==> forall amount :: amount > 0 ==> OverSystemCap(g, amount)
    ensures SystemCheckRefuses(g) ==> forall amount :: amount > 0 ==> Refusal(g, w, amount).Some?
  {
    if WalletIsClosed(g, w) {
      assert Refusal(g, w, 1) == Some(WalletGasCap);
    }
    if !SystemCheckRefuses(g) {
      assert !OverSystemCap(g, 1);
    }
  }

  // ---- the object ----------------------------------------------------------------

  class GasBudget {
    var wallets: map<string, int>
    var systemSpentGwei: int
    const walletDailyCapGwei: int
    const systemDailyCapGwei: int
    var resetDate: int

    function State(): Ledger
      reads this
    {
      Ledger(wallets, systemSpentGwei, walletDailyCapGwei, systemDailyCapGwei, resetDate)
    }

    constructor (walletCap: int, systemCap: int, today: int)
      ensures State() == Fresh(walletCap, systemCap, today)
    {
      wallets := map[];
      systemSpentGwei := 0;
      walletDailyCapGwei := walletCap;
      systemDailyCapGwei := systemCap;
      resetDate := today;
    }

    method MaybeResetDay(today: int)
      modifies this
      ensures State() == MaybeReset(old(State()), today)
    {
      if today != resetDate {
        wallets := map[];
        systemSpentGwei := 0;
        resetDate := today;
      }
    }

    method RecordGasUsed(wallet: string, gweiUsed: int, today: int) returns (err: Option<GasError>)
      modifies this
      ensures State() == Recorded(old(State()), wallet, gweiUsed, today)
      ensures err == Refusal(MaybeReset(old(State()), today), wallet, gweiUsed)
      ensures var spent := if old(resetDate) == today && wallet in old(wallets) then old(wallets)[wallet] else 0;
              var total := if old(resetDate) == today then old(systemSpentGwei) else 0;
              && err == (if spent + gweiUsed > walletDailyCapGwei then Some(WalletGasCap)
                         else if total + gweiUsed > systemDailyCapGwei then Some(SystemGasCap) else None)
              && resetDate == today && systemSpentGwei == (if err.None? then total + gweiUsed else total)
              && wallets == (if old(resetDate) == today then old(wallets) else map[])
                   [wallet := if err.None? then spent + gweiUsed else spent]
    {
      MaybeResetDay(today);
      if wallet !in wallets {
        wallets := wallets[wallet := 0];
      }
      var spent := wallets[wallet];
      if spent + gweiUsed > walletDailyCapGwei {
        return Some(WalletGasCap);
      }
      if systemSpentGwei + gweiUsed > systemDailyCapGwei {
        return Some(SystemGasCap);
      }
      wallets := wallets[wallet := spent + gweiUsed];
      systemSpentGwei := systemSpentGwei + gweiUsed;
      err := None;
    }

    method CheckWalletBudget(wallet: string, today: int) returns (err: Option<GasError>)
      modifies this
      ensures State() == MaybeReset(old(State()), today)
      ensures err == if WalletCheckRefuses(State(), wallet) then Some(WalletGasCap) else None
    {
      MaybeResetDay(today);
      if wallet !in wallets {
        return None;
      }
      err := if wallets[wallet] >= walletDailyCapGwei then Some(WalletGasCap) else None;
    }

    method CheckSystemBudget(today: int) returns (err: Option<GasError>)
      modifies this
      ensures State() == MaybeReset(old(State()), today)
      ensures err == if SystemCheckRefuses(State()) then Some(SystemGasCap) else None
    {
      MaybeResetDay(today);
      err := if systemSpentGwei >= systemDailyCapGwei then Some(SystemGasCap) else None;
    }

    method ResetAll(today: int)
      modifies this
      ensures State() == Cleared(old(State()), today)
    {
      wallets := map[];
      systemSpentGwei := 0;
      resetDate := today;
    }
  }
}
