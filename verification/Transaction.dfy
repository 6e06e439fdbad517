/** parseGetTransactionResponse after the JSON has been read: account resolution and the
    numbering of top-level and inner instructions. */
module Transaction {
  import opened Base58
  import Base58Encoder
  import Base58RoundTrip
  import Filter
  import Radix

  /** An instruction as it stands in the message. */
  datatype RawInstruction = RawInstruction(programIdIndex: int, accounts: seq<int>, data: string)

  /** The instructions called by the outer instruction at `index`. */
  datatype InnerGroup = InnerGroup(index: int, instructions: seq<RawInstruction>)

  datatype RawTransaction = RawTransaction(
    accountKeys: seq<string>,
    writable: seq<string>,
    readonly: seq<string>,
    instructions: seq<RawInstruction>,
    inner: seq<InnerGroup>)

  datatype InstructionData = InstructionData(programId: string, accounts: seq<string>, data: seq<nat>, index: int)

  function Keys(tx: RawTransaction): seq<string> {
    tx.accountKeys + tx.writable + tx.readonly
  }

  predicate InRange(keys: seq<string>, i: int) {
    0 <= i < |keys|
  }

  /** The accounts of an instruction; indices outside the key list are dropped. */
  function Resolve(keys: seq<string>, indices: seq<int>): seq<string> {
    if indices == [] then []
    else
      var front, i := indices[..|indices| - 1], indices[|indices| - 1];
      Resolve(keys, front) + if InRange(keys, i) then [keys[i]] else []
  }

  /** An instruction together with the number it is given. */
  datatype Slot = Slot(instr: RawInstruction, index: int)

  function OuterSlots(instrs: seq<RawInstruction>): seq<Slot> {
    seq(|instrs|, i requires 0 <= i < |instrs| => Slot(instrs[i], i))
  }

  /** Inner instructions are numbered after the n top-level ones, a thousand per group. */
  function GroupSlots(n: nat, g: InnerGroup): seq<Slot> {
    seq(|g.instructions|, j requires 0 <= j < |g.instructions| => Slot(g.instructions[j], n + g.index * 1000 + j))
  }

  function InnerSlots(n: nat, inner: seq<InnerGroup>): seq<Slot> {
    if inner == [] then []
    else InnerSlots(n, inner[..|inner| - 1]) + GroupSlots(n, inner[|inner| - 1])
  }

  function Slots(tx: RawTransaction): seq<Slot> {
    OuterSlots(tx.instructions) + InnerSlots(|tx.instructions|, tx.inner)
  }

  /** The instructions of the slots whose program can be resolved. */
  ghost function Collect(keys: seq<string>, slots: seq<Slot>): seq<InstructionData> {
    if slots == [] then []
    else
      var s := slots[|slots| - 1];
      Collect(keys, slots[..|slots| - 1]) +
      if !InRange(keys, s.instr.programIdIndex) then []
      else [InstructionData(keys[s.instr.programIdIndex], Resolve(keys, s.instr.accounts), Decoded(s.instr.data), s.index)]
  }

  // ---- what a collected instruction says -------------------------------------------

  /** The indices before place k that name a key. */
  ghost function Named(keys: seq<string>, indices: seq<int>, k: int): set<int> {
    set j | 0 <= j < k && j < |indices| && 0 <= indices[j] < |keys|
  }

  /** Each index inside the key list has its account, after as many others as name a key
      before it; with all of them inside, account k is the key of index k. */
  ghost predicate NamesAccounts(keys: seq<string>, indices: seq<int>, accounts: seq<string>) {
    && |accounts| == |Named(keys, indices, |indices|)|
    && (forall k :: 0 <= k < |indices| && 0 <= indices[k] < |keys| ==>
          |Named(keys, indices, k)| < |accounts| && accounts[|Named(keys, indices, k)|] == keys[indices[k]])
    && ((forall k :: 0 <= k < |indices| ==> 0 <= indices[k] < |keys|) ==>
          |accounts| == |indices| && forall k :: 0 <= k < |indices| ==> accounts[k] == keys[indices[k]])
  }

  /** The bytes are those the string stands for: they are encoded as the string again, but
      for strings of ones alone, which give as many zeros, and invalid ones, which give none. */
  ghost predicate Reads(s: string, data: seq<nat>) {
    && (!Valid(s) ==> data == [])
    && (Valid(s) && (exists i :: 0 <= i < |s| && s[i] != '1') ==> Base58Encoder.Encoded(data) == s)
    && ((forall i :: 0 <= i < |s| ==> s[i] == '1') ==> |data| == |s| && forall i :: 0 <= i < |s| ==> data[i] == 0)
  }

  ghost predicate Says(keys: seq<string>, s: Slot, d: InstructionData) {
    && 0 <= s.instr.programIdIndex < |keys| && d.programId == keys[s.instr.programIdIndex]
    && NamesAccounts(keys, s.instr.accounts, d.accounts)
    && Reads(s.instr.data, d.data)
    && d.index == s.index
  }

  /** The slots before place p whose program is a key. */
  ghost function Known(keys: seq<string>, slots: seq<Slot>, p: int): set<int> {
    set q | 0 <= q < p && q < |slots| && 0 <= slots[q].instr.programIdIndex < |keys|
  }

  /** Each slot whose program is a key has its instruction, in the order of the slots. */
  ghost predicate Lists(keys: seq<string>, slots: seq<Slot>, instrs: seq<InstructionData>) {
    && |instrs| == |Known(keys, slots, |slots|)|
    && forall p :: 0 <= p < |slots| && 0 <= slots[p].instr.programIdIndex < |keys| ==>
         |Known(keys, slots, p)| < |instrs| && Says(keys, slots[p], instrs[|Known(keys, slots, p)|])
  }

  /** The instructions of the first k groups. */
  function Before(inner: seq<InnerGroup>, k: nat): nat
    requires k <= |inner|
  {
    if k == 0 then 0 else Before(inner, k - 1) + |inner[k - 1].instructions|
  }

  predicate InnerPlaced(tx: RawTransaction, slots: seq<Slot>, k: nat, j: nat)
    requires k < |tx.inner| && j < |tx.inner[k].instructions|
  {
    var p := |tx.instructions| + Before(tx.inner, k) + j;
    p < |slots|
    && slots[p].instr == tx.inner[k].instructions[j]
    && slots[p].index == |tx.instructions| + tx.inner[k].index * 1000 + j
  }

  /** The top-level instructions under their own numbers, then group by group the inner ones,
      each numbered by its outer index and its place in the group. */
  ghost predicate InSourceOrder(tx: RawTransaction, slots: seq<Slot>) {
    var n := |tx.instructions|;
    && |slots| == n + Before(tx.inner, |tx.inner|)
    && (forall i :: 0 <= i < n ==> slots[i].instr == tx.instructions[i] && slots[i].index == i)
    && (forall k: nat, j: nat :: k < |tx.inner| && j < |tx.inner[k].instructions| ==> InnerPlaced(tx, slots, k, j))
  }

  /** The result, said without the functions that compute it. */
  ghost predicate Parsed(tx: RawTransaction, keys: seq<string>, instrs: seq<InstructionData>) {
    && keys == tx.accountKeys + tx.writable + tx.readonly
    && exists slots :: InSourceOrder(tx, slots) && Lists(keys, slots, instrs)
  }

  function Inside(keys: seq<string>): int -> bool {
    i => InRange(keys, i)
  }

  function HasProgram(keys: seq<string>): Slot -> bool {
    (s: Slot) => InRange(keys, s.instr.programIdIndex)
  }

  ghost function KeyAt(keys: seq<string>): (int, string) -> bool {
    (i: int, a: string) => InRange(keys, i) && a == keys[i]
  }

  ghost function SaysOf(keys: seq<string>): (Slot, InstructionData) -> bool {
    (s: Slot, d: InstructionData) => Says(keys, s, d)
  }

  lemma {:induction false} ResolveKeeps(keys: seq<string>, indices: seq<int>)
    ensures Filter.Keeps(indices, Inside(keys), KeyAt(keys), Resolve(keys, indices))
  {
    if indices != [] {
      var front, i := indices[..|indices| - 1], indices[|indices| - 1];
      ResolveKeeps(keys, front);
      Filter.KeepsPush(front, Inside(keys), KeyAt(keys), Resolve(keys, front), i,
                       if InRange(keys, i) then keys[i] else "");
      assert indices == front + [i];
    }
  }

  lemma NamedCount(keys: seq<string>, indices: seq<int>, k: nat)
    requires k <= |indices|
    ensures |Named(keys, indices, k)| == Filter.Passing(indices[..k], Inside(keys))
  {
    Filter.PassingIsPlaces(indices[..k], Inside(keys));
    assert Filter.Places(indices[..k], Inside(keys)) == Named(keys, indices, k);
  }

  lemma ResolveNames(keys: seq<string>, indices: seq<int>)
    ensures NamesAccounts(keys, indices, Resolve(keys, indices))
  {
    ResolveKeeps(keys, indices);
    ResolvePositions(keys, indices);
    NamedCount(keys, indices, |indices|);
    assert indices[..|indices|] == indices;
    forall k | 0 <= k < |indices| && 0 <= indices[k] < |keys|
      ensures var n := |Named(keys, indices, k)|;
              n < |Resolve(keys, indices)| && Resolve(keys, indices)[n] == keys[indices[k]]
    {
      NamedCount(keys, indices, k);
    }
  }

  lemma DecodedReads(s: string)
    ensures Reads(s, Decoded(s))
  {
    if Valid(s) {
      Base58RoundTrip.EncodeAfterDecode(s);
      OnesAreZeros(s);
    }
    if forall i :: 0 <= i < |s| ==> s[i] == '1' {
      OnesDecoded(s);
    }
  }

  lemma OnesAreZeros(s: string)
    requires Valid(s)
    ensures Radix.AllZero(DigitsOf(s)) <==> forall i :: 0 <= i < |s| ==> s[i] == '1'
  {
    forall i | 0 <= i < |s| ensures DigitsOf(s)[i] == 0 <==> s[i] == '1' {
      DigitCharInverse(s[i], 0);
    }
  }

  lemma OnesDecoded(s: string)
    requires forall i :: 0 <= i < |s| ==> s[i] == '1'
    ensures Valid(s) && |Decoded(s)| == |s| && forall i :: 0 <= i < |s| ==> Decoded(s)[i] == 0
  {
    assert Valid(s);
    OnesAreZeros(s);
    Radix.Canonical(58, DigitsOf(s));
    Base58RoundTrip.AllZeroIsZeros(DigitsOf(s));
    assert Decoded(s) == Radix.Zeros(|s|) + Radix.Numeral(256, 0);
  }

  lemma {:induction false} CollectKeeps(keys: seq<string>, slots: seq<Slot>)
    ensures Filter.Keeps(slots, HasProgram(keys), SaysOf(keys), Collect(keys, slots))
  {
    if slots != [] {
      var front, s := slots[..|slots| - 1], slots[|slots| - 1];
      CollectKeeps(keys, front);
      var d := InstructionData(if InRange(keys, s.instr.programIdIndex) then keys[s.instr.programIdIndex] else "",
                               Resolve(keys, s.instr.accounts), Decoded(s.instr.data), s.index);
      ResolveNames(keys, s.instr.accounts);
      DecodedReads(s.instr.data);
      Filter.KeepsPush(front, HasProgram(keys), SaysOf(keys), Collect(keys, front), s, d);
      assert slots == front + [s];
    }
  }

  lemma KnownCount(keys: seq<string>, slots: seq<Slot>, p: nat)
    requires p <= |slots|
    ensures |Known(keys, slots, p)| == Filter.Passing(slots[..p], HasProgram(keys))
  {
    Filter.PassingIsPlaces(slots[..p], HasProgram(keys));
    assert Filter.Places(slots[..p], HasProgram(keys)) == Known(keys, slots, p);
  }

  lemma CollectLists(keys: seq<string>, slots: seq<Slot>)
    ensures Lists(keys, slots, Collect(keys, slots))
  {
    CollectKeeps(keys, slots);
    KnownCount(keys, slots, |slots|);
    assert slots[..|slots|] == slots;
    forall p | 0 <= p < |slots| && 0 <= slots[p].instr.programIdIndex < |keys|
      ensures var n := |Known(keys, slots, p)|;
              n < |Collect(keys, slots)| && Says(keys, slots[p], Collect(keys, slots)[n])
    {
      KnownCount(keys, slots, p);
    }
  }

  lemma {:induction false} InnerSlotsLength(n: nat, inner: seq<InnerGroup>, k: nat)
    requires k <= |inner|
    ensures |InnerSlots(n, inner[..k])| == Before(inner, k)
  {
    if k > 0 {
      InnerSlotsLength(n, inner, k - 1);
      assert inner[..k][..k - 1] == inner[..k - 1];
    }
  }

  /** Place j of group k. */
  lemma {:induction false} InnerSlotAt(n: nat, inner: seq<InnerGroup>, k: nat, j: nat)
    requires k < |inner| && j < |inner[k].instructions|
    ensures Before(inner, k) + j < |InnerSlots(n, inner)|
    ensures InnerSlots(n, inner)[Before(inner, k) + j] == Slot(inner[k].instructions[j], n + inner[k].index * 1000 + j)
  {
    var front, last := inner[..|inner| - 1], |inner| - 1;
    InnerSlotsLength(n, inner, last);
    if k < last {
      InnerSlotAt(n, front, k, j);
      BeforeFront(inner, k);
    }
  }

  lemma {:induction false} BeforeFront(inner: seq<InnerGroup>, k: nat)
    requires k < |inner|
    ensures Before(inner, k) == Before(inner[..|inner| - 1], k)
  {
    if k > 0 {
      BeforeFront(inner, k - 1);
    }
  }

  lemma SlotsInSourceOrder(tx: RawTransaction)
    ensures InSourceOrder(tx, Slots(tx))
  {
    var n := |tx.instructions|;
    InnerSlotsLength(n, tx.inner, |tx.inner|);
    assert tx.inner[..|tx.inner|] == tx.inner;
    forall k: nat, j: nat | k < |tx.inner| && j < |tx.inner[k].instructions|
      ensures InnerPlaced(tx, Slots(tx), k, j)
    {
      InnerSlotAt(n, tx.inner, k, j);
    }
  }

  lemma ResultIsParsed(tx: RawTransaction)
    ensures Parsed(tx, Keys(tx), Collect(Keys(tx), Slots(tx)))
  {
    SlotsInSourceOrder(tx);
    CollectLists(Keys(tx), Slots(tx));
  }

  // ---- the loops -----------------------------------------------------------------

  method ResolveAccounts(keys: seq<string>, indices: seq<int>) returns (accounts: seq<string>)
    ensures accounts == Resolve(keys, indices)
  {
    accounts := [];
    for k := 0 to |indices|
      invariant accounts == Resolve(keys, indices[..k])
    {
      var i := indices[k];
      assert indices[..k + 1][..k] == indices[..k];
      if 0 <= i < |keys| {
        accounts := accounts + [keys[i]];
      }
    }
    assert indices[..|indices|] == indices;
  }

  /** decodeInstr, appending to what has been collected. */
  method DecodeInstruction(keys: seq<string>, s: Slot, collected: seq<InstructionData>, ghost before: seq<Slot>)
    returns (r: seq<InstructionData>)
    requires collected == Collect(keys, before)
    ensures r == Collect(keys, before + [s])
  {
    assert (before + [s])[..|before|] == before;
    if s.instr.programIdIndex < 0 || s.instr.programIdIndex >= |keys| {
      return collected;
    }
    var accounts := ResolveAccounts(keys, s.instr.accounts);
    var data := DecodeBase58(s.instr.data);
    r := collected + [InstructionData(keys[s.instr.programIdIndex], accounts, data, s.index)];
  }

  /** The inner loop: the instructions of one group. */
  method ParseGroup(keys: seq<string>, n: nat, outer: InnerGroup, collected: seq<InstructionData>, ghost before: seq<Slot>)
    returns (r: seq<InstructionData>)
    requires collected == Collect(keys, before)
    ensures r == Collect(keys, before + GroupSlots(n, outer))
  {
    r := collected;
    ghost var done := before;
    for j := 0 to |outer.instructions|
      invariant done == before + GroupSlots(n, outer)[..j]
      invariant r == Collect(keys, done)
    {
      var s := Slot(outer.instructions[j], n + outer.index * 1000 + j);
      r := DecodeInstruction(keys, s, r, done);
      done := done + [s];
    }
    assert GroupSlots(n, outer)[..|outer.instructions|] == GroupSlots(n, outer);
  }

  method ParseOuter(keys: seq<string>, instructions: seq<RawInstruction>) returns (r: seq<InstructionData>)
    ensures r == Collect(keys, OuterSlots(instructions))
  {
    r := [];
    ghost var done: seq<Slot> := [];
    for i := 0 to |instructions|
      invariant done == OuterSlots(instructions)[..i]
      invariant r == Collect(keys, done)
    {
      var s := Slot(instructions[i], i);
      r := DecodeInstruction(keys, s, r, done);
      done := done + [s];
    }
    assert OuterSlots(instructions)[..|instructions|] == OuterSlots(instructions);
  }

  /** The whole function: top-level instructions first, then group by group. */
  method ParseTransaction(tx: RawTransaction) returns (keys: seq<string>, instrs: seq<InstructionData>)
    ensures keys == Keys(tx)
    ensures instrs == Collect(keys, Slots(tx))
    ensures Parsed(tx, keys, instrs)
  {
    keys := tx.accountKeys + tx.writable + tx.readonly;
    instrs := ParseOuter(keys, tx.instructions);
    var n := |tx.instructions|;
    ghost var done := OuterSlots(tx.instructions);
    for k := 0 to |tx.inner|
      invariant done == OuterSlots(tx.instructions) + InnerSlots(n, tx.inner[..k])
      invariant instrs == Collect(keys, done)
    {
      instrs := ParseGroup(keys, n, tx.inner[k], instrs, done);
      assert tx.inner[..k + 1][..k] == tx.inner[..k];
      done := done + GroupSlots(n, tx.inner[k]);
    }
    assert tx.inner[..|tx.inner|] == tx.inner;
    ResultIsParsed(tx);
  }

  // ---- account resolution --------------------------------------------------------

  predicate AllInRange(keys: seq<string>, indices: seq<int>) {
    forall k :: 0 <= k < |indices| ==> InRange(keys, indices[k])
  }

  /** Positions are kept exactly when no index falls outside the key list; then each
      account is the key it names. */
  lemma {:induction false} ResolvePositions(keys: seq<string>, indices: seq<int>)
    ensures |Resolve(keys, indices)| <= |indices|
    ensures |Resolve(keys, indices)| == |indices| <==> AllInRange(keys, indices)
    ensures AllInRange(keys, indices) ==> forall k :: 0 <= k < |indices| ==> Resolve(keys, indices)[k] == keys[indices[k]]
  {
    if indices != [] {
      var front := indices[..|indices| - 1];
      ResolvePositions(keys, front);
      assert AllInRange(keys, indices) <==> AllInRange(keys, front) && InRange(keys, indices[|indices| - 1]);
    }
  }

  /** An index names a static key, then a writable one, then a read-only one. */
  lemma KeyOrder(tx: RawTransaction, i: nat)
    requires i < |Keys(tx)|
    ensures var a, b := |tx.accountKeys|, |tx.accountKeys| + |tx.writable|;
            Keys(tx)[i] == if i < a then tx.accountKeys[i] else if i < b then tx.writable[i - a] else tx.readonly[i - b]
  {
  }

  // ---- numbering -----------------------------------------------------------------

  predicate DistinctSlots(slots: seq<Slot>) {
    forall p, q :: 0 <= p < q < |slots| ==> slots[p].index != slots[q].index
  }

  predicate DistinctData(instrs: seq<InstructionData>) {
    forall p, q :: 0 <= p < q < |instrs| ==> instrs[p].index != instrs[q].index
  }

  /** Where a collected instruction comes from. */
  lemma {:induction false} CollectOrigin(keys: seq<string>, slots: seq<Slot>, p: nat)
    requires p < |Collect(keys, slots)|
    ensures exists s :: s in slots && s.index == Collect(keys, slots)[p].index
  {
    var front := slots[..|slots| - 1];
    if p < |Collect(keys, front)| {
      CollectOrigin(keys, front, p);
      var s :| s in front && s.index == Collect(keys, front)[p].index;
      assert s in slots;
    } else {
      assert slots[|slots| - 1] in slots;
    }
  }

  lemma {:induction false} CollectDistinct(keys: seq<string>, slots: seq<Slot>)
    requires DistinctSlots(slots)
    ensures DistinctData(Collect(keys, slots))
  {
    if slots != [] {
      var front := slots[..|slots| - 1];
      CollectDistinct(keys, front);
      var done := Collect(keys, front);
      forall p | 0 <= p < |done|
        ensures done[p].index != slots[|slots| - 1].index
      {
        CollectOrigin(keys, front, p);
        var s :| s in front && s.index == done[p].index;
        var k :| 0 <= k < |front| && front[k] == s;
        assert slots[k] == s;
      }
    }
  }

  /** Two lists of slots have a number in common. */
  ghost predicate Share(a: seq<Slot>, b: seq<Slot>) {
    exists i, j :: 0 <= i < |a| && 0 <= j < |b| && a[i].index == b[j].index
  }

  lemma ShareJoin(xs: seq<Slot>, a: seq<Slot>, b: seq<Slot>)
    ensures Share(xs, a + b) <==> Share(xs, a) || Share(xs, b)
  {
    if Share(xs, a) {
      var i, j :| 0 <= i < |xs| && 0 <= j < |a| && xs[i].index == a[j].index;
      assert (a + b)[j] == a[j];
    }
    if Share(xs, b) {
      var i, j :| 0 <= i < |xs| && 0 <= j < |b| && xs[i].index == b[j].index;
      assert (a + b)[|a| + j] == b[j];
    }
  }

  lemma ShareSymmetric(a: seq<Slot>, b: seq<Slot>)
    ensures Share(a, b) <==> Share(b, a)
  {
  }

  lemma DistinctJoin(a: seq<Slot>, b: seq<Slot>)
    ensures DistinctSlots(a + b) <==> DistinctSlots(a) && DistinctSlots(b) && !Share(a, b)
  {
    var all := a + b;
    assert forall i :: 0 <= i < |a| ==> all[i] == a[i];
    assert forall j :: 0 <= j < |b| ==> all[|a| + j] == b[j];
    if DistinctSlots(all) {
      forall i, j | 0 <= i < |a| && 0 <= j < |b| ensures a[i].index != b[j].index {
        assert all[i].index != all[|a| + j].index;
      }
      forall i, j | 0 <= i < j < |b| ensures b[i].index != b[j].index {
        assert all[|a| + i].index != all[|a| + j].index;
      }
    }
  }

  /** The general limit: of two groups that are not empty, the one with the smaller outer
      index runs into the other exactly if it holds more than a thousand instructions for
      each step between the two indices. */
  lemma GroupsOverlap(n: nat, g: InnerGroup, h: InnerGroup)
    requires h.index >= g.index && g.instructions != [] && h.instructions != []
    ensures |g.instructions| > 1000 * (h.index - g.index) <==> Share(GroupSlots(n, g), GroupSlots(n, h))
  {
    if |g.instructions| > 1000 * (h.index - g.index) {
      assert GroupSlots(n, g)[1000 * (h.index - g.index)].index == GroupSlots(n, h)[0].index;
    }
  }

  /** The number ranges of two groups do not meet. */
  predicate Apart(g: InnerGroup, h: InnerGroup) {
    || g.instructions == []
    || h.instructions == []
    || g.index * 1000 + |g.instructions| <= h.index * 1000
    || h.index * 1000 + |h.instructions| <= g.index * 1000
  }

  /** The number range of a group does not meet the numbers 0 to n - 1 at the top. */
  predicate Clear(n: nat, g: InnerGroup) {
    g.instructions == [] || n == 0 || g.index >= 0 || n + g.index * 1000 + |g.instructions| <= 0
  }

  predicate Separated(n: nat, inner: seq<InnerGroup>) {
    && (forall k :: 0 <= k < |inner| ==> Clear(n, inner[k]))
    && (forall k, m :: 0 <= k < m < |inner| ==> Apart(inner[k], inner[m]))
  }

  lemma ApartExactly(n: nat, g: InnerGroup, h: InnerGroup)
    ensures Apart(g, h) <==> !Share(GroupSlots(n, g), GroupSlots(n, h))
  {
    if g.instructions != [] && h.instructions != [] {
      if h.index >= g.index {
        GroupsOverlap(n, g, h);
      } else {
        GroupsOverlap(n, h, g);
        ShareSymmetric(GroupSlots(n, g), GroupSlots(n, h));
      }
    }
  }

  lemma ClearExactly(instrs: seq<RawInstruction>, g: InnerGroup)
    ensures Clear(|instrs|, g) <==> !Share(OuterSlots(instrs), GroupSlots(|instrs|, g))
  {
    var n := |instrs|;
    if !Clear(n, g) {
      var start := n + g.index * 1000;
      var v := if start < 0 then 0 else start;
      assert OuterSlots(instrs)[v].index == GroupSlots(n, g)[v - start].index;
    }
  }

  lemma {:induction false} ShareInner(xs: seq<Slot>, n: nat, inner: seq<InnerGroup>)
    ensures Share(xs, InnerSlots(n, inner)) <==> exists k :: 0 <= k < |inner| && Share(xs, GroupSlots(n, inner[k]))
  {
    if inner != [] {
      var front, last := inner[..|inner| - 1], inner[|inner| - 1];
      ShareInner(xs, n, front);
      ShareJoin(xs, InnerSlots(n, front), GroupSlots(n, last));
      assert forall k :: 0 <= k < |front| ==> inner[k] == front[k];
    }
  }

  lemma {:induction false} InnerDistinctExactly(n: nat, inner: seq<InnerGroup>)
    ensures DistinctSlots(InnerSlots(n, inner)) <==>
              forall k, m :: 0 <= k < m < |inner| ==> Apart(inner[k], inner[m])
  {
    if inner != [] {
      var front, last := inner[..|inner| - 1], inner[|inner| - 1];
      InnerDistinctExactly(n, front);
      DistinctJoin(InnerSlots(n, front), GroupSlots(n, last));
      ShareSymmetric(InnerSlots(n, front), GroupSlots(n, last));
      ShareInner(GroupSlots(n, last), n, front);
      assert DistinctSlots(GroupSlots(n, last));
      forall k | 0 <= k < |front|
        ensures Apart(inner[k], last) <==> !Share(GroupSlots(n, last), GroupSlots(n, front[k]))
      {
        ApartExactly(n, front[k], last);
        ShareSymmetric(GroupSlots(n, front[k]), GroupSlots(n, last));
      }
      SplitPairs(inner);
    }
  }

  lemma SplitPairs(inner: seq<InnerGroup>)
    requires inner != []
    ensures var front, last := inner[..|inner| - 1], inner[|inner| - 1];
            (forall k, m :: 0 <= k < m < |inner| ==> Apart(inner[k], inner[m])) <==>
              (forall k, m :: 0 <= k < m < |front| ==> Apart(front[k], front[m])) &&
              (forall k :: 0 <= k < |front| ==> Apart(inner[k], last))
  {
    var front := inner[..|inner| - 1];
    assert forall k :: 0 <= k < |front| ==> front[k] == inner[k];
  }

  /** All numbers, top-level and inner together, differ exactly if no two groups meet and
      no group meets the numbers at the top. */
  lemma NumbersDistinctExactly(tx: RawTransaction)
    ensures DistinctSlots(Slots(tx)) <==> Separated(|tx.instructions|, tx.inner)
  {
    var n, outer := |tx.instructions|, OuterSlots(tx.instructions);
    DistinctJoin(outer, InnerSlots(n, tx.inner));
    InnerDistinctExactly(n, tx.inner);
    ShareInner(outer, n, tx.inner);
    forall k | 0 <= k < |tx.inner|
      ensures Clear(n, tx.inner[k]) <==> !Share(outer, GroupSlots(n, tx.inner[k]))
    {
      ClearExactly(tx.instructions, tx.inner[k]);
    }
  }

  /** The slots that are collected. */
  function Resolvable(keys: seq<string>, slots: seq<Slot>): seq<Slot> {
    if slots == [] then []
    else
      var s := slots[|slots| - 1];
      Resolvable(keys, slots[..|slots| - 1]) + if InRange(keys, s.instr.programIdIndex) then [s] else []
  }

  lemma {:induction false} CollectNumbers(keys: seq<string>, slots: seq<Slot>)
    ensures |Collect(keys, slots)| == |Resolvable(keys, slots)|
    ensures forall p :: 0 <= p < |Collect(keys, slots)| ==>
              Collect(keys, slots)[p].index == Resolvable(keys, slots)[p].index
  {
    if slots != [] {
      CollectNumbers(keys, slots[..|slots| - 1]);
    }
  }

  lemma {:induction false} AllResolvable(keys: seq<string>, slots: seq<Slot>)
    requires forall p :: 0 <= p < |slots| ==> InRange(keys, slots[p].instr.programIdIndex)
    ensures Resolvable(keys, slots) == slots
  {
    if slots != [] {
      AllResolvable(keys, slots[..|slots| - 1]);
    }
  }

  /** The result's numbers differ exactly if those of the collected slots do; with every
      program index in range that is the condition on the groups. */
  lemma ResultDistinctExactly(tx: RawTransaction)
    ensures DistinctData(Collect(Keys(tx), Slots(tx))) <==> DistinctSlots(Resolvable(Keys(tx), Slots(tx)))
    ensures (forall p :: 0 <= p < |Slots(tx)| ==> InRange(Keys(tx), Slots(tx)[p].instr.programIdIndex)) ==>
              (DistinctData(Collect(Keys(tx), Slots(tx))) <==> Separated(|tx.instructions|, tx.inner))
  {
    CollectNumbers(Keys(tx), Slots(tx));
    NumbersDistinctExactly(tx);
    if forall p :: 0 <= p < |Slots(tx)| ==> InRange(Keys(tx), Slots(tx)[p].instr.programIdIndex) {
      AllResolvable(Keys(tx), Slots(tx));
    }
  }

  /** Each group has room for a thousand instructions, and no outer index is repeated. */
  predicate WellNumbered(inner: seq<InnerGroup>) {
    && (forall k :: 0 <= k < |inner| ==> inner[k].index >= 0 && |inner[k].instructions| <= 1000)
    && (forall k, m :: 0 <= k < m < |inner| ==> inner[k].index != inner[m].index)
  }

  /** All numbers in the result differ, top-level and inner together, whichever slots are
      collected. */
  lemma IndicesDistinct(tx: RawTransaction)
    requires WellNumbered(tx.inner)
    ensures DistinctData(Collect(Keys(tx), Slots(tx)))
  {
    NumbersDistinctExactly(tx);
    CollectDistinct(Keys(tx), Slots(tx));
  }
}
