/** base58Encode as it is written, which divides the buffer from its last byte to its first,
    and the same loop run from the first byte to the last. */
module Base58Encoder {
  import opened Radix
  import opened Base58

  // ---- the digits the written loop produces --------------------------------------

  /** Dropping leading zero bytes of the buffer divides its little-endian value. */
  function StripAll(v: nat): (r: nat)
    ensures r <= v && (r != 0 ==> r % 256 != 0)
  {
    if v != 0 && v % 256 == 0 then StripAll(v / 256) else v
  }

  /** The digits produced from a positive little-endian value, in the order produced. */
  function Written(v: nat): (ds: seq<nat>)
    ensures Digits(58, ds)
    ensures v > 0 ==> ds != []
  {
    if v == 0 then [] else [v % 58] + Written(StripAll(v / 58))
  }

  function WrittenDigits(num: seq<nat>): (ds: seq<nat>)
    ensures Digits(58, ds)
  {
    if num == [] then []
    else if ValueLow(256, num) == 0 then [0]
    else Written(ValueLow(256, num))
  }

  lemma {:induction false} ReverseDigits(b: Base, ds: seq<nat>)
    requires Digits(b, ds)
    ensures Digits(b, Reverse(ds))
  {
    if ds != [] {
      ReverseDigits(b, ds[1..]);
    }
  }

  /** What base58Encode returns. */
  ghost function WrittenEncode(b: seq<nat>): string {
    if b == [] then ""
    else
      var tail := Reverse(WrittenDigits(b));
      assert Digits(58, tail) by { ReverseDigits(58, WrittenDigits(b)); }
      Chars(Zeros(LeadingZeros(b)) + tail)
  }

  /** What the loop returns when it divides from the first byte to the last. */
  ghost function Encoded(b: seq<nat>): string {
    if b == [] then ""
    else
      var v := Value(256, b);
      assert Digits(58, Numeral(58, v)) by { NumeralValue(58, v); }
      Chars(Zeros(LeadingZeros(b)) + if v == 0 then [0] else Numeral(58, v))
  }

  // ---- the loops -----------------------------------------------------------------

  /** A quotient of the inner loop fits a byte, so the conversion loses nothing. */
  lemma QuotientFits(byte: nat, carry: nat)
    requires byte < 256 && carry < 58
    ensures (byte + carry * 256) / 58 < 256
  {
  }

  lemma {:induction false} ValueLowZero(num: seq<nat>)
    ensures ValueLow(256, num) == 0 <==> AllZero(num)
  {
    if num != [] {
      ValueLowZero(num[1..]);
      assert AllZero(num) <==> num[0] == 0 && AllZero(num[1..]);
    }
  }

  /** The body of the inner loop: byte i becomes its quotient, the remainder is carried on. */
  method DivideByte(num: array<Byte>, i: nat, carry: nat) returns (rest: nat)
    requires i < num.Length && carry < 58
    modifies num
    ensures var val: nat := old(num[i]) + carry * 256; rest == val % 58 && num[i] == val / 58
    ensures forall j :: 0 <= j < num.Length && j != i ==> num[j] == old(num[j])
  {
    var val := num[i] + carry * 256;
    QuotientFits(num[i], carry);
    num[i] := (val / 58) % 256;
    rest := val % 58;
  }

  /** The bytes from position k on after the inner loop has gone from the last one down to k,
      and the remainder it carries. */
  function DividedDown(all: seq<nat>, k: nat): (r: (seq<nat>, nat))
    requires k <= |all|
    ensures |r.0| == |all| - k && r.1 < 58
    decreases |all| - k
  {
    if k == |all| then ([], 0)
    else
      var (q, carry) := DividedDown(all, k + 1);
      var val := all[k] + carry * 256;
      ([val / 58] + q, val % 58)
  }

  lemma {:induction false} DividedDownValue(all: seq<nat>, k: nat)
    requires k <= |all|
    ensures var (q, carry) := DividedDown(all, k); ValueLow(256, all[k..]) == 58 * ValueLow(256, q) + carry
    decreases |all| - k
  {
    if k < |all| {
      DividedDownValue(all, k + 1);
      var (q, carry) := DividedDown(all, k + 1);
      PassDownStep(all[k + 1..], q, all[k], carry);
      assert all[k..] == [all[k]] + all[k + 1..];
    }
  }

  lemma PassDownStep(before: seq<nat>, after: seq<nat>, r: nat, carry: nat)
    requires ValueLow(256, before) == 58 * ValueLow(256, after) + carry
    ensures ValueLow(256, [r] + before) ==
            58 * ValueLow(256, [(r + carry * 256) / 58] + after) + (r + carry * 256) % 58
  {
    assert ([r] + before)[1..] == before;
    assert ([(r + carry * 256) / 58] + after)[1..] == after;
  }

  /** The inner loop as written: last byte to first. */
  method DividePassDown(num: array<Byte>, lo: nat) returns (carry: nat)
    requires lo <= num.Length
    modifies num
    ensures carry < 58
    ensures ValueLow(256, old(num[lo..])) == 58 * ValueLow(256, num[lo..]) + carry
  {
    carry := 0;
    var i := num.Length;
    ghost var all: seq<nat> := num[..];
    while i > lo
      invariant lo <= i <= num.Length && carry == DividedDown(all, i).1
      invariant forall j :: 0 <= j < i ==> num[j] == all[j]
      invariant forall j :: i <= j < num.Length ==> num[j] == DividedDown(all, i).0[j - i]
    {
      i := i - 1;
      carry := DivideByte(num, i, carry);
    }
    DividedDownValue(all, lo);
    assert num[lo..] == DividedDown(all, lo).0;
  }

  /** The bytes from lo up to k after the loop in the other direction has passed them, and
      its remainder. */
  function DividedUp(all: seq<nat>, lo: nat, k: nat): (r: (seq<nat>, nat))
    requires lo <= k <= |all|
    ensures |r.0| == k - lo && r.1 < 58
  {
    if k == lo then ([], 0)
    else
      var (q, carry) := DividedUp(all, lo, k - 1);
      var val := all[k - 1] + carry * 256;
      (q + [val / 58], val % 58)
  }

  lemma {:induction false} DividedUpValue(all: seq<nat>, lo: nat, k: nat)
    requires lo <= k <= |all|
    ensures var (q, carry) := DividedUp(all, lo, k); Value(256, all[lo..k]) == 58 * Value(256, q) + carry
  {
    if k == lo {
      assert all[lo..k] == [];
    } else {
      DividedUpValue(all, lo, k - 1);
      var (q, carry) := DividedUp(all, lo, k - 1);
      PassUpStep(all[lo..k - 1], q, all[k - 1], carry);
      SliceGrows(all, lo, k);
    }
  }

  lemma SliceGrows(all: seq<nat>, lo: nat, k: nat)
    requires lo < k <= |all|
    ensures all[lo..k] == all[lo..k - 1] + [all[k - 1]]
  {
  }

  lemma PassUpStep(before: seq<nat>, after: seq<nat>, r: nat, carry: nat)
    requires Value(256, before) == 58 * Value(256, after) + carry
    ensures Value(256, before + [r]) == 58 * Value(256, after + [(r + carry * 256) / 58]) + (r + carry * 256) % 58
  {
    assert (before + [r])[..|before|] == before;
    assert (after + [(r + carry * 256) / 58])[..|after|] == after;
  }

  /** The inner loop in the other direction: first byte to last. */
  method DividePassUp(num: array<Byte>, lo: nat) returns (carry: nat)
    requires lo <= num.Length
    modifies num
    ensures carry < 58
    ensures Value(256, old(num[lo..])) == 58 * Value(256, num[lo..]) + carry
  {
    carry := 0;
    var i := lo;
    ghost var all: seq<nat> := num[..];
    while i < num.Length
      invariant lo <= i <= num.Length && carry == DividedUp(all, lo, i).1
      invariant forall j :: i <= j < num.Length ==> num[j] == all[j]
      invariant forall j :: lo <= j < i ==> num[j] == DividedUp(all, lo, i).0[j - lo]
    {
      carry := DivideByte(num, i, carry);
      i := i + 1;
    }
    DividedUpValue(all, lo, i);
    assert all[lo..i] == all[lo..] && num[lo..] == DividedUp(all, lo, i).0;
  }

  lemma StripStep(xs: seq<nat>)
    requires xs != [] && xs[0] == 0
    ensures StripAll(ValueLow(256, xs)) == StripAll(ValueLow(256, xs[1..]))
    ensures Value(256, xs) == Value(256, xs[1..])
  {
    assert xs == Zeros(1) + xs[1..];
    ValueZeros(256, 1, xs[1..]);
    StripTimes(ValueLow(256, xs[1..]));
  }

  lemma StripTimes(v: nat)
    ensures StripAll(256 * v) == StripAll(v)
  {
    DivMod(256, v, 0);
  }

  lemma StripDone(xs: seq<nat>)
    requires Digits(256, xs) && (xs != [] ==> xs[0] != 0)
    ensures StripAll(ValueLow(256, xs)) == ValueLow(256, xs)
    ensures xs != [] ==> ValueLow(256, xs) > 0
  {
    if xs != [] {
      DivMod(256, ValueLow(256, xs[1..]), xs[0]);
    }
  }

  /** The stripping loop: the first index at or after lo whose byte is not zero. */
  method StripFront(num: array<Byte>, lo: nat) returns (lo': nat)
    requires lo <= num.Length
    ensures lo <= lo' <= num.Length
    ensures lo' < num.Length ==> num[lo'] != 0
    ensures ValueLow(256, num[lo'..]) == StripAll(ValueLow(256, num[lo..]))
    ensures Value(256, num[lo'..]) == Value(256, num[lo..])
  {
    lo' := lo;
    while lo' < num.Length && num[lo'] == 0
      invariant lo <= lo' <= num.Length
      invariant StripAll(ValueLow(256, num[lo'..])) == StripAll(ValueLow(256, num[lo..]))
      invariant Value(256, num[lo'..]) == Value(256, num[lo..])
    {
      StripStep(num[lo'..]);
      assert num[lo'..][1..] == num[lo' + 1..];
      lo' := lo' + 1;
    }
    StripDone(num[lo'..]);
  }

  /** One round of the written loop emits the next digit and leaves the rest to come. */
  lemma WrittenRound(num: seq<nat>, q: seq<nat>, rest: seq<nat>, carry: nat)
    requires num != [] && carry < 58 && Digits(256, rest)
    requires ValueLow(256, num) == 58 * ValueLow(256, q) + carry
    requires ValueLow(256, rest) == StripAll(ValueLow(256, q))
    requires rest != [] ==> rest[0] != 0
    ensures WrittenDigits(num) == [carry] + WrittenDigits(rest)
  {
    StripDone(rest);
    WrittenUnroll(ValueLow(256, num), ValueLow(256, q), carry);
  }

  lemma WrittenUnroll(n: nat, q: nat, carry: nat)
    requires carry < 58 && n == 58 * q + carry
    ensures n > 0 ==> Written(n) == [carry] + Written(StripAll(q))
    ensures n == 0 ==> carry == 0 && StripAll(q) == 0
  {
    DivMod(58, q, carry);
  }

  lemma Regroup(ds: seq<nat>, d: nat, rest: seq<nat>)
    ensures ds + ([d] + rest) == ds + [d] + rest
  {
  }

  /** Appending the character of the next digit. */
  method AppendDigit(encoded: string, ghost ds: seq<nat>, d: nat) returns (r: string)
    requires Spells(encoded, ds) && d < 58
    ensures Spells(r, ds + [d])
  {
    AlphabetAt(d);
    r := encoded + [ALPHABET[d]];
  }

  /** The final loop: swap characters from both ends inwards. */
  method ReverseInPlace(s: string) returns (r: string)
    ensures |r| == |s| && forall k :: 0 <= k < |s| ==> r[k] == s[|s| - 1 - k]
  {
    r := s;
    var i, j := 0, |r| - 1;
    while i < j
      invariant 0 <= i <= j + 1 && j == |s| - 1 - i && |r| == |s|
      invariant forall k :: i <= k <= j ==> r[k] == s[k]
      invariant forall k :: 0 <= k < i ==> r[k] == s[|s| - 1 - k]
      invariant forall k :: j < k < |s| ==> r[k] == s[|s| - 1 - k]
    {
      r := r[i := r[j]][j := r[i]];
      i, j := i + 1, j - 1;
    }
  }

  /** The loops after the division: one '1' per leading zero byte, then reversal. */
  method Finish(encoded: string, zeros: nat, ghost ds: seq<nat>) returns (r: string)
    requires Spells(encoded, ds)
    ensures Spells(r, Zeros(zeros) + Reverse(ds))
  {
    var out := encoded;
    for i := 0 to zeros
      invariant Spells(out, ds + Zeros(i))
    {
      out := out + ['1'];
    }
    r := ReverseInPlace(out);
    forall k | 0 <= k < |r|
      ensures (Zeros(zeros) + Reverse(ds))[k] == (ds + Zeros(zeros))[|r| - 1 - k]
    {
      if k >= zeros {
        ReverseAt(ds, k - zeros);
      }
    }
  }

  method CountLeadingZeros(input: seq<Byte>) returns (zeros: nat)
    ensures zeros == LeadingZeros(input)
  {
    zeros := 0;
    while zeros < |input| && input[zeros] == 0
      invariant 0 <= zeros <= |input|
      invariant LeadingZeros(input) == zeros + LeadingZeros(input[zeros..])
    {
      assert input[zeros..][1..] == input[zeros + 1..];
      zeros := zeros + 1;
    }
  }

  /** A positive value falls in a round of the written loop, a zero buffer empties. */
  lemma RoundFalls(num: seq<nat>, q: seq<nat>, rest: seq<nat>, carry: nat)
    requires num != [] && Digits(256, rest)
    requires ValueLow(256, num) == 58 * ValueLow(256, q) + carry
    requires ValueLow(256, rest) == StripAll(ValueLow(256, q))
    requires rest != [] ==> rest[0] != 0
    ensures ValueLow(256, rest) < ValueLow(256, num) || (ValueLow(256, num) == ValueLow(256, rest) && rest == [])
  {
    StripDone(rest);
  }

  /** One round of that loop. */
  method WrittenLoopRound(num: array<Byte>, lo: nat) returns (lo': nat, carry: nat)
    requires lo < num.Length
    modifies num
    ensures lo <= lo' <= num.Length && carry < 58
    ensures WrittenDigits(old(num[lo..])) == [carry] + WrittenDigits(num[lo'..])
    ensures ValueLow(256, num[lo'..]) < ValueLow(256, old(num[lo..]))
            || (ValueLow(256, old(num[lo..])) == ValueLow(256, num[lo'..]) && lo' == num.Length)
  {
    ghost var before := num[lo..];
    carry := DividePassDown(num, lo);
    ghost var q := num[lo..];
    lo' := StripFront(num, lo);
    WrittenRound(before, q, num[lo'..], carry);
    RoundFalls(before, q, num[lo'..], carry);
  }

  /** The outer loop as written; num is used up. */
  method ProduceDigits(num: array<Byte>) returns (encoded: string, ghost ds: seq<nat>)
    modifies num
    ensures Spells(encoded, ds) && ds == WrittenDigits(old(num[..]))
  {
    var lo := 0;
    encoded, ds := "", [];
    ghost var whole := WrittenDigits(num[..]);
    assert num[0..] == num[..];
    while lo < num.Length
      invariant lo <= num.Length
      invariant Spells(encoded, ds)
      invariant ds + WrittenDigits(num[lo..]) == whole
      decreases ValueLow(256, num[lo..]), num.Length - lo
    {
      var carry;
      lo, carry := WrittenLoopRound(num, lo);
      encoded := AppendDigit(encoded, ds, carry);
      Regroup(ds, carry, WrittenDigits(num[lo..]));
      ds := ds + [carry];
    }
    assert num[lo..] == [];
  }

  /** base58Encode. The loop ends because each round lowers the little-endian value, or
      empties a buffer of zeros. */
  method Base58Encode(input: seq<Byte>) returns (r: string)
    ensures r == WrittenEncode(input)
  {
    if |input| == 0 {
      return "";
    }
    var zeros := CountLeadingZeros(input);
    var num := new Byte[|input|](i requires 0 <= i < |input| => input[i]);
    assert num[..] == input;
    var encoded, ds := ProduceDigits(num);
    r := Finish(encoded, zeros, ds);
    SpellsChars(r, Zeros(zeros) + Reverse(ds));
  }

  // ---- the other direction -------------------------------------------------------

  /** The digits the loop produces when it divides from the first byte to the last. */
  function UpDigits(num: seq<nat>): seq<nat> {
    if num == [] then [] else LowDigits(Value(256, num))
  }

  /** The digits of v, least significant first; a zero is written as one digit. */
  function LowDigits(v: nat): seq<nat> {
    if v == 0 then [0] else Reverse(Numeral(58, v))
  }

  lemma UpRound(num: seq<nat>, q: seq<nat>, rest: seq<nat>, carry: nat)
    requires num != [] && carry < 58
    requires Value(256, num) == 58 * Value(256, q) + carry
    requires Value(256, rest) == Value(256, q)
    requires rest != [] ==> rest[0] != 0
    ensures UpDigits(num) == [carry] + UpDigits(rest)
    ensures Value(256, rest) < Value(256, num) || (Value(256, num) == Value(256, rest) && rest == [])
  {
    if rest != [] {
      ValuePositive(256, rest);
    }
    UpValue(Value(256, num), Value(256, q), carry, rest == []);
  }

  /** The same round in terms of values; empty says that nothing is left. */
  lemma UpValue(n: nat, v: nat, carry: nat, empty: bool)
    requires n == 58 * v + carry && carry < 58 && (v == 0 <==> empty)
    ensures LowDigits(n) == [carry] + if empty then [] else LowDigits(v)
    ensures v < n || (n == v && empty)
  {
    UpDigit(v, carry);
  }

  lemma UpDigit(v: nat, carry: nat)
    requires carry < 58
    ensures LowDigits(v * 58 + carry) == [carry] + if v == 0 then [] else LowDigits(v)
  {
    DivMod(58, v, carry);
    ReverseAppend(Numeral(58, v), carry);
  }

  /** One round of that loop. */
  method UpLoopRound(num: array<Byte>, lo: nat) returns (lo': nat, carry: nat)
    requires lo < num.Length
    modifies num
    ensures lo <= lo' <= num.Length && carry < 58
    ensures UpDigits(old(num[lo..])) == [carry] + UpDigits(num[lo'..])
    ensures Value(256, num[lo'..]) < Value(256, old(num[lo..]))
            || (Value(256, old(num[lo..])) == Value(256, num[lo'..]) && lo' == num.Length)
  {
    ghost var before := num[lo..];
    carry := DividePassUp(num, lo);
    ghost var q := num[lo..];
    lo' := StripFront(num, lo);
    UpRound(before, q, num[lo'..], carry);
  }

  /** The outer loop over passes from the first byte to the last. */
  method ProduceDigitsUp(num: array<Byte>) returns (encoded: string, ghost ds: seq<nat>)
    modifies num
    ensures Spells(encoded, ds) && ds == UpDigits(old(num[..]))
  {
    var lo := 0;
    encoded, ds := "", [];
    ghost var whole := UpDigits(num[..]);
    assert num[0..] == num[..];
    while lo < num.Length
      invariant lo <= num.Length
      invariant Spells(encoded, ds)
      invariant ds + UpDigits(num[lo..]) == whole
      decreases Value(256, num[lo..]), num.Length - lo
    {
      var carry;
      lo, carry := UpLoopRound(num, lo);
      encoded := AppendDigit(encoded, ds, carry);
      Regroup(ds, carry, UpDigits(num[lo..]));
      ds := ds + [carry];
    }
    assert num[lo..] == [];
  }

  /** base58Encode with its inner loop run from the first byte to the last. */
  method EncodeMostSignificantFirst(input: seq<Byte>) returns (r: string)
    ensures r == Encoded(input)
  {
    if |input| == 0 {
      return "";
    }
    var zeros := CountLeadingZeros(input);
    var num := new Byte[|input|](i requires 0 <= i < |input| => input[i]);
    assert num[..] == input;
    var encoded, ds := ProduceDigitsUp(num);
    r := Finish(encoded, zeros, ds);
    SpellsChars(r, Zeros(zeros) + Reverse(ds));
    ReverseTwice(Numeral(58, Value(256, input)));
  }

  method PubkeyFromBytes(b: seq<Byte>) returns (r: string)
    ensures r == if |b| != 32 || AllZero(b) then "" else WrittenEncode(b)
  {
    if |b| != 32 {
      return "";
    }
    var allZero := true;
    var k := 0;
    while k < |b| && allZero
      invariant 0 <= k <= |b|
      invariant allZero <==> AllZero(b[..k])
    {
      if b[k] != 0 {
        allZero := false;
      }
      assert b[..k + 1] == b[..k] + [b[k]];
      k := k + 1;
    }
    if allZero {
      assert b[..k] == b;
      return "";
    }
    r := Base58Encode(b);
  }
}
