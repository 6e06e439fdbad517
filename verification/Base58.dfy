/** decodeBase58, base58Encode and pubkeyFromBytes. Base58 is the scheme of sections 3 and 4
    of draft-msporny-base58-03. */
module Base58 {
  import opened Wrappers
  import opened Radix

  type Byte = n: nat | n < 256

  const ALPHABET: string :=
    "123456789" + "ABCDEFGH" + "JKLMN" + "PQRSTUVWXYZ" + "abcdefghijk" + "mnopqrstuvwxyz"

  // ---- the alphabet --------------------------------------------------------------

  /** The character of a digit, group by group of consecutive characters. */
  function CharOf(d: nat): char
    requires d < 58
  {
    if d < 9 then '1' + d as char
    else if d < 17 then 'A' + (d - 9) as char
    else if d < 22 then 'J' + (d - 17) as char
    else if d < 33 then 'P' + (d - 22) as char
    else if d < 44 then 'a' + (d - 33) as char
    else 'm' + (d - 44) as char
  }

  /** The digit of a character, if it has one. */
  function DigitOf(c: char): Option<nat> {
    if '1' <= c <= '9' then Some((c - '1') as nat)
    else if 'A' <= c <= 'H' then Some((c - 'A') as nat + 9)
    else if 'J' <= c <= 'N' then Some((c - 'J') as nat + 17)
    else if 'P' <= c <= 'Z' then Some((c - 'P') as nat + 22)
    else if 'a' <= c <= 'k' then Some((c - 'a') as nat + 33)
    else if 'm' <= c <= 'z' then Some((c - 'm') as nat + 44)
    else None
  }

  lemma DigitCharInverse(c: char, d: nat)
    requires d < 58
    ensures DigitOf(CharOf(d)) == Some(d)
    ensures DigitOf(c) == Some(d) <==> c == CharOf(d)
  {
  }

  lemma DigitRange(c: char)
    ensures DigitOf(c).Some? ==> DigitOf(c).value < 58
  {
  }

  /** The alphabet lists the characters of the digits 0 to 57 in order. */
  lemma AlphabetOrder()
    ensures |ALPHABET| == 58
    ensures forall d :: 0 <= d < 58 ==> ALPHABET[d] == CharOf(d)
  {
    var a, b, c, d, e, f := "123456789", "ABCDEFGH", "JKLMN", "PQRSTUVWXYZ", "abcdefghijk", "mnopqrstuvwxyz";
    assert forall i :: 0 <= i < 9 ==> a[i] == CharOf(i);
    assert forall i :: 0 <= i < 8 ==> b[i] == CharOf(i + 9);
    assert forall i :: 0 <= i < 5 ==> c[i] == CharOf(i + 17);
    assert forall i :: 0 <= i < 11 ==> d[i] == CharOf(i + 22);
    assert forall i :: 0 <= i < 11 ==> e[i] == CharOf(i + 33);
    assert forall i :: 0 <= i < 14 ==> f[i] == CharOf(i + 44);
    assert ALPHABET == a + b + c + d + e + f;
  }

  ghost predicate Valid(s: string) {
    forall i :: 0 <= i < |s| ==> DigitOf(s[i]).Some?
  }

  ghost function DigitsOf(s: string): (ds: seq<nat>)
    requires Valid(s)
    ensures |ds| == |s| && Digits(58, ds)
  {
    seq(|s|, i requires 0 <= i < |s| => DigitOf(s[i]).value)
  }

  ghost function Chars(ds: seq<nat>): (s: string)
    requires Digits(58, ds)
    ensures |s| == |ds|
  {
    seq(|ds|, i requires 0 <= i < |ds| => CharOf(ds[i]))
  }

  /** s spells the digits ds, character by character. */
  predicate Spells(s: string, ds: seq<nat>) {
    |s| == |ds| && forall i :: 0 <= i < |ds| ==> ds[i] < 58 && s[i] == CharOf(ds[i])
  }

  lemma SpellsChars(s: string, ds: seq<nat>)
    requires Spells(s, ds)
    ensures Digits(58, ds) && s == Chars(ds)
  {
  }

  lemma CharsOfDigits(s: string)
    requires Valid(s)
    ensures Chars(DigitsOf(s)) == s
  {
    forall i | 0 <= i < |s|
      ensures Chars(DigitsOf(s))[i] == s[i]
    {
      DigitCharInverse(s[i], DigitOf(s[i]).value);
    }
  }

  lemma DigitsOfChars(ds: seq<nat>)
    requires Digits(58, ds)
    ensures Valid(Chars(ds)) && DigitsOf(Chars(ds)) == ds
  {
    forall i | 0 <= i < |ds|
      ensures DigitOf(Chars(ds)[i]) == Some(ds[i])
    {
      DigitCharInverse('1', ds[i]);
    }
  }

  // ---- decoding ------------------------------------------------------------------

  /** One zero byte per leading '1', then the shortest bytes of the base-58 number;
      nothing for a string with a character outside the alphabet. */
  ghost function Decoded(s: string): (bs: seq<nat>) {
    if !Valid(s) then []
    else
      var ds := DigitsOf(s);
      Zeros(LeadingZeros(ds)) + Numeral(256, Value(58, ds))
  }

  /** Powers of the byte base, as the weight of the digits before xs. */
  function Weight(xs: seq<nat>): nat {
    if xs == [] then 1 else Weight(xs[1..]) * 256
  }

  lemma {:induction false} WeightDrop(xs: seq<nat>)
    requires xs != []
    ensures Weight(xs) == Weight(xs[..|xs| - 1]) * 256
  {
    if |xs| > 1 {
      WeightDrop(xs[1..]);
      assert xs[1..][..|xs| - 2] == xs[..|xs| - 1][1..];
    }
  }

  lemma {:induction false} ValueCons(a: nat, xs: seq<nat>)
    ensures Value(256, [a] + xs) == a * Weight(xs) + Value(256, xs)
  {
    if xs == [] {
      assert ([a] + xs)[..0] == [];
    } else {
      var front := xs[..|xs| - 1];
      assert ([a] + xs)[..|xs|] == [a] + front;
      ValueCons(a, front);
      WeightDrop(xs);
    }
  }

  lemma CarryArithmetic(c: nat, r: nat, c': nat, d: nat, p: nat, vOld: nat, vNew: nat, idx: nat)
    requires c * p + vNew == 58 * vOld + idx
    requires c + 58 * r == 256 * c' + d
    ensures c' * (p * 256) + (d * p + vNew) == 58 * (r * p + vOld) + idx
  {
    assert (c + 58 * r) * p == c * p + 58 * (r * p);
    assert (256 * c' + d) * p == c' * (p * 256) + d * p;
  }

  /** One step of the multiplication: the byte r becomes d and the carry c becomes c'. */
  lemma CarryStep(c: nat, r: nat, c': nat, d: nat, before: seq<nat>, after: seq<nat>, idx: nat)
    requires |before| == |after|
    requires Value(256, [c] + after) == 58 * Value(256, before) + idx
    requires c + 58 * r == 256 * c' + d
    ensures Value(256, [c'] + ([d] + after)) == 58 * Value(256, [r] + before) + idx
  {
    WeightLength(before, after);
    ValueCons(c, after);
    ValueCons(r, before);
    ValueCons(d, after);
    ValueCons(c', [d] + after);
    assert ([d] + after)[1..] == after;
    CarryArithmetic(c, r, c', d, Weight(after), Value(256, before), Value(256, after), idx);
  }

  lemma {:induction false} WeightLength(a: seq<nat>, b: seq<nat>)
    requires |a| == |b|
    ensures Weight(a) == Weight(b)
  {
    if a != [] {
      WeightLength(a[1..], b[1..]);
    }
  }

  /** The first inner loop: multiply by 58 and add idx, in place, with a carry out. */
  method MultiplyInPlace(bytes: seq<Byte>, idx: nat) returns (result: seq<Byte>, carry: nat)
    requires idx < 58
    ensures |result| == |bytes| && carry < 58
    ensures Value(256, [carry] + result) == 58 * Value(256, bytes) + idx
    ensures bytes != [] && bytes[0] != 0 ==> carry > 0 || result[0] != 0
  {
    result, carry := bytes, idx;
    var j := |result|;
    ghost var tail, done: seq<Byte> := [], [];
    ValueCons(carry, tail);
    while j > 0
      invariant 0 <= j <= |bytes| == |result|
      invariant carry < 58 && |tail| == |done|
      invariant bytes == bytes[..j] + done && result == bytes[..j] + tail
      invariant Value(256, [carry] + tail) == 58 * Value(256, done) + idx
      invariant j == 0 && bytes != [] && bytes[0] != 0 ==> carry > 0 || result[0] != 0
    {
      j := j - 1;
      var r: nat := result[j];
      var sum: nat := carry + 58 * r;
      var low: Byte := sum % 256;
      CarryStep(carry, r, sum / 256, low, done, tail, idx);
      assert bytes[..j + 1] == bytes[..j] + [r];
      result := result[j := low];
      carry := sum / 256;
      done, tail := [r] + done, [low] + tail;
    }
    assert bytes == done && result == tail;
  }

  /** Both inner loops: the number times 58 plus idx. */
  method MultiplyAdd(bytes: seq<Byte>, idx: nat) returns (result: seq<Byte>)
    requires idx < 58 && (bytes != [] ==> bytes[0] != 0)
    ensures Value(256, result) == 58 * Value(256, bytes) + idx
    ensures result != [] ==> result[0] != 0
  {
    var carry;
    result, carry := MultiplyInPlace(bytes, idx);
    ghost var total := 58 * Value(256, bytes) + idx;
    while carry > 0
      invariant carry < 256
      invariant Value(256, [carry] + result) == total
      invariant carry == 0 && result != [] ==> result[0] != 0
      decreases carry
    {
      result := [carry % 256] + result;
      carry := carry / 256;
      ValueCons(carry, result);
    }
    ValueCons(carry, result);
  }

  lemma AlphabetAt(d: nat)
    ensures |ALPHABET| == 58
    ensures d < 58 ==> ALPHABET[d] == CharOf(d)
  {
    AlphabetOrder();
  }

  /** The alphabet search: the position of c, or none. */
  method FindDigit(c: char) returns (idx: Option<nat>)
    ensures idx == DigitOf(c)
  {
    AlphabetAt(58);
    DigitRange(c);
    var j := 0;
    while j < |ALPHABET|
      invariant 0 <= j <= 58
      invariant DigitOf(c).Some? ==> DigitOf(c).value >= j
    {
      AlphabetAt(j);
      DigitCharInverse(c, j);
      if ALPHABET[j] == c {
        return Some(j);
      }
      j := j + 1;
    }
    idx := None;
  }

  /** The base-58 number of a string. */
  ghost function Number(s: string): nat
    requires Valid(s)
  {
    Value(58, DigitsOf(s))
  }

  lemma NumberPrefix(s: string, i: nat, d: nat)
    requires i < |s| && Valid(s[..i]) && DigitOf(s[i]) == Some(d)
    ensures Valid(s[..i + 1]) && Number(s[..i + 1]) == 58 * Number(s[..i]) + d
  {
    assert DigitsOf(s[..i + 1])[..i] == DigitsOf(s[..i]);
  }

  /** The loop over the characters: the shortest bytes of the number read so far. */
  method ReadDigits(s: string) returns (r: Option<seq<Byte>>)
    ensures r.Some? <==> Valid(s)
    ensures r.Some? ==> r.value == Numeral(256, Number(s))
  {
    var result: seq<Byte> := [];
    for i := 0 to |s|
      invariant Valid(s[..i])
      invariant result != [] ==> result[0] != 0
      invariant Value(256, result) == Number(s[..i])
    {
      var idx := FindDigit(s[i]);
      if idx.None? {
        return None;
      }
      NumberPrefix(s, i, idx.value);
      result := MultiplyAdd(result, idx.value);
    }
    assert s[..|s|] == s;
    NumeralUnique(256, result);
    r := Some(result);
  }

  method DecodeBase58(s: string) returns (result: seq<Byte>)
    ensures result == Decoded(s)
  {
    if s == "" {
      assert DigitsOf(s) == [];
      return [];
    }
    var read := ReadDigits(s);
    if read.None? {
      return [];
    }
    result := read.value;
    var i := 0;
    while i < |s| && s[i] == '1'
      invariant 0 <= i <= |s|
      invariant result == Zeros(i) + read.value
      invariant forall k :: 0 <= k < i ==> s[k] == '1'
    {
      result := [0] + result;
      ZerosFront(i);
      i := i + 1;
    }
    LeadingOnes(s, i);
  }

  lemma {:induction false} ZerosFront(n: nat)
    ensures [0] + Zeros(n) == Zeros(n + 1)
  {
  }

  lemma LeadingOnes(s: string, i: nat)
    requires Valid(s) && i <= |s| && (forall k :: 0 <= k < i ==> s[k] == '1') && (i < |s| ==> s[i] != '1')
    ensures LeadingZeros(DigitsOf(s)) == i
  {
    var ds := DigitsOf(s);
    assert ds == Zeros(i) + ds[i..];
    LeadingZerosOf(i, ds[i..]);
  }
}
