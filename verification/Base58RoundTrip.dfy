/** Which of the two encoders decodeBase58 inverts, and on which inputs. */
module Base58RoundTrip {
  import opened Radix
  import opened Base58
  import opened Base58Encoder

  // ---- decoding ------------------------------------------------------------------

  lemma ZerosNumeralParts(b: Base, k: nat, v: nat)
    ensures LeadingZeros(Zeros(k) + Numeral(b, v)) == k
    ensures Value(b, Zeros(k) + Numeral(b, v)) == v
    ensures Digits(b, Zeros(k) + Numeral(b, v))
  {
    NumeralValue(b, v);
    LeadingZerosOf(k, Numeral(b, v));
    ValueZeros(b, k, Numeral(b, v));
  }

  /** decodeBase58 is injective on valid strings. */
  lemma DecodeInjective(s: string, t: string)
    requires Valid(s) && Valid(t) && Decoded(s) == Decoded(t)
    ensures s == t
  {
    var a, b := DigitsOf(s), DigitsOf(t);
    ZerosNumeralParts(256, LeadingZeros(a), Value(58, a));
    ZerosNumeralParts(256, LeadingZeros(b), Value(58, b));
    Canonical(58, a);
    Canonical(58, b);
    CharsOfDigits(s);
    CharsOfDigits(t);
  }

  lemma DecodeDigits(ds: seq<nat>)
    requires Digits(58, ds)
    ensures Decoded(Chars(ds)) == Zeros(LeadingZeros(ds)) + Numeral(256, Value(58, ds))
  {
    DigitsOfChars(ds);
  }

  // ---- the loop run most significant byte first ----------------------------------

  /** An encoding of the right number decodes to the bytes. */
  lemma DecodeNumeral(k: nat, v: nat)
    ensures Digits(58, Zeros(k) + Numeral(58, v))
    ensures Decoded(Chars(Zeros(k) + Numeral(58, v))) == Zeros(k) + Numeral(256, v)
  {
    ZerosNumeralParts(58, k, v);
    DecodeDigits(Zeros(k) + Numeral(58, v));
  }

  lemma AllZeroIsZeros(b: seq<nat>)
    requires AllZero(b)
    ensures b == Zeros(|b|) && LeadingZeros(b) == |b|
  {
  }

  /** decodeBase58 undoes this encoder on every input but the non-empty all-zero ones,
      which gain a zero byte. */
  lemma DecodeAfterEncode(b: seq<nat>)
    requires Digits(256, b)
    ensures Decoded(Encoded(b)) == b <==> b == [] || !AllZero(b)
  {
    var z, v := LeadingZeros(b), Value(256, b);
    Canonical(256, b);
    if b == [] {
      DecodeNumeral(0, 0);
    } else if v == 0 {
      AllZeroIsZeros(b);
      assert Zeros(z) + [0] == Zeros(z + 1) == Zeros(z + 1) + Numeral(58, 0);
      DecodeNumeral(z + 1, 0);
    } else {
      DecodeNumeral(z, v);
    }
  }

  /** It undoes decodeBase58 on every valid string but the non-empty strings of ones. */
  lemma EncodeAfterDecode(s: string)
    requires Valid(s)
    ensures Encoded(Decoded(s)) == s <==> s == "" || !AllZero(DigitsOf(s))
  {
    var ds := DigitsOf(s);
    var k, v := LeadingZeros(ds), Value(58, ds);
    Canonical(58, ds);
    CharsOfDigits(s);
    ZerosNumeralParts(256, k, v);
    if s != "" && v == 0 {
      AllZeroIsZeros(ds);
      assert Numeral(256, v) == [];
      assert |Encoded(Decoded(s))| == |s| + 1;
    }
  }

  // ---- the loop as written -------------------------------------------------------

  /** The number the written loop spells out when it starts from the value v. */
  function WrittenValue(v: nat): nat {
    if v == 0 then 0 else v % 58 + 58 * WrittenValue(StripAll(v / 58))
  }

  /** No quotient on the way, other than zero, ends in a zero byte. */
  predicate NeverStrips(v: nat) {
    v == 0 || ((v / 58 != 0 ==> (v / 58) % 256 != 0) && NeverStrips(v / 58))
  }

  /** Every early strip lowers the number; without one it is the value itself. */
  lemma {:induction false} WrittenValueBound(v: nat)
    ensures WrittenValue(v) <= v
    ensures WrittenValue(v) == v <==> NeverStrips(v)
  {
    if v != 0 {
      var q := v / 58;
      WrittenValueBound(StripAll(q));
      if q != 0 && q % 256 == 0 {
        assert StripAll(q) <= q / 256 < q;
      }
    }
  }

  /** The digits the loop writes are the numeral of that number. */
  lemma {:induction false} WrittenNumeral(v: nat)
    ensures Reverse(Written(v)) == Numeral(58, WrittenValue(v))
    ensures WrittenValue(v) == 0 <==> v == 0
  {
    if v != 0 {
      var rest := StripAll(v / 58);
      WrittenNumeral(rest);
      DivMod(58, WrittenValue(rest), v % 58);
      if WrittenValue(v) == 0 {
        StripAllPositive(v / 58);
      }
    }
  }

  lemma {:induction false} StripAllPositive(v: nat)
    ensures StripAll(v) == 0 <==> v == 0
    decreases v
  {
    if v != 0 && v % 256 == 0 {
      StripAllPositive(v / 256);
    }
  }

  /** What decoding the written encoding gives back. */
  lemma DecodeWritten(b: seq<nat>)
    requires Digits(256, b) && !AllZero(b)
    ensures Decoded(WrittenEncode(b)) == Zeros(LeadingZeros(b)) + Numeral(256, WrittenValue(ValueLow(256, b)))
  {
    ValueLowZero(b);
    WrittenNumeral(ValueLow(256, b));
    DecodeNumeral(LeadingZeros(b), WrittenValue(ValueLow(256, b)));
  }

  /** The written encoder round-trips exactly when the number it spells, computed from
      the little-endian value, is the big-endian value. */
  lemma WrittenRoundTrip(b: seq<nat>)
    requires Digits(256, b) && !AllZero(b)
    ensures Decoded(WrittenEncode(b)) == b <==> WrittenValue(ValueLow(256, b)) == Value(256, b)
  {
    DecodeWritten(b);
    Canonical(256, b);
    var z := LeadingZeros(b);
    ZerosNumeralParts(256, z, WrittenValue(ValueLow(256, b)));
    ZerosNumeralParts(256, z, Value(256, b));
  }

  lemma SameLengthSameValue(b: Base, xs: seq<nat>, ys: seq<nat>)
    requires Digits(b, xs) && Digits(b, ys) && |xs| == |ys| && Value(b, xs) == Value(b, ys)
    ensures xs == ys
  {
    Canonical(b, xs);
    Canonical(b, ys);
    assert |Zeros(LeadingZeros(xs))| == |Zeros(LeadingZeros(ys))|;
  }

  lemma PalindromeByValue(b: seq<nat>)
    requires Digits(256, b)
    ensures Value(256, b) == ValueLow(256, b) <==> Reverse(b) == b
  {
    ValueReverse(256, b);
    ReverseDigits(256, b);
    if Value(256, b) == ValueLow(256, b) {
      SameLengthSameValue(256, b, Reverse(b));
    }
  }

  /** As long as no round strips a byte early, the inputs that round-trip are the
      palindromes; after an early strip only an input whose big-endian value is below its
      little-endian value can. */
  lemma WrittenRoundTripsPalindromes(b: seq<nat>)
    requires Digits(256, b) && !AllZero(b)
    ensures NeverStrips(ValueLow(256, b)) ==> (Decoded(WrittenEncode(b)) == b <==> Reverse(b) == b)
    ensures !NeverStrips(ValueLow(256, b)) ==> (Decoded(WrittenEncode(b)) == b ==> Value(256, b) < ValueLow(256, b))
  {
    WrittenRoundTrip(b);
    WrittenValueBound(ValueLow(256, b));
    PalindromeByValue(b);
  }

  /** The early-strip case is not empty: the two bytes 0 and 58 lose a byte on the way and
      still come back. */
  lemma EarlyStripCanRoundTrip()
    ensures var b := [0, 58];
            && Digits(256, b) && !AllZero(b)
            && !NeverStrips(ValueLow(256, b)) && Decoded(WrittenEncode(b)) == b
  {
    var b := [0, 58];
    assert b[1] == 58 && b[1..] == [58] && b[..1] == [0];
    assert ValueLow(256, [58]) == 58;
    assert ValueLow(256, b) == 14848;
    assert Value(256, [0]) == 0;
    assert Value(256, b) == 58;
    assert 14848 / 58 == 256 && 14848 % 58 == 0;
    assert StripAll(1) == 1;
    assert StripAll(256) == 1;
    assert WrittenValue(1) == 1;
    assert WrittenValue(14848) == 58;
    WrittenRoundTrip(b);
  }

  // ---- when two inputs collide ------------------------------------------------------

  /** What is spelled out after the ones of k leading zero bytes. */
  function Spelled(k: nat, v: nat): (ds: seq<nat>) {
    if v != 0 then Numeral(58, v) else if k == 0 then [] else [0]
  }

  /** Either encoder's output in terms of the leading zeros and the number spelled out. */
  lemma WrittenByParts(b: seq<nat>)
    requires Digits(256, b)
    ensures var k, v := LeadingZeros(b), WrittenValue(ValueLow(256, b));
            Digits(58, Zeros(k) + Spelled(k, v)) && WrittenEncode(b) == Chars(Zeros(k) + Spelled(k, v))
    ensures WrittenValue(ValueLow(256, b)) == 0 <==> AllZero(b)
  {
    ValueLowZero(b);
    WrittenNumeral(ValueLow(256, b));
    NumeralValue(58, WrittenValue(ValueLow(256, b)));
    if AllZero(b) {
      AllZeroIsZeros(b);
      assert Reverse([0]) == [0];
    }
  }

  /** Both parts can be read off the decoded output. */
  lemma PartsDecoded(k: nat, v: nat)
    ensures Digits(58, Zeros(k) + Spelled(k, v))
    ensures Decoded(Chars(Zeros(k) + Spelled(k, v))) ==
            Zeros(if v == 0 && k > 0 then k + 1 else k) + Numeral(256, v)
  {
    if v == 0 && k > 0 {
      assert Zeros(k) + [0] == Zeros(k + 1) == Zeros(k + 1) + Numeral(58, 0);
      DecodeNumeral(k + 1, 0);
    } else {
      DecodeNumeral(k, v);
    }
  }

  lemma PartsDiffer(k: nat, v: nat, m: nat, w: nat)
    requires Zeros(if v == 0 && k > 0 then k + 1 else k) + Numeral(256, v)
          == Zeros(if w == 0 && m > 0 then m + 1 else m) + Numeral(256, w)
    ensures k == m && v == w
  {
    ZerosNumeralParts(256, if v == 0 && k > 0 then k + 1 else k, v);
    ZerosNumeralParts(256, if w == 0 && m > 0 then m + 1 else m, w);
  }

  /** Two inputs share an encoding exactly if they begin with equally many zero bytes and
      their loops spell out the same number. */
  lemma CollideExactlyWhen(a: seq<nat>, b: seq<nat>)
    requires Digits(256, a) && Digits(256, b)
    ensures WrittenEncode(a) == WrittenEncode(b) <==>
              LeadingZeros(a) == LeadingZeros(b) &&
              WrittenValue(ValueLow(256, a)) == WrittenValue(ValueLow(256, b))
  {
    WrittenByParts(a);
    WrittenByParts(b);
    if WrittenEncode(a) == WrittenEncode(b) {
      PartsDecoded(LeadingZeros(a), WrittenValue(ValueLow(256, a)));
      PartsDecoded(LeadingZeros(b), WrittenValue(ValueLow(256, b)));
      PartsDiffer(LeadingZeros(a), WrittenValue(ValueLow(256, a)), LeadingZeros(b), WrittenValue(ValueLow(256, b)));
    }
  }

  lemma LowValueInjective(a: seq<nat>, b: seq<nat>)
    requires Digits(256, a) && Digits(256, b) && |a| == |b| && ValueLow(256, a) == ValueLow(256, b)
    ensures a == b
  {
    ValueReverse(256, a);
    ValueReverse(256, b);
    ReverseDigits(256, a);
    ReverseDigits(256, b);
    SameLengthSameValue(256, Reverse(a), Reverse(b));
    ReverseTwice(a);
    ReverseTwice(b);
  }

  /** Among inputs of one length that never lose a byte early, the encoder is injective. */
  lemma InjectiveWithoutStrips(a: seq<nat>, b: seq<nat>)
    requires Digits(256, a) && Digits(256, b) && |a| == |b|
    requires NeverStrips(ValueLow(256, a)) && NeverStrips(ValueLow(256, b))
    ensures WrittenEncode(a) == WrittenEncode(b) <==> a == b
  {
    CollideExactlyWhen(a, b);
    WrittenValueBound(ValueLow(256, a));
    WrittenValueBound(ValueLow(256, b));
    if WrittenEncode(a) == WrittenEncode(b) {
      LowValueInjective(a, b);
    }
  }

  /** Where two different inputs of one length collide, one of them loses a byte early, and
      so spells out less than its little-endian value. */
  lemma StripsAreTheOnlyCause(a: seq<nat>, b: seq<nat>)
    requires Digits(256, a) && Digits(256, b) && |a| == |b| && a != b
    requires WrittenEncode(a) == WrittenEncode(b)
    ensures !NeverStrips(ValueLow(256, a)) || !NeverStrips(ValueLow(256, b))
    ensures WrittenValue(ValueLow(256, a)) < ValueLow(256, a) || WrittenValue(ValueLow(256, b)) < ValueLow(256, b)
  {
    WrittenValueBound(ValueLow(256, a));
    WrittenValueBound(ValueLow(256, b));
    if NeverStrips(ValueLow(256, a)) && NeverStrips(ValueLow(256, b)) {
      InjectiveWithoutStrips(a, b);
    }
  }

  lemma {:induction false} ValueLowTrailingZero(b: seq<nat>)
    ensures ValueLow(256, b + [0]) == ValueLow(256, b)
  {
    if b == [] {
      assert ([] + [0])[1..] == [];
    } else {
      ValueLowTrailingZero(b[1..]);
      assert (b + [0])[1..] == b[1..] + [0];
    }
  }

  lemma {:induction false} LeadingZerosAppend(b: seq<nat>, d: nat)
    requires !AllZero(b)
    ensures LeadingZeros(b + [d]) == LeadingZeros(b)
  {
    if b[0] == 0 {
      var i :| 0 <= i < |b| && b[i] != 0;
      assert b[1..][i - 1] != 0;
      LeadingZerosAppend(b[1..], d);
      assert (b + [d])[1..] == b[1..] + [d];
    }
  }

  /** base58Encode is not injective: every input that is not all zero shares its encoding
      with the same input followed by a zero byte. */
  lemma WrittenCollision(b: seq<nat>)
    requires !AllZero(b)
    ensures WrittenEncode(b + [0]) == WrittenEncode(b) && b + [0] != b
  {
    ValueLowTrailingZero(b);
    ValueLowZero(b);
    LeadingZerosAppend(b, 0);
  }

  /** Two byte strings with the encoding "2". */
  lemma WrittenCollisionExample()
    ensures WrittenEncode([1]) == "2" && WrittenEncode([1, 0]) == "2"
  {
    assert [1, 0] == [1] + [0] && [1][0] == 1;
    WrittenCollision([1]);
    assert ValueLow(256, [1]) == 1;
    assert Written(1) == [1];
    assert Reverse([1]) == [1];
    assert Zeros(0) + [1] == [1];
  }

  /** Early strips make the values 58 (256 w) + d and 58 w + d indistinguishable. */
  lemma StripCollision(w: nat, d: nat)
    requires w > 0 && d < 58
    ensures Written(58 * (256 * w) + d) == Written(58 * w + d)
  {
    DivMod(58, 256 * w, d);
    DivMod(58, w, d);
    DivMod(256, w, 0);
  }

  lemma {:induction false} ValueLowZeros(n: nat)
    ensures ValueLow(256, Zeros(n)) == 0
  {
    if n > 0 {
      ValueLowZeros(n - 1);
      ValueLowTrailingZero(Zeros(n - 1));
    }
  }

  lemma ValueLowOfTwo(x: nat, y: nat, n: nat)
    ensures ValueLow(256, [x, y] + Zeros(n)) == 256 * y + x
  {
    var a := [x, y] + Zeros(n);
    ValueLowZeros(n);
    assert a[1..] == [y] + Zeros(n) && a[1..][1..] == Zeros(n);
  }

  /** What the written encoding depends on. */
  lemma SameWritten(a: seq<nat>, b: seq<nat>)
    requires a != [] && b != [] && a[0] != 0 && b[0] != 0
    requires Written(ValueLow(256, a)) == Written(ValueLow(256, b))
    ensures WrittenEncode(a) == WrittenEncode(b)
  {
    ValueLowZero(a);
    ValueLowZero(b);
  }

  lemma TwoBytesPadded(x: nat, y: nat)
    requires 0 < x < 256 && y < 256
    ensures var a := [x, y] + Zeros(30); Digits(256, a) && |a| == 32 && a[0] == x && !AllZero(a)
  {
    assert ([x, y] + Zeros(30))[0] == x;
  }

  /** Two distinct 32-byte keys that pubkeyFromBytes prints alike. */
  lemma PubkeyCollision()
    ensures var a, b := [1, 58] + Zeros(30), [59, 0] + Zeros(30);
            && Digits(256, a) && Digits(256, b) && |a| == |b| == 32 && a != b
            && !AllZero(a) && !AllZero(b)
            && WrittenEncode(a) == WrittenEncode(b)
  {
    var a, b := [1, 58] + Zeros(30), [59, 0] + Zeros(30);
    TwoBytesPadded(1, 58);
    TwoBytesPadded(59, 0);
    assert a[0] != b[0];
    assert Written(ValueLow(256, a)) == Written(ValueLow(256, b)) by {
      ValueLowOfTwo(1, 58, 30);
      ValueLowOfTwo(59, 0, 30);
      StripCollision(1, 1);
    }
    SameWritten(a, b);
  }
}
