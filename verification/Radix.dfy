/** Positional numerals: the number a digit string denotes, and the shortest digit string
    of a number. */
module Radix {
  type Base = b: nat | b >= 2 witness 2

  /** The number denoted by ds, most significant digit first. */
  function Value(b: Base, ds: seq<nat>): nat {
    if ds == [] then 0 else Value(b, ds[..|ds| - 1]) * b + ds[|ds| - 1]
  }

  /** The number denoted by ds, least significant digit first. */
  function ValueLow(b: Base, ds: seq<nat>): nat {
    if ds == [] then 0 else ds[0] + b * ValueLow(b, ds[1..])
  }

  predicate Digits(b: Base, ds: seq<nat>) {
    forall i :: 0 <= i < |ds| ==> ds[i] < b
  }

  /** The shortest digit string of n, most significant digit first. */
  function Numeral(b: Base, n: nat): (ds: seq<nat>)
    decreases n
  {
    if n == 0 then []
    else
      QuotientFalls(n, b);
      Numeral(b, n / b) + [n % b]
  }

  lemma QuotientFalls(n: nat, b: Base)
    requires n > 0
    ensures 0 <= n / b < n
  {
    assert n == b * (n / b) + n % b;
  }

  lemma ProductAtLeast(k: int, b: Base)
    ensures k >= 1 ==> k * b >= b
    ensures k <= -1 ==> k * b + b <= 0
  {
  }

  lemma DivMod(b: Base, q: nat, d: nat)
    requires d < b
    ensures (q * b + d) / b == q && (q * b + d) % b == d
  {
    var n := q * b + d;
    ProductAtLeast(n / b - q, b);
    assert (n / b - q) * b == d - n % b;
  }

  /** Numeral is a right inverse of Value, and writes no leading zero. */
  lemma {:induction false} NumeralValue(b: Base, n: nat)
    ensures Value(b, Numeral(b, n)) == n
    ensures Digits(b, Numeral(b, n))
    ensures n > 0 ==> Numeral(b, n) != [] && Numeral(b, n)[0] != 0
    decreases n
  {
    if n > 0 {
      var q, d := n / b, n % b;
      QuotientFalls(n, b);
      Recompose(b, n, q, d);
      NumeralValue(b, q);
      ValuePush(b, Numeral(b, q), d);
    }
  }

  lemma Recompose(b: Base, n: nat, q: nat, d: nat)
    requires q == n / b && d == n % b
    ensures n == q * b + d && d < b && (q == 0 ==> d == n)
  {
  }

  lemma ValuePush(b: Base, ds: seq<nat>, d: nat)
    ensures Value(b, ds + [d]) == Value(b, ds) * b + d
  {
    assert (ds + [d])[..|ds|] == ds;
  }

  lemma {:induction false} ValuePositive(b: Base, ds: seq<nat>)
    requires ds != [] && ds[0] != 0
    ensures Value(b, ds) > 0
  {
    if |ds| > 1 {
      ValuePositive(b, ds[..|ds| - 1]);
    }
  }

  /** A digit string without leading zero is the shortest one of its number. */
  lemma {:induction false} NumeralUnique(b: Base, ds: seq<nat>)
    requires Digits(b, ds) && (ds != [] ==> ds[0] != 0)
    ensures Numeral(b, Value(b, ds)) == ds
  {
    if ds != [] {
      var front, d := ds[..|ds| - 1], ds[|ds| - 1];
      ValuePositive(b, ds);
      DivMod(b, Value(b, front), d);
      NumeralUnique(b, front);
      assert front + [d] == ds;
    }
  }

  function Zeros(n: nat): (ds: seq<nat>)
    ensures |ds| == n && forall i :: 0 <= i < n ==> ds[i] == 0
  {
    if n == 0 then [] else Zeros(n - 1) + [0]
  }

  function LeadingZeros(ds: seq<nat>): (n: nat)
    ensures n <= |ds| && (forall i :: 0 <= i < n ==> ds[i] == 0) && (n < |ds| ==> ds[n] != 0)
  {
    if ds == [] || ds[0] != 0 then 0 else 1 + LeadingZeros(ds[1..])
  }

  predicate AllZero(ds: seq<nat>) {
    forall i :: 0 <= i < |ds| ==> ds[i] == 0
  }

  lemma {:induction false} ValueZeros(b: Base, n: nat, ds: seq<nat>)
    ensures Value(b, Zeros(n) + ds) == Value(b, ds)
  {
    if ds == [] {
      assert Zeros(n) + ds == Zeros(n);
      if n > 0 {
        ValueZeros(b, n - 1, []);
        assert Zeros(n - 1) + [] == Zeros(n)[..n - 1];
      }
    } else {
      ValueZeros(b, n, ds[..|ds| - 1]);
      assert (Zeros(n) + ds)[..n + |ds| - 1] == Zeros(n) + ds[..|ds| - 1];
    }
  }

  /** Every digit string is its leading zeros followed by the shortest one of its number. */
  lemma Canonical(b: Base, ds: seq<nat>)
    requires Digits(b, ds)
    ensures ds == Zeros(LeadingZeros(ds)) + Numeral(b, Value(b, ds))
    ensures Value(b, ds) == 0 <==> AllZero(ds)
  {
    var z := LeadingZeros(ds);
    assert ds == Zeros(z) + ds[z..];
    ValueZeros(b, z, ds[z..]);
    NumeralUnique(b, ds[z..]);
    if z < |ds| {
      ValuePositive(b, ds[z..]);
    }
  }

  lemma LeadingZerosOf(n: nat, ds: seq<nat>)
    requires ds != [] ==> ds[0] != 0
    ensures LeadingZeros(Zeros(n) + ds) == n
  {
    var all := Zeros(n) + ds;
    assert n < |all| ==> all[n] == ds[0];
  }

  function Reverse(s: seq<nat>): (r: seq<nat>)
    ensures |r| == |s|
  {
    if s == [] then [] else Reverse(s[1..]) + [s[0]]
  }

  lemma {:induction false} ReverseAt(s: seq<nat>, k: nat)
    requires k < |s|
    ensures Reverse(s)[k] == s[|s| - 1 - k]
  {
    if k < |s| - 1 {
      ReverseAt(s[1..], k);
    }
  }

  lemma {:induction false} ReverseAppend(s: seq<nat>, d: nat)
    ensures Reverse(s + [d]) == [d] + Reverse(s)
  {
    if s != [] {
      ReverseAppend(s[1..], d);
      assert (s + [d])[1..] == s[1..] + [d];
    }
  }

  lemma {:induction false} ReverseTwice(s: seq<nat>)
    ensures Reverse(Reverse(s)) == s
  {
    if s != [] {
      ReverseTwice(s[1..]);
      ReverseAppend(Reverse(s[1..]), s[0]);
    }
  }

  /** Reading from the other end. */
  lemma {:induction false} ValueReverse(b: Base, ds: seq<nat>)
    ensures Value(b, Reverse(ds)) == ValueLow(b, ds)
  {
    if ds != [] {
      ValueReverse(b, ds[1..]);
      assert (Reverse(ds[1..]) + [ds[0]])[..|ds| - 1] == Reverse(ds[1..]);
    }
  }
}
