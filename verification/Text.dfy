/** The string operations of the operator commands, on ASCII letters and blanks, and the
    reading of strings that are joined by a separator. */
module Text {

  predicate Blank(c: char) {
    c == ' ' || c == '\t' || c == '\n' || c == '\r' || c == '\U{0B}' || c == '\U{0C}'
  }

  function TrimLeft(s: string): string {
    if s != "" && Blank(s[0]) then TrimLeft(s[1..]) else s
  }

  function TrimRight(s: string): string {
    if s != "" && Blank(s[|s| - 1]) then TrimRight(s[..|s| - 1]) else s
  }

  function Trim(s: string): string {
    TrimRight(TrimLeft(s))
  }

  function LowerChar(c: char): char {
    if 'A' <= c <= 'Z' then c - 'A' + 'a' else c
  }

  function UpperChar(c: char): char {
    if 'a' <= c <= 'z' then c - 'a' + 'A' else c
  }

  function Lower(s: string): (r: string)
    ensures |r| == |s| && forall i :: 0 <= i < |s| ==> r[i] == LowerChar(s[i])
  {
    if s == "" then "" else [LowerChar(s[0])] + Lower(s[1..])
  }

  function Upper(s: string): (r: string)
    ensures |r| == |s| && forall i :: 0 <= i < |s| ==> r[i] == UpperChar(s[i])
  {
    if s == "" then "" else [UpperChar(s[0])] + Upper(s[1..])
  }

  const UPPER := "ABCDEFGHIJKLMNOPQRSTUVWXYZ"
  const LOWER := "abcdefghijklmnopqrstuvwxyz"

  lemma LettersInOrder()
    ensures |UPPER| == |LOWER| == 26
    ensures forall i :: 0 <= i < 26 ==> UPPER[i] == 'A' + i as char && LOWER[i] == 'a' + i as char
  {
  }

  /** Lowering and raising exchange the two alphabets and leave everything else alone. */
  lemma LettersExchanged(c: char)
    ensures |UPPER| == |LOWER|
    ensures forall i :: 0 <= i < |UPPER| ==> LowerChar(UPPER[i]) == LOWER[i] && UpperChar(LOWER[i]) == UPPER[i]
    ensures c !in UPPER ==> LowerChar(c) == c
    ensures c !in LOWER ==> UpperChar(c) == c
  {
    LettersInOrder();
    if 'A' <= c <= 'Z' {
      assert UPPER[(c - 'A') as int] == c;
    }
    if 'a' <= c <= 'z' {
      assert LOWER[(c - 'a') as int] == c;
    }
  }

  const BLANKS := " \t\n\r\U{0B}\U{0C}"

  /** Nothing but blanks of the ASCII kinds. */
  predicate AllBlank(s: string) {
    forall i :: 0 <= i < |s| ==> s[i] in BLANKS
  }

  /** t is s without the blanks at its two ends, and all of them. */
  ghost predicate TrimmedTo(s: string, t: string) {
    && (exists a, b :: AllBlank(a) && AllBlank(b) && s == a + t + b)
    && (t != "" ==> t[0] !in BLANKS && t[|t| - 1] !in BLANKS)
  }

  lemma BlankIsListed(c: char)
    ensures Blank(c) <==> c in BLANKS
  {
    assert BLANKS == [' ', '\t', '\n', '\r', '\U{0B}', '\U{0C}'];
  }

  predicate Blanks(s: string) {
    forall i :: 0 <= i < |s| ==> Blank(s[i])
  }

  lemma BlanksAreListed(s: string)
    requires Blanks(s)
    ensures AllBlank(s)
  {
    forall i | 0 <= i < |s| ensures s[i] in BLANKS {
      BlankIsListed(s[i]);
    }
  }

  lemma {:induction false} TrimLeftExact(s: string) returns (a: string)
    ensures Blanks(a) && s == a + TrimLeft(s)
    ensures TrimLeft(s) != "" ==> !Blank(TrimLeft(s)[0])
  {
    if s != "" && Blank(s[0]) {
      var rest := TrimLeftExact(s[1..]);
      a := [s[0]] + rest;
    } else {
      a := "";
    }
  }

  lemma {:induction false} TrimRightExact(s: string) returns (b: string)
    ensures Blanks(b) && s == TrimRight(s) + b
    ensures TrimRight(s) != "" ==> !Blank(TrimRight(s)[|TrimRight(s)| - 1])
  {
    if s != "" && Blank(s[|s| - 1]) {
      var rest := TrimRightExact(s[..|s| - 1]);
      b := rest + [s[|s| - 1]];
    } else {
      b := "";
    }
  }

  lemma TrimExact(s: string)
    ensures TrimmedTo(s, Trim(s))
  {
    var a := TrimLeftExact(s);
    var b := TrimRightExact(TrimLeft(s));
    var t := Trim(s);
    BlanksAreListed(a);
    BlanksAreListed(b);
    assert TrimLeft(s) == t + b;
    assert s == a + t + b;
    if t != "" {
      assert t[0] == TrimLeft(s)[0];
      BlankIsListed(t[0]);
      BlankIsListed(t[|t| - 1]);
    }
  }

  /** There is only one such t. */
  lemma TrimmedOnce(s: string, t: string, u: string)
    requires TrimmedTo(s, t) && TrimmedTo(s, u)
    ensures t == u
  {
    var a, b :| AllBlank(a) && AllBlank(b) && s == a + t + b;
    var c, d :| AllBlank(c) && AllBlank(d) && s == c + u + d;
    BlankMiddle(a, t, b);
    BlankMiddle(c, u, d);
    if t != "" && u != "" {
      FirstKept(a, t, b, c, u, d);
      FirstKept(c, u, d, a, t, b);
      LastKept(a, t, b, c, u, d);
      LastKept(c, u, d, a, t, b);
      assert t == s[|a|..|a| + |t|] && u == s[|c|..|c| + |u|];
    }
  }

  lemma BlankMiddle(a: string, t: string, b: string)
    requires AllBlank(a) && AllBlank(b) && (t != "" ==> t[0] !in BLANKS)
    ensures AllBlank(a + t + b) <==> t == ""
  {
    var s := a + t + b;
    if t != "" {
      assert s[|a|] == t[0];
    }
  }

  lemma FirstKept(a: string, t: string, b: string, c: string, u: string, d: string)
    requires AllBlank(c) && a + t + b == c + u + d && t != "" && t[0] !in BLANKS
    ensures |c| <= |a|
  {
    var s := a + t + b;
    assert s[|a|] == t[0];
    assert forall k :: 0 <= k < |c| ==> s[k] == c[k];
  }

  lemma LastKept(a: string, t: string, b: string, c: string, u: string, d: string)
    requires AllBlank(d) && a + t + b == c + u + d && t != "" && t[|t| - 1] !in BLANKS
    ensures |a| + |t| <= |c| + |u|
  {
    var s, last := a + t + b, |t| - 1;
    assert s[|a| + last] == t[last];
    assert forall k :: |c| + |u| <= k < |s| ==> s[k] == d[k - |c| - |u|];
  }

  /** A string is cut at its first separator in one way only. */
  lemma {:induction false} SplitAt(sep: char, a: string, b: string, x: string, y: string)
    requires sep !in a && sep !in b && a + [sep] + x == b + [sep] + y
    ensures a == b && x == y
  {
    var s, t := a + [sep] + x, b + [sep] + y;
    assert s[0] == t[0] && s[1..] == t[1..];
    assert a != "" ==> s[0] == a[0] && a[0] in a;
    assert b != "" ==> t[0] == b[0] && b[0] in b;
    if a != "" && b != "" {
      assert s[1..] == a[1..] + [sep] + x && t[1..] == b[1..] + [sep] + y;
      SplitAt(sep, a[1..], b[1..], x, y);
      assert a == [a[0]] + a[1..] && b == [b[0]] + b[1..];
    } else {
      assert s[1..] == x && t[1..] == y;
    }
  }
}
