/**
 * The string operations the source leans on: Python's str.strip(), str.split(sep),
 * str.split(), str.lower()/str.upper(), decimal rendering of integers, the
 * ordering Python's sort uses on str, and JavaScript's String.prototype.includes.
 */
module Strings {
  /** Whitespace as str.strip() and str.split() see it (the ASCII part of it). */
  predicate IsSpace(c: char) {
    c == ' ' || c == '\t' || c == '\n' || c == '\r' || c == '\U{000B}' || c == '\U{000C}'
    || ('\U{001C}' <= c <= '\U{001F}')
  }

  predicate NoSpace(t: string) {
    forall i :: 0 <= i < |t| ==> !IsSpace(t[i])
  }

  predicate AllSpace(t: string) {
    forall i :: 0 <= i < |t| ==> IsSpace(t[i])
  }

  /** Drops leading whitespace (str.lstrip()). */
  function TrimStart(s: string): (r: string)
    ensures |r| <= |s| && r == s[|s| - |r|..]
    ensures r == [] || !IsSpace(r[0])
    ensures forall i :: 0 <= i < |s| - |r| ==> IsSpace(s[i])
  {
    if s != [] && IsSpace(s[0]) then
      var r := TrimStart(s[1..]);
      assert s[1..][|s| - 1 - |r|..] == s[|s| - |r|..];
      assert forall i :: 1 <= i < |s| - |r| ==> s[1..][i - 1] == s[i];
      r
    else s
  }

  /** Drops trailing whitespace (str.rstrip()). */
  function TrimEnd(s: string): (r: string)
    ensures |r| <= |s| && r == s[..|r|]
    ensures r == [] || !IsSpace(r[|r| - 1])
    ensures forall i :: |r| <= i < |s| ==> IsSpace(s[i])
  {
    if s != [] && IsSpace(s[|s| - 1]) then
      var r := TrimEnd(s[..|s| - 1]);
      assert s[..|s| - 1][..|r|] == s[..|r|];
      assert forall i :: |r| <= i < |s| - 1 ==> s[..|s| - 1][i] == s[i];
      r
    else s
  }

  /** The number of leading whitespace characters of s. */
  function Lead(s: string): nat {
    |s| - |TrimStart(s)|
  }

  /** str.strip(): what is left once both ends lose their whitespace. */
  function Strip(s: string): string {
    TrimEnd(TrimStart(s))
  }

  /**
   * Strip gives the one slice of s that neither starts nor ends with
   * whitespace and outside which s holds whitespace only.
   */
  lemma StripFacts(s: string)
    ensures Lead(s) + |Strip(s)| <= |s| && Strip(s) == s[Lead(s)..Lead(s) + |Strip(s)|]
    ensures forall i :: 0 <= i < Lead(s) ==> IsSpace(s[i])
    ensures forall i :: Lead(s) + |Strip(s)| <= i < |s| ==> IsSpace(s[i])
    ensures Strip(s) == [] || (!IsSpace(Strip(s)[0]) && !IsSpace(Strip(s)[|Strip(s)| - 1]))
  {
    StripSlice(s);
    StripEnds(s);
  }

  lemma StripSlice(s: string)
    ensures Lead(s) + |Strip(s)| <= |s| && Strip(s) == s[Lead(s)..Lead(s) + |Strip(s)|]
    ensures forall i :: Lead(s) + |Strip(s)| <= i < |s| ==> IsSpace(s[i])
  {
    var t := TrimStart(s);
    StripBounds(s, |s| - |t|, t, TrimEnd(t));
  }

  lemma StripEnds(s: string)
    ensures Strip(s) == [] || (!IsSpace(Strip(s)[0]) && !IsSpace(Strip(s)[|Strip(s)| - 1]))
  {
    var t := TrimStart(s);
    var r := TrimEnd(t);
    if r != [] {
      assert r[0] == t[0];
    }
  }

  /** Cutting n characters off the front and then some off the back leaves a slice of s. */
  lemma StripBounds(s: string, n: nat, t: string, r: string)
    requires n <= |s| && t == s[n..] && |r| <= |t| && r == t[..|r|]
    requires forall i :: |r| <= i < |t| ==> IsSpace(t[i])
    ensures n + |r| <= |s| && r == s[n..n + |r|]
    ensures forall i :: n + |r| <= i < |s| ==> IsSpace(s[i])
  {
    forall i | n + |r| <= i < |s| ensures IsSpace(s[i]) {
      assert s[i] == t[i - n];
    }
  }

  lemma StripEmptyIff(s: string)
    ensures Strip(s) == [] <==> AllSpace(s)
  {
    if Strip(s) != [] {
      assert s[Lead(s)] == Strip(s)[0];
    }
  }

  /** A stripped line starts with the first non-blank character of the raw line. */
  lemma StripStartsAtLead(s: string)
    requires Strip(s) != []
    ensures Lead(s) < |s| && Strip(s)[0] == s[Lead(s)]
  {
  }

  /** Index of the first occurrence of c in s, or |s| when there is none. */
  function IndexOf(s: string, c: char): (i: nat)
    ensures i <= |s| && (i < |s| ==> s[i] == c)
    ensures forall k :: 0 <= k < i ==> s[k] != c
  {
    if s == [] || s[0] == c then 0 else 1 + IndexOf(s[1..], c)
  }

  /** A visible character c first occurs after a run of whitespace and a position not holding c. */
  lemma IndexOfAfter(s: string, c: char, l: nat)
    requires l < |s| && s[l] != c && !IsSpace(c)
    requires forall i :: 0 <= i < l ==> IsSpace(s[i])
    ensures l < IndexOf(s, c)
  {
    assert forall i :: 0 <= i <= l ==> s[i] != c;
  }

  /** Joins pieces with a one-character separator (sep.join(parts)). */
  function Join(parts: seq<string>, sep: char): string
  {
    if parts == [] then ""
    else if |parts| == 1 then parts[0]
    else parts[0] + [sep] + Join(parts[1..], sep)
  }

  /**
   * str.split(sep) for a one-character separator: the pieces between the
   * separators, never fewer than one, none holding sep, and joining them
   * with sep gives back s.
   */
  function Split(s: string, sep: char): (parts: seq<string>)
    ensures |parts| >= 1
    ensures forall k :: 0 <= k < |parts| ==> sep !in parts[k]
    ensures Join(parts, sep) == s
    decreases |s|
  {
    var i := IndexOf(s, sep);
    if i == |s| then
      assert s[..i] == s;
      [s]
    else
      var rest := Split(s[i + 1..], sep);
      var parts := [s[..i]] + rest;
      assert parts[1..] == rest;
      assert s == s[..i] + [sep] + s[i + 1..];
      parts
  }

  /** The first piece of a split is the text before the first separator. */
  lemma SplitHead(s: string, sep: char)
    ensures Split(s, sep)[0] == s[..IndexOf(s, sep)]
  {
  }

  /** Length of the leading run of non-whitespace characters. */
  function WordLength(t: string): (n: nat)
    ensures n <= |t| && NoSpace(t[..n]) && (n < |t| ==> IsSpace(t[n]))
    ensures t != [] && !IsSpace(t[0]) ==> n > 0
  {
    if t == [] || IsSpace(t[0]) then 0 else 1 + WordLength(t[1..])
  }

  /** str.split() with no argument: the maximal runs of non-whitespace characters. */
  function Tokens(s: string): seq<string>
    decreases |s|
  {
    var t := TrimStart(s);
    if t == [] then []
    else
      var n := WordLength(t);
      [t[..n]] + Tokens(t[n..])
  }

  /** Every token is a non-empty run of non-whitespace characters. */
  lemma {:induction false} TokensAreWords(s: string)
    ensures forall k :: 0 <= k < |Tokens(s)| ==> Tokens(s)[k] != [] && NoSpace(Tokens(s)[k])
    decreases |s|
  {
    var t := TrimStart(s);
    if t != [] {
      var n := WordLength(t);
      var w, tail := t[..n], Tokens(t[n..]);
      TokensAreWords(t[n..]);
      assert Tokens(s) == [w] + tail;
      forall k | 0 <= k < |[w] + tail| ensures ([w] + tail)[k] != [] && NoSpace(([w] + tail)[k]) {
        if k > 0 {
          assert ([w] + tail)[k] == tail[k - 1];
        }
      }
    }
  }

  lemma TokensSkipsLeadingSpace(c: char, x: string)
    requires IsSpace(c)
    ensures Tokens([c] + x) == Tokens(x)
  {
    assert ([c] + x)[1..] == x;
  }

  lemma {:induction false} TokensOfWord(w: string, x: string)
    requires w != [] && NoSpace(w) && (x == [] || IsSpace(x[0]))
    ensures Tokens(w + x) == [w] + Tokens(x)
  {
    var s := w + x;
    assert TrimStart(s) == s;
    WordLengthOf(w, x);
    assert s[..|w|] == w && s[|w|..] == x;
  }

  lemma {:induction false} WordLengthOf(w: string, x: string)
    requires NoSpace(w) && (x == [] || IsSpace(x[0]))
    ensures WordLength(w + x) == |w|
    decreases |w|
  {
    if w == [] {
      assert w + x == x;
    } else {
      assert (w + x)[1..] == w[1..] + x;
      WordLengthOf(w[1..], x);
    }
  }

  /** Splitting words joined by single blanks gives back the words. */
  lemma {:induction false} TokensOfJoin(ws: seq<string>)
    requires forall k :: 0 <= k < |ws| ==> ws[k] != [] && NoSpace(ws[k])
    ensures Tokens(Join(ws, ' ')) == ws
  {
    if ws == [] {
      assert Join(ws, ' ') == "";
    } else if |ws| == 1 {
      assert Join(ws, ' ') == ws[0] && ws == [ws[0]];
      TokensOfSingle(ws[0]);
    } else {
      var w, rest := ws[0], ws[1..];
      assert ws == [w] + rest;
      TokensOfJoin(rest);
      TokensOfJoinStep(w, rest);
    }
  }

  lemma TokensOfSingle(w: string)
    requires w != [] && NoSpace(w)
    ensures Tokens(w) == [w]
  {
    TokensOfWord(w, "");
    assert w + "" == w;
    assert Tokens("") == [];
  }

  lemma TokensOfJoinStep(w: string, ws: seq<string>)
    requires w != [] && NoSpace(w) && ws != []
    requires Tokens(Join(ws, ' ')) == ws
    ensures Tokens(Join([w] + ws, ' ')) == [w] + ws
  {
    var tail := Join(ws, ' ');
    JoinCons(w, ws, ' ');
    TokensOfWord(w, [' '] + tail);
    TokensSkipsLeadingSpace(' ', tail);
  }

  lemma JoinCons(w: string, ws: seq<string>, sep: char)
    requires ws != []
    ensures Join([w] + ws, sep) == w + ([sep] + Join(ws, sep))
  {
    var all := [w] + ws;
    assert all[0] == w && all[1..] == ws && |all| >= 2;
  }

  function LowerChar(c: char): char {
    if 'A' <= c <= 'Z' then (c as int + 32) as char else c
  }

  function UpperChar(c: char): char {
    if 'a' <= c <= 'z' then (c as int - 32) as char else c
  }

  /** str.lower() / String.prototype.toLowerCase() on ASCII letters. */
  function Lower(s: string): (r: string)
    ensures |r| == |s|
    ensures forall i :: 0 <= i < |s| ==> r[i] == LowerChar(s[i])
  {
    seq(|s|, i requires 0 <= i < |s| => LowerChar(s[i]))
  }

  /** str.upper() on ASCII letters. */
  function Upper(s: string): (r: string)
    ensures |r| == |s|
    ensures forall i :: 0 <= i < |s| ==> r[i] == UpperChar(s[i])
  {
    seq(|s|, i requires 0 <= i < |s| => UpperChar(s[i]))
  }

  /** Lower-casing twice changes nothing more, and upper-casing first does not matter. */
  lemma LowerIdempotent(s: string)
    ensures Lower(Lower(s)) == Lower(s)
    ensures Lower(Upper(s)) == Lower(s)
  {
  }

  /** Upper-casing twice changes nothing more, and lower-casing first does not matter. */
  lemma UpperIdempotent(s: string)
    ensures Upper(Upper(s)) == Upper(s)
    ensures Upper(Lower(s)) == Upper(s)
  {
  }

  predicate IsDigit(c: char) {
    '0' <= c <= '9'
  }

  function DigitChar(d: nat): (c: char)
    requires d < 10
    ensures IsDigit(c)
  {
    (48 + d) as char
  }

  function DigitValue(c: char): (d: nat)
    requires IsDigit(c)
    ensures d < 10 && DigitChar(d) == c
  {
    c as int - 48
  }

  predicate AllDigits(s: string) {
    forall i :: 0 <= i < |s| ==> IsDigit(s[i])
  }

  /** Decimal rendering of a natural number (str(n), `${n}`). */
  function NatToString(n: nat): (s: string)
    ensures |s| >= 1 && AllDigits(s)
    ensures |s| == 1 || s[0] != '0'
  {
    if n < 10 then [DigitChar(n)] else NatToString(n / 10) + [DigitChar(n % 10)]
  }

  /** Reads a string of decimal digits back as a number. */
  function ParseDigits(s: string): nat
    requires AllDigits(s)
  {
    if s == [] then 0 else ParseDigits(s[..|s| - 1]) * 10 + DigitValue(s[|s| - 1])
  }

  lemma {:induction false} ParseNatToString(n: nat)
    ensures ParseDigits(NatToString(n)) == n
    decreases n
  {
    if n >= 10 {
      var s := NatToString(n);
      assert s[..|s| - 1] == NatToString(n / 10);
      ParseNatToString(n / 10);
    }
  }

  /** Different numbers render to different strings. */
  lemma NatToStringInjective(a: nat, b: nat)
    requires NatToString(a) == NatToString(b)
    ensures a == b
  {
    ParseNatToString(a);
    ParseNatToString(b);
  }

  /** Decimal rendering of an integer, with a leading '-' when negative (str(i), f"{i}"). */
  function IntToString(i: int): (s: string)
    ensures |s| >= 1
    ensures i >= 0 ==> s == NatToString(i)
    ensures i < 0 ==> s == "-" + NatToString(-i)
  {
    if i >= 0 then NatToString(i) else "-" + NatToString(-i)
  }

  lemma IntToStringInjective(a: int, b: int)
    requires IntToString(a) == IntToString(b)
    ensures a == b
  {
    if a >= 0 && b >= 0 {
      NatToStringInjective(a, b);
    } else if a < 0 && b < 0 {
      PrefixedNamesDistinct("-", -a, -b);
    }
  }

  /** Rendering with a fixed prefix keeps numbers apart ("J1" versus "J2"). */
  lemma PrefixedNamesDistinct(p: string, a: nat, b: nat)
    requires p + NatToString(a) == p + NatToString(b)
    ensures a == b
  {
    assert (p + NatToString(a))[|p|..] == NatToString(a);
    assert (p + NatToString(b))[|p|..] == NatToString(b);
    NatToStringInjective(a, b);
  }

  /** The number of digits at the end of s. */
  function TrailingDigits(s: string): (n: nat)
    ensures n <= |s|
  {
    if s == [] || !IsDigit(s[|s| - 1]) then 0 else 1 + TrailingDigits(s[..|s| - 1])
  }

  /** Digits appended to p add to the digits p ends with. */
  lemma {:induction false} TrailingDigitsAfter(p: string, d: string)
    requires AllDigits(d)
    ensures TrailingDigits(p + d) == TrailingDigits(p) + |d|
  {
    if d != [] {
      var init := d[..|d| - 1];
      assert (p + d)[..|p + d| - 1] == p + init;
      TrailingDigitsAfter(p, init);
    } else {
      assert p + d == p;
    }
  }

  /** Behind a non-digit of q, what precedes q does not count. */
  lemma {:induction false} TrailingDigitsWithin(p: string, q: string, i: nat)
    requires i < |q| && !IsDigit(q[i])
    ensures TrailingDigits(p + q) == TrailingDigits(q)
    decreases |q|
  {
    var init := q[..|q| - 1];
    if IsDigit(q[|q| - 1]) {
      assert (p + q)[..|p + q| - 1] == p + init;
      assert init[i] == q[i];
      TrailingDigitsWithin(p, init, i);
    }
  }

  /** Two strings ending in digit runs split the same way when what precedes the runs ends alike. */
  lemma SplitTrailing(p1: string, p2: string, d1: string, d2: string)
    requires AllDigits(d1) && AllDigits(d2) && TrailingDigits(p1) == TrailingDigits(p2)
    requires p1 + d1 == p2 + d2
    ensures p1 == p2 && d1 == d2
  {
    TrailingDigitsAfter(p1, d1);
    TrailingDigitsAfter(p2, d2);
    var key := p1 + d1;
    assert |d1| == |d2|;
    assert p1 == key[..|p1|] == p2;
    assert d1 == key[|p1|..] == d2;
  }

  /** A common suffix cancels. */
  lemma SuffixCancel(a: string, b: string, x: string)
    requires a + x == b + x
    ensures a == b
  {
    assert a == (a + x)[..|a|] && b == (b + x)[..|b|];
  }

  /** Python's a <= b on str: lexicographic by code point. */
  predicate StrLe(a: string, b: string) {
    if a == [] then true
    else if b == [] then false
    else if a[0] != b[0] then a[0] < b[0]
    else StrLe(a[1..], b[1..])
  }

  lemma {:induction false} StrLeTotal(a: string, b: string)
    ensures StrLe(a, b) || StrLe(b, a)
  {
    if a != [] && b != [] && a[0] == b[0] {
      StrLeTotal(a[1..], b[1..]);
    }
  }

  lemma {:induction false} StrLeTransitive(a: string, b: string, c: string)
    requires StrLe(a, b) && StrLe(b, c)
    ensures StrLe(a, c)
  {
    if a != [] && b != [] && c != [] && a[0] == b[0] && b[0] == c[0] {
      StrLeTransitive(a[1..], b[1..], c[1..]);
    }
  }

  lemma {:induction false} StrLeAntisymmetric(a: string, b: string)
    requires StrLe(a, b) && StrLe(b, a)
    ensures a == b
  {
    if a != [] && b != [] {
      StrLeAntisymmetric(a[1..], b[1..]);
      assert a == [a[0]] + a[1..] && b == [b[0]] + b[1..];
    }
  }

  /** The order on str is a total preorder (in fact a total order). */
  lemma StrLeIsTotalPreorder()
    ensures forall a, b :: StrLe(a, b) || StrLe(b, a)
    ensures forall a, b, c :: StrLe(a, b) && StrLe(b, c) ==> StrLe(a, c)
  {
    forall a, b ensures StrLe(a, b) || StrLe(b, a) {
      StrLeTotal(a, b);
    }
    forall a, b, c | StrLe(a, b) && StrLe(b, c) ensures StrLe(a, c) {
      StrLeTransitive(a, b, c);
    }
  }

  predicate StartsWith(s: string, p: string) {
    |p| <= |s| && s[..|p|] == p
  }

  predicate OccursAt(s: string, sub: string, i: int) {
    0 <= i && i + |sub| <= |s| && s[i..i + |sub|] == sub
  }

  /** String.prototype.includes: sub occurs somewhere in s. */
  predicate Contains(s: string, sub: string) {
    exists i :: 0 <= i <= |s| - |sub| && OccursAt(s, sub, i)
  }
}
