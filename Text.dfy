/**
  String helpers shared by both converters: the subset of Python's `str`
  behaviour they rely on (`strip`, `split()`, `split(":")[-1]`, `startswith`,
  `replace`, `join`, `str(int)`, right alignment in a field) written out over
  `seq<char>`, together with the facts the converters' proofs need.

  Whitespace is the ASCII set: space, tab, line feed, carriage return,
  vertical tab and form feed.
 */
module Text {

  predicate IsSpace(c: char) {
    c == ' ' || c == '\t' || c == '\n' || c == '\r' || c == '\U{000B}' || c == '\U{000C}'
  }

  predicate StartsWith(s: string, p: string) {
    |p| <= |s| && s[..|p|] == p
  }

  predicate EndsWith(s: string, p: string) {
    |p| <= |s| && s[|s| - |p|..] == p
  }

  /** `p` occurs in `s` starting at index `i`. */
  predicate OccursAt(s: string, p: string, i: nat) {
    i + |p| <= |s| && s[i..i + |p|] == p
  }

  predicate Contains(s: string, p: string) {
    exists i: nat | i <= |s| :: OccursAt(s, p, i)
  }

  lemma OccursAfterFirst(s: string, p: string, i: nat)
    requires s != []
    ensures OccursAt(s[1..], p, i) <==> OccursAt(s, p, i + 1)
  {
    if i + 1 + |p| <= |s| {
      assert s[1..][i..i + |p|] == s[i + 1..i + 1 + |p|];
    }
  }

  /** A non-empty run of non-whitespace characters, as `split()` yields. */
  predicate IsWord(w: string) {
    w != [] && forall i | 0 <= i < |w| :: !IsSpace(w[i])
  }

  predicate AllSpaces(s: string) {
    forall i | 0 <= i < |s| :: IsSpace(s[i])
  }

  predicate IsDigits(s: string) {
    s != [] && forall i | 0 <= i < |s| :: '0' <= s[i] <= '9'
  }

  /** Two prefixes that disagree at some position cannot both start `s`. */
  lemma ExclusivePrefixes(s: string, p: string, q: string, i: nat)
    requires i < |p| && i < |q| && p[i] != q[i]
    ensures !(StartsWith(s, p) && StartsWith(s, q))
  {
    if StartsWith(s, p) && |q| <= |s| {
      assert s[..|q|][i] == s[i] == p[i];
    }
  }

  // ---------------------------------------------------------------- strip

  /** `s` without its leading whitespace. */
  function TrimLeft(s: string): (r: string)
    ensures |r| <= |s|
    ensures r == [] || !IsSpace(r[0])
  {
    if s != [] && IsSpace(s[0]) then TrimLeft(s[1..]) else s
  }

  /** `s` without its trailing whitespace. */
  function TrimRight(s: string): (r: string)
    ensures |r| <= |s| && r == s[..|r|]
    ensures r == [] || !IsSpace(r[|r| - 1])
  {
    if s != [] && IsSpace(s[|s| - 1]) then TrimRight(s[..|s| - 1]) else s
  }

  /** Python's `s.strip()` over the whitespace set above: the infix of `s`
      that starts after its leading whitespace and ends before its trailing
      whitespace. */
  function Strip(s: string): (r: string)
    ensures |r| <= |s|
    ensures r == [] || (!IsSpace(r[0]) && !IsSpace(r[|r| - 1]))
  {
    TrimRight(TrimLeft(s))
  }

  /** What TrimLeft removes is a whitespace prefix. */
  lemma {:induction false} TrimLeftMargin(s: string)
    ensures TrimLeft(s) == s[|s| - |TrimLeft(s)|..]
    ensures AllSpaces(s[..|s| - |TrimLeft(s)|])
  {
    if s != [] && IsSpace(s[0]) {
      TrimLeftMargin(s[1..]);
      var r := TrimLeft(s[1..]);
      assert s[..|s| - |r|] == [s[0]] + s[1..][..|s| - 1 - |r|];
    }
  }

  /** What TrimRight removes is a whitespace suffix. */
  lemma {:induction false} TrimRightMargin(s: string)
    ensures AllSpaces(s[|TrimRight(s)|..])
  {
    if s != [] && IsSpace(s[|s| - 1]) {
      TrimRightMargin(s[..|s| - 1]);
      var r := TrimRight(s[..|s| - 1]);
      assert s[|r|..] == s[..|s| - 1][|r|..] + [s[|s| - 1]];
    }
  }

  /** Strip keeps the infix of `s` between a whitespace prefix and a
      whitespace suffix. */
  lemma StripIsInfix(s: string)
    ensures var lead := |s| - |TrimLeft(s)|;
            var r := Strip(s);
            && lead + |r| <= |s|
            && r == s[lead..lead + |r|]
            && AllSpaces(s[..lead])
            && AllSpaces(s[lead + |r|..])
  {
    var t := TrimLeft(s);
    var lead := |s| - |t|;
    var r := Strip(s);
    TrimLeftMargin(s);
    TrimRightMargin(t);
    assert r == t[..|r|];
    assert s[lead..lead + |r|] == t[..|r|];
    assert s[lead + |r|..] == t[|r|..];
  }

  lemma {:induction false} TrimLeftSpaces(sp: string, x: string)
    requires AllSpaces(sp)
    requires x == [] || !IsSpace(x[0])
    ensures TrimLeft(sp + x) == x
  {
    if sp != [] {
      assert (sp + x)[1..] == sp[1..] + x;
      TrimLeftSpaces(sp[1..], x);
    }
  }

  lemma StripOfWordAfterSpaces(sp: string, w: string)
    requires AllSpaces(sp) && IsWord(w)
    ensures Strip(sp + w) == w
  {
    TrimLeftSpaces(sp, w);
  }

  // ---------------------------------------------------------------- split()

  /** Length of the longest whitespace-free prefix of `s`. */
  function WordLength(s: string): (n: nat)
    ensures n <= |s|
    ensures forall i | 0 <= i < n :: !IsSpace(s[i])
    ensures n < |s| ==> IsSpace(s[n])
  {
    if s == [] || IsSpace(s[0]) then 0 else 1 + WordLength(s[1..])
  }

  /** Python's `s.split()`: the maximal runs of non-whitespace, in order. */
  function Tokens(s: string): (ts: seq<string>)
    ensures forall k | 0 <= k < |ts| :: IsWord(ts[k])
    decreases |s|
  {
    var t := TrimLeft(s);
    if t == [] then []
    else
      var n := WordLength(t);
      [t[..n]] + Tokens(t[n..])
  }

  lemma WordLengthOfWord(w: string, rest: string)
    requires IsWord(w)
    requires rest == [] || IsSpace(rest[0])
    ensures WordLength(w + rest) == |w|
  {
    assert forall i | 0 <= i < |w| :: (w + rest)[i] == w[i];
    assert |w| < |w + rest| ==> (w + rest)[|w|] == rest[0];
  }

  /** Splitting skips leading whitespace and takes the word that follows. */
  lemma TokensOfSpacedWord(sp: string, w: string, rest: string)
    requires AllSpaces(sp) && IsWord(w)
    requires rest == [] || IsSpace(rest[0])
    ensures Tokens(sp + w + rest) == [w] + Tokens(rest)
  {
    assert sp + w + rest == sp + (w + rest);
    TrimLeftSpaces(sp, w + rest);
    WordLengthOfWord(w, rest);
    assert (w + rest)[..|w|] == w;
    assert (w + rest)[|w|..] == rest;
  }

  lemma TokensOfWord(w: string)
    requires IsWord(w)
    ensures Tokens(w) == [w]
  {
    TrimLeftSpaces([], w);
    assert [] + w == w;
    WordLengthOfWord(w, []);
    assert w + [] == w;
    assert w[..|w|] == w && w[|w|..] == [];
    assert Tokens([]) == [];
  }

  /** The first token of a string with no leading whitespace is a prefix of it. */
  lemma FirstTokenIsPrefix(s: string)
    requires s != [] && !IsSpace(s[0])
    ensures Tokens(s) != [] && StartsWith(s, Tokens(s)[0])
  {
  }

  /** If a prefix `w` of `s`, followed by a space, starts with a key free of
      spaces, then `s` itself starts with that key. */
  lemma KeyBeforeSpace(s: string, w: string, rest: string, key: string)
    requires StartsWith(s, w)
    requires forall i | 0 <= i < |key| :: key[i] != ' '
    ensures StartsWith(w + " " + rest, key) ==> StartsWith(s, key)
  {
    var o := w + " " + rest;
    if |w| < |key| <= |o| {
      assert o[..|key|][|w|] == ' ';
    }
    if |key| <= |w| {
      assert o[..|key|] == w[..|key|];
      assert s[..|key|] == s[..|w|][..|key|];
    }
  }

  // ---------------------------------------------------------------- split(":")[-1]

  /** Python's `s.split(c)[-1]`: the longest suffix of `s` free of `c`. */
  function AfterLast(s: string, c: char): (r: string)
    ensures |r| <= |s| && r == s[|s| - |r|..]
    ensures c !in r
    ensures |r| < |s| ==> s[|s| - |r| - 1] == c
  {
    if s == [] then []
    else if s[|s| - 1] == c then []
    else AfterLast(s[..|s| - 1], c) + [s[|s| - 1]]
  }

  lemma {:induction false} AfterLastSeparator(a: string, c: char, b: string)
    requires c !in b
    ensures AfterLast(a + [c] + b, c) == b
  {
    var s := a + [c] + b;
    if b != [] {
      assert s[..|s| - 1] == a + [c] + b[..|b| - 1];
      assert s[|s| - 1] == b[|b| - 1];
      AfterLastSeparator(a, c, b[..|b| - 1]);
    }
  }

  // ---------------------------------------------------------------- replace

  /** Python's `s.replace(pat, rep)`: every occurrence of `pat`, scanning left
      to right without overlap, is replaced by `rep`. */
  function ReplaceAll(s: string, pat: string, rep: string): string
    requires pat != []
    decreases |s|
  {
    if |s| < |pat| then s
    else if s[..|pat|] == pat then rep + ReplaceAll(s[|pat|..], pat, rep)
    else [s[0]] + ReplaceAll(s[1..], pat, rep)
  }

  /** A string without the pattern is left unchanged. */
  lemma {:induction false} ReplaceAllAbsent(s: string, pat: string, rep: string)
    requires pat != [] && !Contains(s, pat)
    ensures ReplaceAll(s, pat, rep) == s
  {
    if |s| >= |pat| {
      assert !OccursAt(s, pat, 0);
      forall i: nat
        ensures !OccursAt(s[1..], pat, i)
      {
        OccursAfterFirst(s, pat, i);
      }
      ReplaceAllAbsent(s[1..], pat, rep);
    }
  }

  lemma EndsWithAt(s: string, p: string, i: nat)
    requires EndsWith(s, p) && i < |p|
    ensures s[|s| - |p| + i] == p[i]
  {
    assert s[|s| - |p|..][i] == p[i];
  }

  lemma EndsWithAppend(a: string, b: string, p: string)
    requires EndsWith(b, p)
    ensures EndsWith(a + b, p)
  {
    assert (a + b)[|a + b| - |p|..] == b[|b| - |p|..];
  }

  // ---------------------------------------------------------------- join / readlines

  /** Python's `sep.join(parts)`. */
  function Join(parts: seq<string>, sep: string): string
  {
    if parts == [] then ""
    else if |parts| == 1 then parts[0]
    else parts[0] + sep + Join(parts[1..], sep)
  }

  lemma JoinCons(first: string, rest: seq<string>, sep: string)
    requires rest != []
    ensures Join([first] + rest, sep) == first + sep + Join(rest, sep)
  {
    assert ([first] + rest)[1..] == rest;
  }

  /** Length of the first line of `t`: the prefix before the first line feed. */
  function LineLength(t: string): (n: nat)
    ensures n <= |t|
    ensures forall i | 0 <= i < n :: t[i] != '\n'
    ensures n < |t| ==> t[n] == '\n'
  {
    if t == [] || t[0] == '\n' then 0 else 1 + LineLength(t[1..])
  }

  /** The lines of a text, line feeds removed: what reading the text back
      with `readlines` and dropping each line's terminator yields. */
  function ReadLines(t: string): seq<string>
    decreases |t|
  {
    if t == [] then []
    else
      var n := LineLength(t);
      if n == |t| then [t] else [t[..n]] + ReadLines(t[n + 1..])
  }

  lemma LineLengthOfLine(a: string, rest: string)
    requires '\n' !in a
    ensures LineLength(a + "\n" + rest) == |a|
  {
    var t := a + "\n" + rest;
    assert forall i | 0 <= i < |a| :: t[i] == a[i];
    assert t[|a|] == '\n';
  }

  /** Joining lines with line feeds and terminating the text with one more
      line feed is undone by reading the lines back. */
  lemma {:induction false} ReadLinesOfJoined(ls: seq<string>)
    requires ls != []
    requires forall k | 0 <= k < |ls| :: '\n' !in ls[k]
    ensures ReadLines(Join(ls, "\n") + "\n") == ls
  {
    var t := Join(ls, "\n") + "\n";
    if |ls| == 1 {
      LineLengthOfLine(ls[0], "");
      assert t == ls[0] + "\n" + "";
      assert t[|ls[0]| + 1..] == [];
    } else {
      var rest := Join(ls[1..], "\n") + "\n";
      assert t == ls[0] + "\n" + rest;
      LineLengthOfLine(ls[0], rest);
      assert t[..|ls[0]|] == ls[0];
      assert t[|ls[0]| + 1..] == rest;
      ReadLinesOfJoined(ls[1..]);
    }
  }

  // ---------------------------------------------------------------- integers

  function DigitChar(d: nat): (c: char)
    requires d < 10
    ensures '0' <= c <= '9'
  {
    ('0' as int + d) as char
  }

  /** Python's `str(n)` for a non-negative integer. */
  function NatToString(n: nat): (s: string)
    ensures IsDigits(s)
  {
    if n < 10 then [DigitChar(n)]
    else NatToString(n / 10) + [DigitChar(n % 10)]
  }

  /** The value of a decimal numeral. */
  function DecimalValue(s: string): nat
    requires forall i | 0 <= i < |s| :: '0' <= s[i] <= '9'
  {
    if s == [] then 0
    else DecimalValue(s[..|s| - 1]) * 10 + (s[|s| - 1] as int - '0' as int)
  }

  /** `str(n)` is read back as `n`. */
  lemma {:induction false} DecimalRoundTrip(n: nat)
    ensures DecimalValue(NatToString(n)) == n
  {
    var s := NatToString(n);
    if n >= 10 {
      DecimalRoundTrip(n / 10);
      assert s[..|s| - 1] == NatToString(n / 10);
    }
  }

  // ---------------------------------------------------------------- alignment

  function Spaces(k: nat): (r: string)
    ensures |r| == k && AllSpaces(r)
  {
    if k == 0 then "" else " " + Spaces(k - 1)
  }

  /** Python's right alignment of `s` in a field of `width` characters. */
  function PadLeft(s: string, width: nat): (r: string)
    ensures |r| == if |s| < width then width else |s|
    ensures EndsWith(r, s)
    ensures AllSpaces(r[..|r| - |s|])
  {
    var r := Padding(s, width) + s;
    assert r[..|r| - |s|] == Padding(s, width);
    r
  }

  /** The blanks that right-align `s` in a field of `width` characters. */
  function Padding(s: string, width: nat): (r: string)
    ensures AllSpaces(r)
  {
    if |s| < width then Spaces(width - |s|) else ""
  }
}
