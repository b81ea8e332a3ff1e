/**
 The string operations the two handlers rely on, in the semantics of the
 languages they are written in: Python's `str.strip()`, `str.split()` and
 `sep.join(...)`, Python's and JavaScript's `split` on a one-character
 separator, and the decimal reading of a digit string.
 */
module Text {

  /** The characters Python's `str.isspace()` accepts; `str.split()` and
      `str.strip()` without arguments separate and trim on exactly these. */
  predicate IsSpace(c: char) {
    || ('\t' <= c <= '\r')
    || ('\U{1C}' <= c <= ' ')
    || c == '\U{85}' || c == '\U{A0}' || c == '\U{1680}'
    || ('\U{2000}' <= c <= '\U{200A}')
    || c == '\U{2028}' || c == '\U{2029}' || c == '\U{202F}' || c == '\U{205F}'
    || c == '\U{3000}'
  }

  predicate AllSpace(s: string) {
    forall i | 0 <= i < |s| :: IsSpace(s[i])
  }

  predicate NoSpace(s: string) {
    forall i | 0 <= i < |s| :: !IsSpace(s[i])
  }

  /** A token `str.split()` can produce: non-empty, without whitespace. */
  predicate IsWord(w: string) {
    |w| > 0 && NoSpace(w)
  }

  predicate AllWords(ws: seq<string>) {
    forall i | 0 <= i < |ws| :: IsWord(ws[i])
  }

  /** Number of whitespace characters at the front of `s`. */
  function LeadingSpace(s: string): (n: nat)
    ensures n <= |s| && AllSpace(s[..n])
    ensures n < |s| ==> !IsSpace(s[n])
  {
    if |s| == 0 || !IsSpace(s[0]) then 0
    else
      var m := LeadingSpace(s[1..]);
      assert forall i | 1 <= i < 1 + m :: s[i] == s[1..][..m][i - 1];
      1 + m
  }

  /** Number of whitespace characters at the back of `s`. */
  function TrailingSpace(s: string): (n: nat)
    ensures n <= |s| && AllSpace(s[|s| - n..])
    ensures n < |s| ==> !IsSpace(s[|s| - n - 1])
  {
    if |s| == 0 || !IsSpace(s[|s| - 1]) then 0
    else
      var t := s[..|s| - 1];
      var m := TrailingSpace(t);
      assert forall i | |s| - 1 - m <= i < |s| - 1 :: s[i] == t[|t| - m..][i - (|s| - 1 - m)];
      1 + m
  }

  /** Length of the run of non-whitespace characters at the front of `s`. */
  function WordLength(s: string): (n: nat)
    ensures n <= |s| && NoSpace(s[..n])
    ensures n < |s| ==> IsSpace(s[n])
  {
    if |s| == 0 || IsSpace(s[0]) then 0
    else
      var m := WordLength(s[1..]);
      assert forall i | 1 <= i < 1 + m :: s[i] == s[1..][..m][i - 1];
      1 + m
  }

  /** Python's `s.strip()`: `s` without its leading and trailing whitespace. */
  function Strip(s: string): (r: string)
    ensures LeadingSpace(s) + |r| <= |s|
    ensures r == s[LeadingSpace(s)..LeadingSpace(s) + |r|]
    ensures AllSpace(s[LeadingSpace(s) + |r|..])
    ensures r == [] || (!IsSpace(r[0]) && !IsSpace(r[|r| - 1]))
  {
    var t := s[LeadingSpace(s)..];
    StripFront(s, t);
    StripBack(s, t);
    t[..|t| - TrailingSpace(t)]
  }

  /** What `Strip` keeps is a slice of `s` starting right after the leading
      whitespace, and it does not start with whitespace. */
  lemma StripFront(s: string, t: string)
    requires t == s[LeadingSpace(s)..]
    ensures var n, r := LeadingSpace(s), t[..|t| - TrailingSpace(t)];
            && n + |r| <= |s|
            && r == s[n..n + |r|]
            && (r == [] || !IsSpace(r[0]))
  {
    var r := t[..|t| - TrailingSpace(t)];
    if r != [] {
      assert r[0] == s[LeadingSpace(s)];
    }
  }

  /** What `Strip` drops after the slice is whitespace, and the slice does
      not end with whitespace. */
  lemma StripBack(s: string, t: string)
    requires t == s[LeadingSpace(s)..]
    ensures var n, r := LeadingSpace(s), t[..|t| - TrailingSpace(t)];
            && n + |r| <= |s|
            && AllSpace(s[n + |r|..])
            && (r == [] || !IsSpace(r[|r| - 1]))
  {
    var r := t[..|t| - TrailingSpace(t)];
    TrimEnd(t);
    DropTwice(s, LeadingSpace(s), |r|);
  }

  lemma DropTwice(s: string, n: nat, k: nat)
    requires n + k <= |s|
    ensures s[n..][k..] == s[n + k..]
  {
  }

  /** Cutting the trailing whitespace off `t` leaves no whitespace at its end. */
  lemma TrimEnd(t: string)
    ensures var r := t[..|t| - TrailingSpace(t)];
            AllSpace(t[|r|..]) && (r == [] || !IsSpace(r[|r| - 1]))
  {
    var m := TrailingSpace(t);
    var r := t[..|t| - m];
    if r != [] {
      assert r[|r| - 1] == t[|t| - m - 1];
    }
  }

  /** Python's `s.startswith(p)`. */
  predicate StartsWith(s: string, p: string) {
    p <= s
  }

  /** Python's `s.split()`: the maximal runs of non-whitespace, in order. */
  function Split(s: string): (ws: seq<string>)
    ensures AllWords(ws)
    decreases |s|
  {
    if |s| == 0 then []
    else if IsSpace(s[0]) then Split(s[1..])
    else
      var n := WordLength(s);
      [s[..n]] + Split(s[n..])
  }

  /** Python's `sep.join(ws)`. */
  function Join(ws: seq<string>, sep: string): string {
    if |ws| == 0 then ""
    else if |ws| == 1 then ws[0]
    else ws[0] + sep + Join(ws[1..], sep)
  }

  /** `s.split(c)` in Python, `s.split(c)` in JavaScript: the fields between
      occurrences of `c`, empty fields kept. Joining them back on `c` gives
      `s`, and there is one field more than there are separators. */
  function SplitOn(s: string, c: char): (fields: seq<string>)
    ensures |fields| == multiset(s)[c] + 1
    ensures forall i | 0 <= i < |fields| :: c !in fields[i]
    ensures Join(fields, [c]) == s
    decreases |s|
  {
    if |s| == 0 then [""]
    else
      var rest := SplitOn(s[1..], c);
      if s[0] == c then
        FieldsAfterSeparator(s, c, rest);
        [""] + rest
      else
        FieldsAfterOther(s, c, rest);
        [[s[0]] + rest[0]] + rest[1..]
  }

  /** `rest` are the fields of `s` after its first character. */
  predicate FieldsOfTail(s: string, c: char, rest: seq<string>)
    requires |s| > 0
  {
    && |rest| == multiset(s[1..])[c] + 1
    && (forall i | 0 <= i < |rest| :: c !in rest[i])
    && Join(rest, [c]) == s[1..]
  }

  /** A leading separator opens an empty first field. */
  lemma FieldsAfterSeparator(s: string, c: char, rest: seq<string>)
    requires |s| > 0 && s[0] == c && FieldsOfTail(s, c, rest)
    ensures var fields := [""] + rest;
            && |fields| == multiset(s)[c] + 1
            && (forall i | 0 <= i < |fields| :: c !in fields[i])
            && Join(fields, [c]) == s
  {
    assert s == [s[0]] + s[1..];
    assert multiset(s) == multiset([s[0]]) + multiset(s[1..]);
    JoinCons("", rest, [c]);
  }

  /** Any other leading character joins the first field. */
  lemma FieldsAfterOther(s: string, c: char, rest: seq<string>)
    requires |s| > 0 && s[0] != c && FieldsOfTail(s, c, rest)
    ensures var fields := [[s[0]] + rest[0]] + rest[1..];
            && |fields| == multiset(s)[c] + 1
            && (forall i | 0 <= i < |fields| :: c !in fields[i])
            && Join(fields, [c]) == s
  {
    assert s == [s[0]] + s[1..];
    assert multiset(s) == multiset([s[0]]) + multiset(s[1..]);
    JoinPrepend(s[0], rest, [c]);
  }

  lemma JoinCons(x: string, ws: seq<string>, sep: string)
    requires |ws| > 0
    ensures Join([x] + ws, sep) == x + sep + Join(ws, sep)
  {
    assert ([x] + ws)[1..] == ws;
  }

  /** Putting a character in front of the first field puts it in front of the join. */
  lemma JoinPrepend(ch: char, ws: seq<string>, sep: string)
    requires |ws| > 0
    ensures Join([[ch] + ws[0]] + ws[1..], sep) == [ch] + Join(ws, sep)
  {
    if |ws| > 1 {
      JoinCons([ch] + ws[0], ws[1..], sep);
      assert ws == [ws[0]] + ws[1..];
      JoinCons(ws[0], ws[1..], sep);
    }
  }

  lemma JoinStartsWithFirst(ws: seq<string>, sep: string)
    requires |ws| > 0
    ensures ws[0] <= Join(ws, sep)
  {
  }

  /** A word followed by nothing or by whitespace is the first token of the split. */
  lemma SplitOfWord(w: string, t: string)
    requires IsWord(w)
    requires t == [] || IsSpace(t[0])
    ensures Split(w + t) == [w] + Split(t)
  {
    var s := w + t;
    var n := WordLength(s);
    assert forall i | 0 <= i < |w| :: s[i] == w[i];
    assert |w| < |s| ==> s[|w|] == t[0];
    assert n == |w|;
    assert s[..n] == w;
    assert s[n..] == t;
  }

  /** `gaps[0] + ws[0] + gaps[1] + ... + ws[|ws| - 1] + gaps[|ws|]`: words
      laid out between gaps. */
  function Spaced(gaps: seq<string>, ws: seq<string>): string
    requires |gaps| == |ws| + 1
  {
    if |ws| == 0 then gaps[0]
    else gaps[0] + ws[0] + Spaced(gaps[1..], ws[1..])
  }

  /** Gaps that `str.split()` separates words by: all whitespace, and every
      gap between two words non-empty. The gaps at either end may be empty. */
  predicate Separating(gaps: seq<string>, ws: seq<string>) {
    && |gaps| == |ws| + 1
    && (forall i | 0 <= i < |gaps| :: AllSpace(gaps[i]))
    && (forall i | 0 < i < |ws| :: |gaps[i]| > 0)
  }

  /** Whitespace in front of a string does not change its split. */
  lemma {:induction false} SplitAfterSpace(g: string, t: string)
    requires AllSpace(g)
    ensures Split(g + t) == Split(t)
    decreases |g|
  {
    if |g| == 0 {
      assert g + t == t;
    } else {
      assert IsSpace((g + t)[0]);
      assert (g + t)[1..] == g[1..] + t;
      SplitAfterSpace(g[1..], t);
    }
  }

  /** `str.split()` gives back exactly the words of any string made of words
      and whitespace gaps: its tokens are the words, in order, whatever
      whitespace runs lie between and around them. */
  lemma {:induction false} SplitOfSpaced(gaps: seq<string>, ws: seq<string>)
    requires AllWords(ws) && Separating(gaps, ws)
    ensures Split(Spaced(gaps, ws)) == ws
  {
    if |ws| == 0 {
      SplitAfterSpace(gaps[0], "");
      assert gaps[0] + "" == gaps[0];
    } else {
      var tail := Spaced(gaps[1..], ws[1..]);
      assert Spaced(gaps, ws) == gaps[0] + (ws[0] + tail);
      assert Split(ws[0] + tail) == ws by {
        SpacedTail(gaps, ws);
        SplitOfSpaced(gaps[1..], ws[1..]);
        SplitOfWord(ws[0], tail);
        assert [ws[0]] + ws[1..] == ws;
      }
      SplitAfterSpace(gaps[0], ws[0] + tail);
    }
  }

  /** After the first gap and word, the rest is again words between gaps,
      and it is empty or starts with whitespace. */
  lemma SpacedTail(gaps: seq<string>, ws: seq<string>)
    requires |ws| > 0 && Separating(gaps, ws)
    ensures Separating(gaps[1..], ws[1..])
    ensures var tail := Spaced(gaps[1..], ws[1..]); tail == [] || IsSpace(tail[0])
  {
    assert forall i | 0 <= i < |gaps| - 1 :: gaps[1..][i] == gaps[i + 1];
    var tail := Spaced(gaps[1..], ws[1..]);
    if |ws| > 1 {
      assert tail == gaps[1] + (ws[1] + Spaced(gaps[2..], ws[2..]));
      assert tail[0] == gaps[1][0];
    } else {
      assert tail == gaps[1];
    }
  }

  /** Joining words with single spaces and splitting again gives the words back. */
  lemma {:induction false} SplitOfJoin(ws: seq<string>)
    requires AllWords(ws)
    ensures Split(Join(ws, " ")) == ws
  {
    if |ws| == 0 {
    } else if |ws| == 1 {
      SplitOfWord(ws[0], "");
      assert ws[0] + "" == ws[0];
    } else {
      var rest := Join(ws[1..], " ");
      SplitOfJoin(ws[1..]);
      SplitOfWord(ws[0], " " + rest);
      assert ws[0] + " " + rest == ws[0] + (" " + rest);
      assert (" " + rest)[1..] == rest;
    }
  }

  /** A space-joined list of words starts with its first word and ends with
      its last one, so neither end is whitespace. */
  lemma {:induction false} JoinEnds(ws: seq<string>)
    requires |ws| > 0 && AllWords(ws)
    ensures ws[0] <= Join(ws, " ")
    ensures var s := Join(ws, " "); |s| > 0 && !IsSpace(s[0]) && !IsSpace(s[|s| - 1])
  {
    if |ws| > 1 {
      JoinEnds(ws[1..]);
      var rest := Join(ws[1..], " ");
      assert Join(ws, " ") == ws[0] + " " + rest;
      assert Join(ws, " ")[|Join(ws, " ")| - 1] == rest[|rest| - 1];
    }
  }

  /** A string without leading or trailing whitespace is its own strip. */
  lemma StripTrimmed(s: string)
    requires s == [] || (!IsSpace(s[0]) && !IsSpace(s[|s| - 1]))
    ensures Strip(s) == s
  {
    assert LeadingSpace(s) == 0;
    assert s[0..] == s;
    assert TrailingSpace(s) == 0;
  }

  /** Splitting `a + c + b`, where neither side contains `c`, on `c` gives
      exactly the two sides. */
  lemma SplitOnPair(a: string, b: string, c: char)
    requires c !in a && c !in b
    ensures SplitOn(a + [c] + b, c) == [a, b]
  {
    var s := a + [c] + b;
    assert multiset(s) == multiset(a) + multiset([c]) + multiset(b);
    assert multiset(a)[c] == 0 && multiset(b)[c] == 0;
    var f := SplitOn(s, c);
    assert |f| == 2;
    assert Join(f, [c]) == f[0] + [c] + Join(f[1..], [c]);
    SeparatorUnique(f[0], f[1], a, b, c);
  }

  /** When `s` holds the separator, its first two fields and the separator
      between them are how `s` begins, and the second field runs up to the
      next separator or the end of `s`. */
  lemma FirstTwoFields(s: string, c: char)
    requires |SplitOn(s, c)| >= 2
    ensures var f := SplitOn(s, c); f[0] + [c] + f[1] <= s
    ensures var f := SplitOn(s, c); var k := |f[0]| + 1 + |f[1]|; k == |s| || s[k] == c
  {
    var f := SplitOn(s, c);
    JoinCons(f[0], f[1..], [c]);
    assert [f[0]] + f[1..] == f;
    JoinStartsWithFirst(f[1..], [c]);
    SecondFieldEnds(f[1..], c);
  }

  /** A join of several fields continues its first field with the separator. */
  lemma SecondFieldEnds(g: seq<string>, c: char)
    requires |g| > 0
    ensures var t := Join(g, [c]); |g[0]| == |t| || (|g[0]| < |t| && t[|g[0]|] == c)
  {
    if |g| > 1 {
      JoinCons(g[0], g[1..], [c]);
      assert [g[0]] + g[1..] == g;
    }
  }

  /** The first occurrence of a separator fixes both sides around it. */
  lemma SeparatorUnique(x: string, y: string, u: string, v: string, c: char)
    requires c !in x && c !in u
    requires x + [c] + y == u + [c] + v
    ensures x == u && y == v
  {
    var s := x + [c] + y;
    assert s[|x|] == c && s[|u|] == c;
    assert |x| == |u|;
    assert x == s[..|x|];
    assert u == s[..|u|];
    assert y == s[|x| + 1..];
    assert v == s[|u| + 1..];
  }

  predicate IsDigit(c: char) {
    48 <= c as int <= 57
  }

  /** A non-empty string of ASCII decimal digits. */
  predicate IsDigits(s: string) {
    |s| > 0 && forall i | 0 <= i < |s| :: IsDigit(s[i])
  }

  /** The value of a decimal digit string, most significant digit first. */
  function DigitsValue(s: string): nat
    requires forall i | 0 <= i < |s| :: IsDigit(s[i])
  {
    if |s| == 0 then 0
    else
      assert IsDigit(s[|s| - 1]);
      10 * DigitsValue(s[..|s| - 1]) + (s[|s| - 1] as int - 48)
  }

  /** The shortest decimal spelling of `n`: no leading zero unless `n` is
      zero itself, and it reads back as `n`. */
  function DigitsOf(n: nat): (s: string)
    ensures IsDigits(s)
    ensures DigitsValue(s) == n
    ensures s[0] == '0' ==> s == "0"
  {
    var last := (48 + n % 10) as char;
    if n < 10 then
      [last]
    else
      var front := DigitsOf(n / 10);
      assert (front + [last])[..|front|] == front;
      front + [last]
  }
}
