/** The two string operations the lexical scorer uses: `str.lower()` and `str.split()`
    with no separator (split on runs of whitespace, drop empty tokens). */
module Text {

  /** Python's whitespace characters, those `str.split()` splits on. */
  predicate IsSpace(c: char) {
    || c == ' '
    || '\t' <= c <= '\r'                    // tab, line feed, vertical tab, form feed, carriage return
    || '\U{1C}' <= c <= '\U{1F}'            // file, group, record and unit separators
    || c == '\U{85}' || c == '\U{A0}' || c == '\U{1680}'
    || '\U{2000}' <= c <= '\U{200A}'
    || c == '\U{2028}' || c == '\U{2029}' || c == '\U{202F}' || c == '\U{205F}' || c == '\U{3000}'
  }

  /** `lower()` on one character: the upper-case letters of ASCII and Latin-1. */
  function LowerChar(c: char): (l: char)
    ensures IsSpace(l) <==> IsSpace(c)
    ensures IsSpace(c) ==> l == c
    ensures 'A' <= c <= 'Z' ==> l as int == c as int + 32
    ensures !('A' <= l <= 'Z')
  {
    if 'A' <= c <= 'Z' || ('\U{C0}' <= c <= '\U{DE}' && c != '\U{D7}') then (c as int + 32) as char
    else c
  }

  /** `s.lower()`, character by character. */
  function Lower(s: string): (r: string)
    ensures |r| == |s|
    ensures forall i | 0 <= i < |s| :: r[i] == LowerChar(s[i])
  {
    seq(|s|, i requires 0 <= i < |s| => LowerChar(s[i]))
  }

  /** A token of `split()`: non-empty, no whitespace. */
  predicate IsWord(w: string) {
    |w| > 0 && forall i | 0 <= i < |w| :: !IsSpace(w[i])
  }

  /** Length of the leading run of non-whitespace characters. */
  function WordLength(s: string): (n: nat)
    ensures n <= |s|
    ensures forall i | 0 <= i < n :: !IsSpace(s[i])
    ensures n < |s| ==> IsSpace(s[n])
  {
    if s == [] || IsSpace(s[0]) then 0 else 1 + WordLength(s[1..])
  }

  /** `s.split()`: the maximal runs of non-whitespace characters, in order. */
  function Split(s: string): (ws: seq<string>)
    ensures forall i | 0 <= i < |ws| :: IsWord(ws[i])
    decreases |s|
  {
    if s == [] then []
    else if IsSpace(s[0]) then Split(s[1..])
    else
      var n := WordLength(s);
      [s[..n]] + Split(s[n..])
  }

  /** Words joined by single spaces, the inverse of `Split` on words. */
  function Join(ws: seq<string>): string {
    if ws == [] then ""
    else if |ws| == 1 then ws[0]
    else ws[0] + " " + Join(ws[1..])
  }

  /** `lower()` applied to each token. */
  function LowerAll(ws: seq<string>): (r: seq<string>)
    ensures |r| == |ws|
    ensures forall i | 0 <= i < |ws| :: r[i] == Lower(ws[i])
  {
    seq(|ws|, i requires 0 <= i < |ws| => Lower(ws[i]))
  }

  /** The set of tokens of `s`, i.e. `set(s.lower().split())`. */
  function TokenSet(s: string): (r: set<string>)
    ensures forall w | w in r :: IsWord(w)
    ensures r == {} <==> forall i | 0 <= i < |s| :: IsSpace(s[i])
  {
    SplitEmpty(Lower(s));
    SplitEmpty(s);
    TokenCountLower(s);
    SetOfSeqEmpty(Split(Lower(s)));
    set w | w in Split(Lower(s))
  }

  lemma SetOfSeqEmpty(ws: seq<string>)
    ensures (set w | w in ws) == {} <==> ws == []
  {
    var t := set w | w in ws;
    if ws != [] {
      assert ws[0] in ws;
      assert ws[0] in t;
      assert t != {};
    }
  }

  /** A string has no tokens exactly when it is all whitespace. */
  lemma {:induction false} SplitEmpty(s: string)
    ensures Split(s) == [] <==> forall i | 0 <= i < |s| :: IsSpace(s[i])
    decreases |s|
  {
    if s != [] {
      if IsSpace(s[0]) {
        SplitEmpty(s[1..]);
        assert forall i | 1 <= i < |s| :: s[i] == s[1..][i - 1];
      }
    }
  }

  lemma {:induction false} WordLengthOfWord(w: string, t: string)
    requires IsWord(w)
    requires t == [] || IsSpace(t[0])
    ensures WordLength(w + t) == |w|
    decreases |w|
  {
    if |w| > 1 {
      assert (w + t)[1..] == w[1..] + t;
      WordLengthOfWord(w[1..], t);
    } else {
      assert (w + t)[1..] == t;
    }
  }

  /** A word followed by whitespace (or nothing) is split off as the first token. */
  lemma SplitWordPrefix(w: string, t: string)
    requires IsWord(w)
    requires t == [] || IsSpace(t[0])
    ensures Split(w + t) == [w] + Split(t)
  {
    WordLengthOfWord(w, t);
    assert (w + t)[..|w|] == w;
    assert (w + t)[|w|..] == t;
  }

  /** A whitespace character at the front starts no token. */
  lemma SplitSpace(c: char, t: string)
    requires IsSpace(c)
    ensures Split([c] + t) == Split(t)
  {
    assert ([c] + t)[1..] == t;
  }

  /** A run of whitespace between two words separates them exactly once. */
  lemma {:induction false} SplitSpaceRun(w: string, run: string, t: string)
    requires IsWord(w) && run != []
    requires forall i | 0 <= i < |run| :: IsSpace(run[i])
    ensures Split(w + run + t) == [w] + Split(t)
    decreases |run|
  {
    assert w + run + t == w + (run + t);
    SplitWordPrefix(w, run + t);
    SkipSpaces(run, t);
  }

  /** Any amount of leading whitespace is skipped, so a run of whitespace separates
      like a single space. */
  lemma {:induction false} SkipSpaces(run: string, t: string)
    requires forall i | 0 <= i < |run| :: IsSpace(run[i])
    ensures Split(run + t) == Split(t)
    decreases |run|
  {
    if run != [] {
      var rest := run[1..];
      assert run + t == [run[0]] + (rest + t);
      SplitSpace(run[0], rest + t);
      assert forall i | 0 <= i < |rest| :: rest[i] == run[i + 1];
      SkipSpaces(rest, t);
      assert Split(run + t) == Split(rest + t);
    } else {
      assert run + t == t;
    }
  }

  /** Splitting undoes joining: words joined by spaces split back into the same words. */
  lemma {:induction false} SplitJoin(ws: seq<string>)
    requires forall i | 0 <= i < |ws| :: IsWord(ws[i])
    ensures Split(Join(ws)) == ws
  {
    if |ws| == 1 {
      SplitWordPrefix(ws[0], "");
      assert ws[0] + "" == ws[0];
    } else if |ws| > 1 {
      var rest := " " + Join(ws[1..]);
      SplitWordPrefix(ws[0], rest);
      assert Join(ws) == ws[0] + rest;
      assert rest[1..] == Join(ws[1..]);
      SplitJoin(ws[1..]);
      assert [ws[0]] + ws[1..] == ws;
    }
  }

  /** Lower-casing before splitting gives the lower-cased tokens: `lower` keeps whitespace
      where it was, so `s.lower().split()` has as many tokens as `s.split()`. */
  lemma {:induction false} SplitLower(s: string)
    ensures Split(Lower(s)) == LowerAll(Split(s))
    decreases |s|
  {
    if s != [] {
      if IsSpace(s[0]) {
        SplitLower(s[1..]);
        SplitLowerSpace(s);
      } else {
        var n := WordLength(s);
        SplitLower(s[n..]);
        SplitLowerWord(s);
      }
    }
  }

  /** A leading space is dropped before and after lower-casing alike. */
  lemma SplitLowerSpace(s: string)
    requires s != [] && IsSpace(s[0])
    requires Split(Lower(s[1..])) == LowerAll(Split(s[1..]))
    ensures Split(Lower(s)) == LowerAll(Split(s))
  {
    assert Lower(s)[1..] == Lower(s[1..]);
  }

  /** A leading word is split off before and after lower-casing alike. */
  lemma SplitLowerWord(s: string)
    requires s != [] && !IsSpace(s[0])
    requires Split(Lower(s[WordLength(s)..])) == LowerAll(Split(s[WordLength(s)..]))
    ensures Split(Lower(s)) == LowerAll(Split(s))
  {
    var l, n := Lower(s), WordLength(s);
    WordLengthLower(s);
    assert l[..n] == Lower(s[..n]);
    assert l[n..] == Lower(s[n..]);
    assert LowerAll(Split(s)) == [Lower(s[..n])] + LowerAll(Split(s[n..]));
  }

  lemma {:induction false} WordLengthLower(s: string)
    ensures WordLength(Lower(s)) == WordLength(s)
    decreases |s|
  {
    if s != [] && !IsSpace(s[0]) {
      assert Lower(s)[1..] == Lower(s[1..]);
      WordLengthLower(s[1..]);
    }
  }

  /** `s.lower().split()` has exactly as many tokens as `s.split()`. */
  lemma TokenCountLower(s: string)
    ensures |Split(Lower(s))| == |Split(s)|
  {
    SplitLower(s);
  }
}
