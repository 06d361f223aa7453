/**
 * The tokenizer of group_issues.py: lower-case the text, split it on
 * whitespace, strip punctuation from both edges of every word, drop the
 * words whose stripped form is a stopword and stem the rest.
 *
 * The stemmer and the stopword list are foreign code; they are parameters
 * here. Lower-casing is modelled for ASCII letters only.
 */
module Tokenizer {

  type Term = string

  /** Python 2 whitespace for `str.split()`: space, \t, \n, \v, \f, \r. */
  predicate IsSpace(c: char) {
    c == ' ' || 9 <= c as int <= 13
  }

  /** The characters `tokenize` strips from the edges of a word: \ . ! ? , ( ) { } [ ] " ' */
  predicate IsStripChar(c: char) {
    || c == '\\' || c == '.' || c == '!' || c == '?' || c == ','
    || c == '(' || c == ')' || c == '{' || c == '}' || c == '[' || c == ']'
    || c == '"' || c == '\''
  }

  predicate IsUpper(c: char) {
    'A' <= c <= 'Z'
  }

  function LowerChar(c: char): char {
    if IsUpper(c) then (c as int + 32) as char else c
  }

  /** `str.lower()` restricted to ASCII. */
  function Lower(s: string): (r: string)
    ensures |r| == |s|
    ensures forall i :: 0 <= i < |s| ==> r[i] == LowerChar(s[i])
    ensures forall i :: 0 <= i < |r| ==> !IsUpper(r[i])
  {
    if s == [] then [] else [LowerChar(s[0])] + Lower(s[1..])
  }

  /** Drops the leading whitespace of `s`. */
  function TrimLeft(s: string): (r: string)
    ensures |r| <= |s|
    ensures r == [] || !IsSpace(r[0])
  {
    if s != [] && IsSpace(s[0]) then TrimLeft(s[1..]) else s
  }

  /** The longest prefix of `s` that holds no whitespace. */
  function WordPrefix(s: string): (r: string)
    ensures |r| <= |s|
    ensures |r| < |s| ==> IsSpace(s[|r|])
  {
    if s != [] && !IsSpace(s[0]) then [s[0]] + WordPrefix(s[1..]) else []
  }

  /** TrimLeft removes a prefix made only of whitespace. */
  lemma {:induction false} TrimLeftSkips(s: string)
    ensures TrimLeft(s) == s[|s| - |TrimLeft(s)|..]
    ensures forall i :: 0 <= i < |s| - |TrimLeft(s)| ==> IsSpace(s[i])
    decreases |s|
  {
    if s != [] && IsSpace(s[0]) {
      TrimLeftSkips(s[1..]);
      var r := TrimLeft(s);
      assert s[1..][|s| - 1 - |r|..] == s[|s| - |r|..];
      forall i | 1 <= i < |s| - |r|
        ensures IsSpace(s[i])
      {
        assert s[i] == s[1..][i - 1];
      }
    }
  }

  /** WordPrefix keeps a prefix of `s` with no whitespace in it. */
  lemma {:induction false} WordPrefixWord(s: string)
    ensures WordPrefix(s) == s[..|WordPrefix(s)|]
    ensures forall i :: 0 <= i < |WordPrefix(s)| ==> !IsSpace(WordPrefix(s)[i])
    decreases |s|
  {
    if s != [] && !IsSpace(s[0]) {
      WordPrefixWord(s[1..]);
      var r := WordPrefix(s);
      var r1 := WordPrefix(s[1..]);
      assert r == [s[0]] + r1;
      assert s[..|r|] == [s[0]] + s[1..][..|r1|];
      forall i | 0 <= i < |r|
        ensures !IsSpace(r[i])
      {
        if i > 0 {
          assert r[i] == r1[i - 1];
        }
      }
    }
  }

  predicate IsWord(w: string) {
    w != [] && forall i :: 0 <= i < |w| ==> !IsSpace(w[i])
  }

  /** `str.split()` with no separator: the maximal runs of non-whitespace. */
  function Split(s: string): seq<string>
    decreases |s|
  {
    var t := TrimLeft(s);
    if t == [] then []
    else
      var w := WordPrefix(t);
      [w] + Split(t[|w|..])
  }

  /** Strips the characters of IsStripChar from the front of `s`. */
  function StripLeft(s: string): string {
    if s != [] && IsStripChar(s[0]) then StripLeft(s[1..]) else s
  }

  /** Strips the characters of IsStripChar from the back of `s`. */
  function StripRight(s: string): string {
    if s != [] && IsStripChar(s[|s| - 1]) then StripRight(s[..|s| - 1]) else s
  }

  /** StripLeft leaves a suffix that does not start with a strip character,
      and everything it removes is a strip character. */
  lemma {:induction false} StripLeftRemoves(s: string)
    ensures |StripLeft(s)| <= |s| && StripLeft(s) == s[|s| - |StripLeft(s)|..]
    ensures StripLeft(s) == [] || !IsStripChar(StripLeft(s)[0])
    ensures forall i :: 0 <= i < |s| - |StripLeft(s)| ==> IsStripChar(s[i])
    decreases |s|
  {
    if s != [] && IsStripChar(s[0]) {
      StripLeftRemoves(s[1..]);
      var r := StripLeft(s);
      assert s[1..][|s| - 1 - |r|..] == s[|s| - |r|..];
      forall i | 1 <= i < |s| - |StripLeft(s)|
        ensures IsStripChar(s[i])
      {
        assert s[i] == s[1..][i - 1];
      }
    }
  }

  /** StripRight leaves a prefix that does not end with a strip character,
      and everything it removes is a strip character. */
  lemma {:induction false} StripRightRemoves(s: string)
    ensures |StripRight(s)| <= |s| && StripRight(s) == s[..|StripRight(s)|]
    ensures StripRight(s) == [] || !IsStripChar(StripRight(s)[|StripRight(s)| - 1])
    ensures forall i :: |StripRight(s)| <= i < |s| ==> IsStripChar(s[i])
    decreases |s|
  {
    if s != [] && IsStripChar(s[|s| - 1]) {
      StripRightRemoves(s[..|s| - 1]);
      var r := StripRight(s);
      assert s[..|s| - 1][..|r|] == s[..|r|];
      forall i | |StripRight(s)| <= i < |s| - 1
        ensures IsStripChar(s[i])
      {
        assert s[i] == s[..|s| - 1][i];
      }
    }
  }

  /** `w.strip(strips)`. */
  function Strip(w: string): string {
    StripRight(StripLeft(w))
  }

  /** The terms emitted for a sequence of words, in order. */
  function Terms(ws: seq<string>, stem: Term -> Term, stopwords: set<Term>): (ts: seq<Term>)
    ensures |ts| <= |ws|
  {
    if ws == [] then []
    else
      WordTerms(ws[0], stem, stopwords) + Terms(ws[1..], stem, stopwords)
  }

  /** `tokenize(str)`. */
  function Tokenize(text: string, stem: Term -> Term, stopwords: set<Term>): seq<Term> {
    Terms(Split(Lower(text)), stem, stopwords)
  }

  /** All whitespace in `s` removed, the rest kept in order. */
  function NonSpace(s: string): string {
    if s == [] then [] else (if IsSpace(s[0]) then [] else [s[0]]) + NonSpace(s[1..])
  }

  function Concat(ws: seq<string>): string {
    if ws == [] then [] else ws[0] + Concat(ws[1..])
  }

  /** Words joined by single spaces. */
  function JoinWords(ws: seq<string>): string {
    if ws == [] then []
    else if |ws| == 1 then ws[0]
    else ws[0] + [' '] + JoinWords(ws[1..])
  }

  lemma {:induction false} NonSpaceAppend(a: string, b: string)
    ensures NonSpace(a + b) == NonSpace(a) + NonSpace(b)
    decreases |a|
  {
    if a != [] {
      assert (a + b)[1..] == a[1..] + b;
      NonSpaceAppend(a[1..], b);
    } else {
      assert a + b == b;
    }
  }

  lemma {:induction false} NonSpaceOfSpaces(s: string)
    requires forall i :: 0 <= i < |s| ==> IsSpace(s[i])
    ensures NonSpace(s) == []
    decreases |s|
  {
    if s != [] {
      NonSpaceOfSpaces(s[1..]);
    }
  }

  lemma {:induction false} NonSpaceOfWord(s: string)
    requires forall i :: 0 <= i < |s| ==> !IsSpace(s[i])
    ensures NonSpace(s) == s
    decreases |s|
  {
    if s != [] {
      NonSpaceOfWord(s[1..]);
      assert s == [s[0]] + s[1..];
    }
  }

  /** The first word of a text that is not all whitespace is a word. */
  lemma FirstWord(s: string)
    requires TrimLeft(s) != []
    ensures IsWord(WordPrefix(TrimLeft(s)))
  {
    var t := TrimLeft(s);
    WordPrefixWord(t);
    assert !IsSpace(t[0]);
  }

  /** Every word `str.split()` returns is non-empty and free of whitespace. */
  lemma {:induction false} SplitWords(s: string)
    ensures forall i :: 0 <= i < |Split(s)| ==> IsWord(Split(s)[i])
    decreases |s|
  {
    var t := TrimLeft(s);
    if t != [] {
      var w := WordPrefix(t);
      var u := t[|w|..];
      FirstWord(s);
      SplitWords(u);
      var ws := Split(s);
      assert ws == [w] + Split(u);
      forall i | 0 <= i < |ws|
        ensures IsWord(ws[i])
      {
        if i > 0 {
          assert ws[i] == Split(u)[i - 1];
        }
      }
    }
  }

  /** Leading whitespace holds no text. */
  lemma NonSpaceTrim(s: string)
    ensures NonSpace(s) == NonSpace(TrimLeft(s))
  {
    var t := TrimLeft(s);
    TrimLeftSkips(s);
    var p := s[..|s| - |t|];
    assert s == p + t;
    NonSpaceAppend(p, t);
    NonSpaceOfSpaces(p);
  }

  /** The text of a trimmed string starts with its first word. */
  lemma NonSpaceFirstWord(t: string)
    ensures NonSpace(t) == WordPrefix(t) + NonSpace(t[|WordPrefix(t)|..])
  {
    var w := WordPrefix(t);
    var u := t[|w|..];
    WordPrefixWord(t);
    assert t == w + u;
    NonSpaceAppend(w, u);
    NonSpaceOfWord(w);
  }

  lemma ConcatCons(w: string, ws: seq<string>)
    ensures Concat([w] + ws) == w + Concat(ws)
  {
    assert ([w] + ws)[1..] == ws;
  }

  /** Splitting loses only whitespace: the words, concatenated, are the
      non-whitespace characters of the text in their original order. */
  lemma {:induction false} SplitKeepsText(s: string)
    ensures Concat(Split(s)) == NonSpace(s)
    decreases |s|
  {
    var t := TrimLeft(s);
    NonSpaceTrim(s);
    if t != [] {
      var w := WordPrefix(t);
      var u := t[|w|..];
      NonSpaceFirstWord(t);
      SplitKeepsText(u);
      assert Split(s) == [w] + Split(u);
      ConcatCons(w, Split(u));
    }
  }

  lemma {:induction false} WordPrefixOfJoin(w: string, rest: string)
    requires forall i :: 0 <= i < |w| ==> !IsSpace(w[i])
    requires rest == [] || IsSpace(rest[0])
    ensures WordPrefix(w + rest) == w
    decreases |w|
  {
    if w == [] {
      assert w + rest == rest;
    } else {
      assert (w + rest)[1..] == w[1..] + rest;
      WordPrefixOfJoin(w[1..], rest);
    }
  }

  lemma TrimLeftSpace(c: char, s: string)
    requires IsSpace(c)
    ensures TrimLeft([c] + s) == TrimLeft(s)
  {
    assert ([c] + s)[1..] == s;
  }

  /** Whitespace in front of a text does not change how it splits. */
  lemma SplitAfterSpace(c: char, s: string)
    requires IsSpace(c)
    ensures Split([c] + s) == Split(s)
  {
    TrimLeftSpace(c, s);
  }

  /** A word followed by nothing or by whitespace splits off as the first word. */
  lemma SplitWordThen(w: string, rest: string)
    requires IsWord(w)
    requires rest == [] || IsSpace(rest[0])
    ensures Split(w + rest) == [w] + Split(rest)
  {
    var s := w + rest;
    assert s[0] == w[0];
    assert TrimLeft(s) == s;
    WordPrefixOfJoin(w, rest);
    assert s[|w|..] == rest;
  }

  /** One step of the round trip: a word, a space, then more text. */
  lemma SplitJoinStep(w: string, tail: string)
    requires IsWord(w)
    ensures Split(w + [' '] + tail) == [w] + Split(tail)
  {
    assert w + [' '] + tail == w + ([' '] + tail);
    SplitWordThen(w, [' '] + tail);
    SplitAfterSpace(' ', tail);
  }

  lemma SplitJoinCons(ws: seq<string>)
    requires |ws| > 1 && IsWord(ws[0])
    ensures Split(JoinWords(ws)) == [ws[0]] + Split(JoinWords(ws[1..]))
  {
    SplitJoinStep(ws[0], JoinWords(ws[1..]));
  }

  /** A single word splits into itself. */
  lemma SplitOne(w: string)
    requires IsWord(w)
    ensures Split(w) == [w]
  {
    SplitWordThen(w, []);
    assert w + [] == w;
    assert Split([]) == [];
  }

  /** The step case of the round trip, given the round trip for the tail. */
  lemma SplitJoinMore(ws: seq<string>)
    requires |ws| > 1 && IsWord(ws[0])
    requires Split(JoinWords(ws[1..])) == ws[1..]
    ensures Split(JoinWords(ws)) == ws
  {
    SplitJoinCons(ws);
    assert ws == [ws[0]] + ws[1..];
  }

  /** Round trip: splitting words joined by single spaces gives the words back. */
  lemma {:induction false} SplitJoinWords(ws: seq<string>)
    requires forall i :: 0 <= i < |ws| ==> IsWord(ws[i])
    ensures Split(JoinWords(ws)) == ws
    decreases |ws|
  {
    if |ws| == 0 {
      assert Split([]) == [];
    } else if |ws| == 1 {
      SplitOne(ws[0]);
      assert ws == [ws[0]];
    } else {
      var t := ws[1..];
      assert forall i :: 0 <= i < |t| ==> IsWord(t[i]) by {
        forall i | 0 <= i < |t|
          ensures IsWord(t[i])
        {
          assert t[i] == ws[i + 1];
        }
      }
      SplitJoinWords(t);
      SplitJoinMore(ws);
    }
  }

  /** Python's strip: the result is the slice of `w` left after removing the
      longest prefix and the longest suffix made of strip characters. */
  lemma StripSlice(w: string) returns (i: nat, j: nat)
    ensures i <= j <= |w| && Strip(w) == w[i..j]
    ensures forall k :: 0 <= k < i ==> IsStripChar(w[k])
    ensures forall k :: j <= k < |w| ==> IsStripChar(w[k])
    ensures i < j ==> !IsStripChar(w[i]) && !IsStripChar(w[j - 1])
  {
    var l := StripLeft(w);
    var r := StripRight(l);
    StripLeftRemoves(w);
    StripRightRemoves(l);
    i := |w| - |l|;
    j := i + |r|;
    assert l == w[i..];
    assert r == l[..|r|];
    assert r == w[i..j];
    forall k | j <= k < |w|
      ensures IsStripChar(w[k])
    {
      assert w[k] == l[k - i];
    }
    if i < j {
      assert w[i] == l[0];
      assert w[j - 1] == r[|r| - 1];
    }
  }

  /** Token lists are compositional: the tokens of two runs of words are the
      tokens of the first followed by those of the second. */
  lemma {:induction false} TermsAppend(a: seq<string>, b: seq<string>, stem: Term -> Term, stopwords: set<Term>)
    ensures Terms(a + b, stem, stopwords) == Terms(a, stem, stopwords) + Terms(b, stem, stopwords)
    decreases |a|
  {
    if a == [] {
      assert a + b == b;
    } else {
      assert (a + b)[0] == a[0];
      assert (a + b)[1..] == a[1..] + b;
      TermsAppend(a[1..], b, stem, stopwords);
    }
  }

  /** The terms one word contributes: none for a stopword, else its stem. */
  function WordTerms(w: string, stem: Term -> Term, stopwords: set<Term>): seq<Term> {
    if Strip(w) in stopwords then [] else [stem(Strip(w))]
  }

  predicate EmitsAt(ws: seq<string>, i: int, stem: Term -> Term, stopwords: set<Term>, t: Term)
    requires 0 <= i < |ws|
  {
    Strip(ws[i]) !in stopwords && t == stem(Strip(ws[i]))
  }

  /** A term that is emitted comes from some word. */
  lemma {:induction false} TermsWitness(ws: seq<string>, stem: Term -> Term, stopwords: set<Term>, t: Term) returns (i: int)
    requires t in Terms(ws, stem, stopwords)
    ensures 0 <= i < |ws| && EmitsAt(ws, i, stem, stopwords, t)
    decreases |ws|
  {
    var rest := ws[1..];
    assert Terms(ws, stem, stopwords) == WordTerms(ws[0], stem, stopwords) + Terms(rest, stem, stopwords);
    if t in WordTerms(ws[0], stem, stopwords) {
      i := 0;
    } else {
      var j := TermsWitness(rest, stem, stopwords, t);
      assert rest[j] == ws[j + 1];
      i := j + 1;
    }
  }

  /** The term of every word that is not a stopword is emitted. */
  lemma {:induction false} TermsEmitted(ws: seq<string>, i: int, stem: Term -> Term, stopwords: set<Term>, t: Term)
    requires 0 <= i < |ws| && EmitsAt(ws, i, stem, stopwords, t)
    ensures t in Terms(ws, stem, stopwords)
    decreases |ws|
  {
    var rest := ws[1..];
    assert Terms(ws, stem, stopwords) == WordTerms(ws[0], stem, stopwords) + Terms(rest, stem, stopwords);
    if i == 0 {
      assert t in WordTerms(ws[0], stem, stopwords);
    } else {
      assert rest[i - 1] == ws[i];
      TermsEmitted(rest, i - 1, stem, stopwords, t);
    }
  }

  /** A term is emitted exactly when some word, stripped, is not a stopword and stems to it. */
  lemma TermsMembers(ws: seq<string>, stem: Term -> Term, stopwords: set<Term>, t: Term)
    ensures t in Terms(ws, stem, stopwords) <==> exists i :: 0 <= i < |ws| && EmitsAt(ws, i, stem, stopwords, t)
  {
    if t in Terms(ws, stem, stopwords) {
      var i := TermsWitness(ws, stem, stopwords, t);
    }
    if exists i :: 0 <= i < |ws| && EmitsAt(ws, i, stem, stopwords, t) {
      var i :| 0 <= i < |ws| && EmitsAt(ws, i, stem, stopwords, t);
      TermsEmitted(ws, i, stem, stopwords, t);
    }
  }

  /** No token at all exactly when every word strips to a stopword. */
  lemma TermsEmpty(ws: seq<string>, stem: Term -> Term, stopwords: set<Term>)
    ensures Terms(ws, stem, stopwords) == [] <==> forall i :: 0 <= i < |ws| ==> Strip(ws[i]) in stopwords
  {
    var ts := Terms(ws, stem, stopwords);
    if ts != [] {
      var i := TermsWitness(ws, stem, stopwords, ts[0]);
    }
    if exists i :: 0 <= i < |ws| && Strip(ws[i]) !in stopwords {
      var i :| 0 <= i < |ws| && Strip(ws[i]) !in stopwords;
      TermsEmitted(ws, i, stem, stopwords, stem(Strip(ws[i])));
    }
  }
}
