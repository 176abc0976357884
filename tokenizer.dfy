/**
 * tokenize: lower-case the text, take the maximal runs of word characters
 * (what re.findall(r'\b\w+\b', ...) returns) and drop the stop words.
 * Which characters are word characters, which are whitespace, and which
 * words are stop words come from Python's re module and from scikit-learn;
 * the model takes them as parameters.
 */
module Tokenizer {

  /** The value handed to tokenize: a Python str, or any other value. */
  datatype Text = Str(s: string) | NotStr

  /**
   * The foreign facts tokenization depends on: membership in the regular
   * expression class \w, the whitespace that str.strip() removes, and the
   * stop-word set ENGLISH_STOP_WORDS.
   */
  datatype Lexer = Lexer(isWord: char -> bool, isSpace: char -> bool, stopWords: set<string>)

  predicate IsUpper(c: char) {
    'A' <= c <= 'Z'
  }

  /** str.lower() on one character, for the ASCII letters. */
  function LowerChar(c: char): (r: char)
    ensures !IsUpper(r)
    ensures !IsUpper(c) ==> r == c
    ensures IsUpper(c) ==> r == "abcdefghijklmnopqrstuvwxyz"[c as int - 'A' as int]
  {
    if IsUpper(c) then (c as int + 32) as char else c
  }

  function Lower(s: string): (r: string)
    ensures |r| == |s|
    ensures forall i | 0 <= i < |s| :: r[i] == LowerChar(s[i])
  {
    seq(|s|, i requires 0 <= i < |s| => LowerChar(s[i]))
  }

  /** The length of the run of word characters that starts s. */
  function RunLength(s: string, isWord: char -> bool): (n: nat)
    ensures n <= |s|
    ensures forall i | 0 <= i < n :: isWord(s[i])
    ensures n < |s| ==> !isWord(s[n])
  {
    if s == [] || !isWord(s[0]) then 0 else 1 + RunLength(s[1..], isWord)
  }

  /** The maximal runs of word characters of s, left to right. */
  function Words(s: string, isWord: char -> bool): (r: seq<string>)
    ensures forall i | 0 <= i < |r| :: |r[i]| > 0
    ensures forall i, j | 0 <= i < |r| && 0 <= j < |r[i]| :: isWord(r[i][j]) && r[i][j] in s
    decreases |s|
  {
    if s == [] then []
    else if !isWord(s[0]) then Words(s[1..], isWord)
    else
      var n := RunLength(s, isWord);
      [s[..n]] + Words(s[n..], isWord)
  }

  /** [t for t in tokens if t not in stopWords] */
  function RemoveStopWords(tokens: seq<string>, stopWords: set<string>): (r: seq<string>)
    ensures |r| <= |tokens|
    ensures forall i | 0 <= i < |r| :: r[i] !in stopWords
    ensures forall t :: t in r <==> t in tokens && t !in stopWords
    ensures (forall i | 0 <= i < |tokens| :: tokens[i] !in stopWords) ==> r == tokens
  {
    if tokens == [] then []
    else
      var rest := RemoveStopWords(tokens[1..], stopWords);
      if tokens[0] in stopWords then rest else [tokens[0]] + rest
  }

  /**
   * tokenize(text): the empty list for a value that is not a string;
   * otherwise the runs of word characters of the lower-cased text that
   * are not stop words.
   */
  function Tokenize(text: Text, lx: Lexer): (tokens: seq<string>)
    ensures text.NotStr? ==> tokens == []
    ensures forall i | 0 <= i < |tokens| :: |tokens[i]| > 0 && tokens[i] !in lx.stopWords
    ensures forall i, j | 0 <= i < |tokens| && 0 <= j < |tokens[i]| ::
      lx.isWord(tokens[i][j]) && !IsUpper(tokens[i][j])
  {
    match text
    case NotStr => []
    case Str(s) =>
      var lowered := Lower(s);
      var words := Words(lowered, lx.isWord);
      assert forall c | c in lowered :: !IsUpper(c);
      RemoveStopWords(words, lx.stopWords)
  }

  /** The concatenation of a list of strings. */
  function Concat(ts: seq<string>): string {
    if ts == [] then [] else ts[0] + Concat(ts[1..])
  }

  /** The word characters of s, in order. */
  function WordChars(s: string, isWord: char -> bool): string {
    if s == [] then [] else (if isWord(s[0]) then [s[0]] else []) + WordChars(s[1..], isWord)
  }

  lemma {:induction false} WordCharsAppend(p: string, q: string, isWord: char -> bool)
    ensures WordChars(p + q, isWord) == WordChars(p, isWord) + WordChars(q, isWord)
  {
    if p != [] {
      WordCharsAppend(p[1..], q, isWord);
      assert (p + q)[0] == p[0] && (p + q)[1..] == p[1..] + q;
    } else {
      assert p + q == q;
    }
  }

  lemma {:induction false} WordCharsOfRun(p: string, isWord: char -> bool)
    requires forall i | 0 <= i < |p| :: isWord(p[i])
    ensures WordChars(p, isWord) == p
  {
    if p != [] {
      WordCharsOfRun(p[1..], isWord);
    }
  }

  /**
   * The tokens follow the text: concatenated, the runs are exactly the
   * word characters of s in their original order, none lost or added.
   */
  lemma {:induction false} WordsFollowText(s: string, isWord: char -> bool)
    ensures Concat(Words(s, isWord)) == WordChars(s, isWord)
    decreases |s|
  {
    if s != [] {
      if !isWord(s[0]) {
        WordsFollowText(s[1..], isWord);
      } else {
        var n := RunLength(s, isWord);
        WordsFollowText(s[n..], isWord);
        assert s == s[..n] + s[n..];
        WordCharsAppend(s[..n], s[n..], isWord);
        WordCharsOfRun(s[..n], isWord);
        assert ([s[..n]] + Words(s[n..], isWord))[1..] == Words(s[n..], isWord);
      }
    }
  }

  /** A token of the kind Words produces: non-empty and made of word characters. */
  predicate IsWordToken(t: string, isWord: char -> bool) {
    |t| > 0 && forall i | 0 <= i < |t| :: isWord(t[i])
  }

  /** " ".join(ts) */
  function Unwords(ts: seq<string>): string {
    if ts == [] then []
    else if |ts| == 1 then ts[0]
    else ts[0] + " " + Unwords(ts[1..])
  }

  lemma {:induction false} RunLengthOfRun(t: string, u: string, isWord: char -> bool)
    requires forall i | 0 <= i < |t| :: isWord(t[i])
    requires u == [] || !isWord(u[0])
    ensures RunLength(t + u, isWord) == |t|
  {
    if t != [] {
      RunLengthOfRun(t[1..], u, isWord);
      assert (t + u)[1..] == t[1..] + u;
    }
  }

  /** Splitting text joined by single spaces gives back the words. */
  lemma {:induction false} WordsOfUnwords(ts: seq<string>, isWord: char -> bool)
    requires !isWord(' ')
    requires forall i | 0 <= i < |ts| :: IsWordToken(ts[i], isWord)
    ensures Words(Unwords(ts), isWord) == ts
  {
    if ts != [] {
      var t := ts[0];
      if |ts| == 1 {
        RunLengthOfRun(t, [], isWord);
        assert t + [] == t;
        assert t[..|t|] == t && t[|t|..] == [];
      } else {
        var rest := Unwords(ts[1..]);
        var s := t + " " + rest;
        RunLengthOfRun(t, " " + rest, isWord);
        assert s == t + (" " + rest);
        assert s[..|t|] == t && s[|t|..] == " " + rest;
        assert (" " + rest)[1..] == rest;
        WordsOfUnwords(ts[1..], isWord);
        assert [t] + ts[1..] == ts;
      }
    }
  }

  lemma LowerAppend(p: string, q: string)
    ensures Lower(p + q) == Lower(p) + Lower(q)
  {
  }

  lemma LowerOfLowercase(s: string)
    requires forall i | 0 <= i < |s| :: !IsUpper(s[i])
    ensures Lower(s) == s
  {
  }

  lemma {:induction false} LowerOfUnwords(ts: seq<string>)
    requires forall i, j | 0 <= i < |ts| && 0 <= j < |ts[i]| :: !IsUpper(ts[i][j])
    ensures Lower(Unwords(ts)) == Unwords(ts)
  {
    if ts != [] {
      LowerOfLowercase(ts[0]);
      if |ts| > 1 {
        LowerOfUnwords(ts[1..]);
        LowerAppend(ts[0] + " ", Unwords(ts[1..]));
        LowerAppend(ts[0], " ");
      }
    }
  }

  /**
   * Tokenizing is idempotent: joining the tokens of a text with spaces and
   * tokenizing again gives the same tokens (space is not a word character).
   */
  lemma TokenizeIdempotent(text: Text, lx: Lexer)
    requires !lx.isWord(' ')
    ensures Tokenize(Str(Unwords(Tokenize(text, lx))), lx) == Tokenize(text, lx)
  {
    var ts := Tokenize(text, lx);
    LowerOfUnwords(ts);
    WordsOfUnwords(ts, lx.isWord);
  }

  /** Filtering distributes over concatenation: kept tokens stay in their order. */
  lemma RemoveStopWordsCons(t: string, rest: seq<string>, stopWords: set<string>)
    ensures RemoveStopWords([t] + rest, stopWords)
         == (if t in stopWords then [] else [t]) + RemoveStopWords(rest, stopWords)
  {
    assert ([t] + rest)[0] == t && ([t] + rest)[1..] == rest;
  }

  lemma {:induction false} RemoveStopWordsAppend(p: seq<string>, q: seq<string>, stopWords: set<string>)
    ensures RemoveStopWords(p + q, stopWords) == RemoveStopWords(p, stopWords) + RemoveStopWords(q, stopWords)
  {
    if p == [] {
      assert p + q == q;
    } else {
      var head := if p[0] in stopWords then [] else [p[0]];
      calc {
        RemoveStopWords(p + q, stopWords);
      == { assert p + q == [p[0]] + (p[1..] + q); RemoveStopWordsCons(p[0], p[1..] + q, stopWords); }
        head + RemoveStopWords(p[1..] + q, stopWords);
      == { RemoveStopWordsAppend(p[1..], q, stopWords); }
        head + (RemoveStopWords(p[1..], stopWords) + RemoveStopWords(q, stopWords));
      ==
        (head + RemoveStopWords(p[1..], stopWords)) + RemoveStopWords(q, stopWords);
      == { assert p == [p[0]] + p[1..]; RemoveStopWordsCons(p[0], p[1..], stopWords); }
        RemoveStopWords(p, stopWords) + RemoveStopWords(q, stopWords);
      }
    }
  }

  /** A text made only of non-word characters has no runs. */
  lemma {:induction false} WordsOfNonWords(s: string, isWord: char -> bool)
    requires forall i | 0 <= i < |s| :: !isWord(s[i])
    ensures Words(s, isWord) == []
    decreases |s|
  {
    if s != [] {
      WordsOfNonWords(s[1..], isWord);
    }
  }

  /** A text that is one run of word characters is one word: the run is not cut short. */
  lemma WordsOfRun(w: string, isWord: char -> bool)
    requires IsWordToken(w, isWord)
    ensures Words(w, isWord) == [w]
  {
    RunLengthOfRun(w, [], isWord);
    assert w + [] == w;
    assert w[..|w|] == w && w[|w|..] == [];
  }

  /** The run at the start of p + u is the run at the start of p when that run ends inside p or u starts with a non-word character. */
  lemma {:induction false} RunLengthOfPrefix(p: string, u: string, isWord: char -> bool)
    requires RunLength(p, isWord) < |p| || u == [] || !isWord(u[0])
    ensures RunLength(p + u, isWord) == RunLength(p, isWord)
  {
    if p == [] {
      assert p + u == u;
    } else if isWord(p[0]) {
      RunLengthOfPrefix(p[1..], u, isWord);
      assert (p + u)[1..] == p[1..] + u;
    }
  }

  /**
   * A non-word character separates: the runs of p + [c] + q are the runs
   * of p followed by the runs of q, so no run reaches across c.
   */
  lemma WordsOfNonWordHead(c: char, rest: string, isWord: char -> bool)
    requires !isWord(c)
    ensures Words([c] + rest, isWord) == Words(rest, isWord)
  {
    assert ([c] + rest)[0] == c && ([c] + rest)[1..] == rest;
  }

  lemma WordsOfJoinedRun(p: string, c: char, q: string, isWord: char -> bool)
    requires p != [] && isWord(p[0]) && !isWord(c)
    ensures var m := RunLength(p, isWord);
      Words(p + [c] + q, isWord) == [p[..m]] + Words(p[m..] + [c] + q, isWord)
  {
    var m := RunLength(p, isWord);
    var s := p + [c] + q;
    RunLengthOfPrefix(p, [c] + q, isWord);
    assert s == p + ([c] + q);
    assert s[0] == p[0] && RunLength(s, isWord) == m;
    assert s[..m] == p[..m] && s[m..] == p[m..] + [c] + q;
  }

  lemma {:induction false} WordsSplit(p: string, c: char, q: string, isWord: char -> bool)
    requires !isWord(c)
    ensures Words(p + [c] + q, isWord) == Words(p, isWord) + Words(q, isWord)
    decreases |p|
  {
    if p == [] {
      assert p + [c] + q == [c] + q;
      WordsOfNonWordHead(c, q, isWord);
    } else if !isWord(p[0]) {
      calc {
        Words(p + [c] + q, isWord);
      == { assert p + [c] + q == [p[0]] + (p[1..] + [c] + q); WordsOfNonWordHead(p[0], p[1..] + [c] + q, isWord); }
        Words(p[1..] + [c] + q, isWord);
      == { WordsSplit(p[1..], c, q, isWord); }
        Words(p[1..], isWord) + Words(q, isWord);
      == { assert p == [p[0]] + p[1..]; WordsOfNonWordHead(p[0], p[1..], isWord); }
        Words(p, isWord) + Words(q, isWord);
      }
    } else {
      var m := RunLength(p, isWord);
      calc {
        Words(p + [c] + q, isWord);
      == { WordsOfJoinedRun(p, c, q, isWord); }
        [p[..m]] + Words(p[m..] + [c] + q, isWord);
      == { WordsSplit(p[m..], c, q, isWord); }
        [p[..m]] + (Words(p[m..], isWord) + Words(q, isWord));
      ==
        ([p[..m]] + Words(p[m..], isWord)) + Words(q, isWord);
      ==
        Words(p, isWord) + Words(q, isWord);
      }
    }
  }

  lemma TokenizeAsFilteredWords(s: string, lx: Lexer)
    ensures Tokenize(Str(s), lx) == RemoveStopWords(Words(Lower(s), lx.isWord), lx.stopWords)
  {
  }

  /**
   * Tokenizing a text cut at a separator: a character that is neither an
   * upper-case letter nor a word character splits the tokens the same way.
   */
  lemma TokenizeSplit(p: string, c: char, q: string, lx: Lexer)
    requires !IsUpper(c) && !lx.isWord(c)
    ensures Tokenize(Str(p + [c] + q), lx) == Tokenize(Str(p), lx) + Tokenize(Str(q), lx)
  {
    LowerAppend(p + [c], q);
    LowerAppend(p, [c]);
    assert Lower([c]) == [c];
    WordsSplit(Lower(p), c, Lower(q), lx.isWord);
    TokenizeAsFilteredWords(p + [c] + q, lx);
    TokenizeAsFilteredWords(p, lx);
    TokenizeAsFilteredWords(q, lx);
    RemoveStopWordsAppend(Words(Lower(p), lx.isWord), Words(Lower(q), lx.isWord), lx.stopWords);
  }

  /** One lower-case word tokenizes to itself, or to nothing when it is a stop word. */
  lemma TokenizeOneWord(w: string, lx: Lexer)
    requires IsWordToken(w, lx.isWord)
    requires forall i | 0 <= i < |w| :: !IsUpper(w[i])
    ensures Tokenize(Str(w), lx) == if w in lx.stopWords then [] else [w]
  {
    LowerOfLowercase(w);
    WordsOfRun(w, lx.isWord);
    TokenizeAsFilteredWords(w, lx);
    assert [w][1..] == [];
  }

  /**
   * With no stop word among its runs, the tokens of a text are, joined
   * together, exactly the word characters of the lower-cased text in
   * their order.
   */
  lemma TokenizeFollowsText(s: string, lx: Lexer)
    requires forall w | w in Words(Lower(s), lx.isWord) :: w !in lx.stopWords
    ensures Concat(Tokenize(Str(s), lx)) == WordChars(Lower(s), lx.isWord)
  {
    TokenizeAsFilteredWords(s, lx);
    WordsFollowText(Lower(s), lx.isWord);
  }
}
