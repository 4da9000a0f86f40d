/** What the three junk tests of `text_utils.py` decide, and how they relate.

    - `es_texto_basura` is decided by its distinct-character clause alone.
    - `tiene_palabras_validas` counts the maximal runs of class letters that are at least
      three long; this is proved against a reference that splits the text at every
      character outside the class.
    - A comment with enough valid words has at least nine class letters, so it is never
      symbols-only, and no generic phrase has enough valid words.
 */
module ClassifierFacts {
  import opened Alphabet
  import opened TextUtils

  // ---------------------------------------------------------------------------------
  // es_solo_simbolos
  // ---------------------------------------------------------------------------------

  /** The class is case-sensitive and holds no digit: the empty text, capitals and
      digits are all "symbols only"; one lower-case letter is enough to pass. */
  lemma SoloSimbolosExamples()
    ensures EsSoloSimbolos("")
    ensures EsSoloSimbolos("ABC")
    ensures EsSoloSimbolos("12345")
    ensures !EsSoloSimbolos("ok 123")
  {
    assert InLetterClass("ok 123"[0]);
  }

  // ---------------------------------------------------------------------------------
  // es_texto_basura
  // ---------------------------------------------------------------------------------

  lemma RepeatHasOneChar(t: string)
    requires RepeatFullMatch(t)
    ensures DistinctChars(t) == {t[0]}
  {
    forall c | c in DistinctChars(t)
      ensures c == t[0]
    {
      var i :| 0 <= i < |t| && t[i] == c;
    }
  }

  /** The full-match clause never decides: a whole-string repeat has one distinct
      character, so the second clause already holds. The empty text is junk. */
  lemma EsTextoBasuraIffFewChars(t: string)
    ensures EsTextoBasura(t) <==> |DistinctChars(t)| <= 2
    ensures RepeatFullMatch(t) ==> |DistinctChars(t)| == 1
  {
    if RepeatFullMatch(t) {
      RepeatHasOneChar(t);
    }
  }

  lemma EmptyIsJunk()
    ensures EsTextoBasura("")
  {
    assert DistinctChars("") == {};
  }

  /** The distinct characters of "ab ab ab" are a, b and the space. */
  lemma ThreeDistinct(t: string)
    requires t == "ab ab ab"
    ensures DistinctChars(t) == {'a', 'b', ' '}
  {
    assert t[0] == 'a' && t[1] == 'b' && t[2] == ' ';
  }

  lemma NotJunkExample(t: string)
    requires t == "ab ab ab"
    ensures !EsTextoBasura(t)
  {
    ThreeDistinct(t);
    assert |DistinctChars(t)| == 3;
  }

  lemma RepeatJunkExample(v: string)
    requires v == "aaaaa"
    ensures EsTextoBasura(v) && RepeatFullMatch(v)
  {
    assert RepeatFullMatch(v);
  }

  lemma TwoCharsJunkExample(u: string)
    requires u == "aa aa"
    ensures EsTextoBasura(u)
  {
    assert u[0] == 'a' && u[2] == ' ';
    assert DistinctChars(u) == {'a', ' '};
  }

  /** "ab ab ab" is not junk; a five-fold repeat and "aa aa" are. */
  lemma TextoBasuraExamples(t: string, u: string, v: string)
    requires t == "ab ab ab" && u == "aa aa" && v == "aaaaa"
    ensures !EsTextoBasura(t)
    ensures EsTextoBasura(v) && RepeatFullMatch(v)
    ensures EsTextoBasura(u)
  {
    NotJunkExample(t);
    RepeatJunkExample(v);
    TwoCharsJunkExample(u);
  }

  lemma SubsetCard<T>(a: set<T>, b: set<T>)
    requires a <= b
    ensures |a| <= |b|
    decreases a
  {
    if a != {} {
      var x :| x in a;
      SubsetCard(a - {x}, b - {x});
    }
  }

  /** Three different characters anywhere in the text are enough not to be junk. */
  lemma ThreeCharsNotJunk(t: string, x: char, y: char, z: char)
    requires x in t && y in t && z in t
    requires x != y && y != z && x != z
    ensures !EsTextoBasura(t)
  {
    assert {x, y, z} <= DistinctChars(t);
    SubsetCard({x, y, z}, DistinctChars(t));
    EsTextoBasuraIffFewChars(t);
  }

  // ---------------------------------------------------------------------------------
  // tiene_palabras_validas against a reference definition
  // ---------------------------------------------------------------------------------

  /** Splitting at every character outside the class: the maximal runs of class letters,
      empty runs between neighbouring separators included. */
  function Tokens(t: string): (ts: seq<string>)
    ensures |ts| >= 1
    ensures ts[0] == t[..RunLength(t)]
  {
    if t == [] then [[]]
    else
      var rest := Tokens(t[1..]);
      if InLetterClass(t[0]) then [[t[0]] + rest[0]] + rest[1..] else [[]] + rest
  }

  /** The tokens of length at least three, in order. */
  function LongTokens(ts: seq<string>): (ls: seq<string>)
    ensures |ls| <= |ts|
  {
    if ts == [] then [] else (if |ts[0]| >= 3 then [ts[0]] else []) + LongTokens(ts[1..])
  }

  lemma {:induction false} LongTokensAppend(a: seq<string>, b: seq<string>)
    ensures LongTokens(a + b) == LongTokens(a) + LongTokens(b)
  {
    if a != [] {
      assert (a + b)[1..] == a[1..] + b;
      LongTokensAppend(a[1..], b);
    } else {
      assert a + b == b;
    }
  }

  /** After the first run and the separator that ends it come the tokens of the rest. */
  lemma {:induction false} TokensAfterRun(t: string)
    ensures RunLength(t) == |t| ==> Tokens(t) == [t]
    ensures RunLength(t) < |t| ==> Tokens(t) == [t[..RunLength(t)]] + Tokens(t[RunLength(t) + 1..])
  {
    if t != [] && InLetterClass(t[0]) {
      TokensAfterRun(t[1..]);
      assert [t[0]] + t[1..] == t;
      if RunLength(t) < |t| {
        assert t[1..][RunLength(t[1..]) + 1..] == t[RunLength(t) + 1..];
      }
    }
  }

  lemma TokensAtRun(t: string, n: nat)
    requires n == RunLength(t) < |t|
    ensures Tokens(t) == [t[..n]] + Tokens(t[n + 1..])
  {
    TokensAfterRun(t);
  }

  lemma LongTokensSingle(w: string)
    ensures LongTokens([w]) == if |w| >= 3 then [w] else []
  {
    assert LongTokens([w]) == (if |w| >= 3 then [w] else []) + LongTokens([]);
  }

  /** A separator at position `n` contributes only an empty token. */
  lemma TokensAtSeparator(t: string, n: nat)
    requires n < |t| && !InLetterClass(t[n])
    ensures LongTokens(Tokens(t[n..])) == LongTokens(Tokens(t[n + 1..]))
  {
    var u := t[n..];
    assert u[0] == t[n] && u[1..] == t[n + 1..];
    assert Tokens(u) == [[]] + Tokens(t[n + 1..]);
    LongTokensSingle([]);
    LongTokensAppend([[]], Tokens(t[n + 1..]));
  }

  lemma LongRunAtEnd(t: string)
    requires RunLength(t) == |t| >= 3
    ensures LongTokens(Tokens(t)) == [t] + LongTokens(Tokens(t[|t|..]))
  {
    TokensAfterRun(t);
    assert t[..RunLength(t)] == t;
    LongTokensSingle(t);
    assert t[|t|..] == [];
    assert Tokens([]) == [[]];
    LongTokensSingle([]);
  }

  lemma LongTokensAfterRun(t: string, n: nat)
    requires n == RunLength(t) && 3 <= n < |t|
    ensures LongTokens(Tokens(t)) == [t[..n]] + LongTokens(Tokens(t[n + 1..]))
  {
    var w, rest := t[..n], Tokens(t[n + 1..]);
    TokensAtRun(t, n);
    LongTokensAppend([w], rest);
    LongTokensSingle(w);
    calc {
      LongTokens(Tokens(t));
      LongTokens([w] + rest);
      LongTokens([w]) + LongTokens(rest);
      [w] + LongTokens(rest);
    }
  }

  lemma LongRunBeforeSeparator(t: string, n: nat)
    requires n == RunLength(t) && 3 <= n < |t|
    ensures LongTokens(Tokens(t)) == [t[..n]] + LongTokens(Tokens(t[n..]))
  {
    LongTokensAfterRun(t, n);
    TokensAtSeparator(t, n);
  }

  /** Where a long run starts, it is the first long token. */
  lemma LongRunStep(t: string)
    requires RunLength(t) >= 3
    ensures LongTokens(Tokens(t)) == [t[..RunLength(t)]] + LongTokens(Tokens(t[RunLength(t)..]))
  {
    if RunLength(t) < |t| {
      LongRunBeforeSeparator(t, RunLength(t));
    } else {
      LongRunAtEnd(t);
      assert t[..RunLength(t)] == t;
    }
  }

  /** A separator, or a letter starting a run shorter than three, adds no long token. */
  lemma ShortRunStep(t: string)
    requires t != [] && RunLength(t) < 3
    ensures LongTokens(Tokens(t)) == LongTokens(Tokens(t[1..]))
  {
    var rest := Tokens(t[1..]);
    if InLetterClass(t[0]) {
      assert Tokens(t) == [[t[0]] + rest[0]] + rest[1..];
      assert rest == [rest[0]] + rest[1..];
      LongTokensAppend([[t[0]] + rest[0]], rest[1..]);
      LongTokensAppend([rest[0]], rest[1..]);
    } else {
      LongTokensAppend([[]], rest);
    }
  }

  /** `re.findall` returns exactly the long tokens. */
  lemma {:induction false} FindAllIsLongTokens(t: string)
    ensures FindAllWords(t) == LongTokens(Tokens(t))
    decreases |t|
  {
    if t != [] {
      var n := RunLength(t);
      if n >= 3 {
        LongRunStep(t);
        FindAllIsLongTokens(t[n..]);
      } else {
        ShortRunStep(t);
        FindAllIsLongTokens(t[1..]);
      }
    }
  }

  /** `tiene_palabras_validas` holds exactly when there are at least `MIN_PALABRAS`
      maximal runs of class letters that are three or more long; a long run counts once. */
  lemma TienePalabrasValidasIffLongRuns(t: string)
    ensures TienePalabrasValidas(t) <==> |LongTokens(Tokens(t))| >= MinPalabras
  {
    FindAllIsLongTokens(t);
  }

  // ---------------------------------------------------------------------------------
  // Valid words imply letters
  // ---------------------------------------------------------------------------------

  /** How many characters of `t` are in the class. */
  function LetterCount(t: string): (n: nat)
    ensures n <= |t|
  {
    if t == [] then 0 else (if InLetterClass(t[0]) then 1 else 0) + LetterCount(t[1..])
  }

  lemma {:induction false} LetterCountRun(t: string, k: nat)
    requires k <= RunLength(t)
    ensures LetterCount(t) == k + LetterCount(t[k..])
  {
    if k > 0 {
      LetterCountRun(t[1..], k - 1);
      assert t[1..][k - 1..] == t[k..];
    }
  }

  lemma {:induction false} LettersCoverWords(t: string)
    ensures LetterCount(t) >= 3 * |FindAllWords(t)|
    decreases |t|
  {
    if t != [] {
      var n := RunLength(t);
      if n >= 3 {
        LetterCountRun(t, n);
        LettersCoverWords(t[n..]);
      } else {
        LettersCoverWords(t[1..]);
      }
    }
  }

  lemma {:induction false} LettersAreFound(t: string)
    requires LetterCount(t) > 0
    ensures !EsSoloSimbolos(t)
  {
    if !InLetterClass(t[0]) {
      LettersAreFound(t[1..]);
      var i :| 0 <= i < |t[1..]| && InLetterClass(t[1..][i]);
      assert InLetterClass(t[i + 1]);
    }
  }

  /** A comment with enough valid words has at least nine class letters, so it is not
      symbols-only. */
  lemma ValidWordsAreNotSymbols(t: string)
    requires TienePalabrasValidas(t)
    ensures LetterCount(t) >= 3 * MinPalabras
    ensures !EsSoloSimbolos(t)
  {
    LettersCoverWords(t);
    LettersAreFound(t);
  }

  // ---------------------------------------------------------------------------------
  // Generic phrases
  // ---------------------------------------------------------------------------------

  predicate AllLetters(a: string) {
    forall i :: 0 <= i < |a| ==> InLetterClass(a[i])
  }

  lemma {:induction false} RunLengthOfWord(a: string, rest: string)
    requires AllLetters(a)
    requires rest == [] || !InLetterClass(rest[0])
    ensures RunLength(a + rest) == |a|
  {
    if a != [] {
      assert (a + rest)[1..] == a[1..] + rest;
      RunLengthOfWord(a[1..], rest);
    } else {
      assert a + rest == rest;
    }
  }

  /** A word of three or more letters followed by a separator (or the end) is matched
      whole, and the scan resumes after it. */
  lemma WordThenRest(a: string, rest: string)
    requires AllLetters(a) && |a| >= 3
    requires rest == [] || !InLetterClass(rest[0])
    ensures FindAllWords(a + rest) == [a] + FindAllWords(rest)
  {
    RunLengthOfWord(a, rest);
    assert (a + rest)[..|a|] == a;
    assert (a + rest)[|a|..] == rest;
  }

  /** A character outside the class starts no match. */
  lemma SkipSeparator(c: char, rest: string)
    requires !InLetterClass(c)
    ensures FindAllWords([c] + rest) == FindAllWords(rest)
  {
    assert ([c] + rest)[1..] == rest;
  }

  /** A word followed by a space: matched whole, the scan resumes after the space. */
  lemma WordSpaceRest(a: string, rest: string)
    requires AllLetters(a) && |a| >= 3
    ensures FindAllWords(a + ([' '] + rest)) == [a] + FindAllWords(rest)
  {
    WordThenRest(a, [' '] + rest);
    SkipSeparator(' ', rest);
  }

  /** Words joined by single spaces. */
  function Sentence(ws: seq<string>): (t: string)
    requires |ws| >= 1
    ensures |t| >= |ws[0]|
  {
    if |ws| == 1 then ws[0] else ws[0] + ([' '] + Sentence(ws[1..]))
  }

  /** In a sentence of words of three or more class letters, `re.findall` finds exactly
      those words. */
  lemma {:induction false} SentenceWords(ws: seq<string>)
    requires |ws| >= 1
    requires forall i :: 0 <= i < |ws| ==> AllLetters(ws[i]) && |ws[i]| >= 3
    ensures FindAllWords(Sentence(ws)) == ws
  {
    if |ws| == 1 {
      WordThenRest(ws[0], []);
      assert ws[0] + [] == ws[0];
      assert FindAllWords([]) == [];
    } else {
      var rest := ws[1..];
      assert forall i :: 0 <= i < |rest| ==> rest[i] == ws[i + 1];
      SentenceWords(rest);
      assert Sentence(ws) == ws[0] + ([' '] + Sentence(rest));
      WordSpaceRest(ws[0], Sentence(rest));
      assert ws == [ws[0]] + rest;
    }
  }

  lemma FiveWordsSentence(t: string, ws: seq<string>)
    requires t == "the service was great today"
    requires ws == ["the", "service", "was", "great", "today"]
    ensures t == Sentence(ws)
  {
    assert Sentence(ws[4..]) == "today";
    assert Sentence(ws[3..]) == "great" + ([' '] + Sentence(ws[4..]));
    assert Sentence(ws[2..]) == "was" + ([' '] + Sentence(ws[3..]));
    assert Sentence(ws[1..]) == "service" + ([' '] + Sentence(ws[2..]));
    assert Sentence(ws) == "the" + ([' '] + Sentence(ws[1..]));
  }

  lemma FiveWordsAreWords(ws: seq<string>)
    requires ws == ["the", "service", "was", "great", "today"]
    ensures forall i :: 0 <= i < |ws| ==> AllLetters(ws[i]) && |ws[i]| >= 3
  {
    assert AllLetters(ws[0]) && AllLetters(ws[1]) && AllLetters(ws[2]);
    assert AllLetters(ws[3]) && AllLetters(ws[4]);
  }

  /** A sentence of five words has enough valid words. */
  lemma FiveWordsExample(t: string, ws: seq<string>)
    requires t == "the service was great today"
    requires ws == ["the", "service", "was", "great", "today"]
    ensures FindAllWords(t) == ws
    ensures TienePalabrasValidas(t)
  {
    FiveWordsSentence(t, ws);
    FiveWordsAreWords(ws);
    SentenceWords(ws);
  }

  /** Without three class letters in a row there is nothing for `re.findall` to match. */
  lemma {:induction false} NoThreeLettersNoWords(t: string)
    requires forall i :: 0 <= i < |t| - 2 ==>
               !(InLetterClass(t[i]) && InLetterClass(t[i + 1]) && InLetterClass(t[i + 2]))
    ensures FindAllWords(t) == []
  {
    if t != [] {
      var u := t[1..];
      forall i | 0 <= i < |u| - 2
        ensures !(InLetterClass(u[i]) && InLetterClass(u[i + 1]) && InLetterClass(u[i + 2]))
      {
        assert u[i] == t[i + 1] && u[i + 1] == t[i + 2] && u[i + 2] == t[i + 3];
      }
      NoThreeLettersNoWords(u);
    }
  }

  /** Words shorter than three letters do not count: "ok go no" yields no match at all. */
  lemma ShortWordsExample(t: string)
    requires t == "ok go no"
    ensures FindAllWords(t) == []
    ensures !TienePalabrasValidas(t)
  {
    assert t[2] == ' ' && t[5] == ' ' && |t| == 8;
    NoThreeLettersNoWords(t);
  }

  /** Two words separated by a space are matched as two. */
  lemma TwoWords(a: string, b: string)
    requires AllLetters(a) && |a| >= 3
    requires AllLetters(b) && |b| >= 3
    ensures FindAllWords(a + ([' '] + b)) == [a, b]
  {
    WordThenRest(b, []);
    assert b + [] == b;
    SkipSeparator(' ', b);
    WordThenRest(a, [' '] + b);
  }

  lemma SinComentarioHasTwoWords(t: string)
    requires t == "sin comentario"
    ensures FindAllWords(t) == ["sin", "comentario"]
  {
    assert t == "sin" + ([' '] + "comentario");
    TwoWords("sin", "comentario");
  }

  /** Every generic phrase already fails the valid-words test. */
  lemma GenericPhrasesLackValidWords(g: string)
    requires g in PalabrasGenericas
    ensures !TienePalabrasValidas(g)
  {
    if g == "sin comentario" {
      SinComentarioHasTwoWords(g);
    } else {
      assert LetterCount(g) <= 8;
      LettersCoverWords(g);
    }
  }
}
