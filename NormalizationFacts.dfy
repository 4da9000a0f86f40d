/** What `normalizar_texto` does to a comment, proved on the modelled alphabet.

    The central fact is `NormalizeCharwise`: normalising is the same as stripping the
    outer whitespace and then replacing every character by its entry in `Fold`, a table
    written down independently of the case, decomposition and mark tables. The other
    lemmas follow from it.
 */
module NormalizationFacts {
  import opened Alphabet
  import opened TextUtils

  /** What one character becomes once lowered, decomposed and stripped of its marks. */
  function Fold(c: char): (r: seq<char>)
    ensures |r| <= 1
  {
    if IsCombining(c) then []
    else if c == NoBreakSpace then [' ']
    else if IsUpperAscii(c) then [(c as int + 32) as char]
    else if c == 'á' || c == 'Á' then ['a']
    else if c == 'é' || c == 'É' then ['e']
    else if c == 'í' || c == 'Í' then ['i']
    else if c == 'ó' || c == 'Ó' then ['o']
    else if c == 'ú' || c == 'Ú' || c == 'ü' || c == 'Ü' then ['u']
    else if c == 'ñ' || c == 'Ñ' then ['n']
    else [c]
  }

  /** The reference normaliser applied to text that is already stripped. */
  function FoldAll(s: string): (r: string)
    ensures |r| <= |s|
  {
    if s == [] then [] else Fold(s[0]) + FoldAll(s[1..])
  }

  // ---------------------------------------------------------------------------------
  // The table agrees with the Unicode facts
  // ---------------------------------------------------------------------------------

  predicate IsAccented(c: char) {
    || c == 'á' || c == 'é' || c == 'í' || c == 'ó' || c == 'ú' || c == 'ü' || c == 'ñ'
    || c == 'Á' || c == 'É' || c == 'Í' || c == 'Ó' || c == 'Ú' || c == 'Ü' || c == 'Ñ'
  }

  lemma RemoveCombiningSingle(x: char)
    ensures RemoveCombining([x]) == if IsCombining(x) then [] else [x]
  {
    assert RemoveCombining([x]) == (if IsCombining(x) then [] else [x]) + RemoveCombining([]);
  }

  lemma RemoveCombiningPair(x: char, m: char)
    requires !IsCombining(x) && IsCombining(m)
    ensures RemoveCombining([x, m]) == [x]
  {
    assert RemoveCombining([x, m]) == [x] + RemoveCombining([m]);
    RemoveCombiningSingle(m);
  }

  lemma AccentedFold(c: char)
    requires IsAccented(c)
    ensures |DecomposeChar(LowerChar(c))| == 2
    ensures var d := DecomposeChar(LowerChar(c));
      !IsCombining(d[0]) && IsCombining(d[1]) && Fold(c) == [d[0]]
  {
  }

  lemma OtherFold(c: char)
    requires !IsAccented(c)
    ensures DecomposeChar(LowerChar(c)) == Fold(c) || (IsCombining(c) && Fold(c) == [])
    ensures |DecomposeChar(LowerChar(c))| == 1
  {
  }

  lemma FoldIsLowerDecomposeRemove(c: char)
    ensures Fold(c) == RemoveCombining(DecomposeChar(LowerChar(c)))
  {
    var d := DecomposeChar(LowerChar(c));
    if IsAccented(c) {
      AccentedFold(c);
      assert d == [d[0], d[1]];
      RemoveCombiningPair(d[0], d[1]);
    } else {
      OtherFold(c);
      assert d == [d[0]];
      RemoveCombiningSingle(d[0]);
    }
  }

  lemma FoldProperties(c: char)
    ensures Fold(c) == [] <==> IsCombining(c)
    ensures forall d :: d in Fold(c) ==> IsNormalChar(d)
    ensures forall d :: d in Fold(c) ==> (IsWhitespace(d) <==> IsWhitespace(c))
    ensures IsWhitespace(LowerChar(c)) <==> IsWhitespace(c)
    ensures IsNormalChar(c) ==> Fold(c) == [c]
  {
  }

  // ---------------------------------------------------------------------------------
  // Distributing the steps over concatenation
  // ---------------------------------------------------------------------------------

  lemma {:induction false} RemoveCombiningAppend(a: string, b: string)
    ensures RemoveCombining(a + b) == RemoveCombining(a) + RemoveCombining(b)
  {
    if a != [] {
      assert (a + b)[1..] == a[1..] + b;
      RemoveCombiningAppend(a[1..], b);
    } else {
      assert a + b == b;
    }
  }

  lemma {:induction false} FoldAllAppend(a: string, b: string)
    ensures FoldAll(a + b) == FoldAll(a) + FoldAll(b)
  {
    if a != [] {
      assert (a + b)[1..] == a[1..] + b;
      FoldAllAppend(a[1..], b);
    } else {
      assert a + b == b;
    }
  }

  lemma {:induction false} StripStartLower(t: string)
    ensures StripStart(Lower(t)) == Lower(StripStart(t))
  {
    if t != [] {
      FoldProperties(t[0]);
      if IsWhitespace(t[0]) {
        assert Lower(t)[1..] == Lower(t[1..]);
        StripStartLower(t[1..]);
      }
    }
  }

  lemma {:induction false} StripEndLower(t: string)
    ensures StripEnd(Lower(t)) == Lower(StripEnd(t))
  {
    if t != [] {
      FoldProperties(t[|t| - 1]);
      if IsWhitespace(t[|t| - 1]) {
        assert Lower(t)[..|t| - 1] == Lower(t[..|t| - 1]);
        StripEndLower(t[..|t| - 1]);
      }
    }
  }

  lemma {:induction false} DecomposedLowerFolds(s: string)
    ensures RemoveCombining(Decompose(Lower(s))) == FoldAll(s)
  {
    if s != [] {
      var l := Lower(s);
      assert l[1..] == Lower(s[1..]);
      assert Decompose(l) == DecomposeChar(LowerChar(s[0])) + Decompose(Lower(s[1..]));
      RemoveCombiningAppend(DecomposeChar(LowerChar(s[0])), Decompose(Lower(s[1..])));
      FoldIsLowerDecomposeRemove(s[0]);
      DecomposedLowerFolds(s[1..]);
    }
  }

  /** Normalising is stripping, then folding each character on its own. */
  lemma NormalizeCharwise(t: string)
    ensures NormalizarTexto(t) == FoldAll(Strip(t))
  {
    StripStartLower(t);
    StripEndLower(StripStart(t));
    DecomposedLowerFolds(Strip(t));
  }

  // ---------------------------------------------------------------------------------
  // What the normalised text looks like
  // ---------------------------------------------------------------------------------

  lemma {:induction false} FoldAllNormal(s: string)
    ensures forall c :: c in FoldAll(s) ==> IsNormalChar(c)
  {
    if s != [] {
      FoldProperties(s[0]);
      FoldAllNormal(s[1..]);
    }
  }

  lemma {:induction false} FoldAllOfNormal(s: string)
    requires forall i :: 0 <= i < |s| ==> IsNormalChar(s[i])
    ensures FoldAll(s) == s
  {
    if s != [] {
      FoldProperties(s[0]);
      FoldAllOfNormal(s[1..]);
    }
  }

  /** Text whose every character folds to exactly one character folds position by
      position. */
  lemma {:induction false} FoldAllSingles(s: string, r: string)
    requires |r| == |s|
    requires forall i :: 0 <= i < |s| ==> Fold(s[i]) == [r[i]]
    ensures FoldAll(s) == r
  {
    if s != [] {
      FoldAllSingles(s[1..], r[1..]);
      assert r == [r[0]] + r[1..];
    }
  }

  lemma NormalCharFacts(c: char)
    requires IsNormalChar(c)
    ensures !IsUpperAscii(c) && !IsCombining(c)
    ensures InLetterClass(c) ==> 'a' <= c <= 'z'
  {
  }

  /** Normalised text has no capitals, no precomposed accented letter and no combining
      mark; in particular the accented members of `[a-záéíóúñ]` never occur in it. */
  lemma NormalizedChars(t: string)
    ensures forall c :: c in NormalizarTexto(t) ==> IsNormalChar(c)
    ensures forall c :: c in NormalizarTexto(t) ==> !IsUpperAscii(c)
    ensures forall c :: c in NormalizarTexto(t) && InLetterClass(c) ==> 'a' <= c <= 'z'
  {
    NormalizeCharwise(t);
    FoldAllNormal(Strip(t));
    forall c | c in NormalizarTexto(t)
      ensures !IsUpperAscii(c) && (InLetterClass(c) ==> 'a' <= c <= 'z')
    {
      NormalCharFacts(c);
    }
  }

  /** On the modelled alphabet no character grows, so normalising never lengthens. */
  lemma NormalizeShortens(t: string)
    ensures |NormalizarTexto(t)| <= |t|
  {
    NormalizeCharwise(t);
  }

  lemma FoldAllCons(c: char, s: string)
    ensures FoldAll([c] + s) == Fold(c) + FoldAll(s)
  {
    assert ([c] + s)[1..] == s;
  }

  lemma FoldsNandu(s: string)
    requires s == "Ñandú"
    ensures FoldAll(s) == "nandu"
  {
    FoldAllSingles(s, "nandu");
  }

  lemma ExampleFolds(t: string)
    requires t == " Ñandú\t"
    ensures FoldAll(Strip(t)) == "nandu"
  {
    var s := t[1..6];
    assert t == [' '] + s + ['\t'];
    StripPadded([' '], s, ['\t']);
    StripOfTrimmed(s);
    FoldsNandu(s);
  }

  /** A concrete instance: capitals and accents go, and the n with tilde becomes a
      plain n. */
  lemma NormalizeExample(t: string)
    requires t == " Ñandú\t"
    ensures NormalizarTexto(t) == "nandu"
  {
    ExampleFolds(t);
    NormalizeCharwise(t);
  }

  // ---------------------------------------------------------------------------------
  // Whitespace around the comment
  // ---------------------------------------------------------------------------------

  predicate AllWhitespace(w: string) {
    forall i :: 0 <= i < |w| ==> IsWhitespace(w[i])
  }

  lemma {:induction false} StripStartAppend(x: string, w: string)
    ensures StripStart(x + w) == if StripStart(x) == [] then StripStart(w) else StripStart(x) + w
  {
    if x != [] {
      assert (x + w)[1..] == x[1..] + w;
      if IsWhitespace(x[0]) {
        StripStartAppend(x[1..], w);
      }
    } else {
      assert x + w == w;
    }
  }

  lemma {:induction false} StripEndPadded(y: string, w: string)
    requires AllWhitespace(w)
    ensures StripEnd(y + w) == StripEnd(y)
  {
    if w != [] {
      var w' := w[..|w| - 1];
      assert (y + w)[..|y + w| - 1] == y + w';
      StripEndPadded(y, w');
    } else {
      assert y + w == y;
    }
  }

  lemma {:induction false} StripStartBlank(w: string)
    requires AllWhitespace(w)
    ensures StripStart(w) == []
  {
    if w != [] {
      StripStartBlank(w[1..]);
    }
  }

  lemma {:induction false} StripStartAfterBlank(w: string, x: string)
    requires AllWhitespace(w)
    ensures StripStart(w + x) == StripStart(x)
  {
    if w != [] {
      assert (w + x)[1..] == w[1..] + x;
      StripStartAfterBlank(w[1..], x);
    } else {
      assert w + x == x;
    }
  }

  lemma StripTrailingBlank(t: string, w: string)
    requires AllWhitespace(w)
    ensures StripEnd(StripStart(t + w)) == Strip(t)
  {
    StripStartAppend(t, w);
    if StripStart(t) == [] {
      StripStartBlank(w);
    } else {
      StripEndPadded(StripStart(t), w);
    }
  }

  lemma StripPadded(w1: string, t: string, w2: string)
    requires AllWhitespace(w1) && AllWhitespace(w2)
    ensures Strip(w1 + t + w2) == Strip(t)
  {
    calc {
      Strip(w1 + t + w2);
      StripEnd(StripStart(w1 + t + w2));
      { assert w1 + t + w2 == w1 + (t + w2); StripStartAfterBlank(w1, t + w2); }
      StripEnd(StripStart(t + w2));
      { StripTrailingBlank(t, w2); }
      Strip(t);
    }
  }

  /** Whitespace before and after a comment does not change its normal form. */
  lemma NormalizeIgnoresOuterWhitespace(w1: string, t: string, w2: string)
    requires AllWhitespace(w1) && AllWhitespace(w2)
    ensures NormalizarTexto(w1 + t + w2) == NormalizarTexto(t)
  {
    StripPadded(w1, t, w2);
    NormalizeCharwise(w1 + t + w2);
    NormalizeCharwise(t);
  }

  /** A comment made only of whitespace normalises to the empty string. */
  lemma WhitespaceNormalizesToEmpty(t: string)
    requires AllWhitespace(t)
    ensures NormalizarTexto(t) == ""
  {
    StripStartBlank(t);
    NormalizeCharwise(t);
  }

  // ---------------------------------------------------------------------------------
  // Idempotence
  // ---------------------------------------------------------------------------------

  lemma StripOfTrimmed(u: string)
    requires u == [] || (!IsWhitespace(u[0]) && !IsWhitespace(u[|u| - 1]))
    ensures Strip(u) == u
  {
  }

  /** Two texts of the same length with whitespace at the same positions. */
  predicate SameBlanks(u: string, v: string) {
    |u| == |v| && forall i :: 0 <= i < |u| ==> (IsWhitespace(u[i]) <==> IsWhitespace(v[i]))
  }

  lemma SameBlanksAppend(x: string, y: string, f: string, m: string)
    requires SameBlanks(x, y) && SameBlanks(f, m)
    ensures SameBlanks(x + f, y + m)
  {
    forall i | 0 <= i < |x + f|
      ensures IsWhitespace((x + f)[i]) <==> IsWhitespace((y + m)[i])
    {
      if i >= |x| {
        assert (x + f)[i] == f[i - |x|] && (y + m)[i] == m[i - |x|];
      }
    }
  }

  /** Folding and dropping the marks leave the same number of characters, and whitespace
      at the same positions: folding changes letters, never whether they are blanks. */
  lemma {:induction false} FoldAllLikeRemove(s: string)
    ensures SameBlanks(FoldAll(s), RemoveCombining(s))
  {
    if s != [] {
      FoldAllLikeRemove(s[1..]);
      FoldProperties(s[0]);
      var x := Fold(s[0]);
      var y := if IsCombining(s[0]) then [] else [s[0]];
      if !IsCombining(s[0]) {
        assert x == [x[0]];
      }
      assert SameBlanks(x, y);
      SameBlanksAppend(x, y, FoldAll(s[1..]), RemoveCombining(s[1..]));
    }
  }

  /** Folded text has whitespace at an end exactly when the text without its marks has. */
  lemma FoldAllTrimmedIff(s: string)
    ensures var u, m := FoldAll(s), RemoveCombining(s);
      (u == [] || (!IsWhitespace(u[0]) && !IsWhitespace(u[|u| - 1])))
      <==> (m == [] || (!IsWhitespace(m[0]) && !IsWhitespace(m[|m| - 1])))
  {
    FoldAllLikeRemove(s);
  }

  /** `strip` returns the slice of `t` between its leading and its trailing whitespace:
      everything before and after the slice is whitespace, and the slice neither starts
      nor ends with whitespace. Together these fix the result. */
  lemma StripIsSlice(t: string)
    ensures var r, k := Strip(t), |t| - |StripStart(t)|;
      k + |r| <= |t| && r == t[k..k + |r|]
      && (forall i :: 0 <= i < k ==> IsWhitespace(t[i]))
      && (forall i :: k + |r| <= i < |t| ==> IsWhitespace(t[i]))
  {
    var a := StripStart(t);
    var r := StripEnd(a);
    PrefixOfSuffix(t, a, r, |t| - |a|);
  }

  lemma PrefixOfSuffix(t: string, a: string, r: string, k: nat)
    requires k <= |t| && a == t[k..] && |r| <= |a| && r == a[..|r|]
    requires forall i :: |r| <= i < |a| ==> IsWhitespace(a[i])
    ensures r == t[k..k + |r|]
    ensures forall i :: k + |r| <= i < |t| ==> IsWhitespace(t[i])
  {
    forall i | k + |r| <= i < |t|
      ensures IsWhitespace(t[i])
    {
      assert t[i] == a[i - k];
    }
  }

  /** Every character that survives `strip` was in the text. */
  lemma StripKeepsChars(t: string)
    ensures forall c :: c in Strip(t) ==> c in t
  {
    var a := StripStart(t);
    var s := StripEnd(a);
    forall c | c in s
      ensures c in t
    {
      var i :| 0 <= i < |s| && s[i] == c;
      assert a[i] == c;
      assert t[|t| - |a| + i] == c;
    }
  }

  /** Normalising a normal form only strips it: every character left is already normal. */
  lemma RenormalizeStrips(t: string)
    ensures var u := NormalizarTexto(t); NormalizarTexto(u) == Strip(u)
  {
    var u := NormalizarTexto(t);
    NormalizedChars(t);
    NormalizeCharwise(u);
    StripKeepsChars(u);
    var s := Strip(u);
    forall i | 0 <= i < |s|
      ensures IsNormalChar(s[i])
    {
      assert s[i] in s;
    }
    FoldAllOfNormal(s);
  }

  /** The exact condition for idempotence: normalising the normal form changes nothing if
      and only if the normal form has no whitespace at either end. */
  lemma NormalizeIdempotentIff(t: string)
    ensures var u := NormalizarTexto(t);
      NormalizarTexto(u) == u <==> (u == [] || (!IsWhitespace(u[0]) && !IsWhitespace(u[|u| - 1])))
  {
    var u := NormalizarTexto(t);
    RenormalizeStrips(t);
    if u == [] || (!IsWhitespace(u[0]) && !IsWhitespace(u[|u| - 1])) {
      StripOfTrimmed(u);
    }
  }

  /** Normalising twice gives the same as normalising once exactly when the stripped
      comment, with its combining marks left out, neither starts nor ends with
      whitespace. Marks inside the comment and decomposed accents anywhere, the last
      character included, are therefore fine; only a mark that shields whitespace from
      `strip` breaks idempotence. */
  lemma NormalizeIdempotent(t: string)
    ensures var m := RemoveCombining(Strip(t));
      NormalizarTexto(NormalizarTexto(t)) == NormalizarTexto(t)
      <==> (m == [] || (!IsWhitespace(m[0]) && !IsWhitespace(m[|m| - 1])))
  {
    FoldAllTrimmedIff(Strip(t));
    NormalizeCharwise(t);
    NormalizeIdempotentIff(t);
  }

  /** A decomposed accent at the end of a comment: `e` followed by U+0301. */
  lemma TrailingMarkIdempotent(t: string)
    requires t == ['e', Acute]
    ensures NormalizarTexto(NormalizarTexto(t)) == NormalizarTexto(t)
  {
    TrailingMarkKept(t);
    NormalizeIdempotent(t);
  }

  lemma TrailingMarkKept(t: string)
    requires t == ['e', Acute]
    ensures RemoveCombining(Strip(t)) == ['e']
  {
    calc {
      RemoveCombining(Strip(t));
      { TrailingMarkStrips(t); }
      RemoveCombining(['e', Acute]);
      { RemoveCombiningPair('e', Acute); }
      ['e'];
    }
  }

  lemma TrailingMarkStrips(t: string)
    requires t == ['e', Acute]
    ensures Strip(t) == t
  {
    StripOfTrimmed(t);
  }

  /** Trimmed text made of characters normalisation leaves alone is its own normal form. */
  lemma NormalFixedPoint(u: string)
    requires u == [] || (!IsWhitespace(u[0]) && !IsWhitespace(u[|u| - 1]))
    requires forall c :: c in u ==> IsNormalChar(c)
    ensures NormalizarTexto(u) == u
  {
    NormalizeCharwise(u);
    StripOfTrimmed(u);
    FoldAllOfNormal(u);
  }

  /** Where the condition fails, so does idempotence: a bare acute accent in front of a space
      shields the space from `strip`, and the accent is removed only afterwards. */
  lemma BareMarkStrips(t: string)
    requires t == [Acute, ' ', 'a']
    ensures Strip(t) == t
  {
    StripOfTrimmed(t);
  }

  lemma LeadingSpaceStrips(u: string, v: string)
    requires u == " a" && v == "a"
    ensures Strip(u) == v
  {
    assert u == [' '] + v;
    StripStartAfterBlank([' '], v);
    StripOfTrimmed(v);
  }

  lemma BareMarkFoldsAway(t: string, u: string)
    requires t == [Acute, ' ', 'a'] && u == " a"
    ensures FoldAll(t) == u
  {
    assert t == [Acute] + u;
    FoldAllCons(Acute, u);
    FoldAllSingles(u, u);
  }

  lemma PlainFolds(v: string)
    requires v == "a"
    ensures FoldAll(v) == v
  {
    FoldAllSingles(v, v);
  }

  lemma BareMarkFolds(t: string, u: string)
    requires t == [Acute, ' ', 'a'] && u == " a"
    ensures FoldAll(Strip(t)) == u
    ensures FoldAll(Strip(u)) == "a"
  {
    BareMarkStrips(t);
    BareMarkFoldsAway(t, u);
    LeadingSpaceStrips(u, "a");
    PlainFolds("a");
  }

  lemma BareMarkBreaksIdempotence(t: string)
    requires t == [Acute, ' ', 'a']
    ensures NormalizarTexto(t) == " a"
    ensures NormalizarTexto(NormalizarTexto(t)) == "a"
  {
    BareMarkFolds(t, " a");
    NormalizeCharwise(t);
    NormalizeCharwise(" a");
  }
}
