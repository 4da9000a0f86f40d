/** The comment filter chain of `analizar_estados` in `sentiment_analysis/app/main.py`:
    drop the empty cells, normalise what is left, then keep only the comments that are
    not generic, not symbols-only, not junk and that have enough valid words.

    Each pandas step rebinds the series to a new one; here each is a sequence function.
    The spreadsheet cells arrive as already-converted strings, `None` standing for an
    empty cell.
 */
module AnalizarEstados {
  import opened Wrappers
  import Alphabet
  import opened Seqs
  import opened TextUtils
  import NormalizationFacts
  import ClassifierFacts

  /** `dropna()`: the values of the present cells, in their order. */
  function DropNa(cells: seq<Option<string>>): (r: seq<string>)
    ensures |r| <= |cells|
    ensures forall x :: x in r <==> Some(x) in cells
  {
    if cells == [] then []
    else (if cells[0].Some? then [cells[0].value] else []) + DropNa(cells[1..])
  }

  /** The four tests of lines 110-113, each as "keep this comment". */
  predicate NoGenerico(t: string) { t !in PalabrasGenericas }
  predicate NoSoloSimbolos(t: string) { !EsSoloSimbolos(t) }
  predicate NoBasura(t: string) { !EsTextoBasura(t) }

  /** A comment survives the chain exactly when it passes all four. */
  predicate Retenido(t: string) {
    NoGenerico(t) && NoSoloSimbolos(t) && NoBasura(t) && TienePalabrasValidas(t)
  }

  /** The two tests that decide on their own (see `ChainNeedsTwoTests`). */
  predicate ConPalabrasSinBasura(t: string) {
    TienePalabrasValidas(t) && NoBasura(t)
  }

  /** The normalised present cells: what the four filters work on. There is one per
      present cell, in the cells' order. */
  function Normalizados(cells: seq<Option<string>>): (r: seq<string>)
    ensures |r| == |DropNa(cells)| <= |cells|
    ensures forall i :: 0 <= i < |r| ==> r[i] == NormalizarTexto(DropNa(cells)[i])
  {
    Map(NormalizarTexto, DropNa(cells))
  }

  /** Lines 108-113: drop nulls, normalise, then the four boolean-mask filters. */
  function FiltrarComentarios(cells: seq<Option<string>>): (r: seq<string>)
    ensures |r| <= |DropNa(cells)|
    ensures forall x :: x in r ==> Retenido(x)
  {
    var serie := Normalizados(cells);
    var serie := Filter(NoGenerico, serie);
    var serie := Filter(NoSoloSimbolos, serie);
    var serie := Filter(NoBasura, serie);
    Filter(TienePalabrasValidas, serie)
  }

  // ---------------------------------------------------------------------------------
  // The chain is a single filter
  // ---------------------------------------------------------------------------------

  /** The four filters in sequence select exactly the normalised comments that pass all
      four tests. */
  lemma ChainIsOneFilter(cells: seq<Option<string>>)
    ensures FiltrarComentarios(cells) == Filter(Retenido, Normalizados(cells))
  {
    FilterChain4(NoGenerico, NoSoloSimbolos, NoBasura, TienePalabrasValidas, Retenido,
                 Normalizados(cells));
  }

  /** The output keeps its elements in input order: it is a subsequence of the
      normalised present cells. */
  lemma ChainKeepsOrder(cells: seq<Option<string>>)
    ensures IsSubseq(FiltrarComentarios(cells), Normalizados(cells))
  {
    ChainIsOneFilter(cells);
    FilterIsSubseq(Retenido, Normalizados(cells));
  }

  /** Soundness and completeness: a comment is in the output exactly when it is the
      normal form of a present cell and passes all four tests. */
  lemma ChainMembership(cells: seq<Option<string>>)
    ensures forall x :: x in FiltrarComentarios(cells) <==> x in Normalizados(cells) && Retenido(x)
  {
    ChainIsOneFilter(cells);
  }

  /** Repeated comments are not merged: each retained normal form occurs in the output
      as often as among the normalised present cells, and a rejected one not at all. */
  lemma ChainKeepsDuplicates(cells: seq<Option<string>>)
    ensures forall x ::
              multiset(FiltrarComentarios(cells))[x]
              == if Retenido(x) then multiset(Normalizados(cells))[x] else 0
  {
    ChainIsOneFilter(cells);
  }

  /** Every present cell whose normal form passes all four tests reaches the output. */
  lemma ChainComplete(cells: seq<Option<string>>, i: nat)
    requires i < |cells| && cells[i].Some?
    requires Retenido(NormalizarTexto(cells[i].value))
    ensures NormalizarTexto(cells[i].value) in FiltrarComentarios(cells)
  {
    var v := cells[i].value;
    assert Some(v) in cells;
    var d := DropNa(cells);
    var k :| 0 <= k < |d| && d[k] == v;
    assert Normalizados(cells)[k] == NormalizarTexto(v);
    ChainMembership(cells);
  }

  /** The four filters may run in any order; for instance in reverse order. */
  lemma FiltersCommute(cells: seq<Option<string>>)
    ensures FiltrarComentarios(cells)
      == Filter(NoGenerico, Filter(NoSoloSimbolos, Filter(NoBasura,
           Filter(TienePalabrasValidas, Normalizados(cells)))))
  {
    ChainIsOneFilter(cells);
    FilterChain4(TienePalabrasValidas, NoBasura, NoSoloSimbolos, NoGenerico, Retenido,
                 Normalizados(cells));
  }

  /** Enough valid words already rules out a generic phrase and a symbols-only text, so
      only two of the four tests decide. */
  lemma ChainNeedsTwoTests(cells: seq<Option<string>>)
    ensures FiltrarComentarios(cells)
      == Filter(ConPalabrasSinBasura, Normalizados(cells))
  {
    ChainIsOneFilter(cells);
    forall x | TienePalabrasValidas(x)
      ensures NoGenerico(x) && NoSoloSimbolos(x)
    {
      ClassifierFacts.ValidWordsAreNotSymbols(x);
      if x in PalabrasGenericas {
        ClassifierFacts.GenericPhrasesLackValidWords(x);
      }
    }
    FilterExt(Retenido, ConPalabrasSinBasura, Normalizados(cells));
  }

  // ---------------------------------------------------------------------------------
  // The generic phrases are compared after normalising
  // ---------------------------------------------------------------------------------

  /** Printable ASCII without capitals, and no blank at either end. */
  predicate LowerAsciiTrimmed(t: string) {
    (forall i :: 0 <= i < |t| ==> ' ' <= t[i] <= '~' && !('A' <= t[i] <= 'Z'))
    && (t == [] || (t[0] != ' ' && t[|t| - 1] != ' '))
  }

  lemma LowerAsciiFixedPoint(t: string)
    requires LowerAsciiTrimmed(t)
    ensures NormalizarTexto(t) == t
  {
    forall c | c in t
      ensures Alphabet.IsNormalChar(c)
    {
      var i :| 0 <= i < |t| && t[i] == c;
    }
    NormalizationFacts.NormalFixedPoint(t);
  }

  /** Every generic phrase is its own normal form, so the membership test that follows
      normalisation can match each of them. */
  lemma GenericPhrasesAreNormal()
    ensures forall g :: g in PalabrasGenericas ==> NormalizarTexto(g) == g
  {
    forall g | g in PalabrasGenericas
      ensures NormalizarTexto(g) == g
    {
      assert LowerAsciiTrimmed(g);
      LowerAsciiFixedPoint(g);
    }
  }

  // ---------------------------------------------------------------------------------
  // Empty cells and blank comments
  // ---------------------------------------------------------------------------------

  lemma {:induction false} DropNaAppend(a: seq<Option<string>>, b: seq<Option<string>>)
    ensures DropNa(a + b) == DropNa(a) + DropNa(b)
  {
    if a != [] {
      assert (a + b)[1..] == a[1..] + b;
      DropNaAppend(a[1..], b);
    } else {
      assert a + b == b;
    }
  }

  /** A column without empty cells passes `dropna()` unchanged. */
  lemma {:induction false} DropNaAllPresent(cells: seq<Option<string>>, raw: seq<string>)
    requires |cells| == |raw|
    requires forall i :: 0 <= i < |cells| ==> cells[i] == Some(raw[i])
    ensures DropNa(cells) == raw
  {
    if cells != [] {
      DropNaAllPresent(cells[1..], raw[1..]);
      assert raw == [raw[0]] + raw[1..];
    }
  }

  lemma DropNaSkipsNone(a: seq<Option<string>>, b: seq<Option<string>>)
    ensures DropNa(a + [None] + b) == DropNa(a + b)
  {
    DropNaAppend(a + [None], b);
    DropNaAppend(a, [None]);
    DropNaAppend(a, b);
    assert DropNa([None]) == [] + DropNa([]);
  }

  /** An empty cell anywhere in the column changes nothing: it is removed before any
      other step, so only present values are normalised. */
  lemma EmptyCellIgnored(a: seq<Option<string>>, b: seq<Option<string>>)
    ensures FiltrarComentarios(a + [None] + b) == FiltrarComentarios(a + b)
  {
    DropNaSkipsNone(a, b);
    assert Normalizados(a + [None] + b) == Normalizados(a + b);
    ChainIsOneFilter(a + [None] + b);
    ChainIsOneFilter(a + b);
  }

  /** No input, no output; and never more output than present cells. */
  lemma ChainBounds(cells: seq<Option<string>>)
    ensures |FiltrarComentarios(cells)| <= |DropNa(cells)| <= |cells|
    ensures cells == [] ==> FiltrarComentarios(cells) == []
  {
  }

  /** A whitespace-only comment normalises to the empty string, which fails the tests and
      never reaches the output. */
  lemma BlankCommentDropped(cells: seq<Option<string>>, i: nat)
    requires i < |cells| && cells[i].Some?
    requires NormalizationFacts.AllWhitespace(cells[i].value)
    ensures NormalizarTexto(cells[i].value) == ""
    ensures "" !in FiltrarComentarios(cells)
  {
    NormalizationFacts.WhitespaceNormalizesToEmpty(cells[i].value);
    assert !TienePalabrasValidas("") by {
      assert FindAllWords("") == [];
    }
  }
}
