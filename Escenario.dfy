/** A worked column: a generic answer in capitals, a real comment, a row of dots, another
    generic answer, an accented comment and an empty cell. Only the two real comments
    survive, in their original order and in normal form.
 */
module Escenario {
  import opened Wrappers
  import opened Alphabet
  import opened Seqs
  import opened TextUtils
  import opened NormalizationFacts
  import opened ClassifierFacts
  import opened AnalizarEstados

  lemma TrimmedNA(t: string)
    requires t == "NA"
    ensures Strip(t) == t
  {
    StripOfTrimmed(t);
  }

  lemma FoldNA(t: string)
    requires t == "NA"
    ensures FoldAll(t) == "na"
  {
    FoldAllSingles(t, "na");
  }

  lemma FoldsNA(t: string)
    requires t == "NA"
    ensures FoldAll(Strip(t)) == "na"
  {
    TrimmedNA(t);
    FoldNA(t);
  }

  lemma TrimmedAtencion(t: string)
    requires t == "Muy buena atención"
    ensures Strip(t) == t
  {
    StripOfTrimmed(t);
  }

  lemma FoldAtencion(t: string, u: string)
    requires t == "Muy buena atención"
    requires u == "muy buena atencion"
    ensures FoldAll(t) == u
  {
    FoldAllSingles(t, u);
  }

  lemma FoldsAtencion(t: string, u: string)
    requires t == "Muy buena atención"
    requires u == "muy buena atencion"
    ensures FoldAll(Strip(t)) == u
  {
    TrimmedAtencion(t);
    FoldAtencion(t, u);
  }

  lemma NormalAtencion(t: string, u: string)
    requires t == "Muy buena atención"
    requires u == "muy buena atencion"
    ensures NormalizarTexto(t) == u
  {
    FoldsAtencion(t, u);
    NormalizeCharwise(t);
  }

  lemma NormalNA(t: string)
    requires t == "NA"
    ensures NormalizarTexto(t) == "na"
  {
    FoldsNA(t);
    NormalizeCharwise(t);
  }

  lemma FoodIsLowerAscii(food: string)
    requires food == "the food was excellent and fresh"
    ensures LowerAsciiTrimmed(food)
  {
  }

  lemma ShortAreLowerAscii(dots: string, xx: string)
    requires dots == "...." && xx == "xx"
    ensures LowerAsciiTrimmed(dots) && LowerAsciiTrimmed(xx)
  {
  }

  /** The three cells already in normal form. */
  lemma PlainCells(food: string, dots: string, xx: string)
    requires food == "the food was excellent and fresh"
    requires dots == "...." && xx == "xx"
    ensures NormalizarTexto(food) == food
    ensures NormalizarTexto(dots) == dots && NormalizarTexto(xx) == xx
  {
    FoodIsLowerAscii(food);
    ShortAreLowerAscii(dots, xx);
    LowerAsciiFixedPoint(food);
    LowerAsciiFixedPoint(dots);
    LowerAsciiFixedPoint(xx);
  }

  lemma {:induction false} SentenceOfSix(ws: seq<string>)
    requires |ws| == 6
    ensures Sentence(ws) == ws[0] + (" " + (ws[1] + (" " + (ws[2] + (" " + (ws[3]
                              + (" " + (ws[4] + (" " + ws[5])))))))))
  {
    assert Sentence(ws[5..]) == ws[5];
    assert Sentence(ws[4..]) == ws[4] + ([' '] + Sentence(ws[5..]));
    assert Sentence(ws[3..]) == ws[3] + ([' '] + Sentence(ws[4..]));
    assert Sentence(ws[2..]) == ws[2] + ([' '] + Sentence(ws[3..]));
    assert Sentence(ws[1..]) == ws[1] + ([' '] + Sentence(ws[2..]));
  }

  lemma FoodText(t: string)
    requires t == "the food was excellent and fresh"
    ensures t == "the" + (" " + ("food" + (" " + ("was" + (" " + ("excellent"
                   + (" " + ("and" + (" " + "fresh")))))))))
  {
  }

  lemma FoodSentence(t: string, ws: seq<string>)
    requires t == "the food was excellent and fresh"
    requires ws == ["the", "food", "was", "excellent", "and", "fresh"]
    ensures Sentence(ws) == t
  {
    SentenceOfSix(ws);
    FoodText(t);
  }

  lemma FoodAreWords(ws: seq<string>)
    requires ws == ["the", "food", "was", "excellent", "and", "fresh"]
    ensures forall i :: 0 <= i < |ws| ==> AllLetters(ws[i]) && |ws[i]| >= 3
  {
    assert AllLetters(ws[0]) && AllLetters(ws[1]) && AllLetters(ws[2]);
    assert AllLetters(ws[3]) && AllLetters(ws[4]) && AllLetters(ws[5]);
  }

  lemma AtencionWords(t: string, ws: seq<string>)
    requires t == "muy buena atencion"
    requires ws == ["muy", "buena", "atencion"]
    ensures Sentence(ws) == t
    ensures forall i :: 0 <= i < |ws| ==> AllLetters(ws[i]) && |ws[i]| >= 3
  {
    assert Sentence(ws[2..]) == "atencion";
    assert Sentence(ws[1..]) == "buena" + ([' '] + Sentence(ws[2..]));
    assert Sentence(ws) == "muy" + ([' '] + Sentence(ws[1..]));
    assert AllLetters(ws[0]) && AllLetters(ws[1]) && AllLetters(ws[2]);
  }

  /** A text with enough valid words and three different characters is retained. */
  lemma RetainedByWords(t: string, ws: seq<string>, x: char, y: char, z: char)
    requires |ws| >= MinPalabras
    requires forall i :: 0 <= i < |ws| ==> AllLetters(ws[i]) && |ws[i]| >= 3
    requires Sentence(ws) == t
    requires x in t && y in t && z in t && x != y && y != z && x != z
    ensures Retenido(t)
  {
    SentenceWords(ws);
    ValidWordsAreNotSymbols(t);
    ThreeCharsNotJunk(t, x, y, z);
    if t in PalabrasGenericas {
      GenericPhrasesLackValidWords(t);
    }
  }

  lemma FoodRetained(t: string)
    requires t == "the food was excellent and fresh"
    ensures Retenido(t)
  {
    var ws := ["the", "food", "was", "excellent", "and", "fresh"];
    FoodSentence(t, ws);
    FoodAreWords(ws);
    assert t[0] == 't' && t[1] == 'h' && t[2] == 'e';
    RetainedByWords(t, ws, 't', 'h', 'e');
  }

  lemma AtencionRetained(t: string)
    requires t == "muy buena atencion"
    ensures Retenido(t)
  {
    var ws := ["muy", "buena", "atencion"];
    AtencionWords(t, ws);
    assert t[0] == 'm' && t[1] == 'u' && t[2] == 'y';
    RetainedByWords(t, ws, 'm', 'u', 'y');
  }

  lemma DotsDropped(t: string)
    requires t == "...."
    ensures !Retenido(t)
  {
    assert EsSoloSimbolos(t);
  }

  lemma GenericCellsDropped(na: string, xx: string)
    requires na == "na" && xx == "xx"
    ensures !Retenido(na) && !Retenido(xx)
  {
    assert na in PalabrasGenericas && xx in PalabrasGenericas;
  }

  lemma DropNaScenario(cells: seq<Option<string>>, raw: seq<string>)
    requires |cells| == 6 && |raw| == 5
    requires forall i :: 0 <= i < 5 ==> cells[i] == Some(raw[i])
    requires cells[5] == None
    ensures DropNa(cells) == raw
  {
    assert cells == cells[..5] + [None];
    DropNaAppend(cells[..5], [None]);
    DropNaAllPresent(cells[..5], raw);
    assert DropNa([None]) == [] + DropNa([]);
  }

  lemma FilterSecondAndLast<T(!new)>(p: T -> bool, s: seq<T>)
    requires |s| == 5 && !p(s[0]) && p(s[1]) && !p(s[2]) && !p(s[3]) && p(s[4])
    ensures Filter(p, s) == [s[1], s[4]]
  {
    assert Filter(p, s[4..]) == [s[4]] + Filter(p, []);
    assert Filter(p, s[3..]) == [] + Filter(p, s[4..]);
    assert Filter(p, s[2..]) == [] + Filter(p, s[3..]);
    assert Filter(p, s[1..]) == [s[1]] + Filter(p, s[2..]);
    assert Filter(p, s) == [] + Filter(p, s[1..]);
  }

  lemma ScenarioNormalizados(cells: seq<Option<string>>, raw: seq<string>, food: string,
                             atencion: string)
    requires |cells| == 6 && |raw| == 5
    requires forall i :: 0 <= i < 5 ==> cells[i] == Some(raw[i])
    requires cells[5] == None
    requires raw[0] == "NA" && raw[1] == food && raw[2] == "...." && raw[3] == "xx"
    requires raw[4] == "Muy buena atención"
    requires food == "the food was excellent and fresh"
    requires atencion == "muy buena atencion"
    ensures var s := Normalizados(cells);
      |s| == 5 && s[0] == "na" && s[1] == food && s[2] == "...." && s[3] == "xx"
      && s[4] == atencion
  {
    DropNaScenario(cells, raw);
    NormalNA(raw[0]);
    PlainCells(food, raw[2], raw[3]);
    NormalAtencion(raw[4], atencion);
  }

  /** The whole chain on the worked column. */
  lemma Scenario(cells: seq<Option<string>>, raw: seq<string>, food: string,
                 atencion: string)
    requires raw == ["NA", food, "....", "xx", "Muy buena atención"]
    requires cells == [Some(raw[0]), Some(raw[1]), Some(raw[2]), Some(raw[3]),
                       Some(raw[4]), None]
    requires food == "the food was excellent and fresh"
    requires atencion == "muy buena atencion"
    ensures FiltrarComentarios(cells) == [food, atencion]
  {
    ScenarioNormalizados(cells, raw, food, atencion);
    var s := Normalizados(cells);
    FoodRetained(food);
    AtencionRetained(atencion);
    DotsDropped(s[2]);
    GenericCellsDropped(s[0], s[3]);
    ChainIsOneFilter(cells);
    FilterSecondAndLast(Retenido, s);
  }
}
