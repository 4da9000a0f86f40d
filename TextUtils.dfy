/** The comment-quality helpers of `sentiment_analysis/app/text_utils.py`: the two
    configuration constants, the normaliser and the three junk tests.

    The regular expressions of the source are modelled by what the `re` engine does with
    them: `re.search` as a scan for the first matching position, `re.fullmatch` as a
    condition on the whole string, `re.findall` as a left-to-right scan that takes the
    longest match where one starts and otherwise moves one character on.
 */
module TextUtils {
  import opened Alphabet
  import opened Wrappers

  /** `MIN_PALABRAS`: how many words a comment needs to be worth classifying. */
  const MinPalabras: nat := 3

  /** `PALABRAS_GENERICAS`: comments that carry no opinion, compared after normalising. */
  const PalabrasGenericas: set<string> :=
    {"na", "n/a", "no aplica", "ninguno", "sin comentario",
     ".", "..", "...", "-", "--", "x", "xx", "ok", "none"}

  // ---------------------------------------------------------------------------------
  // normalizar_texto
  // ---------------------------------------------------------------------------------

  /** `str.lower()`, character by character. */
  function Lower(t: string): (r: string)
    ensures |r| == |t|
    ensures forall i :: 0 <= i < |t| ==> r[i] == LowerChar(t[i])
  {
    seq(|t|, i requires 0 <= i < |t| => LowerChar(t[i]))
  }

  /** The leading half of `str.strip()`: what is left is a suffix of `t`, everything
      dropped was whitespace, and the suffix does not start with whitespace. */
  function StripStart(t: string): (r: string)
    ensures |r| <= |t| && r == t[|t| - |r|..]
    ensures forall i :: 0 <= i < |t| - |r| ==> IsWhitespace(t[i])
    ensures r == [] || !IsWhitespace(r[0])
  {
    if t != [] && IsWhitespace(t[0]) then StripStart(t[1..]) else t
  }

  /** The trailing half of `str.strip()`: a prefix of `t` that does not end with
      whitespace, and only whitespace was dropped. */
  function StripEnd(t: string): (r: string)
    ensures |r| <= |t| && r == t[..|r|]
    ensures forall i :: |r| <= i < |t| ==> IsWhitespace(t[i])
    ensures r == [] || !IsWhitespace(r[|r| - 1])
  {
    if t != [] && IsWhitespace(t[|t| - 1]) then StripEnd(t[..|t| - 1]) else t
  }

  /** `str.strip()`: neither end of the result is whitespace (`StripIsSlice` in
      `NormalizationFacts` shows which slice of `t` it is). */
  function Strip(t: string): (r: string)
    ensures |r| <= |t|
    ensures r == [] || (!IsWhitespace(r[0]) && !IsWhitespace(r[|r| - 1]))
  {
    StripEnd(StripStart(t))
  }

  /** `unicodedata.normalize("NFKD", t)` on the modelled alphabet. Canonical reordering
      of consecutive marks is not modelled: every mark is dropped right afterwards. */
  function Decompose(t: string): (r: string)
    ensures |t| <= |r| <= 2 * |t|
    ensures (forall i :: 0 <= i < |t| ==> IsNormalChar(t[i])) ==> r == t
  {
    if t == [] then [] else DecomposeChar(t[0]) + Decompose(t[1..])
  }

  /** `"".join(c for c in t if not unicodedata.combining(c))`. */
  function RemoveCombining(t: string): (r: string)
    ensures |r| <= |t|
    ensures forall c :: c in r <==> c in t && !IsCombining(c)
  {
    if t == [] then [] else (if IsCombining(t[0]) then [] else [t[0]]) + RemoveCombining(t[1..])
  }

  /** `normalizar_texto`: lower-case, strip, decompose, drop the combining marks. */
  function NormalizarTexto(t: string): (r: string)
    ensures forall c :: c in r ==> !IsCombining(c)
  {
    RemoveCombining(Decompose(Strip(Lower(t))))
  }

  // ---------------------------------------------------------------------------------
  // The character class [a-záéíóúñ] shared by es_solo_simbolos and tiene_palabras_validas
  // ---------------------------------------------------------------------------------

  /** Membership in the case-sensitive class `[a-záéíóúñ]`: no capital, no whitespace and
      no combining mark belongs to it. */
  function InLetterClass(c: char): (r: bool)
    ensures r ==> !IsUpperAscii(c) && !IsWhitespace(c) && !IsCombining(c)
  {
    || 'a' <= c <= 'z'
    || c == 'á' || c == 'é' || c == 'í' || c == 'ó' || c == 'ú' || c == 'ñ'
  }

  // ---------------------------------------------------------------------------------
  // es_solo_simbolos
  // ---------------------------------------------------------------------------------

  /** `re.search(r"[a-záéíóúñ]", t)`: the position of the first class letter, if any. */
  function SearchLetter(t: string): (r: Option<nat>)
    ensures r.Some? ==> r.value < |t| && InLetterClass(t[r.value])
    ensures r.Some? ==> forall i :: 0 <= i < r.value ==> !InLetterClass(t[i])
    ensures r.None? ==> forall i :: 0 <= i < |t| ==> !InLetterClass(t[i])
  {
    if t == [] then None
    else if InLetterClass(t[0]) then Some(0)
    else match SearchLetter(t[1..])
      case None => None
      case Some(i) => Some(i + 1)
  }

  /** `es_solo_simbolos`: the search finds no class letter. */
  function EsSoloSimbolos(t: string): (r: bool)
    ensures r <==> forall i :: 0 <= i < |t| ==> !InLetterClass(t[i])
  {
    SearchLetter(t).None?
  }

  // ---------------------------------------------------------------------------------
  // es_texto_basura
  // ---------------------------------------------------------------------------------

  /** `re.fullmatch(r"(.)\1{4,}", t)`: the whole string is one character, repeated at
      least five times; `.` does not match a newline. */
  function RepeatFullMatch(t: string): (r: bool)
    ensures r ==> |t| >= 5 && forall i, j :: 0 <= i < j < |t| ==> t[i] == t[j]
    ensures r ==> forall i :: 0 <= i < |t| ==> t[i] != '\n'
    ensures (|t| >= 5 && (forall i :: 0 <= i < |t| ==> t[i] != '\n')
             && (forall i, j :: 0 <= i < j < |t| ==> t[i] == t[j])) ==> r
  {
    |t| >= 5 && t[0] != '\n' && forall i :: 1 <= i < |t| ==> t[i] == t[0]
  }

  /** `set(t)`: exactly the characters of `t`, so never more of them than its length. */
  function DistinctChars(t: string): (r: set<char>)
    ensures forall c :: c in r <==> c in t
    ensures |r| <= |t|
    ensures t != [] ==> |r| >= 1
  {
    if t == [] then {} else {t[0]} + DistinctChars(t[1..])
  }

  /** `es_texto_basura`: a long single-character repeat, or at most two distinct
      characters. */
  function EsTextoBasura(t: string): (r: bool)
    ensures |t| <= 2 ==> r
  {
    RepeatFullMatch(t) || |DistinctChars(t)| <= 2
  }

  // ---------------------------------------------------------------------------------
  // tiene_palabras_validas
  // ---------------------------------------------------------------------------------

  /** The length of the run of class letters `t` starts with. */
  function RunLength(t: string): (n: nat)
    ensures n <= |t|
    ensures forall i :: 0 <= i < n ==> InLetterClass(t[i])
    ensures n < |t| ==> !InLetterClass(t[n])
  {
    if t != [] && InLetterClass(t[0]) then 1 + RunLength(t[1..]) else 0
  }

  /** `re.findall(r"[a-záéíóúñ]{3,}", t)`: where at least three class letters start, the
      greedy quantifier takes the whole run and the scan resumes after it; elsewhere the
      scan moves on by one character. */
  function FindAllWords(t: string): (ws: seq<string>)
    ensures forall w :: w in ws ==> |w| >= 3 && forall i :: 0 <= i < |w| ==> InLetterClass(w[i])
    ensures 3 * |ws| <= |t|
    decreases |t|
  {
    if t == [] then []
    else
      var n := RunLength(t);
      if n >= 3 then [t[..n]] + FindAllWords(t[n..]) else FindAllWords(t[1..])
  }

  /** `tiene_palabras_validas`: at least `MIN_PALABRAS` matches, which needs a text of at
      least three letters per word. */
  function TienePalabrasValidas(t: string): (r: bool)
    ensures r ==> |t| >= 3 * MinPalabras
  {
    |FindAllWords(t)| >= MinPalabras
  }
}
