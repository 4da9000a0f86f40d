# Comment filter of the sentiment-analysis service, in Dafny

The service takes a one-column spreadsheet of free-text survey comments. It classifies
each comment's sentiment and reports the counts. Before any comment reaches the sentiment
classifier, `analizar_estados` passes the column through a filter chain. The chain:

- drops the empty cells;
- normalises each comment with `normalizar_texto`: lower case, outer whitespace removed,
  accents and the tilde of ñ removed through NFKD decomposition;
- discards the comments that are generic answers (`PALABRAS_GENERICAS`), symbols only
  (`es_solo_simbolos`) or junk (`es_texto_basura`);
- keeps only the comments with at least `MIN_PALABRAS` (3) words of three or more letters
  (`tiene_palabras_validas`).

This project models those helpers and that chain as pure functions, and proves what they
do.

| file | module | contents |
|---|---|---|
| `Wrappers.dfy` | `Wrappers` | `Option`, standing for an empty spreadsheet cell |
| `Alphabet.dfy` | `Alphabet` | the Unicode facts the normaliser consults, as an explicit table: case mapping, whitespace, NFKD decomposition, combining marks |
| `TextUtils.dfy` | `TextUtils` | `MinPalabras`, `PalabrasGenericas` and the four helpers of `text_utils.py`; the regular expressions are modelled by what the `re` engine does with them |
| `NormalizationFacts.dfy` | `NormalizationFacts` | `normalizar_texto` against an independent per-character table (`Fold`): what it maps to what, the length bound, whitespace, idempotence and where it breaks |
| `ClassifierFacts.dfy` | `ClassifierFacts` | the three junk tests: characterisations, a reference definition of the word count, and how the tests imply one another |
| `Seqs.dfy` | `Seqs` | pandas `apply` and boolean-mask selection as `Map` and `Filter`, with fusion and commutation of filters |
| `AnalizarEstados.dfy` | `AnalizarEstados` | the chain of `main.py` lines 108-113 and its properties |
| `Escenario.dfy` | `Escenario` | a worked column, proved to yield exactly its two real comments |

Two places where the code does not do what its own names and character classes suggest.
The model follows the code:

- The letter classes list ñ and the accented vowels, as if they survived normalisation.
  In the code, NFKD splits ñ into `n` plus a combining tilde, and the tilde is then
  removed, so ñ becomes `n`.
  `NormalizationFacts.NormalizeExample` shows this. The accented and ñ members of the
  character class `[a-záéíóúñ]` therefore never match normalised text
  (`NormalizationFacts.NormalizedChars`).
- A normaliser is expected to be idempotent, and this one is not always. In the code,
  `strip()` runs before the marks are removed. A comment that begins with a combining
  mark standing on its own, followed by a space, keeps that space after one pass and
  loses it on the second: U+0301, space, `a` becomes " a" and then "a".
  `NormalizationFacts.BareMarkBreaksIdempotence` proves this.
  `NormalizationFacts.NormalizeIdempotentIff` gives the exact condition: normalising the
  normal form changes nothing if and only if the normal form has no whitespace at either
  end. `NormalizationFacts.NormalizeIdempotent` states the same condition on the comment
  itself: idempotence holds if and only if the stripped comment, with its combining
  marks left out, neither starts nor ends with whitespace. Only a mark that shields
  whitespace from `strip()` breaks it. Precomposed letters and decomposed accents are
  fine anywhere, also at the end of the comment (`e` followed by U+0301,
  `NormalizationFacts.TrailingMarkIdempotent`).

The two constants are modelled as `TextUtils.MinPalabras` (3, `text_utils.py` line 4) and
`TextUtils.PalabrasGenericas` (the fourteen phrases of lines 6-9).

## Model

| member | source | states |
|---|---|---|
| Alphabet.IsCombining | sentiment_analysis/app/text_utils.py:14 | `unicodedata.combining` on the table: every mark of the table lies in the Combining Diacritical Marks block U+0300-U+036F |
| Alphabet.IsWhitespace | sentiment_analysis/app/text_utils.py:12 | `isspace()` on the table: blank, tab, line feed and carriage return are whitespace, and every whitespace character lies in Latin-1 |
| Alphabet.LowerChar | sentiment_analysis/app/text_utils.py:12 | `lower()` of one character leaves no ASCII capital, moves an ASCII capital 32 code points down, changes nothing outside the ASCII and Latin-1 capitals, and neither creates nor removes whitespace or marks |
| Alphabet.DecomposeChar | sentiment_analysis/app/text_utils.py:13 | NFKD of one character gives one or two characters; two only for a base letter (not whitespace, not a mark) followed by a mark; one is the character itself or, for the no-break space, a blank |
| TextUtils.Lower | sentiment_analysis/app/text_utils.py:12 | `lower()` keeps the length and maps every character through the case table |
| TextUtils.StripStart | sentiment_analysis/app/text_utils.py:12 | the leading half of `strip()`: the result is a suffix, only whitespace was dropped, and it does not start with whitespace |
| TextUtils.StripEnd | sentiment_analysis/app/text_utils.py:12 | the trailing half of `strip()`: the result is a prefix, only whitespace was dropped, and it does not end with whitespace |
| TextUtils.Strip | sentiment_analysis/app/text_utils.py:12 | `strip()` never lengthens, and neither end of its result is whitespace |
| NormalizationFacts.StripIsSlice | sentiment_analysis/app/text_utils.py:12 | `strip()` returns the slice of the text between its leading and its trailing whitespace, and everything outside that slice is whitespace |
| TextUtils.Decompose | sentiment_analysis/app/text_utils.py:13 | NFKD never shortens and at most doubles the text, and leaves text made of already-normal characters unchanged |
| TextUtils.RemoveCombining | sentiment_analysis/app/text_utils.py:14 | a character survives exactly when it was there and is not a combining mark |
| TextUtils.NormalizarTexto | sentiment_analysis/app/text_utils.py:11-14 | normalised text contains no combining character |
| TextUtils.InLetterClass | sentiment_analysis/app/text_utils.py:17 | the class `[a-záéíóúñ]` (also used on line 23) holds no capital, no whitespace and no combining mark |
| TextUtils.SearchLetter | sentiment_analysis/app/text_utils.py:17 | `re.search` returns the first position holding a class letter, and nothing exactly when there is no class letter |
| TextUtils.EsSoloSimbolos | sentiment_analysis/app/text_utils.py:16-17 | true exactly when no character is in `[a-záéíóúñ]` |
| TextUtils.RepeatFullMatch | sentiment_analysis/app/text_utils.py:20 | `fullmatch(r"(.)\1{4,}")` holds exactly for five or more characters, all equal, none a newline |
| TextUtils.DistinctChars | sentiment_analysis/app/text_utils.py:20 | `set()` holds exactly the characters of the text: at most as many as its length, and at least one when it is not empty |
| TextUtils.EsTextoBasura | sentiment_analysis/app/text_utils.py:19-20 | every text of at most two characters is junk (`ClassifierFacts.EsTextoBasuraIffFewChars` gives the full characterisation) |
| TextUtils.RunLength | sentiment_analysis/app/text_utils.py:23 | the greedy `{3,}` quantifier takes the maximal run of class letters |
| TextUtils.FindAllWords | sentiment_analysis/app/text_utils.py:23 | every match of `re.findall` has at least three characters, all class letters, and the text has at least three characters per match |
| TextUtils.TienePalabrasValidas | sentiment_analysis/app/text_utils.py:22-24 | enough valid words (`MIN_PALABRAS` = 3) needs a text of at least nine characters (`ClassifierFacts.TienePalabrasValidasIffLongRuns` gives the full characterisation) |
| NormalizationFacts.FoldIsLowerDecomposeRemove | sentiment_analysis/app/text_utils.py:12-14 | lowering, decomposing and dropping marks one character gives its entry in the independent table `Fold` |
| NormalizationFacts.FoldProperties | sentiment_analysis/app/text_utils.py:12-14 | only a combining mark folds to nothing; folding keeps whitespace-ness and yields characters normalisation leaves alone |
| NormalizationFacts.NormalizeCharwise | sentiment_analysis/app/text_utils.py:11-14 | normalising equals stripping and then folding every character through the table (capitals to lower case, accented vowels to the base vowel, ñ and Ñ to `n`) |
| NormalizationFacts.NormalizedChars | sentiment_analysis/app/text_utils.py:11-14 | normalised text has no capital letter, no precomposed letter and no mark; every class letter in it is `a`-`z` |
| NormalizationFacts.NormalizeShortens | sentiment_analysis/app/text_utils.py:11-14 | on the modelled alphabet normalising never lengthens a comment |
| NormalizationFacts.NormalizeExample | sentiment_analysis/app/text_utils.py:11-14 | " Ñandú" followed by a tab normalises to "nandu" |
| NormalizationFacts.StripPadded | sentiment_analysis/app/text_utils.py:12 | `strip()` ignores any whitespace added at either end |
| NormalizationFacts.NormalizeIgnoresOuterWhitespace | sentiment_analysis/app/text_utils.py:11-14 | whitespace added around a comment does not change its normal form |
| NormalizationFacts.WhitespaceNormalizesToEmpty | sentiment_analysis/app/text_utils.py:11-14 | a whitespace-only comment normalises to the empty string |
| NormalizationFacts.NormalFixedPoint | sentiment_analysis/app/text_utils.py:11-14 | trimmed text made of characters normalisation leaves alone is its own normal form |
| NormalizationFacts.RenormalizeStrips | sentiment_analysis/app/text_utils.py:11-14 | normalising a normal form only strips it: every character it holds is left alone |
| NormalizationFacts.NormalizeIdempotentIff | sentiment_analysis/app/text_utils.py:11-14 | normalising the normal form again changes nothing if and only if the normal form has no whitespace at either end |
| NormalizationFacts.NormalizeIdempotent | sentiment_analysis/app/text_utils.py:11-14 | normalising twice equals normalising once if and only if the stripped comment, its combining marks left out, neither starts nor ends with whitespace |
| NormalizationFacts.TrailingMarkIdempotent | sentiment_analysis/app/text_utils.py:11-14 | `e` followed by a combining acute accent is normalised idempotently: a decomposed accent at the end does no harm |
| NormalizationFacts.BareMarkBreaksIdempotence | sentiment_analysis/app/text_utils.py:11-14 | U+0301, space, `a` normalises to " a" and then to "a": a mark at the start can break idempotence |
| ClassifierFacts.SoloSimbolosExamples | sentiment_analysis/app/text_utils.py:16-17 | the empty text, "ABC" and "12345" are symbols only (the class is case-sensitive); "ok 123" is not |
| ClassifierFacts.EsTextoBasuraIffFewChars | sentiment_analysis/app/text_utils.py:19-20 | junk exactly when there are at most two distinct characters: a full-match repeat has one, so that clause never decides |
| ClassifierFacts.EmptyIsJunk | sentiment_analysis/app/text_utils.py:19-20 | the empty text is junk |
| ClassifierFacts.TextoBasuraExamples | sentiment_analysis/app/text_utils.py:19-20 | "ab ab ab" is not junk; "aaaaa" (a full-match repeat) and "aa aa" are |
| ClassifierFacts.ThreeCharsNotJunk | sentiment_analysis/app/text_utils.py:19-20 | three different characters anywhere in a text make it not junk |
| ClassifierFacts.FindAllIsLongTokens | sentiment_analysis/app/text_utils.py:23 | the `re.findall` scan returns exactly the pieces of length three or more obtained by splitting at every non-class character, in order |
| ClassifierFacts.TienePalabrasValidasIffLongRuns | sentiment_analysis/app/text_utils.py:22-24 | enough valid words exactly when at least three maximal class-letter runs are three or more long; a long run counts once |
| ClassifierFacts.LettersCoverWords | sentiment_analysis/app/text_utils.py:23 | the text holds at least three class letters for every matched word |
| ClassifierFacts.ValidWordsAreNotSymbols | sentiment_analysis/app/text_utils.py:16-24 | a text with enough valid words has at least nine class letters and is not symbols only |
| ClassifierFacts.SentenceWords | sentiment_analysis/app/text_utils.py:23 | in words of three or more class letters joined by single spaces, `re.findall` finds exactly those words |
| ClassifierFacts.FiveWordsExample | sentiment_analysis/app/text_utils.py:22-24 | "the service was great today" yields its five words and has enough valid words |
| ClassifierFacts.NoThreeLettersNoWords | sentiment_analysis/app/text_utils.py:23 | a text without three class letters in a row yields no match at all |
| ClassifierFacts.ShortWordsExample | sentiment_analysis/app/text_utils.py:22-24 | "ok go no" yields no match at all, so it has no valid word: two-letter words do not count |
| ClassifierFacts.SinComentarioHasTwoWords | sentiment_analysis/app/text_utils.py:23 | "sin comentario" yields exactly two matches |
| ClassifierFacts.GenericPhrasesLackValidWords | sentiment_analysis/app/text_utils.py:6-9 | no phrase of `PALABRAS_GENERICAS` has enough valid words |
| Seqs.Map | sentiment_analysis/app/main.py:109 | `apply` keeps the positions and transforms each value |
| Seqs.Filter | sentiment_analysis/app/main.py:110-113 | mask selection keeps exactly the elements that pass, each as many times as it occurs, and never more elements than there were |
| Seqs.FilterIsSubseq | sentiment_analysis/app/main.py:110-113 | mask selection keeps the original order |
| Seqs.FilterFuse | sentiment_analysis/app/main.py:110-113 | two successive selections are one selection by the conjunction |
| Seqs.FilterCommute | sentiment_analysis/app/main.py:110-113 | two successive selections may be swapped |
| Seqs.FilterChain4 | sentiment_analysis/app/main.py:110-113 | four successive selections are one selection by their conjunction |
| AnalizarEstados.DropNa | sentiment_analysis/app/main.py:108 | `dropna()` keeps exactly the values of the present cells |
| AnalizarEstados.DropNaAllPresent | sentiment_analysis/app/main.py:108 | a column without empty cells passes `dropna()` unchanged |
| AnalizarEstados.Normalizados | sentiment_analysis/app/main.py:108-109 | one normal form per present cell, in the cells' order |
| AnalizarEstados.FiltrarComentarios | sentiment_analysis/app/main.py:108-113 | every output comment passes all four tests, and there are no more of them than present cells |
| AnalizarEstados.ChainIsOneFilter | sentiment_analysis/app/main.py:108-113 | the chain selects, from the normalised present cells, exactly those passing all four tests |
| AnalizarEstados.ChainKeepsOrder | sentiment_analysis/app/main.py:108-113 | the output is a subsequence, in original order, of the normalised present cells |
| AnalizarEstados.ChainMembership | sentiment_analysis/app/main.py:110-113 | a comment is output exactly when it is a normalised present cell passing all four tests |
| AnalizarEstados.ChainKeepsDuplicates | sentiment_analysis/app/main.py:108-113 | repeated comments are not merged: a retained normal form occurs in the output as often as among the normalised present cells, a rejected one not at all |
| AnalizarEstados.ChainComplete | sentiment_analysis/app/main.py:108-113 | every present cell whose normal form passes all four tests reaches the output |
| AnalizarEstados.FiltersCommute | sentiment_analysis/app/main.py:110-113 | applying the four filters in reverse order gives the same output |
| AnalizarEstados.ChainNeedsTwoTests | sentiment_analysis/app/main.py:110-113 | the chain equals selecting by "enough valid words and not junk" alone |
| AnalizarEstados.GenericPhrasesAreNormal | sentiment_analysis/app/text_utils.py:6-9 | every generic phrase is its own normal form, so the membership test on line 110 of `main.py`, which runs after normalising, can match each of them |
| AnalizarEstados.EmptyCellIgnored | sentiment_analysis/app/main.py:108-109 | an empty cell anywhere changes nothing: cells are dropped before normalising |
| AnalizarEstados.ChainBounds | sentiment_analysis/app/main.py:108-113 | no more output than present cells, no more present cells than cells, and no input gives no output |
| AnalizarEstados.BlankCommentDropped | sentiment_analysis/app/main.py:108-113 | a whitespace-only comment normalises to "" and never reaches the output |
| Escenario.Scenario | sentiment_analysis/app/main.py:108-113 | the column "NA", "the food was excellent and fresh", "....", "xx", "Muy buena atención", empty gives exactly the second and the normalised fifth, in that order |

## Left out

- Flask routes, sessions, redirects and templates in `main.py`: HTTP and user-interface plumbing.
- Google sign-in token verification: a call into a foreign library.
- Reading and writing Excel files with pandas, and the one-column check: I/O. The input is a sequence of cells, each already a string or empty (`None`).
- `read_excel` turns cells such as "NA", "n/a", "None" and "null" into empty cells before `dropna()`. The model does not; it receives such a cell as a string. In `Escenario.Scenario` the cell "NA" therefore cannot come from a real sheet. The output is the same either way, because "na" is a generic phrase.
- `astype(str)` on numeric cells: pandas' formatting of numbers is not modelled. Cells arrive as strings.
- The sentiment call, the counts and percentages, the chart and its base64 encoding: a foreign network service, floating point and rendering. `app/sentiment.py` is not part of this model.
- The full Unicode database. Only the explicit table in `Alphabet.dfy` is modelled; any other character is treated as caseless, not whitespace, not combining and without a decomposition.
- NFKD canonical reordering of consecutive combining marks: every mark is removed immediately afterwards, so the order has no effect on the result.
- NormalizationFacts.NormalizeShortens: proved on the modelled alphabet only. With full Unicode, compatibility decompositions such as the fi ligature U+FB01 expand one character into two.
- Idempotence with full Unicode: U+00A8, a spacing diaeresis that decomposes to a space plus a mark, also breaks it. It lies outside the modelled alphabet.
- AnalizarEstados.FiltersCommute: states the reverse order only. `Seqs.FilterCommute` swaps any two neighbouring filters, and every order follows from repeated swaps.
- The pandas index is not modelled; only the order of the values is.
