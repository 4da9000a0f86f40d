/** The Unicode facts the comment normaliser consults, given as a small explicit table.

    The real program asks the Unicode Character Database for case mappings (`str.lower`),
    the whitespace property (`str.strip`), compatibility decompositions (NFKD, Unicode
    Standard Annex #15) and the combining class (`unicodedata.combining`). This module
    fixes those answers for the alphabet the model covers: ASCII, the Spanish accented
    vowels, n with tilde and u with diaeresis in both cases, the no-break space, the
    Latin-1 whitespace characters and the three combining marks those letters decompose
    into. Every other character is treated as caseless, not whitespace, not combining and
    without decomposition.
 */
module Alphabet {

  const Acute: char := '\U{0301}'
  const Tilde: char := '\U{0303}'
  const Diaeresis: char := '\U{0308}'
  const NoBreakSpace: char := '\U{00A0}'

  /** `unicodedata.combining(c) != 0` on the modelled alphabet: the marks all lie in the
      Combining Diacritical Marks block. */
  function IsCombining(c: char): (r: bool)
    ensures r ==> 0x300 <= c as int <= 0x36F
  {
    c == Acute || c == Tilde || c == Diaeresis
  }

  /** `c.isspace()` on the modelled alphabet: the characters `str.strip()` removes. All of
      them lie in Latin-1, and the blank, tab, line feed and carriage return are among
      them. */
  function IsWhitespace(c: char): (r: bool)
    ensures r ==> c as int <= 0xFF
    ensures c == ' ' || c == '\t' || c == '\n' || c == '\r' ==> r
  {
    || c == ' '
    || '\t' <= c <= '\r'
    || '\U{001C}' <= c <= '\U{001F}'
    || c == '\U{0085}'
    || c == NoBreakSpace
  }

  predicate IsUpperAscii(c: char) {
    'A' <= c <= 'Z'
  }

  /** `c.lower()`: ASCII capitals and the accented capitals of the table. No capital is
      left, and lowering neither creates nor removes whitespace or combining marks. */
  function LowerChar(c: char): (r: char)
    ensures !IsUpperAscii(r)
    ensures IsUpperAscii(c) ==> r as int == c as int + 32
    ensures !IsUpperAscii(c) && !('\U{00C0}' <= c <= '\U{00DE}') ==> r == c
    ensures IsWhitespace(r) <==> IsWhitespace(c)
    ensures IsCombining(r) <==> IsCombining(c)
  {
    if IsUpperAscii(c) then (c as int + 32) as char
    else if c == 'Á' then 'á'
    else if c == 'É' then 'é'
    else if c == 'Í' then 'í'
    else if c == 'Ó' then 'ó'
    else if c == 'Ú' then 'ú'
    else if c == 'Ü' then 'ü'
    else if c == 'Ñ' then 'ñ'
    else c
  }

  /** The NFKD decomposition of one character: a precomposed letter becomes its base
      letter followed by its mark; the no-break space is compatibility-equivalent to a
      plain space. */
  function DecomposeChar(c: char): (r: seq<char>)
    ensures 1 <= |r| <= 2
    ensures |r| == 2 ==> !IsCombining(r[0]) && !IsWhitespace(r[0]) && IsCombining(r[1])
    ensures |r| == 2 ==> !IsCombining(c) && !IsWhitespace(c)
    ensures |r| == 1 ==> r[0] == c || (c == NoBreakSpace && r[0] == ' ')
    ensures IsWhitespace(r[0]) <==> IsWhitespace(c)
  {
    if c == 'á' then ['a', Acute]
    else if c == 'é' then ['e', Acute]
    else if c == 'í' then ['i', Acute]
    else if c == 'ó' then ['o', Acute]
    else if c == 'ú' then ['u', Acute]
    else if c == 'ü' then ['u', Diaeresis]
    else if c == 'ñ' then ['n', Tilde]
    else if c == 'Á' then ['A', Acute]
    else if c == 'É' then ['E', Acute]
    else if c == 'Í' then ['I', Acute]
    else if c == 'Ó' then ['O', Acute]
    else if c == 'Ú' then ['U', Acute]
    else if c == 'Ü' then ['U', Diaeresis]
    else if c == 'Ñ' then ['N', Tilde]
    else if c == NoBreakSpace then [' ']
    else [c]
  }

  /** A character normalisation leaves alone: already lower case, without a
      decomposition and not a combining mark. */
  predicate IsNormalChar(c: char) {
    LowerChar(c) == c && DecomposeChar(c) == [c] && !IsCombining(c)
  }
}
