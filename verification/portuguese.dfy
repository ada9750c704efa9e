/** The Portuguese language profile: its code, its name and its two fixed
    transition matrices (standard and easy mode). */
module PortugueseMatrix {
  import opened Php
  import opened Transitions
  import opened LetterTables

  /** `getLanguageCode()` */
  function LanguageCode(): Text
  {
    Ascii("pt")
  }

  /** `getLanguageName()` */
  function LanguageName(): Text
  {
    Ascii("Portuguese")
  }

  // The standard table of `createStandard()` (src/Matrix/PortugueseMatrix.php:38-66, endings at line 69).

  const StandardOrder: string := "aeioubcdfghjlmnpqrstvxzç"

  const StandardNext: map<char, string> := map[
    'a' := "bcdlmnprstvziouç",
    'e' := "bcdlmnprstvziaouç",
    'i' := "acdlmnrstvzoç",
    'o' := "bcdlmnprstvzauç",
    'u' := "acdlmnrstzioç",
    'b' := "aeiorl",
    'c' := "aehioru",
    'd' := "aeior",
    'f' := "aeiloru",
    'g' := "aeiour",
    'h' := "aeiou",
    'j' := "aeiou",
    'l' := "aeiouh",
    'm' := "aeiou",
    'n' := "aeiouh",
    'p' := "aeiorl",
    'q' := "u",
    'r' := "aeiou",
    's' := "aeiout",
    't' := "aeiour",
    'v' := "aeiou",
    'x' := "aeiou",
    'z' := "aeiou",
    'ç' := "aeiou"]

  const StandardEndings: seq<string> :=
    ["a", "o", "e", "ar", "er", "ir", "or", "al", "el", "il", "ol", "es", "as", "os", "is", "em", "am", "ção", "ções"]

  const Standard: CharTable := CharTable(StandardOrder, StandardNext, StandardEndings)

  // The easy table of `createEasyMode()` (src/Matrix/PortugueseMatrix.php:85-109, endings at line 112).

  const EasyOrder: string := "aeioubcdfghjlmnprstv"

  const EasyNext: map<char, string> := map[
    'a' := "bcdlmnprstv",
    'e' := "bcdlmnprstv",
    'i' := "acdlmnrstv",
    'o' := "bcdlmnprstv",
    'u' := "acdlmnrst",
    'b' := "aeio",
    'c' := "aeio",
    'd' := "aeio",
    'f' := "aeio",
    'g' := "aeio",
    'h' := "aeio",
    'j' := "aeio",
    'l' := "aeio",
    'm' := "aeio",
    'n' := "aeio",
    'p' := "aeio",
    'r' := "aeio",
    's' := "aeio",
    't' := "aeio",
    'v' := "aeio"]

  const EasyEndings: seq<string> :=
    ["a", "o", "e", "ar", "er", "or", "al", "el", "as", "os", "em"]

  const Easy: CharTable := CharTable(EasyOrder, EasyNext, EasyEndings)

  // Facts checked on the characters of the literal tables, one at a time;
  // the factories below carry them over to the byte-level matrices.

  lemma StandardKeysListed()
    ensures (forall c | c in StandardOrder :: c in StandardNext) && (forall c | c in StandardNext :: c in StandardOrder)
  {
  }

  lemma StandardRowsClosed()
    ensures forall k | k in StandardNext :: StandardNext[k] != [] && forall c | c in StandardNext[k] :: c in StandardNext
  {
  }

  lemma StandardEndingsFilled()
    ensures forall e | e in StandardEndings :: e != []
  {
  }

  lemma EasyKeysListed()
    ensures (forall c | c in EasyOrder :: c in EasyNext) && (forall c | c in EasyNext :: c in EasyOrder)
  {
  }

  lemma EasyRowsClosed()
    ensures forall k | k in EasyNext :: EasyNext[k] != [] && forall c | c in EasyNext[k] :: c in EasyNext
  {
  }

  lemma EasyEndingsFilled()
    ensures forall e | e in EasyEndings :: e != []
  {
  }

  lemma EasyVowelRowsInStandard()
    ensures forall k | k in EasyNext && k in "aeiou" :: k in StandardNext && forall c | c in EasyNext[k] :: c in StandardNext[k]
  {
  }

  lemma EasyConsonantRowsInStandard()
    ensures forall k | k in EasyNext && k !in "aeiou" :: k in StandardNext && forall c | c in EasyNext[k] :: c in StandardNext[k]
  {
  }

  lemma EasyRowsInStandard()
    ensures forall k | k in EasyNext :: k in StandardNext && forall c | c in EasyNext[k] :: c in StandardNext[k]
  {
    EasyVowelRowsInStandard();
    EasyConsonantRowsInStandard();
  }

  lemma EasyEndingsInStandard()
    ensures forall e | e in EasyEndings :: e in StandardEndings
  {
  }

  lemma EasyCharsAscii()
    ensures forall c | c in EasyOrder :: c as int < 0x80
    ensures forall k | k in EasyNext :: k as int < 0x80 && forall c | c in EasyNext[k] :: c as int < 0x80
    ensures forall e | e in EasyEndings :: forall c | c in e :: c as int < 0x80
  {
  }

  /** `createStandard()`: a closed, well-formed matrix whose starting letters
      are all of its keys (the excluded literal is none of them). */
  function CreateStandard(): (m: TransitionMatrix)
    ensures m == ToMatrix(Standard)
    ensures WellFormed(m.matrix) && Closed(m)
    ensures LettersNonEmpty(m) && EndingsNonEmpty(m)
    ensures GetStartingLetters(m) == m.matrix.keys
  {
    StandardKeysListed();
    StandardRowsClosed();
    StandardEndingsFilled();
    ToMatrixWellFormed(Standard);
    ToMatrixClosed(Standard);
    ToMatrixLettersNonEmpty(Standard);
    ToMatrixEndingsNonEmpty(Standard);
    ToMatrixStartingLetters(Standard);
    ToMatrix(Standard)
  }

  /** `createEasyMode()`: a closed, well-formed, all-ASCII matrix that only
      removes keys, successors and endings from the standard one. */
  function CreateEasyMode(): (m: TransitionMatrix)
    ensures m == ToMatrix(Easy)
    ensures WellFormed(m.matrix) && Closed(m)
    ensures LettersNonEmpty(m) && EndingsNonEmpty(m)
    ensures GetStartingLetters(m) == m.matrix.keys
  {
    EasyKeysListed();
    EasyRowsClosed();
    EasyEndingsFilled();
    ToMatrixWellFormed(Easy);
    ToMatrixClosed(Easy);
    ToMatrixLettersNonEmpty(Easy);
    ToMatrixEndingsNonEmpty(Easy);
    ToMatrixStartingLetters(Easy);
    ToMatrix(Easy)
  }

  /** Easy mode only removes keys, successors and endings from the standard matrix. */
  lemma EasyModeRestrictsStandard()
    ensures Restricts(CreateEasyMode(), CreateStandard())
  {
    EasyRowsInStandard();
    EasyEndingsInStandard();
    ToMatrixRestricts(Easy, Standard);
  }

  /** Every key, successor and ending of easy mode is plain ASCII. */
  lemma EasyModeAscii()
    ensures AsciiMatrix(CreateEasyMode())
  {
    EasyCharsAscii();
    ToMatrixAscii(Easy);
  }

  lemma CedillaKey()
    ensures 'ç' in StandardOrder
  {
  }

  /** 'ç' is a key of the standard matrix and, since nothing is excluded,
      also one of its starting letters. */
  lemma CedillaStartsStandardWords()
    ensures EncodeChar('ç') in GetStartingLetters(CreateStandard())
  {
    CedillaKey();
    ToMatrixKeys(Standard, 'ç');
  }

  /** 'ñ' is no key of the standard matrix. */
  lemma NoEnyeKey()
    ensures EncodeChar('ñ') !in CreateStandard().matrix.keys
  {
    NoEnyeChar();
    ToMatrixKeys(Standard, 'ñ');
  }

  lemma NoEnyeChar()
    ensures 'ñ' !in StandardOrder
  {
    assert forall i :: 0 <= i < |StandardOrder| ==> StandardOrder[i] != 'ñ';
  }

  lemma EasyLacksComplexChars()
    ensures 'q' !in EasyNext && 'x' !in EasyNext && 'z' !in EasyNext && 'ç' !in EasyNext
    ensures forall k | k in EasyNext :: 'ç' !in EasyNext[k]
  {
  }

  /** The easy matrix has no 'q', 'x', 'z' or 'ç' key. */
  lemma EasyLacksComplexKeys()
    ensures EncodeChar('q') !in CreateEasyMode().matrix.rows && EncodeChar('x') !in CreateEasyMode().matrix.rows
    ensures EncodeChar('z') !in CreateEasyMode().matrix.rows && EncodeChar('ç') !in CreateEasyMode().matrix.rows
  {
    EasyLacksComplexChars();
    ToMatrixKeys(Easy, 'q');
    ToMatrixKeys(Easy, 'x');
    ToMatrixKeys(Easy, 'z');
    ToMatrixKeys(Easy, 'ç');
  }

  /** No successor letter of the easy matrix is 'ç'. */
  lemma EasyNeverCedilla()
    ensures forall k | k in CreateEasyMode().matrix.rows :: EncodeChar('ç') !in CreateEasyMode().matrix.rows[k]
  {
    EasyLacksComplexChars();
    ToMatrixNeverFollows(Easy, 'ç');
  }
}
