/** The Spanish language profile: its code, its name and its two fixed
    transition matrices (standard and easy mode). */
module SpanishMatrix {
  import opened Php
  import opened Transitions
  import opened LetterTables

  /** `getLanguageCode()` */
  function LanguageCode(): Text
  {
    Ascii("es")
  }

  /** `getLanguageName()` */
  function LanguageName(): Text
  {
    Ascii("Spanish")
  }

  // The standard table of `createStandard()` (src/Matrix/SpanishMatrix.php:34-63, endings at line 66).

  const StandardOrder: string := "aeioubcdfghjlmnpqrstvxyzñ"

  const StandardNext: map<char, string> := map[
    'a' := "bcdlmnprstvyiou",
    'e' := "bcdlmnprstvxziaou",
    'i' := "acdlmnrstvo",
    'o' := "bcdlmnprstvau",
    'u' := "acdlmnrstio",
    'b' := "aeiorl",
    'c' := "aehioru",
    'd' := "aeior",
    'f' := "aeiloru",
    'g' := "aeiour",
    'h' := "aeiou",
    'j' := "aeiou",
    'l' := "aeioul",
    'm' := "aeiou",
    'n' := "aeiou",
    'p' := "aeiorl",
    'q' := "u",
    'r' := "aeiour",
    's' := "aeiout",
    't' := "aeiour",
    'v' := "aeiou",
    'x' := "aeiou",
    'y' := "aeiou",
    'z' := "aeiou",
    'ñ' := "aeiou"]

  const StandardEndings: seq<string> :=
    ["a", "o", "e", "ar", "er", "ir", "or", "al", "el", "il", "ol", "es", "as", "os", "is", "ión", "dad", "tad", "mente"]

  const Standard: CharTable := CharTable(StandardOrder, StandardNext, StandardEndings)

  // The easy table of `createEasyMode()` (src/Matrix/SpanishMatrix.php:77-101, endings at line 104).

  const EasyOrder: string := "aeioubcdfghjlmnprstv"

  const EasyNext: map<char, string> := map[
    'a' := "bcdlmnprst",
    'e' := "bcdlmnprst",
    'i' := "acdlmnrst",
    'o' := "bcdlmnprst",
    'u' := "acdlmnrst",
    'b' := "aeio",
    'c' := "aeio",
    'd' := "aeio",
    'f' := "aeio",
    'g' := "aeio",
    'h' := "aeio",
    'j' := "aeio",
    'l' := "aeio",
    'm' := "aeio",
    'n' := "aeio",
    'p' := "aeio",
    'r' := "aeio",
    's' := "aeio",
    't' := "aeio",
    'v' := "aeio"]

  const EasyEndings: seq<string> :=
    ["a", "o", "e", "ar", "er", "or", "al", "el", "as", "os"]

  const Easy: CharTable := CharTable(EasyOrder, EasyNext, EasyEndings)

  // Facts checked on the characters of the literal tables, one at a time;
  // the factories below carry them over to the byte-level matrices.

  lemma StandardKeysListed()
    ensures (forall c | c in StandardOrder :: c in StandardNext) && (forall c | c in StandardNext :: c in StandardOrder)
  {
  }

  lemma StandardRowsClosed()
    ensures forall k | k in StandardNext :: StandardNext[k] != [] && forall c | c in StandardNext[k] :: c in StandardNext
  {
  }

  lemma StandardEndingsFilled()
    ensures forall e | e in StandardEndings :: e != []
  {
  }

  lemma EasyKeysListed()
    ensures (forall c | c in EasyOrder :: c in EasyNext) && (forall c | c in EasyNext :: c in EasyOrder)
  {
  }

  lemma EasyRowsClosed()
    ensures forall k | k in EasyNext :: EasyNext[k] != [] && forall c | c in EasyNext[k] :: c in EasyNext
  {
  }

  lemma EasyEndingsFilled()
    ensures forall e | e in EasyEndings :: e != []
  {
  }

  lemma EasyVowelRowsInStandard()
    ensures forall k | k in EasyNext && k in "aeiou" :: k in StandardNext && forall c | c in EasyNext[k] :: c in StandardNext[k]
  {
  }

  lemma EasyConsonantRowsInStandard()
    ensures forall k | k in EasyNext && k !in "aeiou" :: k in StandardNext && forall c | c in EasyNext[k] :: c in StandardNext[k]
  {
  }

  lemma EasyRowsInStandard()
    ensures forall k | k in EasyNext :: k in StandardNext && forall c | c in EasyNext[k] :: c in StandardNext[k]
  {
    EasyVowelRowsInStandard();
    EasyConsonantRowsInStandard();
  }

  lemma EasyEndingsInStandard()
    ensures forall e | e in EasyEndings :: e in StandardEndings
  {
  }

  lemma EasyCharsAscii()
    ensures forall c | c in EasyOrder :: c as int < 0x80
    ensures forall k | k in EasyNext :: k as int < 0x80 && forall c | c in EasyNext[k] :: c as int < 0x80
    ensures forall e | e in EasyEndings :: forall c | c in e :: c as int < 0x80
  {
  }

  /** `createStandard()`: a closed, well-formed matrix whose starting letters
      are all of its keys (the excluded literal is none of them). */
  function CreateStandard(): (m: TransitionMatrix)
    ensures m == ToMatrix(Standard)
    ensures WellFormed(m.matrix) && Closed(m)
    ensures LettersNonEmpty(m) && EndingsNonEmpty(m)
    ensures GetStartingLetters(m) == m.matrix.keys
  {
    StandardKeysListed();
    StandardRowsClosed();
    StandardEndingsFilled();
    ToMatrixWellFormed(Standard);
    ToMatrixClosed(Standard);
    ToMatrixLettersNonEmpty(Standard);
    ToMatrixEndingsNonEmpty(Standard);
    ToMatrixStartingLetters(Standard);
    ToMatrix(Standard)
  }

  /** `createEasyMode()`: a closed, well-formed, all-ASCII matrix that only
      removes keys, successors and endings from the standard one. */
  function CreateEasyMode(): (m: TransitionMatrix)
    ensures m == ToMatrix(Easy)
    ensures WellFormed(m.matrix) && Closed(m)
    ensures LettersNonEmpty(m) && EndingsNonEmpty(m)
    ensures GetStartingLetters(m) == m.matrix.keys
  {
    EasyKeysListed();
    EasyRowsClosed();
    EasyEndingsFilled();
    ToMatrixWellFormed(Easy);
    ToMatrixClosed(Easy);
    ToMatrixLettersNonEmpty(Easy);
    ToMatrixEndingsNonEmpty(Easy);
    ToMatrixStartingLetters(Easy);
    ToMatrix(Easy)
  }

  /** Easy mode only removes keys, successors and endings from the standard matrix. */
  lemma EasyModeRestrictsStandard()
    ensures Restricts(CreateEasyMode(), CreateStandard())
  {
    EasyRowsInStandard();
    EasyEndingsInStandard();
    ToMatrixRestricts(Easy, Standard);
  }

  /** Every key, successor and ending of easy mode is plain ASCII. */
  lemma EasyModeAscii()
    ensures AsciiMatrix(CreateEasyMode())
  {
    EasyCharsAscii();
    ToMatrixAscii(Easy);
  }

  lemma EnyeNeverFollows()
    ensures 'ñ' in StandardNext
    ensures forall k | k in StandardNext :: 'ñ' !in StandardNext[k]
  {
  }

  /** 'ñ' is a key of the standard matrix but never a successor, so a word
      can contain it only as its first letter. */
  lemma EnyeOnlyStarts()
    ensures EncodeChar('ñ') in CreateStandard().matrix.keys
    ensures forall k | k in CreateStandard().matrix.rows :: EncodeChar('ñ') !in CreateStandard().matrix.rows[k]
  {
    EnyeNeverFollows();
    StandardKeysListed();
    ToMatrixKeys(Standard, 'ñ');
    ToMatrixNeverFollows(Standard, 'ñ');
  }

  /** "mente" is one of the standard endings, five bytes long. */
  lemma MenteIsEnding()
    ensures |CreateStandard().commonEndings| == 19 && CreateStandard().commonEndings[18] == Utf8("mente")
    ensures Utf8("mente") in CreateStandard().commonEndings && |Utf8("mente")| == 5
  {
    assert |StandardEndings| == 19 && StandardEndings[18] == "mente";
    assert CreateStandard().commonEndings == Endings(StandardEndings);
    MenteLength();
  }

  lemma MenteLength()
    ensures |Utf8("mente")| == 5
  {
    Utf8Ascii("mente");
  }
}
