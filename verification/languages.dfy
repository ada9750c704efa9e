/** The language profiles (`LanguageMatrix` and its two implementations)
    and what every word generated from them satisfies. */
module Languages {
  import opened Php
  import opened Transitions
  import opened LetterTables
  import opened Generator
  import opened WordProperties
  import PortugueseMatrix
  import SpanishMatrix

  datatype Language = Portuguese | Spanish

  /** `getLanguageCode()` of the profile. */
  function Code(l: Language): Text
  {
    match l
    case Portuguese => PortugueseMatrix.LanguageCode()
    case Spanish => SpanishMatrix.LanguageCode()
  }

  /** `getLanguageName()` of the profile. */
  function Name(l: Language): Text
  {
    match l
    case Portuguese => PortugueseMatrix.LanguageName()
    case Spanish => SpanishMatrix.LanguageName()
  }

  /** The profiles have distinct two-byte codes. */
  lemma CodesDistinct()
    ensures Code(Portuguese) != Code(Spanish)
    ensures |Code(Portuguese)| == |Code(Spanish)| == 2
  {
    assert Code(Portuguese)[0] != Code(Spanish)[0];
  }

  /** `createEasyMode()` when `easyMode` holds, `createStandard()` otherwise. */
  function Matrix(l: Language, easyMode: bool): (m: TransitionMatrix)
    ensures LettersNonEmpty(m)
  {
    match l
    case Portuguese =>
      if easyMode then PortugueseMatrix.CreateEasyMode() else PortugueseMatrix.CreateStandard()
    case Spanish =>
      if easyMode then SpanishMatrix.CreateEasyMode() else SpanishMatrix.CreateStandard()
  }

  /** The matrices of every profile are well-formed and closed, with
      non-empty letters and endings, and all their keys are starting letters. */
  predicate Profile(m: TransitionMatrix)
  {
    && WellFormed(m.matrix) && Closed(m) && EndingsNonEmpty(m)
    && m.matrix.keys != [] && AllNonEmpty(m.matrix.keys)
    && GetStartingLetters(m) == m.matrix.keys
  }

  lemma PortugueseProfile(easyMode: bool)
    ensures Profile(Matrix(Portuguese, easyMode))
  {
    if easyMode {
      ToMatrixKeysNonEmpty(PortugueseMatrix.Easy);
    } else {
      ToMatrixKeysNonEmpty(PortugueseMatrix.Standard);
    }
  }

  lemma SpanishProfile(easyMode: bool)
    ensures Profile(Matrix(Spanish, easyMode))
  {
    if easyMode {
      ToMatrixKeysNonEmpty(SpanishMatrix.Easy);
    } else {
      ToMatrixKeysNonEmpty(SpanishMatrix.Standard);
    }
  }

  lemma MatrixProfile(l: Language, easyMode: bool)
    ensures Profile(Matrix(l, easyMode))
  {
    if l == Portuguese {
      PortugueseProfile(easyMode);
    } else {
      SpanishProfile(easyMode);
    }
  }

  /** The easy matrix of a profile is all ASCII and only removes keys,
      successors and endings from its standard matrix. */
  predicate Easy(easy: TransitionMatrix, standard: TransitionMatrix)
  {
    AsciiMatrix(easy) && Restricts(easy, standard)
  }

  lemma PortugueseEasy()
    ensures Easy(Matrix(Portuguese, true), Matrix(Portuguese, false))
  {
    PortugueseMatrix.EasyModeRestrictsStandard();
    PortugueseMatrix.EasyModeAscii();
  }

  lemma SpanishEasy()
    ensures Easy(Matrix(Spanish, true), Matrix(Spanish, false))
  {
    SpanishMatrix.EasyModeRestrictsStandard();
    SpanishMatrix.EasyModeAscii();
  }

  lemma EasyMatrix(l: Language)
    ensures Easy(Matrix(l, true), Matrix(l, false))
  {
    if l == Portuguese {
      PortugueseEasy();
    } else {
      SpanishEasy();
    }
  }

  /** Of the standard matrices, only the Spanish one has an 'ñ' key. */
  lemma EnyeKeyIsSpanish(l: Language)
    ensures EncodeChar('ñ') in Matrix(l, false).matrix.keys <==> l == Spanish
  {
    if l == Spanish {
      SpanishMatrix.EnyeOnlyStarts();
    } else {
      PortugueseMatrix.NoEnyeKey();
    }
  }

  /** What `createMatrixForLanguage` promises about the matrix of a profile. */
  lemma ProfileMatrix(l: Language, easyMode: bool)
    ensures Profile(Matrix(l, easyMode))
    ensures easyMode ==> Easy(Matrix(l, true), Matrix(l, false))
    ensures EncodeChar('ñ') in Matrix(l, false).matrix.keys <==> l == Spanish
  {
    MatrixProfile(l, easyMode);
    EasyMatrix(l);
    EnyeKeyIsSpanish(l);
  }

  /** Every word generated from a profile with a positive maximum length:
      generation never fails, the word is not empty and has at most
      `maxLength` bytes, and exactly `maxLength` when no ending was chosen. */
  lemma LanguageWords(l: Language, easyMode: bool, maxLength: int, draws: seq<nat>, k: nat)
    requires maxLength >= 1
    ensures var m := Matrix(l, easyMode);
      var r := Generate(m, GetStartingLetters(m), maxLength, draws, k);
      && r.Ok? && 0 < |r.value| <= maxLength
      && (!EndingChosen(m, GetStartingLetters(m), maxLength, draws, k) ==> |r.value| == maxLength)
  {
    MatrixProfile(l, easyMode);
    ClosedMatrixWords(Matrix(l, easyMode), maxLength, draws, k);
  }

  /** `generateWords` over a profile with a positive maximum length never
      fails and returns `max(count, 0)` non-empty words of at most `maxLength` bytes. */
  lemma LanguageManyWords(l: Language, easyMode: bool, count: int, maxLength: int, draws: seq<nat>, k: nat)
    requires maxLength >= 1
    ensures var m := Matrix(l, easyMode);
      var r := GenerateMany(m, GetStartingLetters(m), count, maxLength, draws, k);
      && r.Ok? && |r.value| == Max(count, 0)
      && forall w | w in r.value :: 0 < |w| <= maxLength
  {
    MatrixProfile(l, easyMode);
    ClosedMatrixManyWords(Matrix(l, easyMode), count, maxLength, draws, k);
  }

  /** In easy mode every word is plain ASCII: it holds no 'ç', 'ñ' or accented letter. */
  lemma EasyWordsAscii(l: Language, maxLength: int, draws: seq<nat>, k: nat)
    ensures var m := Matrix(l, true);
      var r := Generate(m, GetStartingLetters(m), maxLength, draws, k);
      r.Ok? ==> IsAscii(r.value)
  {
    EasyMatrix(l);
    AsciiMatrixWords(Matrix(l, true), maxLength, draws, k);
  }
}
