/** `WordGeneratorFacade`: picks a language profile by name, wraps a
    `WordGenerator` over its matrix and formats word lists for saving. */
module Facade {
  import opened Php
  import opened Transitions
  import opened Generator
  import opened Languages
  import opened WordProperties
  import PortugueseMatrix

  /** The case literals of the `switch ($language)` in `createMatrixForLanguage`. */
  const PortugueseArg: Text := Ascii("portuguese")
  const PtArg: Text := Ascii("pt")
  const SpanishArg: Text := Ascii("spanish")
  const EsArg: Text := Ascii("es")

  /** The argument is one of the two case literals of the Spanish branch. */
  predicate AsksForSpanish(language: Text)
  {
    language == SpanishArg || language == EsArg
  }

  /** The `switch ($language)` of `createMatrixForLanguage`: PHP compares the
      argument with each case literal as it is, so the match is exact and
      case-sensitive, and every other string falls back to Portuguese.
      Spanish is chosen exactly for "spanish" and "es". */
  function SelectLanguage(language: Text): (l: Language)
    ensures l == Spanish <==> AsksForSpanish(language)
  {
    assert PtArg[0] != EsArg[0];
    if language == PortugueseArg || language == PtArg then Portuguese
    else if language == SpanishArg || language == EsArg then Spanish
    else Portuguese
  }

  /** The language the facade uses when none is given. */
  const DefaultLanguage: Text := PortugueseArg

  /** `createMatrixForLanguage($language, $easyMode)`: the matrix of a
      language profile; in standard mode it has an 'ñ' key exactly when
      Spanish was asked for, and the easy matrix is an all-ASCII restriction
      of the standard matrix chosen for the same argument. */
  function CreateMatrixForLanguage(language: Text, easyMode: bool): (m: TransitionMatrix)
    ensures LettersNonEmpty(m) && Profile(m)
    ensures !easyMode ==> (EncodeChar('ñ') in m.matrix.keys <==> AsksForSpanish(language))
    ensures easyMode ==> Easy(m, CreateMatrixForLanguage(language, false))
    decreases easyMode
  {
    ProfileMatrix(SelectLanguage(language), easyMode);
    Matrix(SelectLanguage(language), easyMode)
  }

  /** Without a language argument the facade, `standard()` and `easyMode()`
      use the Portuguese profile. */
  lemma DefaultFacade(easyMode: bool)
    ensures CreateMatrixForLanguage(DefaultLanguage, easyMode) == Matrix(Portuguese, easyMode)
  {
    assert SelectLanguage(DefaultLanguage) == Portuguese;
  }

  /** Each profile is selected by its code and by its name in lower case,
      but not by its name as `getLanguageName()` spells it: "Spanish" falls
      back to Portuguese. */
  lemma SelectByCodeAndName(l: Language)
    ensures SelectLanguage(Code(l)) == l
    ensures SelectLanguage(StrToLower(Name(l))) == l
    ensures SelectLanguage(Name(l)) == Portuguese
  {
    assert StrToLower(Ascii("Portuguese")) == Ascii("portuguese");
    assert StrToLower(Ascii("Spanish")) == Ascii("spanish");
    assert Ascii("Spanish")[0] != Ascii("spanish")[0];
  }

  /** A facade bound to one profile; it keeps the lower-cased language
      string, the mode flag and the generator, and never changes them. */
  class WordGeneratorFacade {
    const language: Text
    const easyMode: bool
    const generator: WordGenerator

    /** The generator works over the matrix of a language profile, an
        all-ASCII one in easy mode. */
    predicate Valid()
    {
      && LettersNonEmpty(generator.matrix) && Profile(generator.matrix)
      && (easyMode ==> AsciiMatrix(generator.matrix))
    }

    /** `new WordGeneratorFacade($language, $easyMode)`: the stored language is
        lower-cased, but the matrix is chosen from the argument as given. */
    constructor (language: Text := DefaultLanguage, easyMode: bool := false)
      ensures this.language == StrToLower(language) && this.easyMode == easyMode
      ensures generator.matrix == CreateMatrixForLanguage(language, easyMode)
      ensures Valid()
    {
      this.language := StrToLower(language);
      this.easyMode := easyMode;
      var matrix := CreateMatrixForLanguage(language, easyMode);
      MatrixProfile(SelectLanguage(language), easyMode);
      if easyMode {
        EasyMatrix(SelectLanguage(language));
      }
      this.generator := new WordGenerator(matrix);
    }

    /** `generateWord($maxLength)`: the wrapped generator's word. For a
        positive `maxLength` it never fails and the word has between 1 and
        `maxLength` bytes; in easy mode it is plain ASCII. */
    method GenerateWord(maxLength: int := DefaultMaxLength, draws: seq<nat>, k: nat) returns (r: Result<Text>)
      requires Valid()
      ensures r == Generate(generator.matrix, GetStartingLetters(generator.matrix), maxLength, draws, k)
      ensures maxLength >= 1 ==> r.Ok? && 0 < |r.value| <= maxLength
      ensures easyMode && r.Ok? ==> IsAscii(r.value)
    {
      r := generator.GenerateWord(maxLength, draws, k);
      if maxLength >= 1 {
        ClosedMatrixWords(generator.matrix, maxLength, draws, k);
      }
      if easyMode {
        AsciiMatrixWords(generator.matrix, maxLength, draws, k);
      }
    }

    /** `generateWords($count, $maxLength)`: for a positive `maxLength`,
        exactly `max(count, 0)` words, each of 1 to `maxLength` bytes. */
    method GenerateWords(count: int, maxLength: int := DefaultMaxLength, draws: seq<nat>, k: nat) returns (r: Result<seq<Text>>)
      requires Valid()
      ensures r == GenerateMany(generator.matrix, GetStartingLetters(generator.matrix), count, maxLength, draws, k)
      ensures maxLength >= 1 ==> r.Ok? && |r.value| == Max(count, 0) && forall w | w in r.value :: 0 < |w| <= maxLength
    {
      r := generator.GenerateWords(count, maxLength, draws, k);
      if maxLength >= 1 {
        ClosedMatrixManyWords(generator.matrix, count, maxLength, draws, k);
      }
    }

    /** The content `saveToFile` writes: the words joined by PHP_EOL, with one
        more PHP_EOL at the end. Read back line by line it gives the words. */
    method SaveToFile(words: seq<Text>) returns (content: Text)
      ensures content == JoinLines(words)
      ensures words == [] ==> content == Eol
      ensures NoLineBreaks(words) && words != [] ==> Lines(content) == words
    {
      content := Implode(Eol, words) + Eol;
      if NoLineBreaks(words) {
        LinesOfJoinLines(words);
      }
    }

    /** `WordGeneratorFacade::standard($language)`. */
    static method Standard(language: Text := DefaultLanguage) returns (f: WordGeneratorFacade)
      ensures fresh(f) && f.Valid()
      ensures f.language == StrToLower(language) && !f.easyMode
      ensures f.generator.matrix == CreateMatrixForLanguage(language, false)
    {
      f := new WordGeneratorFacade(language, false);
    }

    /** `WordGeneratorFacade::easyMode($language)`. */
    static method EasyMode(language: Text := DefaultLanguage) returns (f: WordGeneratorFacade)
      ensures fresh(f) && f.Valid()
      ensures f.language == StrToLower(language) && f.easyMode
      ensures f.generator.matrix == CreateMatrixForLanguage(language, true)
    {
      f := new WordGeneratorFacade(language, true);
    }
  }

  /** A facade built without arguments, asked for five words with the
      default maximum length and then for the content of the file that
      would hold them: five words of one to six bytes, one per line. */
  method DefaultFacadeWords(draws: seq<nat>) returns (words: seq<Text>, content: Text)
    ensures |words| == 5 && forall w | w in words :: 0 < |w| <= 6
    ensures content == JoinLines(words)
  {
    var f := new WordGeneratorFacade();
    var r := f.GenerateWords(5, draws := draws, k := 0);
    words := r.value;
    content := f.SaveToFile(words);
  }
}
