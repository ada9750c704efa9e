/** The command-line script `run.php`: it reads up to three arguments,
    builds its own Portuguese-like table as a plain array, generates the
    words with a free function that repeats the generator's algorithm, and
    prints them (or writes them to a file) one per line. */
module RunScript {
  import opened Php
  import opened Transitions
  import opened LetterTables
  import opened Generator
  import opened WordProperties
  import opened Languages
  import PortugueseMatrix

  // ---------------------------------------------------------------------
  // The script's table (run.php:31-58, endings at line 61): the standard
  // Portuguese table without the letter 'ç' and without the endings that
  // contain it.

  const TableOrder: string := "aeioubcdfghjlmnpqrstvxz"

  const TableNext: map<char, string> := map[
    'a' := "bcdlmnprstvziou",
    'e' := "bcdlmnprstvziaou",
    'i' := "acdlmnrstvzo",
    'o' := "bcdlmnprstvzau",
    'u' := "acdlmnrstzio",
    'b' := "aeiorl",
    'c' := "aehioru",
    'd' := "aeior",
    'f' := "aeiloru",
    'g' := "aeiour",
    'h' := "aeiou",
    'j' := "aeiou",
    'l' := "aeiouh",
    'm' := "aeiou",
    'n' := "aeiouh",
    'p' := "aeiorl",
    'q' := "u",
    'r' := "aeiou",
    's' := "aeiout",
    't' := "aeiour",
    'v' := "aeiou",
    'x' := "aeiou",
    'z' := "aeiou"]

  const TableEndings: seq<string> :=
    ["a", "o", "e", "ar", "er", "ir", "or", "al", "el", "il", "ol", "es", "as", "os", "is", "em", "am"]

  const Table: CharTable := CharTable(TableOrder, TableNext, TableEndings)

  lemma TableKeysListed()
    ensures (forall c | c in TableOrder :: c in TableNext) && (forall c | c in TableNext :: c in TableOrder)
  {
  }

  lemma TableRowsClosed()
    ensures forall k | k in TableNext :: TableNext[k] != [] && forall c | c in TableNext[k] :: c in TableNext
  {
  }

  lemma TableEndingsFilled()
    ensures forall e | e in TableEndings :: e != []
  {
  }

  lemma TableOrderLowerCase()
    ensures forall c | c in TableOrder :: 'a' <= c <= 'z'
  {
  }

  lemma TableNextLowerCase()
    ensures forall k | k in TableNext :: forall c | c in TableNext[k] :: 'a' <= c <= 'z'
  {
  }

  lemma TableEndingsLowerCase()
    ensures forall e | e in TableEndings :: forall c | c in e :: 'a' <= c <= 'z'
  {
  }

  lemma TableRowsInPortuguese()
    ensures forall k | k in TableNext :: k in PortugueseMatrix.StandardNext && forall c | c in TableNext[k] :: c in PortugueseMatrix.StandardNext[k]
  {
  }

  lemma TableEndingsInPortuguese()
    ensures forall e | e in TableEndings :: e in PortugueseMatrix.StandardEndings
  {
  }

  /** The `$matrix` array and `$commonEndings` of the script, as one matrix:
      a language profile in the sense of the class-based generator. */
  function ScriptMatrix(): (m: TransitionMatrix)
    ensures m == ToMatrix(Table)
    ensures LettersNonEmpty(m) && Profile(m)
  {
    TableKeysListed();
    TableRowsClosed();
    TableEndingsFilled();
    ToMatrixWellFormed(Table);
    ToMatrixClosed(Table);
    ToMatrixLettersNonEmpty(Table);
    ToMatrixEndingsNonEmpty(Table);
    ToMatrixKeysNonEmpty(Table);
    ToMatrixStartingLetters(Table);
    ToMatrix(Table)
  }

  /** The script's table only keeps keys, successors and endings of the
      standard Portuguese one. */
  lemma ScriptRestrictsPortuguese()
    ensures Restricts(ScriptMatrix(), PortugueseMatrix.CreateStandard())
  {
    TableRowsInPortuguese();
    TableEndingsInPortuguese();
    ToMatrixRestricts(Table, PortugueseMatrix.Standard);
  }

  /** Every key, successor and ending of the script's matrix is made of lower-case letters a-z. */
  lemma ScriptLowerCase()
    ensures MatrixBetween(ScriptMatrix(), ScriptMatrix().matrix.keys, 'a' as int, 'z' as int)
  {
    TableOrderLowerCase();
    TableNextLowerCase();
    TableEndingsLowerCase();
    ToMatrixBetween(Table, 'a', 'z');
  }

  // ---------------------------------------------------------------------
  // generateWordFromMatrix (run.php:71-113)

  /** `generateWordFromMatrix($matrix, $length, $commonEndings)`: the same
      algorithm as `WordGenerator::generateWord`, started from every key of
      the array (`array_keys`), with nothing excluded. It fails exactly when
      the array is empty. */
  method GenerateWordFromMatrix(matrix: LetterTable, length: int := 6, commonEndings: seq<Text> := [], draws: seq<nat>, k: nat) returns (r: Result<Text>)
    requires LettersNonEmpty(TransitionMatrix(matrix, commonEndings))
    ensures r == Generate(TransitionMatrix(matrix, commonEndings), matrix.keys, length, draws, k)
    ensures r.ValueError? <==> matrix.keys == []
  {
    r := Synthesize(TransitionMatrix(matrix, commonEndings), matrix.keys, length, draws, k);
  }

  /** Whenever no key is the literal `getStartingLetters` removes, the script
      and the class generate the same word from the same draws. */
  lemma ScriptAgreesWithGenerator(matrix: LetterTable, commonEndings: seq<Text>, length: int, draws: seq<nat>, k: nat)
    requires LettersNonEmpty(TransitionMatrix(matrix, commonEndings))
    requires Excluded !in matrix.keys
    ensures var m := TransitionMatrix(matrix, commonEndings);
      Generate(m, matrix.keys, length, draws, k) == Generate(m, GetStartingLetters(m), length, draws, k)
  {
    StartingLettersAreKeys(TransitionMatrix(matrix, commonEndings));
  }

  // ---------------------------------------------------------------------
  // Command-line arguments (run.php:12-27)

  /** `$argv[i]` when `isset($argv[i])`; `$argv[0]` is the script's name. */
  function Argument(argv: seq<Text>, i: nat): (a: Option<Text>)
    ensures a.Some? <==> i < |argv|
    ensures a.Some? ==> a.value == argv[i]
  {
    if i < |argv| then Some(argv[i]) else None
  }

  predicate IsDigit(b: Byte)
  {
    '0' as int <= b <= '9' as int
  }

  predicate AllDigits(s: Text)
  {
    forall i :: 0 <= i < |s| ==> IsDigit(s[i])
  }

  /** The value of a string of decimal digits (0 for none). */
  function DigitsValue(s: Text): nat
    requires AllDigits(s)
  {
    if s == [] then 0 else DigitsValue(s[..|s| - 1]) * 10 + (s[|s| - 1] - '0' as int)
  }

  /** The length of the run of digits at the start of `s`. */
  function DigitRun(s: Text): (j: nat)
    ensures j <= |s| && AllDigits(s[..j])
    ensures j < |s| ==> !IsDigit(s[j])
  {
    if s == [] || !IsDigit(s[0]) then 0 else 1 + DigitRun(s[1..])
  }

  /** A numeric string as PHP reads it: its sign, its whole part, and
      whether its fraction part has a non-zero digit. */
  datatype Numeral = Numeral(negative: bool, whole: nat, fraction: bool)

  /** `is_numeric` on a string of an optional sign, then digits with an
      optional decimal point ("12", "-3", "0.5", ".5", "7."); `None` when the
      string is not of that form. */
  function ParseNumeral(s: Text): Option<Numeral>
  {
    var signed := s != [] && (s[0] == '+' as int || s[0] == '-' as int);
    var negative := s != [] && s[0] == '-' as int;
    var body := if signed then s[1..] else s;
    var j := DigitRun(body);
    var whole := DigitsValue(body[..j]);
    if j == |body| then
      if j > 0 then Some(Numeral(negative, whole, false)) else None
    else if body[j] == '.' as int && AllDigits(body[j + 1..]) && (j > 0 || j + 1 < |body|) then
      Some(Numeral(negative, whole, DigitsValue(body[j + 1..]) > 0))
    else None
  }

  /** `$argv[i] > 0`: PHP compares a numeric string with 0 by its value. */
  predicate GreaterThanZero(n: Numeral)
  {
    !n.negative && (n.whole > 0 || n.fraction)
  }

  /** `(int)$argv[i]`: the cast truncates toward zero. */
  function IntCast(n: Numeral): int
  {
    if n.negative then -(n.whole as int) else n.whole
  }

  /** Lines 17-19 and 21-23 as written: a numeric argument greater than zero
      replaces the default by its integer part; anything else keeps the
      default. The result is never negative for a non-negative default. */
  function CountArgument(arg: Option<Text>, default: int): (r: int)
    ensures default >= 0 ==> r >= 0
    ensures arg.None? ==> r == default
  {
    match arg
    case None => default
    case Some(s) =>
      match ParseNumeral(s)
      case None => default
      case Some(n) => if GreaterThanZero(n) then IntCast(n) else default
  }

  /** The corrected reading: an argument counts only when its integer part
      is positive. It always yields a positive number for a positive
      default, and differs from `CountArgument` only where that one yields 0. */
  function PositiveArgument(arg: Option<Text>, default: int): (r: int)
    ensures default > 0 ==> r > 0
    ensures r == CountArgument(arg, default) || (CountArgument(arg, default) == 0 && r == default)
    ensures arg.None? ==> r == default
  {
    match arg
    case None => default
    case Some(s) =>
      match ParseNumeral(s)
      case None => default
      case Some(n) => if GreaterThanZero(n) && IntCast(n) > 0 then IntCast(n) else default
  }

  /** The decimal digits of `n`, without leading zeros. */
  function Decimal(n: nat): (s: Text)
    ensures |s| > 0 && AllDigits(s)
  {
    if n < 10 then ['0' as int + n] else Decimal(n / 10) + ['0' as int + n % 10]
  }

  lemma {:induction false} DecimalValue(n: nat)
    ensures DigitsValue(Decimal(n)) == n
  {
    if n >= 10 {
      var s := Decimal(n);
      assert s[..|s| - 1] == Decimal(n / 10);
      DecimalValue(n / 10);
    }
  }

  lemma DecimalNumeral(n: nat)
    ensures ParseNumeral(Decimal(n)) == Some(Numeral(false, n, false))
    ensures ParseNumeral(['-' as int] + Decimal(n)) == Some(Numeral(true, n, false))
  {
    var s := Decimal(n);
    DecimalValue(n);
    assert s[..|s|] == s;
    assert (['-' as int] + s)[1..] == s;
  }

  /** A positive decimal argument is taken as it is; zero or a negative one keeps the default. */
  lemma CountArgumentDecimal(n: nat, default: int)
    ensures CountArgument(Some(Decimal(n)), default) == if n > 0 then n else default
    ensures CountArgument(Some(['-' as int] + Decimal(n)), default) == default
  {
    DecimalNumeral(n);
  }

  /** Finding: "0." followed by digits that are not all zero (such as "0.5")
      passes the guard, since it is numeric and greater than zero, but its
      integer part is 0, so the script generates no words (or empty ones). */
  lemma CountArgumentFractionBelowOne(f: nat, default: int)
    requires f > 0
    ensures CountArgument(Some(['0' as int, '.' as int] + Decimal(f)), default) == 0
  {
    var s := ['0' as int, '.' as int] + Decimal(f);
    DecimalValue(f);
    assert s[0] != '+' as int && s[0] != '-' as int;
    assert DigitRun(s) == 1;
    assert s[..1] == ['0' as int] && DigitsValue(s[..1]) == 0;
    assert s[2..] == Decimal(f) && AllDigits(s[2..]);
    assert ParseNumeral(s) == Some(Numeral(false, 0, true));
  }

  /** The corrected reading keeps the default for those arguments. */
  lemma PositiveArgumentFractionBelowOne(f: nat, default: int)
    requires f > 0
    ensures PositiveArgument(Some(['0' as int, '.' as int] + Decimal(f)), default) == default
  {
    CountArgumentFractionBelowOne(f, default);
  }

  /** `if ($outputFile)`: PHP treats "" and "0" as false, so those names
      send the output to standard output like a missing argument. */
  function Destination(outputFile: Option<Text>): (d: Option<Text>)
    ensures d.Some? <==> outputFile.Some? && outputFile.value != [] && outputFile.value != Ascii("0")
    ensures d.Some? ==> d == outputFile
  {
    match outputFile
    case None => None
    case Some(name) => if name == [] || name == Ascii("0") then None else outputFile
  }

  /** Lines 12-27: the number of words (default 10), the word length
      (default 6) and the output file (default none), each replaced by its
      argument when given; a count is taken only when it is positive. */
  method ParseArguments(argv: seq<Text>) returns (numWords: int, wordLength: int, outputFile: Option<Text>)
    ensures numWords == PositiveArgument(Argument(argv, 1), 10) && numWords > 0
    ensures wordLength == PositiveArgument(Argument(argv, 2), 6) && wordLength > 0
    ensures outputFile == Argument(argv, 3)
  {
    numWords := 10;
    wordLength := 6;
    outputFile := None;
    if 1 < |argv| {
      numWords := PositiveArgument(Some(argv[1]), numWords);
    }
    if 2 < |argv| {
      wordLength := PositiveArgument(Some(argv[2]), wordLength);
    }
    if 3 < |argv| {
      outputFile := Some(argv[3]);
    }
  }

  // ---------------------------------------------------------------------
  // The script (run.php:116-136)

  /** Every run of the word loop over the script's matrix succeeds with
      `max(count, 0)` words of 1 to `wordLength` lower-case letters each. */
  lemma ScriptWords(count: int, wordLength: int, draws: seq<nat>)
    requires wordLength >= 1
    ensures var r := GenerateMany(ScriptMatrix(), ScriptMatrix().matrix.keys, count, wordLength, draws, 0);
      && r.Ok? && |r.value| == Max(count, 0)
      && forall w | w in r.value :: 0 < |w| <= wordLength && Between(w, 'a' as int, 'z' as int)
  {
    var m := ScriptMatrix();
    ClosedMatrixManyWords(m, count, wordLength, draws, 0);
    ScriptLowerCase();
    ManyWordsBetween(m, m.matrix.keys, count, wordLength, draws, 0, 'a' as int, 'z' as int);
  }

  /** The whole script: the text it prints or writes, and the file it writes
      it to (`None` for standard output). The text holds the words of
      successive `generateWordFromMatrix` calls, one per line; read back line
      by line it gives exactly `numWords` words of 1 to `wordLength`
      lower-case letters each. */
  method Run(argv: seq<Text>, draws: seq<nat>) returns (output: Text, destination: Option<Text>)
    ensures var numWords := PositiveArgument(Argument(argv, 1), 10);
      var wordLength := PositiveArgument(Argument(argv, 2), 6);
      var r := GenerateMany(ScriptMatrix(), ScriptMatrix().matrix.keys, numWords, wordLength, draws, 0);
      && r.Ok? && output == JoinLines(r.value)
      && Lines(output) == r.value && |r.value| == numWords
      && forall w | w in r.value :: 0 < |w| <= wordLength && Between(w, 'a' as int, 'z' as int)
    ensures destination == Destination(Argument(argv, 3))
  {
    var numWords, wordLength, outputFile := ParseArguments(argv);
    var m := ScriptMatrix();
    var r := SynthesizeMany(m, m.matrix.keys, numWords, wordLength, draws, 0);
    ScriptWords(numWords, wordLength, draws);
    var words := r.value;
    BetweenNoLineBreaks(words, 'a' as int, 'z' as int);
    output := Implode(Eol, words) + Eol;
    LinesOfJoinLines(words);
    destination := Destination(outputFile);
  }
}
