# words — a verified model of the Markov-chain word generator

The `words` library (PHP) invents pronounceable words. The words are Portuguese-like or Spanish-like. A word is generated as a random walk over a transition matrix: a table from each letter to the letters that may follow it. The walk works like this:

- It starts from a random starting letter and appends up to `maxLength - 3` successor letters.
- It then tosses a coin, but only when `maxLength` is at least 3 and the language has common endings. On heads it appends one of those endings, cutting the word short first if the ending would not fit. On tails, or when there is no toss, it keeps walking until the word has `maxLength` bytes or the current letter has no successor.
- Finally it truncates the result to `maxLength` bytes.

`WordGeneratorFacade` chooses a language profile by name. A profile is Portuguese or Spanish, each with a standard matrix and a simpler "easy mode" matrix. The facade wraps a `WordGenerator` and formats word lists for saving. The script `run.php` repeats the same algorithm as a free function over its own table and reads its settings from the command line.

The model is split into these modules:

- `Php` — the PHP string primitives the code relies on. Strings are byte sequences. `substr` has its negative-length behaviour. Also modelled: `strtolower`, `implode` and `PHP_EOL`.
- `Transitions` — `TransitionMatrix` as an immutable value. It holds the key order, the successor lists and the common endings, with its getters and `getStartingLetters`.
- `LetterTables` — turns a table written one character per letter into the byte-level matrix that a UTF-8 PHP source file builds. Structural facts are carried across that encoding.
- `PortugueseMatrix`, `SpanishMatrix` — the constant tables of both languages, with the facts proved about them.
- `Generator` — `generateWord` and `generateWords`:
  - as specification functions of an explicit oracle for the random choices;
  - as imperative methods with the source's loops, proved equal to those functions;
  - and the `WordGenerator` class.
- `WordProperties` — what every generated word satisfies. This covers how letters follow the matrix, how random draws are consumed, length bounds, how the ending is spliced in, and which bytes can occur. It also holds two concrete runs.
- `Languages` — the two profiles as a datatype, and the guarantees every profile gives.
- `Facade` — language selection, the facade class, and the content `saveToFile` writes.
- `RunScript` — `run.php`: argument defaulting, its table, `generateWordFromMatrix`, the word loop and the output text.

Randomness is a parameter. `draws: seq<nat>` is read in order from a cursor `k`.

- Every `array_rand` consumes one draw and selects `xs[draw % |xs|]`.
- `mt_rand(0, 1) == 1` consumes one draw and holds when the draw is odd.
- A draw past the end of the sequence reads as 0.

With the oracle, `generateWord` is a function of the matrix, the maximum length and the draws. Results carry the position of the next unused draw, so successive calls in `generateWords` read successive draws.

`array_rand` on an empty array throws a ValueError (PHP 8). This is modelled as the `ValueError` alternative of `Generator.Result`. It is returned exactly when there is no starting letter.

`getStartingLetters` removes keys equal to the literal in `src/Matrix/TransitionMatrix.php:65`. The comment beside that literal speaks of 'ç', but its bytes spell the two Thai characters U+0E23 U+0E07. The model follows the bytes. No key of either language equals that literal, so 'ç' (Portuguese) and 'ñ' (Spanish) can start words. See `PortugueseMatrix.CedillaStartsStandardWords` and `LetterTables.ToMatrixStartingLetters`.

Language selection compares the argument as given and is case-sensitive. Only the stored `language` field is lower-cased. So `"Spanish"` selects Portuguese.

PHP default arguments are Dafny default parameter values: `$maxLength = 6` (`Generator.DefaultMaxLength`) in both classes, `$language = 'portuguese'` (`Facade.DefaultLanguage`) and `$easyMode = false` in the facade, and `$length = 6, $commonEndings = []` in `generateWordFromMatrix`.

## Model

| member | source | states |
|---|---|---|
| Php.Substr | src/Generator/WordGenerator.php:80 | `substr($s, 0, $n)` is a prefix of `s`. It has `min(n, \|s\|)` bytes for `n >= 0`; for negative `n` it drops `\|n\|` bytes from the end, and is empty when there are not that many. |
| Php.StrToLower | src/WordGeneratorFacade.php:40 | Same length as its argument. A byte changes exactly when it is one of A-Z, and then it becomes its lower-case letter (plus 32). No upper-case ASCII letter is left in the result. |
| Php.StrToLowerIdempotent | src/WordGeneratorFacade.php:40 | Lower-casing the stored language again changes nothing. |
| Php.JoinLines | src/WordGeneratorFacade.php:103 | The saved content always ends with PHP_EOL. |
| Php.LinesOfJoinLines | tests/WordGeneratorFacadeTest.php:74 | Splitting the joined content at line feeds gives back exactly the words, when no word contains a line feed. An empty word list gives a single PHP_EOL. |
| Transitions.GettersReturnArguments | src/Matrix/TransitionMatrix.php:28-52 | `getMatrix` and `getCommonEndings` return exactly what the constructor was given. |
| Transitions.ExcludedIsNotCedilla | src/Matrix/TransitionMatrix.php:61-66 | The excluded literal has 6 bytes, while 'ç' has 2, so they differ. |
| Transitions.Without | src/Matrix/TransitionMatrix.php:62-67 | The filter keeps exactly the elements different from the excluded one, each as many times as before. A list without it is returned unchanged. |
| Transitions.WithoutAppend | src/Matrix/TransitionMatrix.php:62-67 | Filtering distributes over concatenation, so the kept keys stay in insertion order. |
| Transitions.StartingLettersAreKeys | src/Matrix/TransitionMatrix.php:59-68 | A starting letter is a key other than the excluded literal, and each such key is one. The count drops by the number of excluded keys. Without the literal, the result is the key list. |
| Transitions.StartingLettersEmpty | src/Matrix/TransitionMatrix.php:62-67 | There are no starting letters iff every key is the excluded literal. In particular an empty matrix has none. |
| Transitions.NextLettersOfKeys | src/Matrix/TransitionMatrix.php:76-79 | In a well-formed matrix, `getNextLetters` returns the stored list exactly for the keys and null otherwise. |
| LetterTables.ToMatrixStartingLetters | src/Matrix/TransitionMatrix.php:59-68 | For every table written one character per letter, `getStartingLetters` is the whole key list. |
| PortugueseMatrix.CreateStandard | src/Matrix/PortugueseMatrix.php:35-71 | The standard matrix is well-formed and closed: every successor is a key and no list is empty. Its letters and endings are non-empty, and its starting letters are all its keys. |
| PortugueseMatrix.CreateEasyMode | src/Matrix/PortugueseMatrix.php:82-114 | The same facts hold for the easy matrix. |
| PortugueseMatrix.EasyModeRestrictsStandard | src/Matrix/PortugueseMatrix.php:85-112 | Every easy key is a standard key, and each easy successor list is a subset of the standard one. Every easy ending is a standard ending. |
| PortugueseMatrix.EasyModeAscii | src/Matrix/PortugueseMatrix.php:85-112 | Every key, successor and ending of easy mode is plain ASCII. |
| PortugueseMatrix.CedillaStartsStandardWords | src/Matrix/PortugueseMatrix.php:38-66 | 'ç' is a starting letter of the standard matrix. |
| PortugueseMatrix.EasyLacksComplexKeys | src/Matrix/PortugueseMatrix.php:85-109 | The easy matrix has no 'q', 'x', 'z' or 'ç' key. |
| PortugueseMatrix.NoEnyeKey | src/Matrix/PortugueseMatrix.php:38-66 | 'ñ' is no key of the standard Portuguese matrix. |
| PortugueseMatrix.EasyNeverCedilla | src/Matrix/PortugueseMatrix.php:85-109 | No easy successor list contains 'ç'. |
| SpanishMatrix.CreateStandard | src/Matrix/SpanishMatrix.php:31-68 | The standard matrix is well-formed and closed. Its letters and endings are non-empty, and its starting letters are all its keys. |
| SpanishMatrix.CreateEasyMode | src/Matrix/SpanishMatrix.php:74-106 | The same facts hold for the easy matrix. |
| SpanishMatrix.EasyModeRestrictsStandard | src/Matrix/SpanishMatrix.php:77-104 | Easy keys, successor lists and endings are subsets of the standard ones. |
| SpanishMatrix.EasyModeAscii | src/Matrix/SpanishMatrix.php:77-104 | Every key, successor and ending of easy mode is plain ASCII. |
| SpanishMatrix.EnyeOnlyStarts | src/Matrix/SpanishMatrix.php:34-63 | 'ñ' is a key of the standard matrix but no successor, so it can only start a word. |
| SpanishMatrix.MenteIsEnding | src/Matrix/SpanishMatrix.php:66 | "mente" is the last of the 19 standard endings and has 5 bytes. With `WordProperties.LongChosenEnding`, a maximum length of 3 or 4 and an ending draw of 18 modulo 19 take the negative-length `substr` path. |
| Languages.CodesDistinct | src/Matrix/SpanishMatrix.php:15-18 | The two language codes are distinct two-byte strings. |
| Languages.ProfileMatrix | src/WordGeneratorFacade.php:57-67 | For each profile and mode: a profile matrix, an easy matrix that restricts the standard one and is ASCII, and an 'ñ' key in the standard matrix exactly for Spanish. |
| Languages.EnyeKeyIsSpanish | src/Matrix/SpanishMatrix.php:62 | Of the two standard matrices, exactly the Spanish one has an 'ñ' key. |
| Languages.MatrixProfile | src/WordGeneratorFacade.php:55-68 | Every matrix a profile can return is well-formed and closed. It has non-empty keys, letters and endings, and its starting letters are all its keys. |
| Languages.EasyMatrix | src/WordGeneratorFacade.php:60-66 | For both languages, easy mode is all-ASCII and only removes keys, successors and endings from standard mode. |
| Languages.LanguageWords | src/Generator/WordGenerator.php:35-81 | For a positive maximum length, every profile's `generateWord` succeeds with a non-empty word of at most `maxLength` bytes. The word has exactly `maxLength` bytes when no ending was chosen. |
| Languages.LanguageManyWords | src/Generator/WordGenerator.php:90-97 | For every profile, `generateWords` with a positive maximum length returns `max(count, 0)` words, each of 1 to `maxLength` bytes. |
| Languages.EasyWordsAscii | src/Matrix/PortugueseMatrix.php:85-112 | In easy mode every word is plain ASCII, so it holds no 'ç', 'ñ' or accented letter. |
| Generator.Pick | src/Generator/WordGenerator.php:42 | `$xs[array_rand($xs)]` is an element of the non-empty list. |
| Generator.Successors | src/Generator/WordGenerator.php:47-50 | The walk can go on exactly when the letter is a key with a non-empty list; that list is what `getNextLetters` returns. |
| Generator.Steps | src/Generator/WordGenerator.php:46 | The first loop runs at most `maxLength - 3` times, and not at all below 3. |
| Generator.Walk | src/Generator/WordGenerator.php:46-55 | The first loop appends at most its step count of letters, one draw each. |
| Generator.WalkFollowsMatrix | src/Generator/WordGenerator.php:46-55 | Each appended letter is a successor of the previous one. The loop stops early only where the matrix offers no successor (null or empty). |
| Generator.Fill | src/Generator/WordGenerator.php:68-76 | The completion loop takes one draw per letter and appends nothing once the word is long enough. |
| Generator.FillFollowsMatrix | src/Generator/WordGenerator.php:68-76 | Each completion letter is a successor of the previous one. |
| Generator.FillStopsAtEnd | src/Generator/WordGenerator.php:68-76 | The completion stops only once the word reaches `maxLength` bytes, or where the matrix offers no successor. |
| Generator.TossCoin | src/Generator/WordGenerator.php:58-60 | An ending is chosen iff `maxLength >= 3`, the endings are non-empty and the coin shows heads, and it is one of the common endings. The coin takes a draw only when tossed; the ending takes one more. |
| Generator.Generate | src/Generator/WordGenerator.php:35-81 | `generateWord` fails exactly when there is no starting letter. A word never exceeds a non-negative `maxLength`. For a negative one the word is the starting letter with bytes dropped from its end. At least one draw is consumed. |
| Generator.GenerateMany | src/Generator/WordGenerator.php:90-97 | A non-positive count gives no words and consumes no draw. |
| WordProperties.GenerateManyNonEmpty | src/Generator/WordGenerator.php:90-97 | Over any matrix whose starting letters and endings are non-empty strings, `generateWords` with a positive `maxLength` never fails and gives `max(count, 0)` non-empty words. |
| Generator.GenerateManyWords | src/Generator/WordGenerator.php:90-97 | `generateWords` fails iff a word is asked for and there is no starting letter. Otherwise it gives `max(count, 0)` words, each within `maxLength`, the first one being `generateWord`'s. |
| Generator.WalkLoop | src/Generator/WordGenerator.php:46-55 | The loop builds the starting letter followed by the walk's letters, and stops on the walk's last letter and draw. |
| Generator.CompletionLoop | src/Generator/WordGenerator.php:68-76 | The `while` loop appends exactly the completion letters, resuming from the letter the first loop stopped on. |
| Generator.Synthesize | src/Generator/WordGenerator.php:35-81 | The imperative `generateWord` returns what `Generate` specifies. |
| Generator.NextWord | src/Generator/WordGenerator.php:93-95 | One loop iteration of `generateWords` appends the next word and moves the cursor, or ends the whole result in failure. |
| Generator.SynthesizeMany | src/Generator/WordGenerator.php:90-97 | The imperative `generateWords` returns what `GenerateMany` specifies. |
| Generator.WordGenerator.constructor | src/Generator/WordGenerator.php:24-27 | The generator keeps the matrix it is given. |
| Generator.WordGenerator.GenerateWord | src/Generator/WordGenerator.php:35-81 | A word is drawn from the matrix's starting letters, as `Generate` specifies. |
| Generator.WordGenerator.GenerateWords | src/Generator/WordGenerator.php:90-97 | The words of successive `generateWord` calls, as `GenerateMany` specifies. |
| WordProperties.RunFollowsMatrix | src/Generator/WordGenerator.php:42-76 | The first letter is a starting letter, and the first loop appends at most `max(0, maxLength - 3)` letters. The letters of both loops form one chain of successors, so the completion resumes where the walk stopped. An ending excludes a completion. |
| WordProperties.DrawsConsumed | src/Generator/WordGenerator.php:42-73 | One draw for the start and one per letter. The coin takes a draw only when tossed, and an ending is chosen iff the coin is tossed and shows heads. |
| WordProperties.GenerateNonEmpty | src/Generator/WordGenerator.php:42-80 | With non-empty starting letters and endings and `maxLength >= 1`, the word is never empty. |
| WordProperties.EndingSplice | src/Generator/WordGenerator.php:60-65 | A chosen ending `e` with `\|e\| <= maxLength` ends the word. When the core and `e` do not fit, the word is `core[..maxLength - \|e\|] + e` with exactly `maxLength` bytes; otherwise it is `core + e`. |
| WordProperties.ChosenEnding | src/Generator/WordGenerator.php:59-60 | When the coin is tossed and the draw after the walk is heads, the next draw picks the ending at its index modulo the number of endings. |
| WordProperties.LongChosenEnding | src/Generator/WordGenerator.php:59-80 | Heads and an ending longer than `maxLength`: the word is the core with bytes dropped from its end, followed by the ending, all cut to `maxLength`. |
| WordProperties.LongEndingSplice | src/Generator/WordGenerator.php:62-80 | For `\|e\| > maxLength` the negative length drops `\|e\| - maxLength` bytes from the end of the core. The final truncation then cuts into the ending, and the word has exactly `maxLength` bytes. |
| WordProperties.ClosedMatrixExactLength | src/Generator/WordGenerator.php:46-76 | Over a closed matrix the first loop runs its full count, and a word without an ending has exactly `maxLength` bytes. |
| WordProperties.WordBytes | src/Generator/WordGenerator.php:35-81 | Whatever holds of every byte of the starting letters, successors and endings holds of every byte of the word. |
| WordProperties.WordBetween | src/Generator/WordGenerator.php:35-81 | A matrix whose bytes all lie in a range yields words whose bytes lie in that range. |
| WordProperties.WordsBetween | src/Generator/WordGenerator.php:90-97 | A byte range that bounds the word `generateWord` returns at every position in the draws bounds every word of `generateWords`, word by word. |
| WordProperties.ManyWordsBetween | src/Generator/WordGenerator.php:90-97 | The byte range of the matrix bounds every word of `generateWords`. |
| WordProperties.AsciiWords | src/Generator/WordGenerator.php:35-81 | An all-ASCII matrix with ASCII starting letters yields ASCII words only. |
| WordProperties.AsciiMatrixWords | src/Generator/WordGenerator.php:38-43 | The same holds starting from the matrix's own starting letters. |
| WordProperties.ClosedMatrixWords | tests/Generator/WordGeneratorTest.php:19-22 | Over a closed, well-formed matrix whose starting letters are its keys, with non-empty keys and endings, a word for `maxLength >= 1` exists and has 1 to `maxLength` bytes. Whenever no ending was chosen it has exactly `maxLength` bytes. |
| WordProperties.ClosedMatrixManyWords | tests/Generator/WordGeneratorTest.php:48-56 | Under the same conditions, `generateWords` never fails. It returns `max(count, 0)` words of 1 to `maxLength` bytes. |
| WordProperties.AlternatingWithoutEndings | src/Generator/WordGenerator.php:46-80 | For `{a→[b], b→[a]}` with no endings, `maxLength` 4 and every draw 0, the result is "abab". No coin is tossed, and the completion resumes from 'b'. |
| WordProperties.AlternatingWithShortEnding | tests/Generator/WordGeneratorTest.php:19-22 | Over a closed matrix, the ending "x" with `maxLength` 6 gives the 5-byte word "ababx". So the exact length the test asserts is not guaranteed. |
| Facade.SelectLanguage | src/WordGeneratorFacade.php:57-67 | Spanish is selected exactly for "spanish" and "es"; every other string, of any case, selects Portuguese. |
| Facade.CreateMatrixForLanguage | src/WordGeneratorFacade.php:55-68 | The matrix is a profile matrix: well-formed, closed, with non-empty letters and endings, every key a starting letter. In standard mode it has an 'ñ' key exactly when the argument is "spanish" or "es". The easy matrix is an all-ASCII restriction of the standard matrix chosen for the same argument. |
| Facade.DefaultFacade | src/WordGeneratorFacade.php:38 | Without a language argument, the facade, `standard()` and `easyMode()` use the Portuguese profile. |
| Facade.DefaultFacadeWords | tests/WordGeneratorFacadeTest.php:62-74 | `new WordGeneratorFacade()` then `generateWords(5)` with the default maximum length gives five words of 1 to 6 bytes, and the saved content is their `implode(PHP_EOL)` plus `PHP_EOL`. |
| Facade.SelectByCodeAndName | src/WordGeneratorFacade.php:40-44 | Each profile is selected by its code and by its lower-cased name. Its name as `getLanguageName` spells it selects Portuguese. |
| Facade.WordGeneratorFacade.constructor | src/WordGeneratorFacade.php:38-46 | The stored language is lower-cased, but the matrix is chosen from the raw argument. The resulting generator is over a valid profile, and all-ASCII in easy mode. |
| Facade.WordGeneratorFacade.GenerateWord | src/WordGeneratorFacade.php:76-79 | Delegates to the generator. For positive `maxLength` it never fails and gives 1 to `maxLength` bytes, ASCII in easy mode. |
| Facade.WordGeneratorFacade.GenerateWords | src/WordGeneratorFacade.php:88-91 | Delegates to the generator. For positive `maxLength` it gives exactly `max(count, 0)` words of 1 to `maxLength` bytes. |
| Facade.WordGeneratorFacade.SaveToFile | src/WordGeneratorFacade.php:100-108 | The content is the words joined by PHP_EOL plus a final PHP_EOL. Read back line by line it gives the words. |
| Facade.WordGeneratorFacade.Standard | src/WordGeneratorFacade.php:116-119 | Same as `new (language, false)`. |
| Facade.WordGeneratorFacade.EasyMode | src/WordGeneratorFacade.php:127-130 | Same as `new (language, true)`. |
| RunScript.ScriptMatrix | run.php:31-61 | The script's table is a valid profile: well-formed, closed, with non-empty keys, letters and endings, and all keys as starting letters. |
| RunScript.ScriptRestrictsPortuguese | run.php:31-61 | The script's table only keeps keys, successors and endings of the standard Portuguese table. |
| RunScript.ScriptLowerCase | run.php:31-61 | Every key, successor and ending of the script's table is made of the letters a-z. |
| RunScript.GenerateWordFromMatrix | run.php:71-113 | The free function is the same algorithm started from all keys (`array_keys`). It fails exactly when the array is empty. |
| RunScript.ScriptAgreesWithGenerator | run.php:73 | When no key is the excluded literal, the free function and `WordGenerator::generateWord` give the same word from the same draws. |
| RunScript.Argument | run.php:17-27 | `isset($argv[i])` holds exactly for the given positions, and then the argument is `$argv[i]`. |
| RunScript.CountArgument | run.php:17-23 | As written: a missing argument keeps the default, and the result is never negative for a non-negative default. |
| RunScript.PositiveArgument | run.php:17-23 | Corrected: the result is positive for a positive default. It differs from the as-written reading only where that one gives 0. |
| RunScript.CountArgumentDecimal | run.php:17-23 | A positive decimal argument is taken as it is. Zero or a negative argument keeps the default. |
| RunScript.CountArgumentFractionBelowOne | run.php:17-18 | As written, "0.5" and every "0.d…" with a non-zero digit set the count to 0. |
| RunScript.PositiveArgumentFractionBelowOne | run.php:17-18 | The corrected reading keeps the default for those arguments. |
| RunScript.Destination | run.php:127 | Output goes to a file exactly when a third argument is given that is neither "" nor "0". |
| RunScript.ParseArguments | run.php:12-27 | The defaults are 10 words of length 6 and no file, each replaced by its argument. Both counts are positive. |
| RunScript.ScriptWords | run.php:116-121 | The word loop over the script's table never fails. It gives `max(count, 0)` words of 1 to `wordLength` lower-case letters. |
| RunScript.Run | run.php:116-136 | The script's text holds exactly `numWords` words of 1 to `wordLength` lower-case letters, one per line, with a final PHP_EOL. The destination is the file named by the third argument, if any. |

## Left out

- File and console output (`file_put_contents`, `echo`, and the success and error messages) are left out; only the content string and its destination are modelled.
- Facade.WordGeneratorFacade.SaveToFile: returns the content only. The boolean result and the caught exception of the file write are not modelled.
- The probability distribution of `array_rand` and `mt_rand` is not modelled. The draws are an arbitrary sequence, and a draw past its end reads as 0.
- Generator.Generate: requires that no successor letter is an empty string. That is stricter than the PHP code needs. An empty letter that is not a key ends both loops, because `getNextLetters` then returns null. The completion loop fails to terminate only when the empty string is itself a key whose list keeps giving it. The same requires, and the same admission, applies to `Generator.Fill`, `Generator.GenerateMany`, `Generator.CompletionLoop`, `Generator.Synthesize`, `Generator.NextWord`, `Generator.SynthesizeMany`, `Generator.WordGenerator.GenerateWord`, `Generator.WordGenerator.GenerateWords` and `RunScript.GenerateWordFromMatrix`, whose PHP counterparts accept any matrix; the lemmas about them carry it as a hypothesis.
- RunScript.CountArgument: models `is_numeric` only for an optional sign followed by decimal digits with an optional point. Leading or trailing whitespace and exponents ("1e2") are treated as non-numeric, and so keep the default. Integers beyond PHP_INT_MAX, which `(int)` saturates, are not modelled.
- RunScript.Run: uses the corrected count reading `PositiveArgument`, not the as-written `CountArgument` (see Findings). For arguments such as "0.5", the script as written generates no words, or empty ones.
- RunScript.ParseArguments: states the corrected reading, for the same reason.
- PHP_EOL is taken to be a single line feed. Windows line endings are not modelled.
- `array_filter` keeps the original indices, so the starting-letter array can have gaps. `array_rand` picks among the keys that remain, which the renumbered list models; the gaps themselves are not modelled.
- `substr` can split a multi-byte letter such as 'ç' or 'ó' in the middle. The model works on bytes and does not state UTF-8 well-formedness of words.
- The exact-length assertions of tests/Generator/WordGeneratorTest.php:22 and 36 do not hold for every run: a short ending gives a shorter word. `WordProperties.AlternatingWithShortEnding` exhibits this, and `WordProperties.ClosedMatrixWords` states that the length is exact when no ending is chosen.
- `LanguageMatrix` is an abstract class with declarations only. It is modelled by the `Languages.Language` datatype.
- The files under `examples/` are demonstration scripts and are not part of this model.

## Findings

| source | as written | input that shows it | evidently intended | confidence | as-written member | corrected member |
|---|---|---|---|---|---|---|
| run.php:17-18 | The count is accepted when it is numeric and greater than zero, and then cast with `(int)`. A fraction below one passes the guard and becomes 0. The same holds for the word length at lines 21-22. | `php run.php 0.5`: no words are generated. `php run.php 10 0.5` gives empty words. | An accepted count is at least 1; otherwise the default is kept. | not executed | RunScript.CountArgumentFractionBelowOne | RunScript.PositiveArgumentFractionBelowOne |
