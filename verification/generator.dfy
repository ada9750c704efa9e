/** The Markov-chain word synthesiser of `WordGenerator`: a bounded random
    walk over a transition matrix, an optional common ending, a completion
    walk and a final truncation to the maximum length.

    Randomness is an explicit oracle: a sequence of draws read in order from
    a cursor. Every `array_rand` and every `mt_rand(0, 1)` consumes exactly
    one draw; a draw past the end of the sequence reads as 0. */
module Generator {
  import opened Php
  import opened Transitions

  // ---------------------------------------------------------------------
  // The choice oracle

  /** The draw at position `k`. */
  function Draw(draws: seq<nat>, k: nat): nat
  {
    if k < |draws| then draws[k] else 0
  }

  /** `$xs[array_rand($xs)]` for a non-empty list: the element the draw at `k` selects. */
  function Pick(xs: seq<Text>, draws: seq<nat>, k: nat): (x: Text)
    requires xs != []
    ensures x in xs
  {
    xs[Draw(draws, k) % |xs|]
  }

  /** `mt_rand(0, 1) == 1`. */
  predicate Heads(draws: seq<nat>, k: nat)
  {
    Draw(draws, k) % 2 == 1
  }

  // ---------------------------------------------------------------------
  // One step of the walk

  /** The letters the walk may move to from `current`. The walk stops where
      `empty(getNextLetters($current))` holds: on null and on an empty list alike. */
  function Successors(m: TransitionMatrix, current: Text): (r: seq<Text>)
    ensures r != [] <==> current in m.matrix.rows && m.matrix.rows[current] != []
    ensures r != [] ==> GetNextLetters(m, current) == Some(r)
  {
    match GetNextLetters(m, current)
    case None => []
    case Some(xs) => xs
  }

  /** In a matrix whose letters are all non-empty, so is every successor. */
  lemma SuccessorNonEmpty(m: TransitionMatrix, current: Text, next: Text)
    requires LettersNonEmpty(m) && next in Successors(m, current)
    ensures |next| > 0
  {
  }

  /** The last letter appended, or `first` when nothing was appended. */
  function Last(first: Text, letters: seq<Text>): Text
  {
    if letters == [] then first else letters[|letters| - 1]
  }

  /** Each letter is a successor of the one before it, the first of them a successor of `current`. */
  predicate Chain(m: TransitionMatrix, current: Text, letters: seq<Text>)
  {
    forall i | 0 <= i < |letters| :: letters[i] in Successors(m, Last(current, letters[..i]))
  }

  lemma ChainCons(m: TransitionMatrix, current: Text, next: Text, rest: seq<Text>)
    requires next in Successors(m, current)
    requires Chain(m, next, rest)
    ensures Chain(m, current, [next] + rest)
  {
    var ls := [next] + rest;
    forall i | 0 <= i < |ls| ensures ls[i] in Successors(m, Last(current, ls[..i])) {
      if i > 0 {
        assert ls[..i] == [next] + rest[..i - 1];
        assert Last(current, ls[..i]) == Last(next, rest[..i - 1]);
      }
    }
  }

  /** Two walks glued where the first one stopped form one walk. */
  lemma ChainAppend(m: TransitionMatrix, current: Text, xs: seq<Text>, ys: seq<Text>)
    requires Chain(m, current, xs)
    requires Chain(m, Last(current, xs), ys)
    ensures Chain(m, current, xs + ys)
  {
    var ls := xs + ys;
    forall i | 0 <= i < |ls| ensures ls[i] in Successors(m, Last(current, ls[..i])) {
      if i < |xs| {
        assert ls[..i] == xs[..i];
      } else {
        assert ls[..i] == xs + ys[..i - |xs|];
        assert Last(current, ls[..i]) == Last(Last(current, xs), ys[..i - |xs|]);
      }
    }
  }

  lemma LastCons(first: Text, next: Text, rest: seq<Text>)
    ensures Last(first, [next] + rest) == Last(next, rest)
  {
  }

  // ---------------------------------------------------------------------
  // The two loops, as functions of the oracle

  /** The letters a loop appended and the position of the next unused draw. */
  datatype Path = Path(letters: seq<Text>, next: nat)

  /** The first loop (`for ($i = 1; $i < $maxLength - 2; $i++)`): at most
      `steps` letters, one draw each. */
  function Walk(m: TransitionMatrix, current: Text, steps: nat, draws: seq<nat>, k: nat): (p: Path)
    ensures |p.letters| <= steps
    ensures p.next == k + |p.letters|
    decreases steps
  {
    if steps == 0 || Successors(m, current) == [] then Path([], k)
    else
      var next := Pick(Successors(m, current), draws, k);
      var rest := Walk(m, next, steps - 1, draws, k + 1);
      Path([next] + rest.letters, rest.next)
  }

  /** Every letter of the walk is a successor of the one before it, and the
      walk stops early only where the matrix offers no successor. */
  lemma {:induction false} WalkFollowsMatrix(m: TransitionMatrix, current: Text, steps: nat, draws: seq<nat>, k: nat)
    ensures var p := Walk(m, current, steps, draws, k);
      Chain(m, current, p.letters) && (|p.letters| < steps ==> Successors(m, Last(current, p.letters)) == [])
    decreases steps
  {
    if steps > 0 && Successors(m, current) != [] {
      var next := Pick(Successors(m, current), draws, k);
      var rest := Walk(m, next, steps - 1, draws, k + 1);
      assert Walk(m, current, steps, draws, k).letters == [next] + rest.letters;
      WalkFollowsMatrix(m, next, steps - 1, draws, k + 1);
      ChainCons(m, current, next, rest.letters);
      LastCons(current, next, rest.letters);
    }
  }

  /** Number of iterations the first loop may run: `$i` goes from 1 while `$i < $maxLength - 2`. */
  function Steps(maxLength: int): (n: nat)
    ensures maxLength >= 3 ==> n == maxLength - 3
    ensures maxLength < 3 ==> n == 0
  {
    Max(0, maxLength - 3)
  }

  /** The completion loop (`while (strlen($word) < $maxLength)`), starting
      from a word of `len` bytes, one draw per letter. It terminates because
      no successor letter of the matrix is empty. */
  function Fill(m: TransitionMatrix, current: Text, len: int, maxLength: int, draws: seq<nat>, k: nat): (p: Path)
    requires LettersNonEmpty(m)
    ensures p.next == k + |p.letters|
    ensures len >= maxLength ==> p.letters == []
    decreases maxLength - len
  {
    if len >= maxLength || Successors(m, current) == [] then Path([], k)
    else
      var next := Pick(Successors(m, current), draws, k);
      SuccessorNonEmpty(m, current, next);
      var rest := Fill(m, next, len + |next|, maxLength, draws, k + 1);
      Path([next] + rest.letters, rest.next)
  }

  /** One iteration of the completion loop: the letters still to come after
      `done` are the one picked now followed by those of the rest of the loop. */
  lemma FillStep(m: TransitionMatrix, current: Text, len: int, maxLength: int, draws: seq<nat>, k: nat, done: seq<Text>)
    requires LettersNonEmpty(m) && len < maxLength && Successors(m, current) != []
    ensures var next := Pick(Successors(m, current), draws, k);
      && |next| > 0
      && var rest := Fill(m, next, len + |next|, maxLength, draws, k + 1);
      && Fill(m, current, len, maxLength, draws, k) == Path([next] + rest.letters, rest.next)
      && done + ([next] + rest.letters) == (done + [next]) + rest.letters
  {
    var next := Pick(Successors(m, current), draws, k);
    SuccessorNonEmpty(m, current, next);
    var rest := Fill(m, next, len + |next|, maxLength, draws, k + 1);
    assert done + ([next] + rest.letters) == (done + [next]) + rest.letters;
  }

  /** Every letter of the completion is a successor of the one before it. */
  lemma {:induction false} FillFollowsMatrix(m: TransitionMatrix, current: Text, len: int, maxLength: int, draws: seq<nat>, k: nat)
    requires LettersNonEmpty(m)
    ensures Chain(m, current, Fill(m, current, len, maxLength, draws, k).letters)
    decreases maxLength - len
  {
    if len < maxLength && Successors(m, current) != [] {
      var next := Pick(Successors(m, current), draws, k);
      SuccessorNonEmpty(m, current, next);
      var rest := Fill(m, next, len + |next|, maxLength, draws, k + 1);
      assert Fill(m, current, len, maxLength, draws, k).letters == [next] + rest.letters;
      FillFollowsMatrix(m, next, len + |next|, maxLength, draws, k + 1);
      ChainCons(m, current, next, rest.letters);
    }
  }

  /** The completion stops only once the word has `maxLength` bytes or where
      the matrix offers no successor. */
  lemma {:induction false} FillStopsAtEnd(m: TransitionMatrix, current: Text, len: int, maxLength: int, draws: seq<nat>, k: nat)
    requires LettersNonEmpty(m)
    ensures var p := Fill(m, current, len, maxLength, draws, k);
      len + |Concat(p.letters)| >= maxLength || Successors(m, Last(current, p.letters)) == []
    decreases maxLength - len
  {
    if len < maxLength && Successors(m, current) != [] {
      var next := Pick(Successors(m, current), draws, k);
      SuccessorNonEmpty(m, current, next);
      var rest := Fill(m, next, len + |next|, maxLength, draws, k + 1);
      FillStopsAtEnd(m, next, len + |next|, maxLength, draws, k + 1);
      LastCons(current, next, rest.letters);
      ConcatCons(next, rest.letters);
    }
  }

  // ---------------------------------------------------------------------
  // One call of generateWord

  /** What one call did: the starting letter, the letters of the first loop,
      the ending chosen (when the coin said so), the letters of the completion
      loop, and the next unused draw. */
  datatype Trace = Trace(first: Text, walk: seq<Text>, ending: Option<Text>, fill: seq<Text>, next: nat)

  /** The coin is tossed only when `$maxLength >= 3 && !empty($commonEndings)`
      holds, since `&&` does not evaluate `mt_rand` otherwise. */
  predicate Tossed(m: TransitionMatrix, maxLength: int)
  {
    maxLength >= 3 && GetCommonEndings(m) != []
  }

  /** The outcome of the coin: the ending it selected, if any, and the next unused draw. */
  datatype Toss = Toss(ending: Option<Text>, next: nat)

  /** Lines 59-60: the coin, tossed only when `Tossed` holds, and on heads
      the common ending picked with the following draw. */
  function TossCoin(m: TransitionMatrix, maxLength: int, draws: seq<nat>, k: nat): (c: Toss)
    ensures c.ending.Some? <==> Tossed(m, maxLength) && Heads(draws, k)
    ensures c.ending.Some? ==> c.ending.value in GetCommonEndings(m) && c.next == k + 2
    ensures c.ending.None? ==> c.next == if Tossed(m, maxLength) then k + 1 else k
  {
    if !Tossed(m, maxLength) then Toss(None, k)
    else if Heads(draws, k) then Toss(Some(Pick(GetCommonEndings(m), draws, k + 1)), k + 2)
    else Toss(None, k + 1)
  }

  /** The run of one call over the starting letters `starts`; None when
      `starts` is empty and `array_rand` throws its ValueError. */
  function Run(m: TransitionMatrix, starts: seq<Text>, maxLength: int, draws: seq<nat>, k: nat): (t: Option<Trace>)
    requires LettersNonEmpty(m)
  {
    if starts == [] then None
    else
      var first := Pick(starts, draws, k);
      var walk := Walk(m, first, Steps(maxLength), draws, k + 1);
      var toss := TossCoin(m, maxLength, draws, walk.next);
      if toss.ending.Some? then
        Some(Trace(first, walk.letters, toss.ending, [], toss.next))
      else
        var fill := Fill(m, Last(first, walk.letters), |first + Concat(walk.letters)|, maxLength, draws, toss.next);
        Some(Trace(first, walk.letters, None, fill.letters, fill.next))
  }

  /** True when the call picked a common ending (and so ran no completion loop). */
  predicate EndingChosen(m: TransitionMatrix, starts: seq<Text>, maxLength: int, draws: seq<nat>, k: nat)
    requires LettersNonEmpty(m)
  {
    match Run(m, starts, maxLength, draws, k)
    case None => false
    case Some(t) => t.ending.Some?
  }

  /** The word after the first loop. */
  function Core(t: Trace): Text
  {
    t.first + Concat(t.walk)
  }

  /** Lines 60-65: the core, cut so that core and ending fit in `maxLength`
      bytes when they would not, followed by the ending. */
  function Splice(core: Text, ending: Text, maxLength: int): Text
  {
    (if |core| + |ending| > maxLength then Substr(core, maxLength - |ending|) else core) + ending
  }

  /** The word before the final truncation. */
  function Unbounded(t: Trace, maxLength: int): Text
  {
    match t.ending
    case Some(e) => Splice(Core(t), e, maxLength)
    case None => Core(t) + Concat(t.fill)
  }

  /** The returned word: `substr($word, 0, $maxLength)`. */
  function Render(t: Trace, maxLength: int): Text
  {
    Substr(Unbounded(t, maxLength), maxLength)
  }

  /** A result of the generator, with the position of the next unused draw,
      or the ValueError `array_rand` throws on an empty array. */
  datatype Result<T> = Ok(value: T, next: nat) | ValueError

  /** `generateWord($maxLength)` over the starting letters `starts`. It fails
      exactly when there is no starting letter; a word never exceeds
      `maxLength` bytes, and a negative `maxLength` drops bytes from the end. */
  function Generate(m: TransitionMatrix, starts: seq<Text>, maxLength: int, draws: seq<nat>, k: nat): (r: Result<Text>)
    requires LettersNonEmpty(m)
    ensures r.ValueError? <==> starts == []
    ensures r.Ok? && maxLength >= 0 ==> |r.value| <= maxLength
    ensures r.Ok? && maxLength < 0 ==> r.value == Substr(Pick(starts, draws, k), maxLength)
    ensures r.Ok? ==> r.next > k
  {
    match Run(m, starts, maxLength, draws, k)
    case None => ValueError
    case Some(t) => Ok(Render(t, maxLength), t.next)
  }

  // ---------------------------------------------------------------------
  // generateWords

  /** `words` in front of the words of a later result; a failure stays a failure. */
  function Prepend(words: seq<Text>, r: Result<seq<Text>>): Result<seq<Text>>
  {
    match r
    case ValueError => ValueError
    case Ok(ws, next) => Ok(words + ws, next)
  }

  lemma PrependPrepend(xs: seq<Text>, ys: seq<Text>, r: Result<seq<Text>>)
    ensures Prepend(xs, Prepend(ys, r)) == Prepend(xs + ys, r)
  {
    if r.Ok? {
      assert xs + (ys + r.value) == (xs + ys) + r.value;
    }
  }

  lemma PrependNothing(r: Result<seq<Text>>)
    ensures Prepend([], r) == r
  {
    if r.Ok? {
      assert [] + r.value == r.value;
    }
  }

  /** `generateWords($count, $maxLength)`: the words of `count` successive
      calls, each call reading the draws after those of the previous one. */
  function GenerateMany(m: TransitionMatrix, starts: seq<Text>, count: int, maxLength: int, draws: seq<nat>, k: nat): (r: Result<seq<Text>>)
    requires LettersNonEmpty(m)
    ensures count <= 0 ==> r == Ok([], k)
    decreases count
  {
    if count <= 0 then Ok([], k)
    else
      match Generate(m, starts, maxLength, draws, k)
      case ValueError => ValueError
      case Ok(w, next) => Prepend([w], GenerateMany(m, starts, count - 1, maxLength, draws, next))
  }

  /** One iteration of the loop of `generateWords`: after `words`, a failed
      call ends the result in failure, a successful one is appended and the
      remaining calls read the draws after it. */
  lemma GenerateManyStep(m: TransitionMatrix, starts: seq<Text>, count: int, maxLength: int, draws: seq<nat>, k: nat, words: seq<Text>,
                         g: Result<Text>, words': seq<Text>, count': int, k': nat)
    requires LettersNonEmpty(m) && count > 0 && count' == count - 1
    requires g == Generate(m, starts, maxLength, draws, k)
    requires g.Ok? ==> words' == words + [g.value] && k' == g.next
    ensures g.ValueError? ==> Prepend(words, GenerateMany(m, starts, count, maxLength, draws, k)) == ValueError
    ensures g.Ok? ==> Prepend(words, GenerateMany(m, starts, count, maxLength, draws, k))
                      == Prepend(words', GenerateMany(m, starts, count', maxLength, draws, k'))
  {
    if g.Ok? {
      PrependPrepend(words, [g.value], GenerateMany(m, starts, count - 1, maxLength, draws, g.next));
    }
  }

  /** `generateWords` fails exactly when a word is asked for and there is no
      starting letter; otherwise it returns `max(count, 0)` words, each one
      what `generateWord` returns at its place in the sequence of draws. */
  lemma {:induction false} GenerateManyWords(m: TransitionMatrix, starts: seq<Text>, count: int, maxLength: int, draws: seq<nat>, k: nat)
    requires LettersNonEmpty(m)
    ensures var r := GenerateMany(m, starts, count, maxLength, draws, k);
      && (r.ValueError? <==> count > 0 && starts == [])
      && (r.Ok? ==> |r.value| == Max(count, 0))
      && (r.Ok? && maxLength >= 0 ==> forall w | w in r.value :: |w| <= maxLength)
      && (r.Ok? && count > 0 ==> r.value[0] == Generate(m, starts, maxLength, draws, k).value)
    decreases count
  {
    if count > 0 && starts != [] {
      var g := Generate(m, starts, maxLength, draws, k);
      GenerateManyWords(m, starts, count - 1, maxLength, draws, g.next);
    }
  }

  // ---------------------------------------------------------------------
  // The imperative generator

  /** The first loop of `generateWord` (lines 46-55), from the starting
      letter `first` with the draws from `k` on. */
  method WalkLoop(m: TransitionMatrix, first: Text, maxLength: int, draws: seq<nat>, k: nat)
    returns (word: Text, current: Text, cursor: nat)
    ensures var p := Walk(m, first, Steps(maxLength), draws, k);
      word == first + Concat(p.letters) && current == Last(first, p.letters) && cursor == p.next
  {
    current, word, cursor := first, first, k;
    ghost var steps := Steps(maxLength);
    ghost var walked: seq<Text> := [];
    var i := 1;
    while i < maxLength - 2
      invariant 1 <= i <= steps + 1
      invariant word == first + Concat(walked)
      invariant current == Last(first, walked)
      invariant Walk(m, first, steps, draws, k)
             == var rest := Walk(m, current, steps - (i - 1), draws, cursor); Path(walked + rest.letters, rest.next)
    {
      var nextLetters := Successors(m, current);
      if nextLetters == [] {
        break;
      }
      var next := Pick(nextLetters, draws, cursor);
      ghost var rest := Walk(m, next, steps - i, draws, cursor + 1);
      assert Walk(m, current, steps - (i - 1), draws, cursor) == Path([next] + rest.letters, rest.next);
      assert walked + ([next] + rest.letters) == (walked + [next]) + rest.letters;
      ConcatSnoc(walked, next);
      cursor := cursor + 1;
      word := word + next;
      walked := walked + [next];
      current := next;
      i := i + 1;
    }
    assert Walk(m, first, steps, draws, k) == Path(walked, cursor);
  }

  /** The completion loop of `generateWord` (lines 68-76), resuming from the
      letter `current` on which the first loop stopped. */
  method CompletionLoop(m: TransitionMatrix, word0: Text, current0: Text, maxLength: int, draws: seq<nat>, k: nat)
    returns (word: Text, cursor: nat)
    requires LettersNonEmpty(m)
    ensures var p := Fill(m, current0, |word0|, maxLength, draws, k);
      word == word0 + Concat(p.letters) && cursor == p.next
  {
    var current := current0;
    word, cursor := word0, k;
    ghost var filled: seq<Text> := [];
    while |word| < maxLength
      invariant word == word0 + Concat(filled)
      invariant current == Last(current0, filled)
      invariant Fill(m, current0, |word0|, maxLength, draws, k)
             == var rest := Fill(m, current, |word|, maxLength, draws, cursor); Path(filled + rest.letters, rest.next)
      decreases maxLength - |word|
    {
      var nextLetters := Successors(m, current);
      if nextLetters == [] {
        break;
      }
      var next := Pick(nextLetters, draws, cursor);
      FillStep(m, current, |word|, maxLength, draws, cursor, filled);
      ConcatSnoc(filled, next);
      cursor := cursor + 1;
      word := word + next;
      filled := filled + [next];
      current := next;
    }
    assert Fill(m, current0, |word0|, maxLength, draws, k) == Path(filled, cursor);
  }

  /** `generateWord`, over the starting letters `starts`. */
  method Synthesize(m: TransitionMatrix, starts: seq<Text>, maxLength: int, draws: seq<nat>, k: nat) returns (r: Result<Text>)
    requires LettersNonEmpty(m)
    ensures r == Generate(m, starts, maxLength, draws, k)
  {
    if starts == [] {
      return ValueError;
    }
    ghost var t := Run(m, starts, maxLength, draws, k).value;
    var first := Pick(starts, draws, k);
    var word, current, cursor := WalkLoop(m, first, maxLength, draws, k + 1);
    ghost var toss := TossCoin(m, maxLength, draws, cursor);
    assert word == Core(t) && toss.ending == t.ending;
    var commonEndings := GetCommonEndings(m);
    var heads := false;
    if maxLength >= 3 && commonEndings != [] {
      heads := Heads(draws, cursor);
      cursor := cursor + 1;
    }
    if heads {
      var ending := Pick(commonEndings, draws, cursor);
      cursor := cursor + 1;
      assert t.ending == Some(ending) && t.next == cursor;
      if |word| + |ending| > maxLength {
        word := Substr(word, maxLength - |ending|);
      }
      word := word + ending;
    } else {
      assert t.ending == None && cursor == toss.next;
      word, cursor := CompletionLoop(m, word, current, maxLength, draws, cursor);
    }
    assert word == Unbounded(t, maxLength) && cursor == t.next;
    return Ok(Substr(word, maxLength), cursor);
  }

  /** One iteration of the loop of `generateWords`: the call of
      `generateWord` at draw `cursor`, its word appended to `words`, and
      `left - 1` calls still to come. */
  method NextWord(m: TransitionMatrix, starts: seq<Text>, maxLength: int, draws: seq<nat>, cursor: nat, words: seq<Text>, ghost left: int)
    returns (ok: bool, words': seq<Text>, cursor': nat, ghost left': int)
    requires LettersNonEmpty(m) && left > 0
    ensures left' == left - 1
    ensures !ok ==> Prepend(words, GenerateMany(m, starts, left, maxLength, draws, cursor)) == ValueError
    ensures ok ==> Prepend(words, GenerateMany(m, starts, left, maxLength, draws, cursor))
                   == Prepend(words', GenerateMany(m, starts, left', maxLength, draws, cursor'))
  {
    left' := left - 1;
    var w := Synthesize(m, starts, maxLength, draws, cursor);
    if w.ValueError? {
      ok, words', cursor' := false, words, cursor;
    } else {
      ok, words', cursor' := true, words + [w.value], w.next;
    }
    GenerateManyStep(m, starts, left, maxLength, draws, cursor, words, w, words', left', cursor');
  }

  /** The loop of `generateWords`. */
  method SynthesizeMany(m: TransitionMatrix, starts: seq<Text>, count: int, maxLength: int, draws: seq<nat>, k: nat) returns (r: Result<seq<Text>>)
    requires LettersNonEmpty(m)
    ensures r == GenerateMany(m, starts, count, maxLength, draws, k)
  {
    var words: seq<Text> := [];
    var cursor := k;
    var i := 0;
    ghost var left := count;
    PrependNothing(GenerateMany(m, starts, count, maxLength, draws, k));
    while i < count
      invariant 0 <= i <= Max(count, 0) && left == count - i
      invariant GenerateMany(m, starts, count, maxLength, draws, k)
             == Prepend(words, GenerateMany(m, starts, left, maxLength, draws, cursor))
    {
      var ok;
      ok, words, cursor, left := NextWord(m, starts, maxLength, draws, cursor, words, left);
      if !ok {
        return ValueError;
      }
      i := i + 1;
    }
    assert GenerateMany(m, starts, left, maxLength, draws, cursor) == Ok([], cursor);
    assert words + [] == words;
    return Ok(words, cursor);
  }

  /** The `$maxLength` that `generateWord` and `generateWords` use when none is given. */
  const DefaultMaxLength: int := 6

  /** `WordGenerator`: a generator bound to one transition matrix, which it
      never changes. */
  class WordGenerator {
    const matrix: TransitionMatrix

    constructor (matrix: TransitionMatrix)
      ensures this.matrix == matrix
    {
      this.matrix := matrix;
    }

    /** `generateWord($maxLength)`: a walk from one of the starting letters of the matrix. */
    method GenerateWord(maxLength: int := DefaultMaxLength, draws: seq<nat>, k: nat) returns (r: Result<Text>)
      requires LettersNonEmpty(matrix)
      ensures r == Generate(matrix, GetStartingLetters(matrix), maxLength, draws, k)
    {
      r := Synthesize(matrix, GetStartingLetters(matrix), maxLength, draws, k);
    }

    /** `generateWords($count, $maxLength)`. */
    method GenerateWords(count: int, maxLength: int := DefaultMaxLength, draws: seq<nat>, k: nat) returns (r: Result<seq<Text>>)
      requires LettersNonEmpty(matrix)
      ensures r == GenerateMany(matrix, GetStartingLetters(matrix), count, maxLength, draws, k)
    {
      r := SynthesizeMany(matrix, GetStartingLetters(matrix), count, maxLength, draws, k);
    }
  }
}
