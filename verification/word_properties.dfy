/** What the generator promises about the words it returns: how they follow
    the matrix, how the draws are spent, their length, how an ending is
    spliced in, and which bytes they can contain. */
module WordProperties {
  import opened Php
  import opened Transitions
  import opened Generator

  /** The starting letter comes from `starts`, the first loop appends at most
      `max(0, maxLength - 3)` letters, every letter of both loops is a
      successor of the letter before it (the completion resumes where the
      first loop stopped), and an ending comes with no completion. */
  lemma RunFollowsMatrix(m: TransitionMatrix, starts: seq<Text>, maxLength: int, draws: seq<nat>, k: nat)
    requires LettersNonEmpty(m) && starts != []
    ensures var t := Run(m, starts, maxLength, draws, k).value;
      && t.first in starts
      && |t.walk| <= Steps(maxLength)
      && Chain(m, t.first, t.walk + t.fill)
      && (t.ending.Some? ==> t.fill == [] && t.ending.value in GetCommonEndings(m))
  {
    var first := Pick(starts, draws, k);
    var walk := Walk(m, first, Steps(maxLength), draws, k + 1);
    WalkFollowsMatrix(m, first, Steps(maxLength), draws, k + 1);
    var t := Run(m, starts, maxLength, draws, k).value;
    if t.ending.None? {
      var after := TossCoin(m, maxLength, draws, walk.next).next;
      FillFollowsMatrix(m, Last(first, walk.letters), |first + Concat(walk.letters)|, maxLength, draws, after);
      ChainAppend(m, first, walk.letters, t.fill);
    } else {
      assert t.walk + t.fill == t.walk;
    }
  }

  /** One draw picks the starting letter and one each letter of the loops;
      the coin takes a draw only when it is tossed, and an ending is chosen
      exactly when the coin is tossed and shows heads. */
  lemma DrawsConsumed(m: TransitionMatrix, starts: seq<Text>, maxLength: int, draws: seq<nat>, k: nat)
    requires LettersNonEmpty(m) && starts != []
    ensures var t := Run(m, starts, maxLength, draws, k).value;
      && (t.ending.Some? <==> Tossed(m, maxLength) && Heads(draws, k + 1 + |t.walk|))
      && t.next == k + 1 + |t.walk| + (if Tossed(m, maxLength) then 1 else 0) + (if t.ending.Some? then 1 else |t.fill|)
  {
  }

  /** A word is never empty when `maxLength` is positive, provided the
      starting letters and the endings are not empty strings. */
  lemma GenerateNonEmpty(m: TransitionMatrix, starts: seq<Text>, maxLength: int, draws: seq<nat>, k: nat)
    requires LettersNonEmpty(m) && EndingsNonEmpty(m)
    requires starts != [] && AllNonEmpty(starts)
    requires maxLength >= 1
    ensures Generate(m, starts, maxLength, draws, k).Ok?
    ensures |Generate(m, starts, maxLength, draws, k).value| > 0
  {
    RunFollowsMatrix(m, starts, maxLength, draws, k);
    var t := Run(m, starts, maxLength, draws, k).value;
    assert |Unbounded(t, maxLength)| > 0 by {
      match t.ending
      case Some(e) =>
        assert e in GetCommonEndings(m);
      case None =>
        assert |Core(t)| >= |t.first| > 0;
    }
  }

  /** An ending no longer than `maxLength` closes the word. When core and
      ending do not fit, the core is cut to `maxLength - |e|` bytes and the
      word has exactly `maxLength` bytes; when they fit the word is core and
      ending, which can be shorter than `maxLength`. */
  lemma EndingSplice(t: Trace, e: Text, maxLength: int)
    requires t.ending == Some(e) && |e| <= maxLength
    ensures var w := Render(t, maxLength);
      && |w| >= |e| && w[|w| - |e|..] == e
      && (|Core(t)| + |e| > maxLength ==> w == Core(t)[..maxLength - |e|] + e && |w| == maxLength)
      && (|Core(t)| + |e| <= maxLength ==> w == Core(t) + e)
  {
    var w := Render(t, maxLength);
    assert |Unbounded(t, maxLength)| <= maxLength;
    assert w == Unbounded(t, maxLength);
  }

  /** An ending longer than `maxLength` makes the length passed to the first
      `substr` negative: that drops `|e| - maxLength` bytes from the end of
      the core instead of emptying it, and the final truncation then cuts
      into the ending. The word still has exactly `maxLength` bytes. */
  lemma LongEndingSplice(t: Trace, e: Text, maxLength: int)
    requires t.ending == Some(e) && 0 <= maxLength < |e|
    ensures Render(t, maxLength) == (Core(t)[..Max(0, |Core(t)| - (|e| - maxLength))] + e)[..maxLength]
    ensures |Render(t, maxLength)| == maxLength
  {
  }

  /** When the coin is tossed and shows heads, the draw after it picks the
      ending: the one at index `i` when that draw is `i` modulo the number
      of endings. */
  lemma ChosenEnding(m: TransitionMatrix, starts: seq<Text>, maxLength: int, draws: seq<nat>, k: nat, i: nat)
    requires LettersNonEmpty(m) && starts != [] && maxLength >= 3
    requires i < |GetCommonEndings(m)|
    requires Heads(draws, Walk(m, Pick(starts, draws, k), Steps(maxLength), draws, k + 1).next)
    requires Draw(draws, Walk(m, Pick(starts, draws, k), Steps(maxLength), draws, k + 1).next + 1) % |GetCommonEndings(m)| == i
    ensures Run(m, starts, maxLength, draws, k).Some?
    ensures Run(m, starts, maxLength, draws, k).value.ending == Some(GetCommonEndings(m)[i])
  {
  }

  /** Heads, then a draw that picks an ending longer than `maxLength` (such
      as the five-byte "mente" of the Spanish matrix with a maximum length of
      3 or 4): the first `substr` drops bytes from the end of the core and
      the final `substr` cuts into the ending. */
  lemma LongChosenEnding(m: TransitionMatrix, starts: seq<Text>, maxLength: int, draws: seq<nat>, k: nat, i: nat)
    requires LettersNonEmpty(m) && starts != [] && maxLength >= 3
    requires i < |GetCommonEndings(m)| && maxLength < |GetCommonEndings(m)[i]|
    requires Heads(draws, Walk(m, Pick(starts, draws, k), Steps(maxLength), draws, k + 1).next)
    requires Draw(draws, Walk(m, Pick(starts, draws, k), Steps(maxLength), draws, k + 1).next + 1) % |GetCommonEndings(m)| == i
    ensures var t := Run(m, starts, maxLength, draws, k).value;
      var e := GetCommonEndings(m)[i];
      Generate(m, starts, maxLength, draws, k)
        == Ok((Core(t)[..Max(0, |Core(t)| - (|e| - maxLength))] + e)[..maxLength], t.next)
  {
    ChosenEnding(m, starts, maxLength, draws, k, i);
    var t := Run(m, starts, maxLength, draws, k).value;
    LongEndingSplice(t, GetCommonEndings(m)[i], maxLength);
  }

  /** A key of a closed matrix leads only to keys. */
  lemma ChainStaysInMatrix(m: TransitionMatrix, current: Text, letters: seq<Text>)
    requires Closed(m) && current in m.matrix.rows
    requires Chain(m, current, letters)
    ensures Last(current, letters) in m.matrix.rows
    ensures Successors(m, Last(current, letters)) != []
  {
    if letters != [] {
      var i := |letters| - 1;
      assert letters[i] in Successors(m, Last(current, letters[..i]));
    }
  }

  /** Over a closed matrix whose starting letters are keys, the first loop
      runs its full count, and a word without an ending has exactly
      `maxLength` bytes. */
  lemma ClosedMatrixExactLength(m: TransitionMatrix, starts: seq<Text>, maxLength: int, draws: seq<nat>, k: nat)
    requires LettersNonEmpty(m) && Closed(m)
    requires starts != [] && forall s | s in starts :: s in m.matrix.rows
    requires maxLength >= 0
    ensures var t := Run(m, starts, maxLength, draws, k).value;
      && |t.walk| == Steps(maxLength)
      && (t.ending.None? ==> |Render(t, maxLength)| == maxLength)
  {
    var first := Pick(starts, draws, k);
    var walk := Walk(m, first, Steps(maxLength), draws, k + 1);
    WalkFollowsMatrix(m, first, Steps(maxLength), draws, k + 1);
    ChainStaysInMatrix(m, first, walk.letters);
    var t := Run(m, starts, maxLength, draws, k).value;
    if t.ending.None? {
      var current := Last(first, walk.letters);
      var after := TossCoin(m, maxLength, draws, walk.next).next;
      var len := |first + Concat(walk.letters)|;
      FillFollowsMatrix(m, current, len, maxLength, draws, after);
      FillStopsAtEnd(m, current, len, maxLength, draws, after);
      ChainStaysInMatrix(m, current, t.fill);
      assert |Unbounded(t, maxLength)| >= maxLength;
    }
  }

  /** Every byte of `t` satisfies `P`. */
  predicate BytesAre(t: Text, P: Byte -> bool)
  {
    forall i :: 0 <= i < |t| ==> P(t[i])
  }

  /** Every byte of every starting letter, successor letter and ending satisfies `P`. */
  predicate MatrixBytesAre(m: TransitionMatrix, starts: seq<Text>, P: Byte -> bool)
  {
    && (forall s | s in starts :: BytesAre(s, P))
    && (forall k | k in m.matrix.rows :: forall l | l in m.matrix.rows[k] :: BytesAre(l, P))
    && (forall e | e in m.commonEndings :: BytesAre(e, P))
  }

  lemma ConcatBytesAre(parts: seq<Text>, P: Byte -> bool)
    requires forall p | p in parts :: BytesAre(p, P)
    ensures BytesAre(Concat(parts), P)
  {
    forall i, j | 0 <= i < |parts| && 0 <= j < |parts[i]| ensures P(parts[i][j]) {
      assert parts[i] in parts;
    }
    ConcatBytes(parts, P);
  }

  /** A word built from pieces whose bytes all satisfy `P` has only such bytes. */
  lemma RenderBytes(t: Trace, maxLength: int, P: Byte -> bool)
    requires BytesAre(t.first, P)
    requires forall l | l in t.walk :: BytesAre(l, P)
    requires forall l | l in t.fill :: BytesAre(l, P)
    requires t.ending.Some? ==> BytesAre(t.ending.value, P)
    ensures BytesAre(Render(t, maxLength), P)
  {
    ConcatBytesAre(t.walk, P);
    ConcatBytesAre(t.fill, P);
    assert BytesAre(Core(t), P);
    assert BytesAre(Unbounded(t, maxLength), P);
  }

  /** The letters of a walk over the matrix are successor letters stored in it. */
  lemma ChainBytes(m: TransitionMatrix, current: Text, letters: seq<Text>, P: Byte -> bool)
    requires Chain(m, current, letters)
    requires forall k | k in m.matrix.rows :: forall l | l in m.matrix.rows[k] :: BytesAre(l, P)
    ensures forall l | l in letters :: BytesAre(l, P)
  {
    forall l | l in letters ensures BytesAre(l, P) {
      var i :| 0 <= i < |letters| && letters[i] == l;
      assert l in Successors(m, Last(current, letters[..i]));
    }
  }

  /** A word is made of the bytes of the matrix: whatever holds of every byte
      of the starting letters, successors and endings holds of every byte of
      the word. */
  lemma WordBytes(m: TransitionMatrix, starts: seq<Text>, maxLength: int, draws: seq<nat>, k: nat, P: Byte -> bool)
    requires LettersNonEmpty(m) && MatrixBytesAre(m, starts, P)
    ensures var r := Generate(m, starts, maxLength, draws, k); r.Ok? ==> BytesAre(r.value, P)
  {
    if starts != [] {
      RunFollowsMatrix(m, starts, maxLength, draws, k);
      var t := Run(m, starts, maxLength, draws, k).value;
      ChainBytes(m, t.first, t.walk + t.fill, P);
      assert forall l | l in t.walk :: l in t.walk + t.fill;
      assert forall l | l in t.fill :: l in t.walk + t.fill;
      RenderBytes(t, maxLength, P);
    }
  }

  /** Over a matrix whose bytes all lie between `lo` and `hi`, so do those of
      every word of `generateWord`. */
  lemma WordBetween(m: TransitionMatrix, starts: seq<Text>, maxLength: int, draws: seq<nat>, k: nat, lo: Byte, hi: Byte)
    requires LettersNonEmpty(m) && MatrixBetween(m, starts, lo, hi)
    ensures var r := Generate(m, starts, maxLength, draws, k); r.Ok? ==> Between(r.value, lo, hi)
  {
    var P := b => lo <= b <= hi;
    forall s | s in starts ensures BytesAre(s, P) {
      assert Between(s, lo, hi);
    }
    forall key, l | key in m.matrix.rows && l in m.matrix.rows[key] ensures BytesAre(l, P) {
      assert Between(l, lo, hi);
    }
    forall e | e in m.commonEndings ensures BytesAre(e, P) {
      assert Between(e, lo, hi);
    }
    WordBytes(m, starts, maxLength, draws, k, P);
  }

  /** The word of `generateWord` at draw `j`, if there is one. */
  function WordAt(m: TransitionMatrix, starts: seq<Text>, maxLength: int, draws: seq<nat>, j: nat): Option<Text>
    requires LettersNonEmpty(m)
  {
    match Generate(m, starts, maxLength, draws, j)
    case Ok(w, _) => Some(w)
    case ValueError => None
  }

  /** Every word of `ws` lies in the byte range, stated word by word. */
  predicate AllBetween(ws: seq<Text>, lo: Byte, hi: Byte)
    decreases |ws|
  {
    ws == [] || (Between(ws[0], lo, hi) && AllBetween(ws[1..], lo, hi))
  }

  lemma {:induction false} AllBetweenMembers(ws: seq<Text>, lo: Byte, hi: Byte)
    requires AllBetween(ws, lo, hi)
    ensures forall w | w in ws :: Between(w, lo, hi)
    decreases |ws|
  {
    if ws != [] {
      AllBetweenMembers(ws[1..], lo, hi);
      assert forall w | w in ws :: w == ws[0] || w in ws[1..];
    }
  }

  /** A byte range that bounds the word of `generateWord` at every position
      in the draws bounds every word of `generateWords`. */
  lemma {:induction false} WordsBetween(m: TransitionMatrix, starts: seq<Text>, count: int, maxLength: int, draws: seq<nat>, k: nat, lo: Byte, hi: Byte)
    requires LettersNonEmpty(m)
    requires forall j: nat :: WordAt(m, starts, maxLength, draws, j).Some? ==> Between(WordAt(m, starts, maxLength, draws, j).value, lo, hi)
    ensures GenerateMany(m, starts, count, maxLength, draws, k).Ok? ==> AllBetween(GenerateMany(m, starts, count, maxLength, draws, k).value, lo, hi)
    decreases count
  {
    if count > 0 {
      var g := Generate(m, starts, maxLength, draws, k);
      if g.Ok? {
        WordAtBetween(m, starts, maxLength, draws, k, lo, hi);
        WordsBetween(m, starts, count - 1, maxLength, draws, g.next, lo, hi);
        PrependBetween(g.value, GenerateMany(m, starts, count - 1, maxLength, draws, g.next), lo, hi);
      }
    }
  }

  lemma WordAtBetween(m: TransitionMatrix, starts: seq<Text>, maxLength: int, draws: seq<nat>, k: nat, lo: Byte, hi: Byte)
    requires LettersNonEmpty(m)
    requires forall j: nat :: WordAt(m, starts, maxLength, draws, j).Some? ==> Between(WordAt(m, starts, maxLength, draws, j).value, lo, hi)
    ensures Generate(m, starts, maxLength, draws, k).Ok? ==> Between(Generate(m, starts, maxLength, draws, k).value, lo, hi)
  {
    assert WordAt(m, starts, maxLength, draws, k).Some? ==> Between(WordAt(m, starts, maxLength, draws, k).value, lo, hi);
  }

  lemma PrependBetween(w: Text, rest: Result<seq<Text>>, lo: Byte, hi: Byte)
    requires Between(w, lo, hi) && (rest.Ok? ==> AllBetween(rest.value, lo, hi))
    ensures Prepend([w], rest).Ok? ==> AllBetween(Prepend([w], rest).value, lo, hi)
  {
    if rest.Ok? {
      assert ([w] + rest.value)[1..] == rest.value;
    }
  }

  /** ... and so do those of every word of `generateWords`. */
  lemma ManyWordsBetween(m: TransitionMatrix, starts: seq<Text>, count: int, maxLength: int, draws: seq<nat>, k: nat, lo: Byte, hi: Byte)
    requires LettersNonEmpty(m) && MatrixBetween(m, starts, lo, hi)
    ensures var r := GenerateMany(m, starts, count, maxLength, draws, k); r.Ok? ==> forall w | w in r.value :: Between(w, lo, hi)
  {
    forall j: nat | WordAt(m, starts, maxLength, draws, j).Some?
      ensures Between(WordAt(m, starts, maxLength, draws, j).value, lo, hi)
    {
      WordBetween(m, starts, maxLength, draws, j, lo, hi);
    }
    WordsBetween(m, starts, count, maxLength, draws, k, lo, hi);
    var r := GenerateMany(m, starts, count, maxLength, draws, k);
    if r.Ok? {
      AllBetweenMembers(r.value, lo, hi);
    }
  }

  /** Over an all-ASCII matrix, starting from ASCII letters, every word is plain ASCII. */
  lemma AsciiWords(m: TransitionMatrix, starts: seq<Text>, maxLength: int, draws: seq<nat>, k: nat)
    requires LettersNonEmpty(m) && AsciiMatrix(m)
    requires forall s | s in starts :: IsAscii(s)
    ensures var r := Generate(m, starts, maxLength, draws, k); r.Ok? ==> IsAscii(r.value)
  {
    var ascii := (b: Byte) => b < 0x80;
    forall s | s in starts ensures BytesAre(s, ascii) {
      assert IsAscii(s);
    }
    forall key | key in m.matrix.rows ensures forall l | l in m.matrix.rows[key] :: BytesAre(l, ascii) {
      forall l | l in m.matrix.rows[key] ensures BytesAre(l, ascii) {
        assert IsAscii(l);
      }
    }
    forall e | e in m.commonEndings ensures BytesAre(e, ascii) {
      assert IsAscii(e);
    }
    WordBytes(m, starts, maxLength, draws, k, ascii);
  }

  /** Over an all-ASCII matrix, every word generated from its starting letters is plain ASCII. */
  lemma AsciiMatrixWords(m: TransitionMatrix, maxLength: int, draws: seq<nat>, k: nat)
    requires LettersNonEmpty(m) && AsciiMatrix(m)
    ensures var r := Generate(m, GetStartingLetters(m), maxLength, draws, k); r.Ok? ==> IsAscii(r.value)
  {
    StartingLettersAreKeys(m);
    AsciiWords(m, GetStartingLetters(m), maxLength, draws, k);
  }

  /** Every word over a closed matrix whose starting letters are its keys,
      with non-empty keys and endings, for a positive maximum length:
      generation never fails, the word is not empty and has at most
      `maxLength` bytes, and exactly `maxLength` when no ending was chosen. */
  lemma ClosedMatrixWords(m: TransitionMatrix, maxLength: int, draws: seq<nat>, k: nat)
    requires LettersNonEmpty(m) && EndingsNonEmpty(m) && Closed(m) && WellFormed(m.matrix)
    requires m.matrix.keys != [] && AllNonEmpty(m.matrix.keys)
    requires GetStartingLetters(m) == m.matrix.keys
    requires maxLength >= 1
    ensures var r := Generate(m, GetStartingLetters(m), maxLength, draws, k);
      && r.Ok? && 0 < |r.value| <= maxLength
      && (!EndingChosen(m, GetStartingLetters(m), maxLength, draws, k) ==> |r.value| == maxLength)
  {
    var starts := m.matrix.keys;
    GenerateNonEmpty(m, starts, maxLength, draws, k);
    ClosedMatrixExactLength(m, starts, maxLength, draws, k);
    GenerateOfRun(m, starts, maxLength, draws, k, Run(m, starts, maxLength, draws, k).value);
  }

  /** Under the same conditions `generateWords` never fails, returns
      `max(count, 0)` words, and none of them is empty or longer than `maxLength`. */
  lemma {:induction false} ClosedMatrixManyWords(m: TransitionMatrix, count: int, maxLength: int, draws: seq<nat>, k: nat)
    requires LettersNonEmpty(m) && EndingsNonEmpty(m) && Closed(m) && WellFormed(m.matrix)
    requires m.matrix.keys != [] && AllNonEmpty(m.matrix.keys)
    requires GetStartingLetters(m) == m.matrix.keys
    requires maxLength >= 1
    ensures var r := GenerateMany(m, GetStartingLetters(m), count, maxLength, draws, k);
      && r.Ok? && |r.value| == Max(count, 0)
      && forall w | w in r.value :: 0 < |w| <= maxLength
    decreases count
  {
    if count > 0 {
      var starts := GetStartingLetters(m);
      ClosedMatrixWords(m, maxLength, draws, k);
      var g := Generate(m, starts, maxLength, draws, k);
      var rest := GenerateMany(m, starts, count - 1, maxLength, draws, g.next);
      ClosedMatrixManyWords(m, count - 1, maxLength, draws, g.next);
      assert GenerateMany(m, starts, count, maxLength, draws, k) == Prepend([g.value], rest);
    }
  }

  /** Over any matrix whose starting letters and endings are non-empty
      strings, `generateWords` with a positive `maxLength` never fails and
      returns `max(count, 0)` non-empty words. */
  lemma {:induction false} GenerateManyNonEmpty(m: TransitionMatrix, starts: seq<Text>, count: int, maxLength: int, draws: seq<nat>, k: nat)
    requires LettersNonEmpty(m) && EndingsNonEmpty(m)
    requires starts != [] && AllNonEmpty(starts)
    requires maxLength >= 1
    ensures var r := GenerateMany(m, starts, count, maxLength, draws, k);
      && r.Ok? && |r.value| == Max(count, 0)
      && forall w | w in r.value :: |w| > 0
    decreases count
  {
    if count > 0 {
      GenerateNonEmpty(m, starts, maxLength, draws, k);
      var g := Generate(m, starts, maxLength, draws, k);
      var rest := GenerateMany(m, starts, count - 1, maxLength, draws, g.next);
      GenerateManyNonEmpty(m, starts, count - 1, maxLength, draws, g.next);
      assert GenerateMany(m, starts, count, maxLength, draws, k) == Prepend([g.value], rest);
    }
  }

  /** The two-letter matrix a -> [b], b -> [a] with the given endings. */
  function Alternating(endings: seq<Text>): (m: TransitionMatrix)
    ensures LettersNonEmpty(m) && Closed(m) && WellFormed(m.matrix)
  {
    TransitionMatrix(LetterTable([[97], [98]], map[[97] := [[98]], [98] := [[97]]]), endings)
  }

  lemma AlternatingStarts(endings: seq<Text>)
    ensures GetStartingLetters(Alternating(endings)) == [[97], [98]]
  {
    ExcludedIsNotCedilla();
    StartingLettersAreKeys(Alternating(endings));
  }

  lemma GenerateOfRun(m: TransitionMatrix, starts: seq<Text>, maxLength: int, draws: seq<nat>, k: nat, t: Trace)
    requires LettersNonEmpty(m) && Run(m, starts, maxLength, draws, k) == Some(t)
    ensures Generate(m, starts, maxLength, draws, k) == Ok(Render(t, maxLength), t.next)
  {
  }

  lemma AlternatingRunWithoutEndings()
    ensures Run(Alternating([]), [[97], [98]], 4, [], 0) == Some(Trace([97], [[98]], None, [[97], [98]], 4))
  {
    var m := Alternating([]);
    assert Pick([[97], [98]], [], 0) == [97];
    assert Walk(m, [97], 1, [], 1) == Path([[98]], 2);
    assert !Tossed(m, 4);
    assert |[97] + Concat([[98]])| == 2 by {
      ConcatCons([98], []);
    }
    assert Fill(m, [98], 4, 4, [], 4) == Path([], 4);
    assert Fill(m, [97], 3, 4, [], 3) == Path([[98]], 4);
    assert Fill(m, [98], 2, 4, [], 2) == Path([[97], [98]], 4);
  }

  lemma AlternatingRenderWithoutEndings()
    ensures Render(Trace([97], [[98]], None, [[97], [98]], 4), 4) == [97, 98, 97, 98]
  {
    var t := Trace([97], [[98]], None, [[97], [98]], 4);
    assert Concat([[98]]) == [98] by {
      ConcatCons([98], []);
    }
    assert Concat([[97], [98]]) == [97, 98] by {
      ConcatCons([98], []);
      ConcatCons([97], [[98]]);
    }
    assert Core(t) == [97, 98];
    assert Unbounded(t, 4) == [97, 98, 97, 98];
  }

  /** Without endings no coin is tossed, and the completion loop resumes
      from the letter on which the first loop stopped: with every draw 0 and
      a maximum length of 4 the word is "abab". */
  lemma AlternatingWithoutEndings()
    ensures Generate(Alternating([]), GetStartingLetters(Alternating([])), 4, [], 0) == Ok([97, 98, 97, 98], 4)
  {
    AlternatingStarts([]);
    AlternatingRunWithoutEndings();
    AlternatingRenderWithoutEndings();
    GenerateOfRun(Alternating([]), [[97], [98]], 4, [], 0, Trace([97], [[98]], None, [[97], [98]], 4));
  }

  lemma AlternatingRunWithShortEnding()
    ensures Run(Alternating([[120]]), [[97], [98]], 6, [0, 0, 0, 0, 1], 0)
         == Some(Trace([97], [[98], [97], [98]], Some([120]), [], 6))
  {
    var m := Alternating([[120]]);
    var draws := [0, 0, 0, 0, 1];
    assert Pick([[97], [98]], draws, 0) == [97];
    assert Walk(m, [98], 0, draws, 4) == Path([], 4);
    assert Walk(m, [97], 1, draws, 3) == Path([[98]], 4);
    assert Walk(m, [98], 2, draws, 2) == Path([[97], [98]], 4);
    assert Walk(m, [97], 3, draws, 1) == Path([[98], [97], [98]], 4);
    assert Tossed(m, 6) && Heads(draws, 4);
    assert Pick([[120]], draws, 5) == [120];
  }

  lemma AlternatingRenderWithShortEnding()
    ensures Render(Trace([97], [[98], [97], [98]], Some([120]), [], 6), 6) == [97, 98, 97, 98, 120]
  {
    var t := Trace([97], [[98], [97], [98]], Some([120]), [], 6);
    assert Concat([[98], [97], [98]]) == [98, 97, 98] by {
      ConcatCons([98], []);
      ConcatCons([97], [[98]]);
      ConcatCons([98], [[97], [98]]);
    }
    assert Core(t) == [97, 98, 97, 98];
    assert Unbounded(t, 6) == [97, 98, 97, 98, 120];
  }

  /** The exact length the tests expect is not guaranteed, even over a
      closed matrix: with the ending "x" chosen and a maximum length of 6,
      the four-letter core "abab" and the ending fit, and the word "ababx"
      has 5 bytes. */
  lemma AlternatingWithShortEnding()
    ensures Generate(Alternating([[120]]), GetStartingLetters(Alternating([[120]])), 6, [0, 0, 0, 0, 1], 0)
         == Ok([97, 98, 97, 98, 120], 6)
  {
    AlternatingStarts([[120]]);
    AlternatingRunWithShortEnding();
    AlternatingRenderWithShortEnding();
    GenerateOfRun(Alternating([[120]]), [[97], [98]], 6, [0, 0, 0, 0, 1], 0, Trace([97], [[98], [97], [98]], Some([120]), [], 6));
  }
}
