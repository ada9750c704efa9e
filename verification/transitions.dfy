/** The transition matrix: an immutable table from a letter to the letters
    that may follow it, together with the list of common word endings. */
module Transitions {
  import opened Php

  /** A PHP array literal `['a' => ['b', 'c', ...], ...]`: its keys in
      insertion order and the list of successor letters stored under each key. */
  datatype LetterTable = LetterTable(keys: seq<Text>, rows: map<Text, seq<Text>>)

  /** The key list and the stored rows describe the same array. */
  predicate WellFormed(t: LetterTable)
  {
    (forall k | k in t.keys :: k in t.rows) && (forall k | k in t.rows :: k in t.keys)
  }

  /** `new TransitionMatrix($matrix, $commonEndings)`: both arguments are kept
      as given and nothing changes them afterwards. */
  datatype TransitionMatrix = TransitionMatrix(matrix: LetterTable, commonEndings: seq<Text>)

  /** `getMatrix()` */
  function GetMatrix(m: TransitionMatrix): LetterTable
  {
    m.matrix
  }

  /** `getCommonEndings()` */
  function GetCommonEndings(m: TransitionMatrix): seq<Text>
  {
    m.commonEndings
  }

  /** The getters return exactly what the constructor was given. */
  lemma GettersReturnArguments(table: LetterTable, endings: seq<Text>)
    ensures GetMatrix(TransitionMatrix(table, endings)) == table
    ensures GetCommonEndings(TransitionMatrix(table, endings)) == endings
  {
  }

  /** The literal that `getStartingLetters` filters out. The comment beside it
      speaks of 'ç', but the bytes in the file spell the two Thai characters
      U+0E23 U+0E07, six bytes of UTF-8. */
  const Excluded: Text := Utf8("รง")

  lemma ExcludedIsNotCedilla()
    ensures |Excluded| == 6 && |Utf8("ç")| == 2
    ensures Excluded != Utf8("ç")
  {
  }

  /** `array_filter($xs, fn ($k) => $k !== $x)`, renumbered: the elements of
      `xs` other than `x`, in their original order. */
  function Without(xs: seq<Text>, x: Text): (r: seq<Text>)
    ensures forall y :: y in r <==> y in xs && y != x
    ensures multiset(r) == multiset(xs)[x := 0]
    ensures x !in xs ==> r == xs
  {
    if xs == [] then []
    else
      var rest := Without(xs[..|xs| - 1], x);
      var last := xs[|xs| - 1];
      assert xs == xs[..|xs| - 1] + [last];
      if last == x then rest else rest + [last]
  }

  /** Filtering distributes over concatenation, so the relative order of
      the letters kept is that of the key list. */
  lemma {:induction false} WithoutAppend(xs: seq<Text>, ys: seq<Text>, x: Text)
    ensures Without(xs + ys, x) == Without(xs, x) + Without(ys, x)
    decreases |ys|
  {
    if ys == [] {
      assert xs + ys == xs;
    } else {
      var init := ys[..|ys| - 1];
      assert (xs + ys)[..|xs + ys| - 1] == xs + init;
      WithoutAppend(xs, init, x);
    }
  }

  /** `getStartingLetters()`: the keys of the matrix, in insertion order,
      except those equal to the excluded literal. */
  function GetStartingLetters(m: TransitionMatrix): (r: seq<Text>)
  {
    Without(m.matrix.keys, Excluded)
  }

  /** Every starting letter is a key; every key but the excluded literal is a
      starting letter; when no key is the excluded literal the list is the key list. */
  lemma StartingLettersAreKeys(m: TransitionMatrix)
    ensures forall l :: l in GetStartingLetters(m) <==> l in m.matrix.keys && l != Excluded
    ensures Excluded !in m.matrix.keys ==> GetStartingLetters(m) == m.matrix.keys
    ensures |GetStartingLetters(m)| == |m.matrix.keys| - multiset(m.matrix.keys)[Excluded]
  {
    var r := GetStartingLetters(m);
    assert |multiset(r)| == |r|;
  }

  /** The starting letters are empty exactly when every key is the excluded
      literal; in particular an empty matrix has none. */
  lemma StartingLettersEmpty(m: TransitionMatrix)
    ensures GetStartingLetters(m) == [] <==> forall k :: k in m.matrix.keys ==> k == Excluded
    ensures m.matrix.keys == [] ==> GetStartingLetters(m) == []
  {
    if GetStartingLetters(m) != [] {
      assert GetStartingLetters(m)[0] in GetStartingLetters(m);
    }
  }

  /** `getNextLetters($letter)`: the stored successor list, or null when the
      letter is not a key of the matrix (absence is not an error). */
  function GetNextLetters(m: TransitionMatrix, letter: Text): (r: Option<seq<Text>>)
  {
    if letter in m.matrix.rows then Some(m.matrix.rows[letter]) else None
  }

  /** In a well-formed matrix the lookup succeeds exactly for the keys. */
  lemma NextLettersOfKeys(m: TransitionMatrix, letter: Text)
    requires WellFormed(m.matrix)
    ensures GetNextLetters(m, letter).Some? <==> letter in m.matrix.keys
    ensures GetNextLetters(m, letter).Some? ==> GetNextLetters(m, letter).value == m.matrix.rows[letter]
  {
  }

  /** Every successor letter stored in the matrix has at least one byte
      (an empty letter that is also a key leading back to itself would keep
      the completion loop of the generator from ending). */
  predicate LettersNonEmpty(m: TransitionMatrix)
  {
    forall k | k in m.matrix.rows :: AllNonEmpty(m.matrix.rows[k])
  }

  /** Every successor is itself a key and every successor list is non-empty,
      so a walk over the matrix never stops early. */
  predicate Closed(m: TransitionMatrix)
  {
    forall k | k in m.matrix.rows :: m.matrix.rows[k] != [] && forall l | l in m.matrix.rows[k] :: l in m.matrix.rows
  }

  /** Every common ending has at least one byte. */
  predicate EndingsNonEmpty(m: TransitionMatrix)
  {
    AllNonEmpty(m.commonEndings)
  }

  /** Every key, successor and ending of `easy` appears in `standard`, and
      each successor list of `easy` is a subset of the list under the same key
      in `standard`. */
  predicate Restricts(easy: TransitionMatrix, standard: TransitionMatrix)
  {
    && (forall k | k in easy.matrix.rows :: k in standard.matrix.rows
          && forall l | l in easy.matrix.rows[k] :: l in standard.matrix.rows[k])
    && (forall e | e in easy.commonEndings :: e in standard.commonEndings)
  }

  /** Every key, successor letter and ending of the matrix is plain ASCII. */
  predicate AsciiMatrix(m: TransitionMatrix)
  {
    && (forall k | k in m.matrix.keys :: IsAscii(k))
    && (forall k | k in m.matrix.rows :: forall l | l in m.matrix.rows[k] :: IsAscii(l))
    && (forall e | e in m.commonEndings :: IsAscii(e))
  }

  /** Every byte of every starting letter, successor letter and ending lies between `lo` and `hi`. */
  predicate MatrixBetween(m: TransitionMatrix, starts: seq<Text>, lo: Byte, hi: Byte)
  {
    && (forall s | s in starts :: Between(s, lo, hi))
    && (forall k | k in m.matrix.rows :: forall l | l in m.matrix.rows[k] :: Between(l, lo, hi))
    && (forall e | e in m.commonEndings :: Between(e, lo, hi))
  }
}
