/** The language tables are written one character per letter, as the PHP
    array literals are; a PHP source file stores each such literal as its
    UTF-8 bytes. This module turns a character table into the byte-level
    transition matrix and carries its structural facts over. */
module LetterTables {
  import opened Php
  import opened Transitions

  /** A transition table as written in a source file: the keys in the order
      the literal lists them, the successors of each key (one character per
      letter), and the common endings. */
  datatype CharTable = CharTable(order: string, next: map<char, string>, endings: seq<string>)

  /** The code point that a UTF-8 sequence of one to four bytes spells. */
  function CodePoint(r: Text): int
  {
    if |r| == 1 then r[0] as int
    else if |r| == 2 then (r[0] as int - 0xC0) * 64 + (r[1] as int - 0x80)
    else if |r| == 3 then (r[0] as int - 0xE0) * 4096 + (r[1] as int - 0x80) * 64 + (r[2] as int - 0x80)
    else if |r| == 4 then
      (r[0] as int - 0xF0) * 262144 + (r[1] as int - 0x80) * 4096 + (r[2] as int - 0x80) * 64 + (r[3] as int - 0x80)
    else 0
  }

  /** Decoding undoes the encoding of one character. */
  lemma CodePointOfEncodeChar(c: char)
    ensures CodePoint(EncodeChar(c)) == c as int
  {
    var n := c as int;
    if n < 0x80 {
    } else if n < 0x800 {
      assert n == (n / 64) * 64 + n % 64;
    } else if n < 0x10000 {
      assert n / 64 == (n / 4096) * 64 + (n / 64) % 64;
      assert n == (n / 64) * 64 + n % 64;
    } else {
      assert n / 4096 == (n / 262144) * 64 + (n / 4096) % 64;
      assert n / 64 == (n / 4096) * 64 + (n / 64) % 64;
      assert n == (n / 64) * 64 + n % 64;
    }
  }

  /** Two characters with the same encoding are the same character. */
  lemma EncodeCharInjective(a: char, b: char)
    requires EncodeChar(a) == EncodeChar(b)
    ensures a == b
  {
    CodePointOfEncodeChar(a);
    CodePointOfEncodeChar(b);
  }

  /** The letters of a successor string, each as its bytes. */
  function Letters(s: string): (r: seq<Text>)
    ensures |r| == |s|
    ensures forall i :: 0 <= i < |s| ==> r[i] == EncodeChar(s[i])
  {
    seq(|s|, i requires 0 <= i < |s| => EncodeChar(s[i]))
  }

  /** A letter occurs in the encoded list exactly when its character occurs in the string. */
  lemma LettersMember(s: string, c: char)
    ensures EncodeChar(c) in Letters(s) <==> c in s
  {
    if EncodeChar(c) in Letters(s) {
      var i :| 0 <= i < |s| && Letters(s)[i] == EncodeChar(c);
      EncodeCharInjective(s[i], c);
    }
    if c in s {
      var i :| 0 <= i < |s| && s[i] == c;
      assert Letters(s)[i] == EncodeChar(c);
    }
  }

  /** Every element of an encoded list is the encoding of a character of the string. */
  lemma LettersInverse(s: string, l: Text)
    requires l in Letters(s)
    ensures exists c :: c in s && l == EncodeChar(c)
  {
    var i :| 0 <= i < |s| && Letters(s)[i] == l;
    assert s[i] in s;
  }

  /** The endings, each as its bytes. */
  function Endings(es: seq<string>): (r: seq<Text>)
    ensures |r| == |es|
    ensures forall i :: 0 <= i < |es| ==> r[i] == Utf8(es[i])
  {
    seq(|es|, i requires 0 <= i < |es| => Utf8(es[i]))
  }

  /** The encoded successor map. */
  function Rows(next: map<char, string>): (rows: map<Text, seq<Text>>)
    ensures forall c :: EncodeChar(c) in rows <==> c in next
    ensures forall c | c in next :: rows[EncodeChar(c)] == Letters(next[c])
    ensures forall k | k in rows :: exists c :: c in next && k == EncodeChar(c)
  {
    forall a, b | a in next && b in next && EncodeChar(a) == EncodeChar(b)
      ensures Letters(next[a]) == Letters(next[b])
    {
      EncodeCharInjective(a, b);
    }
    var rows := map c | c in next :: EncodeChar(c) := Letters(next[c]);
    forall c | EncodeChar(c) in rows ensures c in next {
      var d :| d in next && EncodeChar(d) == EncodeChar(c);
      EncodeCharInjective(c, d);
    }
    forall c | c in next ensures rows[EncodeChar(c)] == Letters(next[c]) {
      var d :| d in next && EncodeChar(d) == EncodeChar(c) && rows[EncodeChar(c)] == Letters(next[d]);
      EncodeCharInjective(c, d);
    }
    rows
  }

  /** The byte-level matrix a PHP source file builds from the table. */
  function ToMatrix(t: CharTable): TransitionMatrix
  {
    TransitionMatrix(LetterTable(Letters(t.order), Rows(t.next)), Endings(t.endings))
  }

  // Character-level facts, which are cheap to check on the literal tables.

  /** The key order lists exactly the keys of the successor map. */
  predicate CharWellFormed(t: CharTable)
  {
    (forall c | c in t.order :: c in t.next) && (forall c | c in t.next :: c in t.order)
  }

  /** Every successor is a key and no successor list is empty. */
  predicate CharClosed(t: CharTable)
  {
    forall k | k in t.next :: t.next[k] != [] && forall c | c in t.next[k] :: c in t.next
  }

  /** Every ending has at least one character. */
  predicate CharEndingsNonEmpty(t: CharTable)
  {
    forall e | e in t.endings :: e != []
  }

  /** Every key, successor and ending of `easy` is one of `standard`. */
  predicate CharRestricts(easy: CharTable, standard: CharTable)
  {
    && (forall k | k in easy.next :: k in standard.next && forall c | c in easy.next[k] :: c in standard.next[k])
    && (forall e | e in easy.endings :: e in standard.endings)
  }

  /** Every character of the table (keys, successors, endings) is ASCII. */
  predicate CharAscii(t: CharTable)
  {
    && (forall c | c in t.order :: c as int < 0x80)
    && (forall k | k in t.next :: k as int < 0x80 && forall c | c in t.next[k] :: c as int < 0x80)
    && (forall e | e in t.endings :: forall c | c in e :: c as int < 0x80)
  }

  // The facts carried over to the byte-level matrix.

  lemma ToMatrixWellFormed(t: CharTable)
    requires CharWellFormed(t)
    ensures WellFormed(ToMatrix(t).matrix)
  {
    var m := ToMatrix(t).matrix;
    forall k | k in m.keys ensures k in m.rows {
      LettersInverse(t.order, k);
    }
    forall k | k in m.rows ensures k in m.keys {
      var c :| c in t.next && k == EncodeChar(c);
      LettersMember(t.order, c);
    }
  }

  lemma ToMatrixClosed(t: CharTable)
    requires CharClosed(t)
    ensures Closed(ToMatrix(t))
  {
    var rows := ToMatrix(t).matrix.rows;
    forall k | k in rows
      ensures rows[k] != [] && forall l | l in rows[k] :: l in rows
    {
      var c :| c in t.next && k == EncodeChar(c);
      forall l | l in rows[k] ensures l in rows {
        LettersInverse(t.next[c], l);
      }
    }
  }

  lemma ToMatrixLettersNonEmpty(t: CharTable)
    ensures LettersNonEmpty(ToMatrix(t))
  {
    var rows := ToMatrix(t).matrix.rows;
    forall k | k in rows ensures AllNonEmpty(rows[k]) {
      var c :| c in t.next && k == EncodeChar(c);
      forall l | l in rows[k] ensures |l| > 0 {
        LettersInverse(t.next[c], l);
      }
    }
  }

  lemma ToMatrixEndingsNonEmpty(t: CharTable)
    requires CharEndingsNonEmpty(t)
    ensures EndingsNonEmpty(ToMatrix(t))
  {
    var es := ToMatrix(t).commonEndings;
    forall e | e in es ensures |e| > 0 {
      var i :| 0 <= i < |es| && es[i] == e;
      assert t.endings[i] in t.endings;
    }
  }

  lemma ToMatrixRestricts(easy: CharTable, standard: CharTable)
    requires CharRestricts(easy, standard)
    ensures Restricts(ToMatrix(easy), ToMatrix(standard))
  {
    RowsRestrict(easy.next, standard.next);
    EndingsRestrict(easy.endings, standard.endings);
  }

  lemma RowsRestrict(easy: map<char, string>, standard: map<char, string>)
    requires forall k | k in easy :: k in standard && forall c | c in easy[k] :: c in standard[k]
    ensures forall k | k in Rows(easy) :: k in Rows(standard) && forall l | l in Rows(easy)[k] :: l in Rows(standard)[k]
  {
    var er, sr := Rows(easy), Rows(standard);
    forall k | k in er
      ensures k in sr && forall l | l in er[k] :: l in sr[k]
    {
      var c :| c in easy && k == EncodeChar(c);
      assert er[k] == Letters(easy[c]) && sr[k] == Letters(standard[c]);
      forall l | l in er[k] ensures l in sr[k] {
        LettersInverse(easy[c], l);
        var d :| d in easy[c] && l == EncodeChar(d);
        LettersMember(standard[c], d);
      }
    }
  }

  lemma EndingsRestrict(easy: seq<string>, standard: seq<string>)
    requires forall e | e in easy :: e in standard
    ensures forall e | e in Endings(easy) :: e in Endings(standard)
  {
    var ee, se := Endings(easy), Endings(standard);
    forall e | e in ee ensures e in se {
      var i :| 0 <= i < |ee| && ee[i] == e;
      assert easy[i] in standard;
      var j :| 0 <= j < |standard| && standard[j] == easy[i];
      assert se[j] == e;
    }
  }

  /** A letter of the matrix is the encoding of a key of the table. */
  lemma ToMatrixKeys(t: CharTable, c: char)
    ensures EncodeChar(c) in ToMatrix(t).matrix.rows <==> c in t.next
    ensures EncodeChar(c) in ToMatrix(t).matrix.keys <==> c in t.order
  {
    LettersMember(t.order, c);
  }

  /** A letter appears in some successor list of the matrix exactly when its
      character appears in some successor string of the table. */
  lemma ToMatrixSuccessor(t: CharTable, k: char, c: char)
    requires k in t.next
    ensures EncodeChar(c) in ToMatrix(t).matrix.rows[EncodeChar(k)] <==> c in t.next[k]
  {
    LettersMember(t.next[k], c);
  }

  /** Every key of the encoded matrix has at least one byte, and there is one key per character of the key order. */
  lemma ToMatrixKeysNonEmpty(t: CharTable)
    ensures |ToMatrix(t).matrix.keys| == |t.order|
    ensures AllNonEmpty(ToMatrix(t).matrix.keys)
  {
    var keys := ToMatrix(t).matrix.keys;
    forall p | p in keys ensures |p| > 0 {
      var i :| 0 <= i < |keys| && keys[i] == p;
    }
  }

  /** A character that follows no key of the table is no successor letter of the matrix. */
  lemma ToMatrixNeverFollows(t: CharTable, c: char)
    requires forall k | k in t.next :: c !in t.next[k]
    ensures forall k | k in ToMatrix(t).matrix.rows :: EncodeChar(c) !in ToMatrix(t).matrix.rows[k]
  {
    var m := ToMatrix(t);
    forall k | k in m.matrix.rows ensures EncodeChar(c) !in m.matrix.rows[k] {
      var d :| d in t.next && k == EncodeChar(d);
      ToMatrixSuccessor(t, d, c);
    }
  }

  /** No key of an encoded table is the six-byte literal that
      `getStartingLetters` removes, since one character encodes to at most four bytes. */
  lemma ToMatrixStartingLetters(t: CharTable)
    ensures GetStartingLetters(ToMatrix(t)) == ToMatrix(t).matrix.keys
  {
    var keys := ToMatrix(t).matrix.keys;
    if Excluded in keys {
      LettersInverse(t.order, Excluded);
      ExcludedIsNotCedilla();
      assert false;
    }
    StartingLettersAreKeys(ToMatrix(t));
  }

  /** An ASCII character is stored as a single ASCII byte. */
  lemma EncodeAscii(c: char)
    requires c as int < 0x80
    ensures EncodeChar(c) == [c as int] && IsAscii(EncodeChar(c))
  {
  }

  lemma LettersAscii(s: string, l: Text)
    requires forall c | c in s :: c as int < 0x80
    requires l in Letters(s)
    ensures IsAscii(l)
  {
    var i :| 0 <= i < |s| && Letters(s)[i] == l;
    assert s[i] in s;
    EncodeAscii(s[i]);
  }

  lemma ToMatrixAscii(t: CharTable)
    requires CharAscii(t)
    ensures AsciiMatrix(ToMatrix(t))
  {
    var m := ToMatrix(t);
    forall k | k in m.matrix.keys ensures IsAscii(k) {
      LettersAscii(t.order, k);
    }
    forall k | k in m.matrix.rows ensures forall l | l in m.matrix.rows[k] :: IsAscii(l) {
      var c :| c in t.next && k == EncodeChar(c);
      forall l | l in m.matrix.rows[k] ensures IsAscii(l) {
        LettersAscii(t.next[c], l);
      }
    }
    forall e | e in m.commonEndings ensures IsAscii(e) {
      var i :| 0 <= i < |m.commonEndings| && m.commonEndings[i] == e;
      assert t.endings[i] in t.endings;
      Utf8Ascii(t.endings[i]);
    }
  }

  /** A letter encoded from characters between two ASCII bounds has only bytes between them. */
  lemma LettersBetween(s: string, l: Text, lo: char, hi: char)
    requires lo <= hi && hi as int < 0x80 && forall c | c in s :: lo <= c <= hi
    requires l in Letters(s)
    ensures Between(l, lo as int, hi as int)
  {
    var j :| 0 <= j < |s| && Letters(s)[j] == l;
    assert s[j] in s;
    EncodeAscii(s[j]);
  }

  /** For an ASCII range, every byte of every key, successor and ending of
      the matrix lies in the range its characters do. */
  lemma ToMatrixBetween(t: CharTable, lo: char, hi: char)
    requires lo <= hi && hi as int < 0x80
    requires forall c | c in t.order :: lo <= c <= hi
    requires forall k | k in t.next :: forall c | c in t.next[k] :: lo <= c <= hi
    requires forall e | e in t.endings :: forall c | c in e :: lo <= c <= hi
    ensures MatrixBetween(ToMatrix(t), ToMatrix(t).matrix.keys, lo as int, hi as int)
  {
    ToMatrixKeyBytesBetween(t, lo, hi);
    ToMatrixRowBytesBetween(t, lo, hi);
    ToMatrixEndingBytesBetween(t, lo, hi);
  }

  lemma ToMatrixKeyBytesBetween(t: CharTable, lo: char, hi: char)
    requires lo <= hi && hi as int < 0x80 && forall c | c in t.order :: lo <= c <= hi
    ensures forall k | k in ToMatrix(t).matrix.keys :: Between(k, lo as int, hi as int)
  {
    forall k | k in ToMatrix(t).matrix.keys ensures Between(k, lo as int, hi as int) {
      LettersBetween(t.order, k, lo, hi);
    }
  }

  lemma ToMatrixRowBytesBetween(t: CharTable, lo: char, hi: char)
    requires lo <= hi && hi as int < 0x80 && forall k | k in t.next :: forall c | c in t.next[k] :: lo <= c <= hi
    ensures forall k | k in ToMatrix(t).matrix.rows :: forall l | l in ToMatrix(t).matrix.rows[k] :: Between(l, lo as int, hi as int)
  {
    var rows := Rows(t.next);
    forall k, l | k in rows && l in rows[k] ensures Between(l, lo as int, hi as int) {
      var c :| c in t.next && k == EncodeChar(c);
      LettersBetween(t.next[c], l, lo, hi);
    }
  }

  lemma ToMatrixEndingBytesBetween(t: CharTable, lo: char, hi: char)
    requires lo <= hi && hi as int < 0x80 && forall e | e in t.endings :: forall c | c in e :: lo <= c <= hi
    ensures forall e | e in ToMatrix(t).commonEndings :: Between(e, lo as int, hi as int)
  {
    var es := Endings(t.endings);
    forall e | e in es ensures Between(e, lo as int, hi as int) {
      var j :| 0 <= j < |es| && es[j] == e;
      var w := t.endings[j];
      assert w in t.endings;
      Utf8Ascii(w);
      forall i | 0 <= i < |e| ensures lo as int <= e[i] <= hi as int {
        assert w[i] in w;
      }
    }
  }
}
