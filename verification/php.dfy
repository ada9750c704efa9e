/** The PHP string primitives the word generator relies on.
    PHP strings are byte strings: strlen counts bytes and substr cuts bytes,
    so a multi-byte letter such as 'ç' (two bytes in UTF-8) counts twice. */
module Php {

  type Byte = b: int | 0 <= b < 256

  /** A PHP string: a sequence of bytes. */
  type Text = seq<Byte>

  /** PHP's null, for functions declared `?array`. */
  datatype Option<+T> = None | Some(value: T)

  function Min(a: int, b: int): int { if a <= b then a else b }

  function Max(a: int, b: int): int { if a <= b then b else a }

  /** UTF-8 encoding of one character: how a PHP source file stores a character literal. */
  function EncodeChar(c: char): (r: Text)
    ensures 1 <= |r| <= 4
    ensures (|r| == 1) == (c as int < 0x80)
  {
    var n := c as int;
    if n < 0x80 then [n]
    else if n < 0x800 then [0xC0 + n / 64, 0x80 + n % 64]
    else if n < 0x10000 then [0xE0 + n / 4096, 0x80 + (n / 64) % 64, 0x80 + n % 64]
    else [0xF0 + n / 262144, 0x80 + (n / 4096) % 64, 0x80 + (n / 64) % 64, 0x80 + n % 64]
  }

  /** The bytes of a PHP string literal written in a UTF-8 source file. */
  function Utf8(s: string): (r: Text)
    ensures |r| >= |s|
    ensures r == [] <==> s == []
  {
    if s == [] then [] else EncodeChar(s[0]) + Utf8(s[1..])
  }

  /** Every byte is below 0x80: the text is plain ASCII (no byte of a multi-byte letter). */
  predicate IsAscii(t: Text)
  {
    forall i :: 0 <= i < |t| ==> t[i] < 0x80
  }

  /** Every byte of `t` lies between `lo` and `hi`. */
  predicate Between(t: Text, lo: Byte, hi: Byte)
  {
    forall i :: 0 <= i < |t| ==> lo <= t[i] <= hi
  }

  /** A string of ASCII characters is stored as ASCII bytes. */
  lemma {:induction false} Utf8Ascii(s: string)
    requires forall c | c in s :: c as int < 0x80
    ensures |Utf8(s)| == |s|
    ensures forall i :: 0 <= i < |s| ==> Utf8(s)[i] == s[i] as int
    ensures IsAscii(Utf8(s))
  {
    if s != [] {
      assert s[0] in s;
      assert forall c | c in s[1..] :: c in s;
      Utf8Ascii(s[1..]);
    }
  }

  /** The bytes of a string literal made of ASCII characters only: one byte per character. */
  function Ascii(s: string): (r: Text)
    requires forall i :: 0 <= i < |s| ==> s[i] as int < 0x80
    ensures |r| == |s|
    ensures forall i :: 0 <= i < |s| ==> r[i] == s[i] as int
  {
    seq(|s|, i requires 0 <= i < |s| => s[i] as int)
  }

  /** For such a literal this is its UTF-8 encoding. */
  lemma AsciiIsUtf8(s: string)
    requires forall i :: 0 <= i < |s| ==> s[i] as int < 0x80
    ensures Ascii(s) == Utf8(s)
  {
    assert forall c | c in s :: c as int < 0x80;
    Utf8Ascii(s);
  }

  /** `substr($s, 0, $n)`: a non-negative length keeps at most n bytes,
      a negative length drops |n| bytes from the end (and keeps none if
      there are not that many). */
  function Substr(s: Text, n: int): (r: Text)
    ensures r <= s
    ensures n >= 0 ==> |r| == Min(n, |s|)
    ensures n < 0 ==> |r| == Max(0, |s| + n)
  {
    if n >= 0 then s[..Min(n, |s|)] else s[..Max(0, |s| + n)]
  }

  /** The concatenation of a sequence of strings, as repeated `.=` builds it. */
  function Concat(parts: seq<Text>): (r: Text)
    ensures parts == [] ==> r == []
  {
    if parts == [] then [] else Concat(parts[..|parts| - 1]) + parts[|parts| - 1]
  }

  lemma {:induction false} ConcatAppend(parts: seq<Text>, more: seq<Text>)
    ensures Concat(parts + more) == Concat(parts) + Concat(more)
    decreases |more|
  {
    if more == [] {
      assert parts + more == parts;
    } else {
      var init := more[..|more| - 1];
      assert (parts + more)[..|parts + more| - 1] == parts + init;
      ConcatAppend(parts, init);
    }
  }

  lemma ConcatSnoc(parts: seq<Text>, last: Text)
    ensures Concat(parts + [last]) == Concat(parts) + last
  {
    assert (parts + [last])[..|parts|] == parts;
  }

  lemma ConcatCons(head: Text, rest: seq<Text>)
    ensures Concat([head] + rest) == head + Concat(rest)
  {
    ConcatAppend([head], rest);
    assert Concat([head]) == head by {
      assert [head][..0] == [];
    }
  }

  /** Every string in `parts` is non-empty. */
  predicate AllNonEmpty(parts: seq<Text>)
  {
    forall p | p in parts :: |p| > 0
  }

  /** The concatenation of non-empty strings has at least as many bytes as there are strings. */
  lemma {:induction false} ConcatLength(parts: seq<Text>)
    requires AllNonEmpty(parts)
    ensures |Concat(parts)| >= |parts|
    decreases |parts|
  {
    if parts != [] {
      ConcatLength(parts[..|parts| - 1]);
    }
  }

  /** A byte of a concatenation comes from one of its parts. */
  lemma {:induction false} ConcatBytes(parts: seq<Text>, P: Byte -> bool)
    requires forall i, j :: 0 <= i < |parts| && 0 <= j < |parts[i]| ==> P(parts[i][j])
    ensures forall j :: 0 <= j < |Concat(parts)| ==> P(Concat(parts)[j])
    decreases |parts|
  {
    if parts != [] {
      ConcatBytes(parts[..|parts| - 1], P);
    }
  }

  /** ASCII lower-casing of one byte. */
  function LowerByte(b: Byte): Byte
  {
    if 'A' as int <= b <= 'Z' as int then b + 32 else b
  }

  /** `strtolower`, which since PHP 8.2 changes only the ASCII letters A-Z:
      each of them becomes its lower-case letter, every other byte (a byte of
      a multi-byte letter included) stays, and no upper-case letter is left. */
  function StrToLower(s: Text): (r: Text)
    ensures |r| == |s|
    ensures forall i :: 0 <= i < |s| ==> (r[i] != s[i] <==> 'A' as int <= s[i] <= 'Z' as int)
    ensures forall i :: 0 <= i < |s| && 'A' as int <= s[i] <= 'Z' as int ==> r[i] == s[i] + 32
    ensures forall i :: 0 <= i < |r| ==> !('A' as int <= r[i] <= 'Z' as int)
  {
    seq(|s|, i requires 0 <= i < |s| => LowerByte(s[i]))
  }

  lemma StrToLowerIdempotent(s: Text)
    ensures StrToLower(StrToLower(s)) == StrToLower(s)
  {
  }

  /** `implode($glue, $pieces)`: the pieces with the glue between consecutive ones. */
  function Implode(glue: Text, pieces: seq<Text>): (r: Text)
    ensures |pieces| == 1 ==> r == pieces[0]
  {
    if pieces == [] then []
    else if |pieces| == 1 then pieces[0]
    else pieces[0] + glue + Implode(glue, pieces[1..])
  }

  /** PHP_EOL on the platforms the scripts target: a single line feed. */
  const Eol: Text := [10]

  /** Position of the first byte `b` in `s`, or |s| when there is none. */
  function IndexOf(s: Text, b: Byte): (j: nat)
    ensures j <= |s|
    ensures j < |s| ==> s[j] == b
    ensures forall k :: 0 <= k < j ==> s[k] != b
  {
    if s == [] then 0 else if s[0] == b then 0 else 1 + IndexOf(s[1..], b)
  }

  /** The lines of a text whose every line is terminated by PHP_EOL. */
  function Lines(s: Text): seq<Text>
    decreases |s|
  {
    if s == [] then []
    else
      var j := IndexOf(s, Eol[0]);
      if j == |s| then [s] else [s[..j]] + Lines(s[j + 1..])
  }

  /** True when no string in `pieces` contains a line feed. */
  predicate NoLineBreaks(pieces: seq<Text>)
  {
    forall i, j :: 0 <= i < |pieces| && 0 <= j < |pieces[i]| ==> pieces[i][j] != Eol[0]
  }

  /** Pieces whose bytes all lie above the line feed hold no line break. */
  lemma BetweenNoLineBreaks(pieces: seq<Text>, lo: Byte, hi: Byte)
    requires Eol[0] < lo
    requires forall p | p in pieces :: Between(p, lo, hi)
    ensures NoLineBreaks(pieces)
  {
    forall i, j | 0 <= i < |pieces| && 0 <= j < |pieces[i]| ensures pieces[i][j] != Eol[0] {
      assert pieces[i] in pieces;
    }
  }

  /** `implode(PHP_EOL, $pieces) . PHP_EOL`: each piece on a line of its own. */
  function JoinLines(pieces: seq<Text>): (r: Text)
    ensures |r| >= 1 && r[|r| - 1] == Eol[0]
  {
    Implode(Eol, pieces) + Eol
  }

  /** A line without a line feed, then PHP_EOL: the first line feed is the one after it. */
  lemma {:induction false} IndexOfLine(line: Text, rest: Text)
    requires forall i :: 0 <= i < |line| ==> line[i] != Eol[0]
    ensures IndexOf(line + Eol + rest, Eol[0]) == |line|
    decreases |line|
  {
    if line != [] {
      assert (line + Eol + rest)[1..] == line[1..] + Eol + rest;
      IndexOfLine(line[1..], rest);
    }
  }

  /** A line followed by PHP_EOL splits off as the first line. */
  lemma LinesOfLine(line: Text, rest: Text)
    requires forall i :: 0 <= i < |line| ==> line[i] != Eol[0]
    ensures Lines(line + Eol + rest) == [line] + Lines(rest)
  {
    IndexOfLine(line, rest);
    var s := line + Eol + rest;
    assert s[..|line|] == line;
    assert s[|line| + 1..] == rest;
  }

  /** Splitting the joined text at line feeds gives back the pieces; no pieces give one empty line. */
  lemma {:induction false} LinesOfJoinLines(pieces: seq<Text>)
    requires NoLineBreaks(pieces)
    ensures pieces != [] ==> Lines(JoinLines(pieces)) == pieces
    ensures pieces == [] ==> JoinLines(pieces) == Eol
    decreases |pieces|
  {
    if pieces != [] {
      var w := pieces[0];
      assert forall i :: 0 <= i < |w| ==> w[i] != Eol[0];
      if |pieces| == 1 {
        assert JoinLines(pieces) == w + Eol + [];
        LinesOfLine(w, []);
      } else {
        var rest := pieces[1..];
        assert NoLineBreaks(rest);
        assert JoinLines(pieces) == w + Eol + JoinLines(rest);
        LinesOfLine(w, JoinLines(rest));
        LinesOfJoinLines(rest);
        assert pieces == [w] + rest;
      }
    }
  }
}
