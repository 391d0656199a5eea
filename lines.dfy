/**
 * Bytes, line splitting and line decoding, as the SSE reader uses them.
 *
 * `SplitLines` is `bytes.splitlines(True)`: a line ends after `\n`, after
 * `\r`, or after the pair `\r\n`, and keeps its terminator.  `TextLines` is
 * `bytes.splitlines()` (the same breaks, terminators dropped), and `Text`
 * decodes one line, which is the identity on ASCII text.
 */
module Lines {

  type byte = b: int | 0 <= b < 256

  const CR: byte := 13
  const LF: byte := 10

  predicate IsEol(b: byte) { b == CR || b == LF }

  /** No line terminator anywhere in s. */
  predicate NoEol(s: seq<byte>) { forall i :: 0 <= i < |s| ==> !IsEol(s[i]) }

  /** The concatenation of a sequence of sequences. */
  function Flatten<T>(ss: seq<seq<T>>): seq<T>
  {
    if ss == [] then [] else ss[0] + Flatten(ss[1..])
  }

  lemma {:induction false} FlattenAppend<T>(a: seq<seq<T>>, b: seq<seq<T>>)
    ensures Flatten(a + b) == Flatten(a) + Flatten(b)
  {
    if a == [] {
      assert a + b == b;
    } else {
      assert (a + b)[1..] == a[1..] + b;
      FlattenAppend(a[1..], b);
    }
  }

  lemma FlattenCons<T>(x: seq<T>, rest: seq<seq<T>>)
    ensures Flatten([x] + rest) == x + Flatten(rest)
  {
    assert ([x] + rest)[1..] == rest;
  }

  lemma AppendAssoc<T>(a: seq<T>, b: seq<T>, c: seq<T>)
    ensures (a + b) + c == a + (b + c)
  {
  }

  /**
   * The length of the first line of s, terminator included.  A line ends at
   * its first `\r` or `\n`; a `\r` directly followed by `\n` ends it after
   * the `\n`.
   */
  function LineLength(s: seq<byte>): (n: nat)
    requires s != []
    ensures 0 < n <= |s|
    // the line holds no terminator except at its end (where `\r\n` counts as one)
    ensures forall i :: 0 <= i < n - 1 && IsEol(s[i]) ==> i == n - 2 && s[i] == CR && s[n - 1] == LF
    // a line that stops before the end of s stops at a terminator
    ensures n < |s| ==> IsEol(s[n - 1])
    // a `\r\n` pair is never split between two lines
    ensures n < |s| && s[n - 1] == CR ==> s[n] != LF
    decreases |s|
  {
    if s[0] == LF then 1
    else if s[0] == CR then (if |s| > 1 && s[1] == LF then 2 else 1)
    else if |s| == 1 then 1
    else
      var m := LineLength(s[1..]);
      assert forall k :: 1 <= k < |s| ==> s[k] == s[1..][k - 1];
      1 + m
  }

  /** `bytes.splitlines(True)`: the lines of s with their terminators. */
  function SplitLines(s: seq<byte>): (lines: seq<seq<byte>>)
    // no byte is lost, duplicated or reordered
    ensures Flatten(lines) == s
    ensures forall i :: 0 <= i < |lines| ==> lines[i] != []
    // every line but the last ends in a terminator
    ensures forall i :: 0 <= i < |lines| - 1 ==> IsEol(lines[i][|lines[i]| - 1])
    decreases |s|
  {
    if s == [] then []
    else
      var n := LineLength(s);
      var rest := SplitLines(s[n..]);
      FlattenCons(s[..n], rest);
      [s[..n]] + rest
  }

  /**
   * What pins a split down to the one of `bytes.splitlines(True)`, beside
   * the properties SplitLines states: a line holds no terminator before its
   * end (where `\r\n` counts as one), and a `\r\n` pair is never split
   * between two lines.
   */
  predicate SplitExactly(lines: seq<seq<byte>>)
  {
    (forall i, k :: 0 <= i < |lines| && 0 <= k < |lines[i]| - 1 && IsEol(lines[i][k]) ==>
      k == |lines[i]| - 2 && lines[i][k] == CR && lines[i][k + 1] == LF) &&
    (forall i :: 0 <= i < |lines| - 1 && lines[i] != [] && lines[i][|lines[i]| - 1] == CR ==>
      lines[i + 1] != [] && lines[i + 1][0] != LF)
  }

  /** SplitLines cuts every line exactly where `bytes.splitlines(True)` does. */
  lemma {:induction false} SplitLinesExact(s: seq<byte>)
    ensures SplitExactly(SplitLines(s))
    decreases |s|
  {
    if s != [] {
      var n := LineLength(s);
      var rest := SplitLines(s[n..]);
      SplitLinesExact(s[n..]);
      FirstLine(s, n, rest);
      LinesCons(s[..n], rest);
      SplitLinesUnfold(s);
    }
  }

  /**
   * The split is unique: any lines with the properties SplitLines states
   * and SplitExactly are the lines SplitLines gives.
   */
  lemma {:induction false} SplitUnique(s: seq<byte>, lines: seq<seq<byte>>)
    requires Flatten(lines) == s
    requires forall i :: 0 <= i < |lines| ==> lines[i] != []
    requires forall i :: 0 <= i < |lines| - 1 ==> IsEol(lines[i][|lines[i]| - 1])
    requires SplitExactly(lines)
    ensures lines == SplitLines(s)
    decreases |lines|
  {
    if lines != [] {
      var line, rest := lines[0], lines[1..];
      assert lines == [line] + rest;
      SplitTail(lines);
      FirstLineLength(line, Flatten(rest));
      CutAppend(line, Flatten(rest), |line|);
      SplitUnique(Flatten(rest), rest);
      SplitLinesUnfold(s);
    }
  }

  /** The properties of a split hold of its lines after the first. */
  lemma SplitTail(lines: seq<seq<byte>>)
    requires lines != []
    requires forall i :: 0 <= i < |lines| ==> lines[i] != []
    requires forall i :: 0 <= i < |lines| - 1 ==> IsEol(lines[i][|lines[i]| - 1])
    requires SplitExactly(lines)
    ensures var rest := lines[1..];
      Flatten(lines) == lines[0] + Flatten(rest) &&
      (forall i :: 0 <= i < |rest| ==> rest[i] != []) &&
      (forall i :: 0 <= i < |rest| - 1 ==> IsEol(rest[i][|rest[i]| - 1])) &&
      SplitExactly(rest) &&
      (rest != [] ==> IsEol(lines[0][|lines[0]| - 1]) && (lines[0][|lines[0]| - 1] == CR ==> Flatten(rest)[0] != LF))
  {
    var rest := lines[1..];
    assert forall i :: 0 <= i < |rest| ==> rest[i] == lines[i + 1];
    assert rest != [] ==> Flatten(rest) == rest[0] + Flatten(rest[1..]);
  }

  /** A line with no terminator before its end is the first line of what it starts. */
  lemma {:induction false} FirstLineLength(line: seq<byte>, after: seq<byte>)
    requires line != []
    requires forall k :: 0 <= k < |line| - 1 && IsEol(line[k]) ==> k == |line| - 2 && line[k] == CR && line[k + 1] == LF
    requires after != [] ==> IsEol(line[|line| - 1]) && (line[|line| - 1] == CR ==> after[0] != LF)
    ensures LineLength(line + after) == |line|
    decreases |line|
  {
    var s := line + after;
    if s[0] != LF && s[0] != CR && |line| > 1 {
      assert s[1..] == line[1..] + after;
      FirstLineLength(line[1..], after);
    }
  }

  /** What LineLength says of the first line, stated on the line and the lines after it. */
  lemma FirstLine(s: seq<byte>, n: nat, rest: seq<seq<byte>>)
    requires s != [] && n == LineLength(s)
    requires Flatten(rest) == s[n..] && forall i :: 0 <= i < |rest| ==> rest[i] != []
    ensures var line := s[..n];
      line != [] &&
      (forall k :: 0 <= k < |line| - 1 && IsEol(line[k]) ==> k == |line| - 2 && line[k] == CR && line[k + 1] == LF) &&
      (rest != [] && line[|line| - 1] == CR ==> rest[0][0] != LF)
  {
    if rest != [] {
      assert Flatten(rest) == rest[0] + Flatten(rest[1..]);
      assert rest[0][0] == s[n];
    }
  }

  /** An exact split stays exact with one more line in front. */
  lemma LinesCons(line: seq<byte>, rest: seq<seq<byte>>)
    requires line != [] && forall i :: 0 <= i < |rest| ==> rest[i] != []
    requires forall k :: 0 <= k < |line| - 1 && IsEol(line[k]) ==> k == |line| - 2 && line[k] == CR && line[k + 1] == LF
    requires rest != [] && line[|line| - 1] == CR ==> rest[0][0] != LF
    requires SplitExactly(rest)
    ensures SplitExactly([line] + rest)
  {
    var lines := [line] + rest;
    assert forall i :: 1 <= i < |lines| ==> lines[i] == rest[i - 1];
  }

  /** A line that ends in `\n` ends there whatever follows it. */
  lemma {:induction false} LineLengthBeforeLF(c: seq<byte>, rest: seq<byte>)
    requires c != [] && c[|c| - 1] == LF
    ensures LineLength(c + rest) == LineLength(c)
    decreases |c|
  {
    if c[0] != LF && c[0] != CR {
      assert (c + rest)[1..] == c[1..] + rest;
      LineLengthBeforeLF(c[1..], rest);
    }
  }

  /** Text up to a `\n` splits into lines independently of the text after it. */
  lemma {:induction false} SplitLinesAfterLF(c: seq<byte>, rest: seq<byte>)
    requires c != [] && c[|c| - 1] == LF
    ensures SplitLines(c + rest) == SplitLines(c) + SplitLines(rest)
    decreases |c|
  {
    var n := LineLength(c);
    LineLengthBeforeLF(c, rest);
    CutAppend(c, rest, n);
    if n < |c| {
      SplitLinesAfterLF(c[n..], rest);
      AppendAssoc([c[..n]], SplitLines(c[n..]), SplitLines(rest));
    } else {
      assert SplitLines(c[n..]) == [];
    }
    SplitLinesUnfold(c + rest);
    SplitLinesUnfold(c);
  }

  lemma CutAppend<T>(c: seq<T>, rest: seq<T>, n: nat)
    requires 0 < n <= |c|
    ensures (c + rest)[..n] == c[..n] && (c + rest)[n..] == c[n..] + rest
    ensures n < |c| ==> c[n..] != [] && c[n..][|c[n..]| - 1] == c[|c| - 1]
  {
  }

  lemma SplitLinesUnfold(s: seq<byte>)
    requires s != []
    ensures SplitLines(s) == [s[..LineLength(s)]] + SplitLines(s[LineLength(s)..])
  {
  }

  /** A line with its terminator (`\r\n`, `\r` or `\n`) removed. */
  function StripEol(line: seq<byte>): seq<byte>
  {
    if |line| >= 2 && line[|line| - 2] == CR && line[|line| - 1] == LF then line[..|line| - 2]
    else if |line| >= 1 && IsEol(line[|line| - 1]) then line[..|line| - 1]
    else line
  }

  /** `bytes.splitlines()`: the lines of s without their terminators. */
  function TextLines(s: seq<byte>): seq<seq<byte>>
  {
    var lines := SplitLines(s);
    seq(|lines|, i requires 0 <= i < |lines| => StripEol(lines[i]))
  }

  /** Decoding of one line: each byte is the character with that code. */
  function Text(b: seq<byte>): (s: string)
    ensures |s| == |b|
    ensures forall i :: 0 <= i < |b| ==> s[i] as int == b[i]
  {
    seq(|b|, i requires 0 <= i < |b| => b[i] as char)
  }

  predicate Ascii(s: string) { forall i :: 0 <= i < |s| ==> s[i] as int < 128 }

  /** Encoding of ASCII text as bytes, the inverse of Text. */
  function Bytes(s: string): (b: seq<byte>)
    requires Ascii(s)
    ensures Text(b) == s
  {
    seq(|s|, i requires 0 <= i < |s| => s[i] as int)
  }
}
