/**
 * Writing an event back as a frame, and the round trip through the reader:
 * a well-formed event written with one `field: value` line per attribute
 * (one `data:` line per line of its data) and a closing blank line is read
 * back as exactly that event.
 */
module EventCodec {
  import opened Wrappers
  import opened Lines
  import opened Fetch

  /** The index of the last newline of s; requires that there is one. */
  function LastNewline(s: string): (i: nat)
    requires '\n' in s
    ensures i < |s| && s[i] == '\n' && '\n' !in s[i + 1..]
  {
    if s[|s| - 1] == '\n' then |s| - 1
    else
      var i := LastNewline(s[..|s| - 1]);
      assert s[i + 1..] == s[..|s| - 1][i + 1..] + [s[|s| - 1]];
      i
  }

  /** `s.split("\n")`: the pieces of s between newlines. */
  function SplitOn(s: string): (pieces: seq<string>)
    ensures pieces != []
    ensures forall i :: 0 <= i < |pieces| ==> '\n' !in pieces[i]
    ensures Join(pieces) == s
    decreases |s|
  {
    if '\n' !in s then [s]
    else
      var i := LastNewline(s);
      var front := SplitOn(s[..i]);
      var pieces := front + [s[i + 1..]];
      assert pieces[..|pieces| - 1] == front;
      assert s == s[..i] + "\n" + s[i + 1..];
      pieces
  }

  /** Text that fits on one field line. */
  predicate SingleLine(s: string)
  {
    Ascii(s) && '\n' !in s && '\r' !in s
  }

  /** The events that survive being written out and read back. */
  predicate Encodable(e: Event)
  {
    e.event != "" && SingleLine(e.event) &&
    (e.id.Some? ==> SingleLine(e.id.value)) &&
    (e.retry.Some? ==> SingleLine(e.retry.value)) &&
    Ascii(e.data) && '\r' !in e.data
  }

  /** The line `f: v` that sets field f to v. */
  function FieldLine(f: string, v: string): string
  {
    f + ": " + v
  }

  /** One `f: piece` line per piece. */
  function FieldLines(f: string, pieces: seq<string>): seq<string>
  {
    seq(|pieces|, i requires 0 <= i < |pieces| => FieldLine(f, pieces[i]))
  }

  /** The text lines of the frame an event is written as, closing blank line included. */
  function EncodeLines(e: Event): seq<string>
  {
    WrittenLines(e.id, e.event, SplitOn(e.data), e.retry)
  }

  /** The lines of a frame with the given id, type, data lines and retry. */
  function WrittenLines(id: Option<string>, event: string, pieces: seq<string>, retry: Option<string>): seq<string>
  {
    OptionLine("id", id) + [FieldLine("event", event)] + FieldLines("data", pieces) +
    OptionLine("retry", retry) + [""]
  }

  /** Each line followed by `\n`. */
  function Terminate(ls: seq<seq<byte>>): seq<seq<byte>>
  {
    seq(|ls|, i requires 0 <= i < |ls| => ls[i] + [LF])
  }

  predicate LinesAscii(ls: seq<string>)
  {
    forall i :: 0 <= i < |ls| ==> Ascii(ls[i])
  }

  function LineBytes(ls: seq<string>): (bs: seq<seq<byte>>)
    requires LinesAscii(ls)
    ensures |bs| == |ls|
    ensures forall i :: 0 <= i < |ls| ==> Text(bs[i]) == ls[i] && |bs[i]| == |ls[i]|
  {
    seq(|ls|, i requires 0 <= i < |ls| => Bytes(ls[i]))
  }

  lemma AsciiAppend(a: string, b: string)
    requires Ascii(a) && Ascii(b)
    ensures Ascii(a + b)
  {
    assert forall i :: |a| <= i < |a + b| ==> (a + b)[i] == b[i - |a|];
  }

  lemma FieldLineAscii(f: string, v: string)
    requires Ascii(f) && Ascii(v)
    ensures Ascii(FieldLine(f, v))
  {
    AsciiAppend(f, ": ");
    AsciiAppend(f + ": ", v);
  }

  lemma LinesAsciiAppend(a: seq<string>, b: seq<string>)
    requires LinesAscii(a) && LinesAscii(b)
    ensures LinesAscii(a + b)
  {
    assert forall i :: |a| <= i < |a + b| ==> (a + b)[i] == b[i - |a|];
  }

  lemma OptionLineAscii(f: string, v: Option<string>)
    requires Ascii(f) && (v.Some? ==> Ascii(v.value))
    ensures LinesAscii(OptionLine(f, v))
  {
    if v.Some? {
      FieldLineAscii(f, v.value);
    }
  }

  lemma EncodeLinesAscii(e: Event)
    requires Encodable(e)
    ensures LinesAscii(EncodeLines(e))
  {
    var pieces := SplitOn(e.data);
    forall i | 0 <= i < |pieces|
      ensures Ascii(FieldLine("data", pieces[i]))
    {
      PieceAscii(e.data, pieces, i);
      FieldLineAscii("data", pieces[i]);
    }
    FieldLineAscii("event", e.event);
    OptionLineAscii("id", e.id);
    OptionLineAscii("retry", e.retry);
    var a, b, c, d := OptionLine("id", e.id), [FieldLine("event", e.event)], FieldLines("data", pieces), OptionLine("retry", e.retry);
    assert EncodeLines(e) == a + b + c + d + [""];
    assert LinesAscii(c);
    LinesAsciiAppend(a, b);
    LinesAsciiAppend(a + b, c);
    LinesAsciiAppend(a + b + c, d);
    LinesAsciiAppend(a + b + c + d, [""]);
  }

  /** Every piece of s is a part of s, so it keeps the character properties of s. */
  lemma PieceAscii(s: string, pieces: seq<string>, i: nat)
    requires Ascii(s) && pieces == SplitOn(s) && i < |pieces|
    ensures Ascii(pieces[i])
    decreases |s|
  {
    if '\n' in s {
      var j := LastNewline(s);
      var front := SplitOn(s[..j]);
      assert pieces == front + [s[j + 1..]];
      if i < |front| {
        PieceAscii(s[..j], front, i);
      }
    }
  }

  /** The bytes of the frame an event is written as. */
  function Encode(e: Event): seq<byte>
    requires Encodable(e)
  {
    EncodeLinesAscii(e);
    Flatten(Terminate(LineBytes(EncodeLines(e))))
  }

  // ---------------------------------------------------------------------
  // The round trip
  // ---------------------------------------------------------------------

  lemma {:induction false} LineLengthTerminated(l: seq<byte>, rest: seq<byte>)
    requires NoEol(l)
    ensures LineLength(l + [LF] + rest) == |l| + 1
    decreases |l|
  {
    var s := l + [LF] + rest;
    if l != [] {
      assert s[1..] == l[1..] + [LF] + rest;
      LineLengthTerminated(l[1..], rest);
    }
  }

  /** Lines without terminators, each closed by `\n`, split back into exactly those lines. */
  lemma {:induction false} SplitTerminated(ls: seq<seq<byte>>)
    requires forall i :: 0 <= i < |ls| ==> NoEol(ls[i])
    ensures SplitLines(Flatten(Terminate(ls))) == Terminate(ls)
    decreases |ls|
  {
    if ls != [] {
      var t := Terminate(ls);
      var later := Flatten(Terminate(ls[1..]));
      assert t == [ls[0] + [LF]] + Terminate(ls[1..]);
      FlattenCons(ls[0] + [LF], Terminate(ls[1..]));
      var s := Flatten(t);
      assert s == ls[0] + [LF] + later;
      LineLengthTerminated(ls[0], later);
      assert s[..|ls[0]| + 1] == ls[0] + [LF];
      assert s[|ls[0]| + 1..] == later;
      SplitTerminated(ls[1..]);
    }
  }

  /** A non-empty line without a line break, then `\n`: no terminator yet. */
  lemma NoTerminatorAfterLine(buffer: seq<byte>, l: seq<byte>)
    requires l != [] && NoEol(l)
    ensures !EndsInTerminator(buffer + (l + [LF]))
  {
    var grown := buffer + (l + [LF]);
    var n := |grown|;
    assert grown[n - 1] == LF && grown[n - 2] == l[|l| - 1];
    assert !IsEol(l[|l| - 1]);
    assert !EndsWith(grown, [CR, CR]) by {
      assert grown[n - 2..][1] == grown[n - 1];
    }
    assert !EndsWith(grown, [LF, LF]) by {
      assert grown[n - 2..][0] == grown[n - 2];
    }
    assert !EndsWith(grown, [CR, LF, CR, LF]) by {
      if n >= 4 {
        assert grown[n - 4..][2] == grown[n - 2];
      }
    }
  }

  /**
   * The lines of a written event do not end a frame until the closing blank
   * line: each holds a non-terminator byte before its `\n`.
   */
  lemma {:induction false} StitchTerminated(ls: seq<seq<byte>>, buffer: seq<byte>)
    requires |ls| >= 1 && ls[|ls| - 1] == []
    requires forall i :: 0 <= i < |ls| - 1 ==> ls[i] != [] && NoEol(ls[i])
    requires buffer == [] ==> |ls| >= 2
    requires buffer != [] ==> |buffer| >= 2 && buffer[|buffer| - 1] == LF && !IsEol(buffer[|buffer| - 2])
    ensures Stitch(Terminate(ls), buffer) == [buffer + Flatten(Terminate(ls))]
    decreases |ls|
  {
    var t := Terminate(ls);
    TerminateCons(ls);
    var grown := buffer + t[0];
    if |ls| == 1 {
      StitchLastLine(t, buffer);
    } else {
      NoTerminatorAfterLine(buffer, ls[0]);
      StitchNoCut(t, buffer);
      assert grown[|grown| - 2] == ls[0][|ls[0]| - 1];
      assert forall i :: 0 <= i < |ls| - 2 ==> ls[1..][i] == ls[i + 1];
      StitchTerminated(ls[1..], grown);
      FlattenCons(t[0], t[1..]);
      assert t == [t[0]] + t[1..];
      AppendAssoc(buffer, t[0], Flatten(t[1..]));
    }
  }

  lemma TerminateCons(ls: seq<seq<byte>>)
    requires ls != []
    ensures Terminate(ls)[0] == ls[0] + [LF] && Terminate(ls)[1..] == Terminate(ls[1..])
  {
  }

  /** The closing blank line after a data line: the buffer is cut right there. */
  lemma StitchLastLine(t: seq<seq<byte>>, buffer: seq<byte>)
    requires |t| == 1 && t[0] == [LF]
    requires |buffer| >= 2 && buffer[|buffer| - 1] == LF
    ensures Stitch(t, buffer) == [buffer + Flatten(t)]
  {
    var grown := buffer + t[0];
    assert grown[|grown| - 2..] == [LF, LF];
    assert EndsInTerminator(grown);
    var none: seq<seq<byte>> := [];
    assert t[1..] == none && Stitch(none, []) == [] && Flatten(none) == [];
    assert Stitch(t, buffer) == [grown] + Stitch(t[1..], []);
    assert [grown] + Stitch(t[1..], []) == [grown];
    assert Flatten(t) == t[0] + Flatten(t[1..]);
    assert t[0] + Flatten(t[1..]) == t[0];
    assert buffer + Flatten(t) == grown;
  }

  lemma StitchNoCut(t: seq<seq<byte>>, buffer: seq<byte>)
    requires t != [] && !EndsInTerminator(buffer + t[0])
    ensures Stitch(t, buffer) == Stitch(t[1..], buffer + t[0])
  {
  }

  lemma StripTerminated(l: seq<byte>)
    requires NoEol(l)
    ensures StripEol(l + [LF]) == l
  {
    var line := l + [LF];
    if |line| >= 2 {
      assert line[|line| - 2] == l[|l| - 1];
    }
    assert line[..|line| - 1] == l;
  }

  /** The decoded lines of a frame made of terminated ASCII lines are those lines. */
  lemma FrameLinesTerminated(ls: seq<string>)
    requires LinesAscii(ls)
    requires forall i :: 0 <= i < |ls| ==> '\n' !in ls[i] && '\r' !in ls[i]
    ensures FrameLines(Flatten(Terminate(LineBytes(ls)))) == ls
  {
    var bs := LineBytes(ls);
    forall i | 0 <= i < |bs|
      ensures NoEol(bs[i])
    {
      forall j | 0 <= j < |bs[i]|
        ensures !IsEol(bs[i][j])
      {
        assert Text(bs[i])[j] == ls[i][j];
        assert ls[i][j] != '\n' && ls[i][j] != '\r';
      }
    }
    SplitTerminated(bs);
    forall i | 0 <= i < |bs|
      ensures StripEol(Terminate(bs)[i]) == bs[i]
    {
      StripTerminated(bs[i]);
    }
  }

  lemma IndexOfAfter(f: string, rest: string)
    requires ':' !in f
    ensures IndexOf(f + ":" + rest, ':') == |f|
  {
    var s := f + ":" + rest;
    var i := IndexOf(s, ':');
    assert s[|f|] == ':';
    assert forall j :: 0 <= j < |f| ==> s[j] == f[j];
  }

  /** A line written as `field: value` splits back into that field and value. */
  lemma SplitFieldWritten(f: string, v: string)
    requires ':' !in f
    ensures SplitField(FieldLine(f, v)) == (f, v)
  {
    var s := FieldLine(f, v);
    assert s == f + ":" + (" " + v);
    IndexOfAfter(f, " " + v);
    assert s[..|f|] == f;
    assert s[|f| + 1..] == " " + v;
  }

  lemma {:induction false} ValuesAppend(a: seq<string>, b: seq<string>, field: string)
    ensures Values(a + b, field) == Values(a, field) + Values(b, field)
    decreases |b|
  {
    if b == [] {
      assert a + b == a;
    } else {
      var b' := b[..|b| - 1];
      assert (a + b)[..|a + b| - 1] == a + b';
      assert (a + b)[|a + b| - 1] == b[|b| - 1];
      ValuesAppend(a, b', field);
    }
  }

  /** What one written line `f: v` contributes. */
  lemma ValuesWritten(f: string, v: string, field: string)
    requires ':' !in f && f != ""
    ensures Values([FieldLine(f, v)], field) == FieldValues(f, [v], field)
  {
    var line := FieldLine(f, v);
    var none: seq<string> := [];
    assert [line][..0] == none;
    SplitFieldWritten(f, v);
    assert line[0] == f[0];
    assert !IsComment(line);
    assert !IsBlank(line) by {
      assert line[|f|] == ':';
    }
  }

  lemma {:induction false} FieldLinesValues(f: string, pieces: seq<string>, field: string)
    requires ':' !in f && f != ""
    ensures Values(FieldLines(f, pieces), field) == FieldValues(f, pieces, field)
    decreases |pieces|
  {
    if pieces == [] {
      assert FieldLines(f, pieces) == [];
    } else {
      var front := pieces[..|pieces| - 1];
      var last := pieces[|pieces| - 1];
      assert front + [last] == pieces;
      assert FieldLines(f, pieces) == FieldLines(f, front) + [FieldLine(f, last)];
      ValuesAppend(FieldLines(f, front), [FieldLine(f, last)], field);
      ValuesWritten(f, last, field);
      FieldLinesValues(f, front, field);
    }
  }

  lemma BlankValues(field: string)
    ensures Values([""], field) == []
  {
    var none: seq<string> := [];
    assert [""][..0] == none;
  }

  /** Optional lines `f: v`: the field that appears on them gets v. */
  function OptionLine(f: string, v: Option<string>): seq<string>
  {
    if v.Some? then [FieldLine(f, v.value)] else []
  }

  function OptionValues(f: string, v: Option<string>, field: string): seq<string>
  {
    if v.Some? then FieldValues(f, [v.value], field) else []
  }

  /** The values lines of field f give to field `field`. */
  function FieldValues(f: string, vs: seq<string>, field: string): seq<string>
  {
    if f == field then vs else []
  }

  lemma OptionLineValues(f: string, v: Option<string>, field: string)
    requires ':' !in f && f != ""
    ensures Values(OptionLine(f, v), field) == OptionValues(f, v, field)
  {
    if v.Some? {
      ValuesWritten(f, v.value, field);
    }
  }

  lemma PlainFieldNames()
    ensures ':' !in "id" && "id" != "" && ':' !in "event" && "event" != ""
    ensures ':' !in "data" && "data" != "" && ':' !in "retry" && "retry" != ""
  {
  }

  /** The values any one field gets from the lines of a written frame. */
  lemma WrittenValuesAt(id: Option<string>, event: string, pieces: seq<string>, retry: Option<string>, field: string)
    ensures Values(WrittenLines(id, event, pieces, retry), field) ==
      OptionValues("id", id, field) + FieldValues("event", [event], field) +
      FieldValues("data", pieces, field) + OptionValues("retry", retry, field)
  {
    var a, b, c, d := OptionLine("id", id), [FieldLine("event", event)], FieldLines("data", pieces), OptionLine("retry", retry);
    assert WrittenLines(id, event, pieces, retry) == a + b + c + d + [""];
    ValuesOfParts(a, b, c, d, [""], field);
    PlainFieldNames();
    OptionLineValues("id", id, field);
    ValuesWritten("event", event, field);
    FieldLinesValues("data", pieces, field);
    OptionLineValues("retry", retry, field);
    BlankValues(field);
    assert Values(a, field) == OptionValues("id", id, field);
    assert Values(b, field) == FieldValues("event", [event], field);
    assert Values(c, field) == FieldValues("data", pieces, field);
    assert Values(d, field) == OptionValues("retry", retry, field);
    assert Values([""], field) == [];
  }

  lemma ValuesOfParts(a: seq<string>, b: seq<string>, c: seq<string>, d: seq<string>, z: seq<string>, field: string)
    ensures Values(a + b + c + d + z, field) ==
      Values(a, field) + Values(b, field) + Values(c, field) + Values(d, field) + Values(z, field)
  {
    ValuesAppend(a, b, field);
    ValuesAppend(a + b, c, field);
    ValuesAppend(a + b + c, d, field);
    ValuesAppend(a + b + c + d, z, field);
  }

  /** The values a written frame's lines give to each field. */
  lemma WrittenData(id: Option<string>, event: string, pieces: seq<string>, retry: Option<string>)
    ensures Values(WrittenLines(id, event, pieces, retry), "data") == pieces
  {
    WrittenValuesAt(id, event, pieces, retry, "data");
    PickData(Values(WrittenLines(id, event, pieces, retry), "data"), id, event, pieces, retry);
  }

  lemma PickData(vs: seq<string>, id: Option<string>, event: string, pieces: seq<string>, retry: Option<string>)
    requires vs == OptionValues("id", id, "data") + FieldValues("event", [event], "data") +
      FieldValues("data", pieces, "data") + OptionValues("retry", retry, "data")
    ensures vs == pieces
  {
    var none: seq<string> := [];
    assert |"id"| == 2 && |"data"| == 4 && |"event"| == 5 && |"retry"| == 5;
    assert vs == none + none + pieces + none;
  }

  lemma WrittenId(id: Option<string>, event: string, pieces: seq<string>, retry: Option<string>)
    ensures Values(WrittenLines(id, event, pieces, retry), "id") == if id.Some? then [id.value] else []
  {
    WrittenValuesAt(id, event, pieces, retry, "id");
    PickId(Values(WrittenLines(id, event, pieces, retry), "id"), id, event, pieces, retry);
  }

  lemma PickId(vs: seq<string>, id: Option<string>, event: string, pieces: seq<string>, retry: Option<string>)
    requires vs == OptionValues("id", id, "id") + FieldValues("event", [event], "id") +
      FieldValues("data", pieces, "id") + OptionValues("retry", retry, "id")
    ensures vs == if id.Some? then [id.value] else []
  {
    var none: seq<string> := [];
    assert |"id"| == 2 && |"data"| == 4 && |"event"| == 5 && |"retry"| == 5;
    assert vs == OptionValues("id", id, "id") + none + none + none;
  }

  lemma WrittenType(id: Option<string>, event: string, pieces: seq<string>, retry: Option<string>)
    ensures Values(WrittenLines(id, event, pieces, retry), "event") == [event]
  {
    WrittenValuesAt(id, event, pieces, retry, "event");
    PickType(Values(WrittenLines(id, event, pieces, retry), "event"), id, event, pieces, retry);
  }

  lemma PickType(vs: seq<string>, id: Option<string>, event: string, pieces: seq<string>, retry: Option<string>)
    requires vs == OptionValues("id", id, "event") + FieldValues("event", [event], "event") +
      FieldValues("data", pieces, "event") + OptionValues("retry", retry, "event")
    ensures vs == [event]
  {
    var none: seq<string> := [];
    assert |"id"| == 2 && |"data"| == 4 && |"event"| == 5 && |"retry"| == 5;
    assert "event"[0] != "retry"[0];
    assert vs == none + [event] + none + none;
  }

  lemma WrittenRetry(id: Option<string>, event: string, pieces: seq<string>, retry: Option<string>)
    ensures Values(WrittenLines(id, event, pieces, retry), "retry") == if retry.Some? then [retry.value] else []
  {
    WrittenValuesAt(id, event, pieces, retry, "retry");
    PickRetry(Values(WrittenLines(id, event, pieces, retry), "retry"), id, event, pieces, retry);
  }

  lemma PickRetry(vs: seq<string>, id: Option<string>, event: string, pieces: seq<string>, retry: Option<string>)
    requires vs == OptionValues("id", id, "retry") + FieldValues("event", [event], "retry") +
      FieldValues("data", pieces, "retry") + OptionValues("retry", retry, "retry")
    ensures vs == if retry.Some? then [retry.value] else []
  {
    var none: seq<string> := [];
    assert |"id"| == 2 && |"data"| == 4 && |"event"| == 5 && |"retry"| == 5;
    assert "event"[0] != "retry"[0];
    assert vs == none + none + none + OptionValues("retry", retry, "retry");
  }


  lemma EncodeLinesSingle(e: Event)
    requires Encodable(e)
    ensures LinesAscii(EncodeLines(e))
    ensures forall i :: 0 <= i < |EncodeLines(e)| ==> '\n' !in EncodeLines(e)[i] && '\r' !in EncodeLines(e)[i]
    ensures |EncodeLines(e)| >= 2 && EncodeLines(e)[|EncodeLines(e)| - 1] == ""
    ensures forall i :: 0 <= i < |EncodeLines(e)| - 1 ==> EncodeLines(e)[i] != ""
  {
    EncodeLinesAscii(e);
    var pieces := SplitOn(e.data);
    forall i | 0 <= i < |pieces|
      ensures '\r' !in pieces[i]
    {
      PieceNoCR(e.data, pieces, i);
    }
  }

  lemma PieceNoCR(s: string, pieces: seq<string>, i: nat)
    requires '\r' !in s && pieces == SplitOn(s) && i < |pieces|
    ensures '\r' !in pieces[i]
    decreases |s|
  {
    if '\n' in s {
      var j := LastNewline(s);
      var front := SplitOn(s[..j]);
      assert pieces == front + [s[j + 1..]];
      if i < |front| {
        PieceNoCR(s[..j], front, i);
      } else {
        assert forall c :: c in s[j + 1..] ==> c in s;
      }
    }
  }

  /** A frame whose lines are those of a written frame decodes to the event written. */
  lemma DecodeWritten(frame: seq<byte>, id: Option<string>, event: string, pieces: seq<string>, retry: Option<string>)
    requires FrameLines(frame) == WrittenLines(id, event, pieces, retry)
    requires event != "" && pieces != []
    ensures DecodeFrame(frame) == Some(Event(id, event, Join(pieces), retry))
  {
    DecodeFrameFields(frame);
    WrittenData(id, event, pieces, retry);
    WrittenId(id, event, pieces, retry);
    WrittenType(id, event, pieces, retry);
    WrittenRetry(id, event, pieces, retry);
  }

  /** A written event read back as one frame is the event. */
  lemma DecodeEncoded(e: Event)
    requires Encodable(e)
    ensures DecodeFrame(Encode(e)) == Some(e)
  {
    EncodeLinesSingle(e);
    FrameLinesTerminated(EncodeLines(e));
    DecodeWritten(Encode(e), e.id, e.event, SplitOn(e.data), e.retry);
  }

  /** The byte lines of text lines without `\n` or `\r` hold no terminator. */
  lemma LineBytesNoEol(ls: seq<string>)
    requires LinesAscii(ls)
    requires forall i :: 0 <= i < |ls| ==> '\n' !in ls[i] && '\r' !in ls[i]
    ensures forall i :: 0 <= i < |ls| ==> NoEol(LineBytes(ls)[i])
  {
    var bs := LineBytes(ls);
    forall i | 0 <= i < |bs|
      ensures NoEol(bs[i])
    {
      forall j | 0 <= j < |bs[i]|
        ensures !IsEol(bs[i][j])
      {
        assert Text(bs[i])[j] == ls[i][j];
      }
    }
  }

  /**
   * Text lines without `\n` or `\r`, all but the last non-empty and the last
   * one blank, sent as one chunk, are read as a single frame.
   */
  lemma FramesOfLines(ls: seq<string>)
    requires LinesAscii(ls)
    requires forall i :: 0 <= i < |ls| ==> '\n' !in ls[i] && '\r' !in ls[i]
    requires |ls| >= 2 && ls[|ls| - 1] == ""
    requires forall i :: 0 <= i < |ls| - 1 ==> ls[i] != ""
    ensures Frames([Flatten(Terminate(LineBytes(ls)))]) == [Flatten(Terminate(LineBytes(ls)))]
  {
    var bs := LineBytes(ls);
    var bytes := Flatten(Terminate(bs));
    LineBytesNoEol(ls);
    SplitTerminated(bs);
    var noChunks: seq<seq<byte>> := [];
    assert [bytes][1..] == noChunks;
    assert ChunkLines([bytes]) == SplitLines(bytes) + ChunkLines(noChunks);
    assert ChunkLines([bytes]) == Terminate(bs);
    assert bs[|bs| - 1] == [];
    forall i | 0 <= i < |bs| - 1
      ensures bs[i] != []
    {
      assert |ls[i]| > 0;
    }
    StitchTerminated(bs, []);
    assert [] + bytes == bytes;
  }

  /** A response made of one written event is read as a single frame: the written bytes. */
  lemma FramesEncoded(e: Event)
    requires Encodable(e)
    ensures Frames([Encode(e)]) == [Encode(e)]
  {
    EncodeLinesSingle(e);
    FramesOfLines(EncodeLines(e));
  }

  /**
   * Round trip: a response made of one written event yields exactly one
   * frame, the written bytes, and exactly one event, the original.
   */
  lemma RoundTrip(e: Event)
    requires Encodable(e)
    ensures Frames([Encode(e)]) == [Encode(e)]
    ensures EventsOf(Frames([Encode(e)])) == [e]
  {
    FramesEncoded(e);
    DecodeEncoded(e);
    EventsOfOne(Encode(e));
  }
}
