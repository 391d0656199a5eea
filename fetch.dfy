/**
 * The SSE client of airbacus/fetch.py: `SSEClient._read`, which stitches the
 * chunks of the response body into frames, and `SSEClient.events`, which
 * decodes each frame into at most one `Event`.  The decoding follows the
 * field rules of the Server-Sent Events event-stream format except for `id`
 * and `retry`: `retry` is kept as raw text without the check that it is all
 * digits, and `id` does not carry over from one frame to the next.
 *
 * The stitcher takes the response as a sequence of chunks; ResponseChunks
 * gives the chunks the HTTP response object delivers for a body.  The
 * generators of the source become methods that return the whole sequence
 * of frames or events.
 */
module Fetch {
  import opened Wrappers
  import opened Lines

  // ---------------------------------------------------------------------
  // Frames (SSEClient._read)
  // ---------------------------------------------------------------------

  predicate EndsWith(s: seq<byte>, suffix: seq<byte>)
  {
    |suffix| <= |s| && s[|s| - |suffix|..] == suffix
  }

  /** The buffer ends with a frame terminator: `\r\r`, `\n\n` or `\r\n\r\n`. */
  predicate EndsInTerminator(s: seq<byte>)
  {
    EndsWith(s, [CR, CR]) || EndsWith(s, [LF, LF]) || EndsWith(s, [CR, LF, CR, LF])
  }

  /** The lines of the chunks, in order, each chunk split on its own. */
  function ChunkLines(chunks: seq<seq<byte>>): (lines: seq<seq<byte>>)
    ensures Flatten(lines) == Flatten(chunks)
    ensures forall i :: 0 <= i < |lines| ==> lines[i] != []
  {
    if chunks == [] then []
    else
      var first := SplitLines(chunks[0]);
      var rest := ChunkLines(chunks[1..]);
      FlattenAppend(first, rest);
      assert forall i :: 0 <= i < |first + rest| ==>
        (first + rest)[i] == if i < |first| then first[i] else rest[i - |first|];
      first + rest
  }

  /**
   * The frames cut from `lines` when the buffer already holds `buffer`: each
   * line is appended to the buffer, the buffer is emitted and emptied as soon
   * as it ends in a terminator, and what is left at the end is emitted when
   * it is not empty.
   */
  function Stitch(lines: seq<seq<byte>>, buffer: seq<byte>): seq<seq<byte>>
    decreases |lines|
  {
    if lines == [] then (if buffer == [] then [] else [buffer])
    else
      var grown := buffer + lines[0];
      if EndsInTerminator(grown) then [grown] + Stitch(lines[1..], [])
      else Stitch(lines[1..], grown)
  }

  /** The frames `_read` yields for a response delivered as `chunks`. */
  function Frames(chunks: seq<seq<byte>>): seq<seq<byte>>
  {
    Stitch(ChunkLines(chunks), [])
  }

  /**
   * `SSEClient._read`: append the chunks' lines one by one to a buffer, emit
   * the buffer whenever it ends in a terminator, and emit the remainder.
   */
  method Read(chunks: seq<seq<byte>>) returns (frames: seq<seq<byte>>)
    ensures frames == Frames(chunks)
  {
    var data: seq<byte> := [];
    frames := [];
    for i := 0 to |chunks|
      invariant frames + Stitch(ChunkLines(chunks[i..]), data) == Frames(chunks)
    {
      var lines := SplitLines(chunks[i]);
      ChunkLinesStep(chunks, i);
      ghost var later := ChunkLines(chunks[i + 1..]);
      for j := 0 to |lines|
        invariant frames + Stitch(lines[j..] + later, data) == Frames(chunks)
      {
        StitchAdvance(frames, lines, j, later, data, Frames(chunks));
        data := data + lines[j];
        if EndsInTerminator(data) {
          frames := frames + [data];
          data := [];
        }
      }
      assert lines[|lines|..] + later == later;
    }
    if data != [] {
      frames := frames + [data];
    }
  }

  lemma ChunkLinesStep(chunks: seq<seq<byte>>, i: nat)
    requires i < |chunks|
    ensures ChunkLines(chunks[i..]) == SplitLines(chunks[i]) + ChunkLines(chunks[i + 1..])
  {
    assert chunks[i..][1..] == chunks[i + 1..];
  }

  /** The loop invariant of `_read` survives one line. */
  lemma StitchAdvance(frames: seq<seq<byte>>, lines: seq<seq<byte>>, j: nat, later: seq<seq<byte>>, data: seq<byte>,
                      goal: seq<seq<byte>>)
    requires j < |lines|
    requires frames + Stitch(lines[j..] + later, data) == goal
    ensures var grown := data + lines[j];
      if EndsInTerminator(grown) then (frames + [grown]) + Stitch(lines[j + 1..] + later, []) == goal
      else frames + Stitch(lines[j + 1..] + later, grown) == goal
  {
    StitchStep(lines, j, later, data);
    AppendAssoc(frames, [data + lines[j]], Stitch(lines[j + 1..] + later, []));
  }

  /** One line of the inner loop of `_read`. */
  lemma StitchStep(lines: seq<seq<byte>>, j: nat, later: seq<seq<byte>>, data: seq<byte>)
    requires j < |lines|
    ensures var grown := data + lines[j];
      Stitch(lines[j..] + later, data) ==
        if EndsInTerminator(grown) then [grown] + Stitch(lines[j + 1..] + later, [])
        else Stitch(lines[j + 1..] + later, grown)
  {
    assert (lines[j..] + later)[0] == lines[j];
    assert (lines[j..] + later)[1..] == lines[j + 1..] + later;
  }

  /** What `_read` promises of the frames of any response. */
  lemma FramesShape(chunks: seq<seq<byte>>)
    ensures Flatten(Frames(chunks)) == Flatten(chunks)
    ensures forall i :: 0 <= i < |Frames(chunks)| ==> Frames(chunks)[i] != []
    ensures forall i :: 0 <= i < |Frames(chunks)| - 1 ==> EndsInTerminator(Frames(chunks)[i])
    ensures CutAtFirstTerminator(ChunkLines(chunks), Frames(chunks))
    ensures (forall i :: 0 <= i < |chunks| ==> chunks[i] == []) ==> Frames(chunks) == []
  {
    StitchKeepsBytes(ChunkLines(chunks), []);
    StitchShape(ChunkLines(chunks), []);
    StitchCutsAtFirst(ChunkLines(chunks));
    if forall i :: 0 <= i < |chunks| ==> chunks[i] == [] {
      EmptyChunksNoLines(chunks);
    }
  }

  /** Stitching loses, duplicates and reorders no byte. */
  lemma {:induction false} StitchKeepsBytes(lines: seq<seq<byte>>, buffer: seq<byte>)
    ensures Flatten(Stitch(lines, buffer)) == buffer + Flatten(lines)
    decreases |lines|
  {
    if lines != [] {
      var grown := buffer + lines[0];
      AppendAssoc(buffer, lines[0], Flatten(lines[1..]));
      if EndsInTerminator(grown) {
        StitchKeepsBytes(lines[1..], []);
        FlattenCons(grown, Stitch(lines[1..], []));
        assert [] + Flatten(lines[1..]) == Flatten(lines[1..]);
      } else {
        StitchKeepsBytes(lines[1..], grown);
      }
    }
  }

  /** Every frame is non-empty, and every frame but the last ends in a terminator. */
  lemma {:induction false} StitchShape(lines: seq<seq<byte>>, buffer: seq<byte>)
    ensures forall i :: 0 <= i < |Stitch(lines, buffer)| ==> Stitch(lines, buffer)[i] != []
    ensures forall i :: 0 <= i < |Stitch(lines, buffer)| - 1 ==> EndsInTerminator(Stitch(lines, buffer)[i])
    decreases |lines|
  {
    if lines != [] {
      var grown := buffer + lines[0];
      if EndsInTerminator(grown) {
        StitchShape(lines[1..], []);
        var rest := Stitch(lines[1..], []);
        assert forall i :: 1 <= i < |[grown] + rest| ==> ([grown] + rest)[i] == rest[i - 1];
      } else {
        StitchShape(lines[1..], grown);
      }
    }
  }

  lemma {:induction false} EmptyChunksNoLines(chunks: seq<seq<byte>>)
    requires forall i :: 0 <= i < |chunks| ==> chunks[i] == []
    ensures ChunkLines(chunks) == []
  {
    if chunks != [] {
      EmptyChunksNoLines(chunks[1..]);
    }
  }

  /**
   * The first k lines make the first frame: their bytes end in a terminator
   * (or they are all the lines there are), and no shorter run of leading
   * lines already ends in one.
   */
  ghost predicate FirstCut(lines: seq<seq<byte>>, k: nat)
  {
    0 < k <= |lines| &&
    (EndsInTerminator(Flatten(lines[..k])) || k == |lines|) &&
    forall j :: 0 < j < k ==> !EndsInTerminator(Flatten(lines[..j]))
  }

  /** Each frame is cut at the first line boundary where the buffer ends in a terminator. */
  ghost predicate CutAtFirstTerminator(lines: seq<seq<byte>>, frames: seq<seq<byte>>)
    decreases |frames|
  {
    if frames == [] then lines == []
    else exists k: nat :: FirstCut(lines, k) && frames[0] == Flatten(lines[..k]) &&
                         CutAtFirstTerminator(lines[k..], frames[1..])
  }

  /** No cut before k: not in the buffer itself, nor after any of the first k - 1 lines. */
  lemma NoEarlierCut(buffer: seq<byte>, lines: seq<seq<byte>>, k: nat)
    requires 0 < k <= |lines| && !EndsInTerminator(buffer)
    requires forall j :: 0 <= j < k - 1 ==> !EndsInTerminator((buffer + lines[0]) + Flatten(lines[1..][..j]))
    ensures forall j :: 0 <= j < k ==> !EndsInTerminator(buffer + Flatten(lines[..j]))
  {
    forall j | 0 <= j < k
      ensures !EndsInTerminator(buffer + Flatten(lines[..j]))
    {
      if j == 0 {
        assert lines[..0] == [];
        assert buffer + Flatten(lines[..0]) == buffer;
      } else {
        GrowPrefix(buffer, lines, j);
      }
    }
  }

  /** Appending the first j lines to a buffer is appending the first line, then the j - 1 after it. */
  lemma GrowPrefix(buffer: seq<byte>, lines: seq<seq<byte>>, j: nat)
    requires 0 < j <= |lines|
    ensures buffer + Flatten(lines[..j]) == (buffer + lines[0]) + Flatten(lines[1..][..j - 1])
  {
    assert lines[..j] == [lines[0]] + lines[1..][..j - 1];
    FlattenCons(lines[0], lines[1..][..j - 1]);
  }

  /** The same cut as FirstCut, for a buffer that already holds bytes. */
  ghost predicate FirstCutAfter(buffer: seq<byte>, lines: seq<seq<byte>>, k: nat)
  {
    k <= |lines| && buffer + Flatten(lines[..k]) != [] &&
    (EndsInTerminator(buffer + Flatten(lines[..k])) || k == |lines|) &&
    forall j :: 0 <= j < k ==> !EndsInTerminator(buffer + Flatten(lines[..j]))
  }

  lemma {:induction false} StitchFirst(lines: seq<seq<byte>>, buffer: seq<byte>) returns (k: nat)
    requires !EndsInTerminator(buffer)
    requires forall i :: 0 <= i < |lines| ==> lines[i] != []
    requires buffer != [] || lines != []
    ensures FirstCutAfter(buffer, lines, k)
    ensures Stitch(lines, buffer) == [buffer + Flatten(lines[..k])] + Stitch(lines[k..], [])
    decreases |lines|
  {
    if lines == [] {
      k := 0;
      assert lines[..0] == [];
      assert buffer + Flatten(lines[..0]) == buffer;
    } else {
      var grown := buffer + lines[0];
      if EndsInTerminator(grown) {
        k := 1;
        GrowPrefix(buffer, lines, 1);
        assert lines[1..][..0] == [];
        assert lines[..0] == [];
        assert buffer + Flatten(lines[..1]) == grown;
      } else {
        var tail := lines[1..];
        var k' := StitchFirst(tail, grown);
        k := k' + 1;
        GrowPrefix(buffer, lines, k);
        NoEarlierCut(buffer, lines, k);
        assert lines[k..] == tail[k'..];
      }
    }
  }

  /** Stitch cuts every frame at the first line boundary where the buffer ends in a terminator. */
  lemma {:induction false} StitchCutsAtFirst(lines: seq<seq<byte>>)
    requires forall i :: 0 <= i < |lines| ==> lines[i] != []
    ensures CutAtFirstTerminator(lines, Stitch(lines, []))
    decreases |lines|
  {
    if lines != [] {
      var k := StitchFirst(lines, []);
      assert [] + Flatten(lines[..k]) == Flatten(lines[..k]);
      assert forall j :: 0 <= j < k ==> [] + Flatten(lines[..j]) == Flatten(lines[..j]);
      assert lines[..0] == [];
      assert FirstCut(lines, k);
      StitchCutsAtFirst(lines[k..]);
      var frames := Stitch(lines, []);
      assert frames[1..] == Stitch(lines[k..], []);
    }
  }

  /**
   * On arbitrary chunks the stitcher's frames depend on where the chunks
   * break: `a\r\r\n` in one chunk is a single unterminated frame (its lines
   * are `a\r` and `\r\n`), while the same bytes delivered as `a\r\r` and `\n`
   * are cut after `a\r\r`.  The response object `_read` iterates never
   * delivers such chunks (see ResponseChunks).
   */
  lemma FramesDependOnChunking()
    ensures Frames([[97, CR, CR, LF]]) == [[97, CR, CR, LF]]
    ensures Frames([[97, CR, CR], [LF]]) == [[97, CR, CR], [LF]]
  {
    OneChunk();
    TwoChunks();
  }

  lemma OneChunk()
    ensures Frames([[97, CR, CR, LF]]) == [[97, CR, CR, LF]]
  {
    var chunks: seq<seq<byte>> := [[97, CR, CR, LF]];
    LinesOfOneChunk();
    assert chunks[1..] == [];
    assert ChunkLines(chunks) == [[97, CR], [CR, LF]];
    StitchOneChunk();
  }

  lemma LinesOfOneChunk()
    ensures SplitLines([97, CR, CR, LF]) == [[97, CR], [CR, LF]]
  {
    var s: seq<byte> := [97, CR, CR, LF];
    assert LineLength(s[1..]) == 1;
    assert LineLength(s) == 2;
    var t := s[2..];
    assert t == [CR, LF] && LineLength(t) == 2;
    assert t[2..] == [] && t[..2] == t;
    assert SplitLines(t) == [t];
    assert s[..2] == [97, CR];
  }

  lemma StitchOneChunk()
    ensures Stitch([[97, CR], [CR, LF]], []) == [[97, CR, CR, LF]]
  {
    var lines: seq<seq<byte>> := [[97, CR], [CR, LF]];
    var first: seq<byte> := [97, CR];
    var all: seq<byte> := [97, CR, CR, LF];
    assert [] + lines[0] == first && !EndsInTerminator(first);
    assert first + lines[1] == all;
    assert !EndsInTerminator(all) by {
      assert all[2..] != [CR, CR] && all[2..] != [LF, LF];
      assert all[0..] != [CR, LF, CR, LF];
    }
    assert lines[1..][1..] == [];
    assert Stitch(lines[1..][1..], all) == [all];
    assert Stitch(lines[1..], first) == [all];
  }

  lemma TwoChunks()
    ensures Frames([[97, CR, CR], [LF]]) == [[97, CR, CR], [LF]]
  {
    var chunks: seq<seq<byte>> := [[97, CR, CR], [LF]];
    LinesOfFirstChunk();
    LinesOfSecondChunk();
    assert chunks[1..] == [[LF]] && chunks[1..][1..] == [];
    assert ChunkLines(chunks[1..]) == [[LF]];
    assert ChunkLines(chunks) == [[97, CR], [CR], [LF]];
    StitchTwoChunks();
  }

  lemma LinesOfFirstChunk()
    ensures SplitLines([97, CR, CR]) == [[97, CR], [CR]]
  {
    var s: seq<byte> := [97, CR, CR];
    assert LineLength(s[1..]) == 1;
    assert LineLength(s) == 2;
    var t := s[2..];
    assert t == [CR] && LineLength(t) == 1;
    assert t[1..] == [] && t[..1] == t;
    assert SplitLines(t) == [t];
    assert s[..2] == [97, CR];
  }

  lemma LinesOfSecondChunk()
    ensures SplitLines([LF]) == [[LF]]
  {
    var l: seq<byte> := [LF];
    assert LineLength(l) == 1;
    assert l[..1] == l && l[1..] == [];
  }

  lemma StitchTwoChunks()
    ensures Stitch([[97, CR], [CR], [LF]], []) == [[97, CR, CR], [LF]]
  {
    var lines: seq<seq<byte>> := [[97, CR], [CR], [LF]];
    var first: seq<byte> := [97, CR];
    var cut: seq<byte> := [97, CR, CR];
    assert [] + lines[0] == first && !EndsInTerminator(first);
    assert first + lines[1] == cut;
    assert EndsInTerminator(cut) by {
      assert cut[1..] == [CR, CR];
    }
    var rest := lines[1..][1..];
    assert rest == [[LF]] && rest[1..] == [];
    assert [] + rest[0] == [LF] && !EndsInTerminator([LF]);
    assert Stitch(rest, []) == [[LF]];
  }

  // ---------------------------------------------------------------------
  // The chunks of an HTTP response
  // ---------------------------------------------------------------------

  /** Every chunk but the last ends in `\n`. */
  predicate LineEnded(chunks: seq<seq<byte>>)
  {
    forall i :: 0 <= i < |chunks| - 1 ==> chunks[i] != [] && chunks[i][|chunks[i]| - 1] == LF
  }

  /** The length of what `readline()` returns: up to and including the first `\n`, or all of s. */
  function ReadLineLength(s: seq<byte>): (n: nat)
    requires s != []
    ensures 0 < n <= |s|
    ensures forall k :: 0 <= k < n - 1 ==> s[k] != LF
    ensures n < |s| ==> s[n - 1] == LF
    decreases |s|
  {
    if s[0] == LF || |s| == 1 then 1
    else
      var m := ReadLineLength(s[1..]);
      assert forall k :: 1 <= k < |s| ==> s[k] == s[1..][k - 1];
      1 + m
  }

  /**
   * The chunks `for chunk in self._event_source` delivers for a response
   * body: iterating the HTTP response object reads it line by line, so each
   * chunk runs up to and including the next `\n`, and only the last may
   * lack one.
   */
  function ResponseChunks(body: seq<byte>): (chunks: seq<seq<byte>>)
    ensures Flatten(chunks) == body
    ensures forall i :: 0 <= i < |chunks| ==> chunks[i] != []
    ensures LineEnded(chunks)
    ensures forall i, k :: 0 <= i < |chunks| && 0 <= k < |chunks[i]| - 1 ==> chunks[i][k] != LF
    decreases |body|
  {
    if body == [] then []
    else
      var n := ReadLineLength(body);
      var rest := ResponseChunks(body[n..]);
      FlattenCons(body[..n], rest);
      ChunksCons(body[..n], rest);
      [body[..n]] + rest
  }

  /** The chunk properties, for one more chunk in front. */
  lemma ChunksCons(c: seq<byte>, rest: seq<seq<byte>>)
    requires c != [] && (forall k :: 0 <= k < |c| - 1 ==> c[k] != LF) && (rest != [] ==> c[|c| - 1] == LF)
    requires forall i :: 0 <= i < |rest| ==> rest[i] != []
    requires LineEnded(rest)
    requires forall i, k :: 0 <= i < |rest| && 0 <= k < |rest[i]| - 1 ==> rest[i][k] != LF
    ensures var chunks := [c] + rest;
      (forall i :: 0 <= i < |chunks| ==> chunks[i] != []) && LineEnded(chunks) &&
      (forall i, k :: 0 <= i < |chunks| && 0 <= k < |chunks[i]| - 1 ==> chunks[i][k] != LF)
  {
    var chunks := [c] + rest;
    assert forall i :: 1 <= i < |chunks| ==> chunks[i] == rest[i - 1];
  }

  /** On chunks that end in `\n`, splitting chunk by chunk is splitting the whole body. */
  lemma {:induction false} LineEndedChunkLines(chunks: seq<seq<byte>>)
    requires LineEnded(chunks)
    ensures ChunkLines(chunks) == SplitLines(Flatten(chunks))
    decreases |chunks|
  {
    if chunks != [] {
      var rest := chunks[1..];
      assert LineEnded(rest) by {
        assert forall i :: 0 <= i < |rest| - 1 ==> rest[i] == chunks[i + 1];
      }
      LineEndedChunkLines(rest);
      assert ChunkLines(chunks) == SplitLines(chunks[0]) + ChunkLines(rest);
      assert Flatten(chunks) == chunks[0] + Flatten(rest);
      if rest == [] {
        assert chunks[0] + Flatten(rest) == chunks[0];
      } else {
        SplitLinesAfterLF(chunks[0], Flatten(rest));
      }
    }
  }

  /**
   * Frames depend only on the bytes when every chunk but the last ends in
   * `\n`: two such chunkings of one body give the same frames.
   */
  lemma LineEndedFrames(a: seq<seq<byte>>, b: seq<seq<byte>>)
    requires LineEnded(a) && LineEnded(b) && Flatten(a) == Flatten(b)
    ensures Frames(a) == Frames(b) == Stitch(SplitLines(Flatten(a)), [])
  {
    LineEndedChunkLines(a);
    LineEndedChunkLines(b);
  }

  /** The frames of a response are those of its body split into lines as a whole. */
  lemma ResponseFrames(body: seq<byte>)
    ensures Frames(ResponseChunks(body)) == Stitch(SplitLines(body), [])
  {
    LineEndedChunkLines(ResponseChunks(body));
  }

  // ---------------------------------------------------------------------
  // Events (SSEClient.events and the Event record)
  // ---------------------------------------------------------------------

  /** An event of the stream; `retry` keeps the raw text of the field. */
  datatype Event = Event(id: Option<string>, event: string, data: string, retry: Option<string>)

  /** `Event()`: no id, type "message", no data, no retry. */
  const Initial := Event(None, "message", "", None)

  /** The fields an `Event` has; a line naming any other field is ignored. */
  const Fields: set<string> := {"id", "event", "data", "retry"}

  /** Python's `str.isspace` on ASCII characters. */
  predicate IsSpace(c: char)
  {
    (9 <= c as int <= 13) || (28 <= c as int <= 32)
  }

  /** `not line.strip()`: the line is empty or holds only whitespace. */
  predicate IsBlank(line: string)
  {
    forall i :: 0 <= i < |line| ==> IsSpace(line[i])
  }

  /** `line.startswith(":")`: a comment. */
  predicate IsComment(line: string)
  {
    |line| > 0 && line[0] == ':'
  }

  /** The index of the first c in s, or |s| when there is none. */
  function IndexOf(s: string, c: char): (i: nat)
    ensures i <= |s|
    ensures i < |s| ==> s[i] == c
    ensures forall j :: 0 <= j < i ==> s[j] != c
  {
    if s == [] then 0
    else if s[0] == c then 0
    else
      var i := 1 + IndexOf(s[1..], c);
      assert forall j :: 1 <= j < |s| ==> s[j] == s[1..][j - 1];
      i
  }

  /**
   * `line.split(":", 1)` with the value rule: the field is the text before
   * the first `:`, the value the text after it without one leading space,
   * and a line without `:` has the whole line as field and "" as value.
   */
  function SplitField(line: string): (r: (string, string))
    ensures ':' !in r.0
    ensures ':' !in line ==> r == (line, "")
    ensures ':' in line ==>
      line == r.0 + ": " + r.1 || (line == r.0 + ":" + r.1 && (r.1 == "" || r.1[0] != ' '))
  {
    var i := IndexOf(line, ':');
    if i == |line| then (line, "")
    else
      var raw := line[i + 1..];
      assert line == line[..i] + ":" + raw;
      (line[..i], if |raw| > 0 && raw[0] == ' ' then raw[1..] else raw)
  }

  /** The effect of one decoded line of a frame on the event being built. */
  function ApplyLine(ev: Event, line: string): (r: Event)
    // blank lines, comments and unknown fields change nothing
    ensures IsBlank(line) || IsComment(line) || SplitField(line).0 !in Fields ==> r == ev
    // a line changes at most the attribute it names
    ensures SplitField(line).0 != "data" ==> r.data == ev.data
    ensures SplitField(line).0 != "id" ==> r.id == ev.id
    ensures SplitField(line).0 != "event" ==> r.event == ev.event
    ensures SplitField(line).0 != "retry" ==> r.retry == ev.retry
  {
    if IsBlank(line) || IsComment(line) then ev
    else
      var (field, value) := SplitField(line);
      if field == "data" then ev.(data := ev.data + value + "\n")
      else if field == "id" then ev.(id := Some(value))
      else if field == "event" then ev.(event := value)
      else if field == "retry" then ev.(retry := Some(value))
      else ev
  }

  /** The event after the lines, applied in order. */
  function ApplyLines(ev: Event, lines: seq<string>): Event
    decreases |lines|
  {
    if lines == [] then ev
    else ApplyLine(ApplyLines(ev, lines[..|lines| - 1]), lines[|lines| - 1])
  }

  /**
   * The end-of-frame rules: a frame with no data yields nothing; otherwise
   * one trailing newline is dropped and an empty type reads as "message".
   */
  function Dispatch(ev: Event): Option<Event>
  {
    if ev.data == "" then None
    else
      var data := if ev.data[|ev.data| - 1] == '\n' then ev.data[..|ev.data| - 1] else ev.data;
      Some(ev.(data := data, event := if ev.event == "" then "message" else ev.event))
  }

  /** The decoded lines of a frame, split before decoding. */
  function FrameLines(frame: seq<byte>): seq<string>
  {
    var lines := TextLines(frame);
    seq(|lines|, i requires 0 <= i < |lines| => Text(lines[i]))
  }

  /** The event a frame yields, if any. */
  function DecodeFrame(frame: seq<byte>): Option<Event>
  {
    Dispatch(ApplyLines(Initial, FrameLines(frame)))
  }

  /** The events the frames yield, in frame order. */
  function EventsOf(frames: seq<seq<byte>>): (events: seq<Event>)
    ensures |events| <= |frames|
    decreases |frames|
  {
    if frames == [] then []
    else
      var prior := EventsOf(frames[..|frames| - 1]);
      match DecodeFrame(frames[|frames| - 1])
      case None => prior
      case Some(e) => prior + [e]
  }

  lemma ApplyLinesStep(ev: Event, lines: seq<string>, j: nat)
    requires j < |lines|
    ensures ApplyLines(ev, lines[..j + 1]) == ApplyLine(ApplyLines(ev, lines[..j]), lines[j])
  {
    assert lines[..j + 1][..j] == lines[..j];
  }

  /** One line of a frame, as the loop in `SSEClient.events` treats it. */
  method Interpret(event: Event, line: string) returns (r: Event)
    ensures r == ApplyLine(event, line)
  {
    r := event;
    if IsBlank(line) || IsComment(line) {
      return;
    }
    var (field, value) := SplitField(line);
    if field !in Fields {
      return;
    }
    if field == "data" {
      r := r.(data := r.data + value + "\n");
    } else if field == "id" {
      r := r.(id := Some(value));
    } else if field == "event" {
      r := r.(event := value);
    } else if field == "retry" {
      r := r.(retry := Some(value));
    }
  }

  /** One frame: its lines in order, then the end-of-frame rules. */
  method Decode(frame: seq<byte>) returns (r: Option<Event>)
    ensures r == DecodeFrame(frame)
  {
    var lines := TextLines(frame);
    ghost var decoded := FrameLines(frame);
    var event := Initial;
    for j := 0 to |lines|
      invariant event == ApplyLines(Initial, decoded[..j])
    {
      ApplyLinesStep(Initial, decoded, j);
      event := Interpret(event, Text(lines[j]));
    }
    assert decoded[..|lines|] == decoded;
    if event.data == "" {
      return None;
    }
    if event.data[|event.data| - 1] == '\n' {
      event := event.(data := event.data[..|event.data| - 1]);
    }
    event := event.(event := if event.event == "" then "message" else event.event);
    return Some(event);
  }

  lemma EventsOfPrefix(frames: seq<seq<byte>>, i: nat)
    requires i < |frames|
    ensures EventsOf(frames[..i + 1]) ==
      EventsOf(frames[..i]) + if DecodeFrame(frames[i]).Some? then [DecodeFrame(frames[i]).value] else []
  {
    assert frames[..i + 1][..i] == frames[..i];
  }

  /**
   * `SSEClient.events`: decode every frame `_read` yields, line by line,
   * into an event, and keep the events that carry data.
   */
  method Events(chunks: seq<seq<byte>>) returns (events: seq<Event>)
    ensures events == EventsOf(Frames(chunks))
  {
    var frames := Read(chunks);
    events := [];
    for i := 0 to |frames|
      invariant events == EventsOf(frames[..i])
    {
      EventsOfPrefix(frames, i);
      var decoded := Decode(frames[i]);
      if decoded.Some? {
        events := events + [decoded.value];
      }
    }
    assert frames[..|frames|] == frames;
  }

  // ---------------------------------------------------------------------
  // What a frame decodes to, stated field by field
  // ---------------------------------------------------------------------

  /** The values of the lines that set `field`, in line order. */
  function Values(lines: seq<string>, field: string): seq<string>
    decreases |lines|
  {
    if lines == [] then []
    else
      var line := lines[|lines| - 1];
      Values(lines[..|lines| - 1], field) +
        (if !IsBlank(line) && !IsComment(line) && SplitField(line).0 == field then [SplitField(line).1] else [])
  }

  function Last(vs: seq<string>): Option<string>
  {
    if vs == [] then None else Some(vs[|vs| - 1])
  }

  /** The values joined by newlines. */
  function Join(vs: seq<string>): string
    decreases |vs|
  {
    if vs == [] then ""
    else if |vs| == 1 then vs[0]
    else Join(vs[..|vs| - 1]) + "\n" + vs[|vs| - 1]
  }

  /** Each value followed by a newline, as `data` lines accumulate. */
  function Terminated(vs: seq<string>): string
    decreases |vs|
  {
    if vs == [] then "" else Terminated(vs[..|vs| - 1]) + vs[|vs| - 1] + "\n"
  }

  lemma {:induction false} TerminatedIsJoin(vs: seq<string>)
    requires vs != []
    ensures Terminated(vs) == Join(vs) + "\n"
    decreases |vs|
  {
    if |vs| == 1 {
      assert vs[..0] == [];
    } else {
      TerminatedIsJoin(vs[..|vs| - 1]);
    }
  }

  lemma ValuesStep(prefix: seq<string>, line: string, field: string)
    ensures Values(prefix + [line], field) == Values(prefix, field) +
      (if !IsBlank(line) && !IsComment(line) && SplitField(line).0 == field then [SplitField(line).1] else [])
  {
    assert (prefix + [line])[..|prefix|] == prefix;
  }

  lemma DataStep(d: string, t: string, v: string)
    ensures (d + t) + v + "\n" == d + (t + v + "\n")
  {
  }

  lemma TerminatedStep(vs: seq<string>, v: string)
    ensures Terminated(vs + [v]) == Terminated(vs) + v + "\n"
  {
    assert (vs + [v])[..|vs|] == vs;
  }

  /**
   * After a run of lines, `data` has gained each data value followed by a
   * newline, and `id`, `event` and `retry` hold the last value given to them
   * (or what they held before when no line names them).
   */
  lemma ApplyLinesFields(ev: Event, lines: seq<string>)
    ensures ApplyLines(ev, lines).data == ev.data + Terminated(Values(lines, "data"))
    ensures ApplyLines(ev, lines).id == if Values(lines, "id") == [] then ev.id else Last(Values(lines, "id"))
    ensures ApplyLines(ev, lines).event ==
      if Values(lines, "event") == [] then ev.event else Last(Values(lines, "event")).value
    ensures ApplyLines(ev, lines).retry ==
      if Values(lines, "retry") == [] then ev.retry else Last(Values(lines, "retry"))
  {
    ApplyLinesData(ev, lines);
    ApplyLinesId(ev, lines);
    ApplyLinesType(ev, lines);
    ApplyLinesRetry(ev, lines);
  }

  lemma {:induction false} ApplyLinesData(ev: Event, lines: seq<string>)
    ensures ApplyLines(ev, lines).data == ev.data + Terminated(Values(lines, "data"))
    decreases |lines|
  {
    if lines != [] {
      var prefix := lines[..|lines| - 1];
      var line := lines[|lines| - 1];
      assert lines == prefix + [line];
      ApplyLinesData(ev, prefix);
      ValuesStep(prefix, line, "data");
      var before := ApplyLines(ev, prefix);
      var vs := Values(prefix, "data");
      if !IsBlank(line) && !IsComment(line) && SplitField(line).0 == "data" {
        var v := SplitField(line).1;
        TerminatedStep(vs, v);
        assert ApplyLines(ev, lines).data == before.data + v + "\n";
        DataStep(ev.data, Terminated(vs), v);
        assert Values(lines, "data") == vs + [v];
      } else {
        assert Values(lines, "data") == vs + [] == vs;
      }
    }
  }

  lemma {:induction false} ApplyLinesId(ev: Event, lines: seq<string>)
    ensures ApplyLines(ev, lines).id == if Values(lines, "id") == [] then ev.id else Last(Values(lines, "id"))
    decreases |lines|
  {
    if lines != [] {
      var prefix := lines[..|lines| - 1];
      var line := lines[|lines| - 1];
      assert lines == prefix + [line];
      ApplyLinesId(ev, prefix);
      ValuesStep(prefix, line, "id");
    }
  }

  lemma {:induction false} ApplyLinesType(ev: Event, lines: seq<string>)
    ensures ApplyLines(ev, lines).event ==
      if Values(lines, "event") == [] then ev.event else Last(Values(lines, "event")).value
    decreases |lines|
  {
    if lines != [] {
      var prefix := lines[..|lines| - 1];
      var line := lines[|lines| - 1];
      assert lines == prefix + [line];
      ApplyLinesType(ev, prefix);
      ValuesStep(prefix, line, "event");
    }
  }

  lemma {:induction false} ApplyLinesRetry(ev: Event, lines: seq<string>)
    ensures ApplyLines(ev, lines).retry ==
      if Values(lines, "retry") == [] then ev.retry else Last(Values(lines, "retry"))
    decreases |lines|
  {
    if lines != [] {
      var prefix := lines[..|lines| - 1];
      var line := lines[|lines| - 1];
      assert lines == prefix + [line];
      ApplyLinesRetry(ev, prefix);
      ValuesStep(prefix, line, "retry");
    }
  }

  /**
   * The event a frame yields, stated without the loop: there is one exactly
   * when some line sets `data`; its data is the data values joined by
   * newlines, its id and retry are the last values given, and its type is
   * the last `event` value, or "message" when there is none or it is empty.
   */
  lemma DecodeFrameFields(frame: seq<byte>)
    ensures var lines := FrameLines(frame);
            var data := Values(lines, "data");
            var types := Values(lines, "event");
            DecodeFrame(frame) ==
              if data == [] then None
              else Some(Event(Last(Values(lines, "id")),
                              if types == [] || types[|types| - 1] == "" then "message" else types[|types| - 1],
                              Join(data),
                              Last(Values(lines, "retry"))))
  {
    DispatchFields(FrameLines(frame));
  }

  lemma DispatchFields(lines: seq<string>)
    ensures Dispatch(ApplyLines(Initial, lines)) ==
      Assembled(Values(lines, "data"), Values(lines, "id"), Values(lines, "event"), Values(lines, "retry"))
  {
    ApplyLinesFields(Initial, lines);
    DispatchOf(ApplyLines(Initial, lines), Values(lines, "data"), Values(lines, "id"), Values(lines, "event"),
               Values(lines, "retry"));
  }

  /** The event a frame's field values make: none without data. */
  function Assembled(data: seq<string>, ids: seq<string>, types: seq<string>, retries: seq<string>): Option<Event>
  {
    if data == [] then None
    else Some(Event(Last(ids), if types == [] || types[|types| - 1] == "" then "message" else types[|types| - 1],
                    Join(data), Last(retries)))
  }

  /** The end-of-frame rules applied to the event the field values build. */
  lemma DispatchOf(ev: Event, data: seq<string>, ids: seq<string>, types: seq<string>, retries: seq<string>)
    requires ev.data == "" + Terminated(data) && ev.id == Last(ids) && ev.retry == Last(retries)
    requires ev.event == if types == [] then "message" else Last(types).value
    ensures Dispatch(ev) == Assembled(data, ids, types, retries)
  {
    assert "" + Terminated(data) == Terminated(data);
    if data == [] {
      assert ev.data == "";
    } else {
      TerminatedIsJoin(data);
      var joined := Join(data);
      assert ev.data == joined + "\n";
      assert ev.data[..|ev.data| - 1] == joined && ev.data[|ev.data| - 1] == '\n';
      var typ := if ev.event == "" then "message" else ev.event;
      assert typ == if types == [] || types[|types| - 1] == "" then "message" else types[|types| - 1];
      assert Dispatch(ev) == Some(Event(ev.id, typ, joined, ev.retry));
    }
  }

  /** Each frame yields its own events, in frame order: decoding distributes over a split of the frames. */
  lemma {:induction false} EventsOfAppend(a: seq<seq<byte>>, b: seq<seq<byte>>)
    ensures EventsOf(a + b) == EventsOf(a) + EventsOf(b)
    decreases |b|
  {
    if b == [] {
      assert a + b == a;
    } else {
      var b', x := b[..|b| - 1], b[|b| - 1];
      assert b == b' + [x];
      assert a + b == (a + b') + [x];
      EventsOfSnoc(a + b', x);
      EventsOfSnoc(b', x);
      EventsOfAppend(a, b');
      AppendAssoc(EventsOf(a), EventsOf(b'), EventsOf([x]));
    }
  }

  lemma EventsOfSnoc(frames: seq<seq<byte>>, frame: seq<byte>)
    ensures EventsOf(frames + [frame]) == EventsOf(frames) + EventsOf([frame])
  {
    assert (frames + [frame])[..|frames|] == frames;
    assert [frame][..0] == [];
  }

  /** One frame yields at most one event: the one it decodes to. */
  lemma EventsOfOne(frame: seq<byte>)
    ensures EventsOf([frame]) == match DecodeFrame(frame) case None => [] case Some(e) => [e]
  {
    assert [frame][..0] == [];
  }
}
