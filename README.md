# airbacus download core in Dafny

This project models the two sequential parts of airbacus. airbacus is a
Python client that downloads historic air-quality samples of monitoring
stations from an airbacus server and keeps them in a local key-value cache.

- **Event-stream reader** (`airbacus/fetch.py`).
  - `SSEClient._read` stitches the chunks of an HTTP response into frames.
    It splits each chunk into lines, appends them to a buffer and cuts the
    buffer whenever it ends in `\r\r`, `\n\n` or `\r\n\r\n`.
  - `SSEClient.events` decodes each frame into at most one `Event`, with the
    attributes `id`, `event`, `data` and `retry`. It follows the field rules
    of the Server-Sent Events event-stream format except for `id` and
    `retry`: `retry` is kept as raw text without the check that it is all
    digits, and `id` does not carry over from one frame to the next, since
    every frame starts from a fresh `Event()`.
- **Store** (`airbacus/store.py`).
  - `Store.fetchSSE` folds the decoded events of a historic download into a
    list of `(timestamp, value)` samples.
  - `Station.download` walks the station's species. For each one it looks up
    the key `feed:station:specie` in the cache. On a hit it reuses the stored
    samples. On a miss it fetches them and stores `{samples, fetched,
    version: 1}`. It then merges every specie's samples into a
    `timestamp -> specie -> value` table.
  - `StationReadings.csv` turns that table into a header and one row per
    timestamp, in ascending order.

The modules follow the program's structure:

- `Wrappers` (`wrappers.dfy`): `Option` and `Result`.
- `Lines` (`lines.dfy`): bytes, Python's `bytes.splitlines`, and the ASCII
  decoding of a line.
- `Fetch` (`fetch.dfy`): `_read` as the method `Read` over the function
  `Frames`, and `events` as the method `Events` over `EventsOf`. The per-line
  and per-frame steps are the methods `Interpret` and `Decode`.
- `EventCodec` (`codec.dfy`): a reference writer of event-stream frames. The
  source has no writer. This module exists to state the reader's round trip:
  reading a written event gives that event back.
- `Storage` (`store.dfy`):
  - the JSON payload datatype and the sample extraction (`Extract`, `React`);
  - the download walk (`Walk`) and the readings merge (`Merge`);
  - the class `Store`, with the cache `db` and the log of server `requests`
    as fields, and the methods `FetchSSE`, `Absorb` and `Download`;
  - the table methods `SortedTimes` and `Csv`.

The server is a parameter `server: Query -> seq<byte>` that gives the body
of the event-stream response to a query. `json.loads` is a parameter
`parse: string -> Option<Json>`, where `None` stands for text that is not
JSON. The wall-clock time written into a new cache record is a parameter
`now`.

Two behaviours of the code are worth stating outright:

- **Chunks.** The stitcher splits each chunk into lines on its own.
  - On arbitrary chunks, a `\r\n` pair that straddles two chunks therefore
    counts as two line ends. `Fetch.FramesDependOnChunking` shows this:
    `a\r\r\n` in one chunk is one frame, but `a\r\r` followed by `\n` is two.
  - The program never receives such chunks. `_read` iterates the HTTP
    response object, which delivers the body line by line, so every chunk
    but the last ends in `\n` (`Fetch.ResponseChunks`).
  - On such chunks the frames depend only on the bytes of the body
    (`Fetch.LineEndedFrames`, `Fetch.ResponseFrames`). `Storage.Fetched`
    reads the server's body through `ResponseChunks`.
- **An unfinished stream.** A stream that ends without a `"done"` event
  succeeds with the samples gathered so far (`Storage.ExtractSpec`).

## Model

| member | source | states |
|---|---|---|
| Lines.SplitLines | airbacus/fetch.py:114 | the lines of a chunk, concatenated, give back the chunk; every line is non-empty; every line but the last ends in `\r` or `\n`; `SplitLinesExact` pins the split down |
| Lines.LineLength | airbacus/fetch.py:114 | a line holds no terminator before its end, where `\r\n` counts as one terminator; a line that stops early stops at a terminator; a `\r\n` pair is never split |
| Lines.SplitLinesExact | airbacus/fetch.py:114 | beyond the properties of `SplitLines`: a line holds no terminator before its end, where `\r\n` counts as one; a line ending in `\r` is never followed by one starting with `\n` |
| Lines.SplitUnique | airbacus/fetch.py:114 | the split is unique: any non-empty lines that concatenate to the chunk, end in a terminator except the last, and satisfy the two `SplitLinesExact` clauses are exactly the lines of `SplitLines` |
| Lines.SplitLinesAfterLF | airbacus/fetch.py:114 | bytes up to a `\n` split into lines independently of the bytes after them |
| Lines.StripEol | airbacus/fetch.py:126 | definition: a line without its `\r\n`, `\r` or `\n` terminator |
| Lines.TextLines | airbacus/fetch.py:126 | definition: `bytes.splitlines()`, the lines of `SplitLines` without their terminators |
| Lines.Text | airbacus/fetch.py:128 | decoding a line keeps its length, and each character has the code of its byte |
| Fetch.ChunkLines | airbacus/fetch.py:113-114 | the lines of all chunks, concatenated, are all the bytes of the stream; no line is empty |
| Fetch.Read | airbacus/fetch.py:105-120 | the buffer loop over chunks and lines yields exactly `Frames(chunks)` |
| Fetch.EndsInTerminator | airbacus/fetch.py:116 | definition: the buffer ends in `\r\r`, `\n\n` or `\r\n\r\n`, the test that cuts a frame; `StitchShape` and `StitchCutsAtFirst` state where it cuts |
| Fetch.Stitch | airbacus/fetch.py:112-120 | definition: append each line to the buffer, emit and empty it when it ends in a terminator, emit a non-empty remainder; its properties are stated by `StitchKeepsBytes`, `StitchShape` and `StitchCutsAtFirst` |
| Fetch.Frames | airbacus/fetch.py:105-120 | definition: the stitched lines of all chunks, from an empty buffer; its properties are stated by `FramesShape` |
| Fetch.FramesShape | airbacus/fetch.py:112-120 | the frames, concatenated, are the chunks concatenated; no frame is empty; every frame but the last ends in `\r\r`, `\n\n` or `\r\n\r\n`; each frame is cut at the first line end where the buffer ends in a terminator; a stream of empty chunks yields no frame |
| Fetch.StitchKeepsBytes | airbacus/fetch.py:115-120 | stitching loses, duplicates and reorders no byte of the buffer or the lines |
| Fetch.StitchShape | airbacus/fetch.py:115-120 | a stitched frame is never empty, and every frame but the last ends in a terminator |
| Fetch.StitchCutsAtFirst | airbacus/fetch.py:115-118 | no frame but the last has a proper prefix, at a line end, that already ends in a terminator |
| Fetch.EmptyChunksNoLines | airbacus/fetch.py:113-114 | chunks that are all empty give no lines |
| Fetch.FramesDependOnChunking | airbacus/fetch.py:113-118 | on arbitrary chunks, which the response never delivers: the same bytes give one frame in one chunk and two frames in two chunks |
| Fetch.Initial | airbacus/fetch.py:188-192 | definition: `Event()`, the fresh event every frame starts from, with no id, type `"message"`, no data and no retry; `DecodeFrameFields` states the `"message"` default it gives an event without an `event` line |
| Fetch.IsSpace | airbacus/fetch.py:132 | definition: Python's `str.isspace` on ASCII characters, the tab to carriage-return codes 9 to 13, the separators 28 to 31 and the space |
| Fetch.IsBlank | airbacus/fetch.py:132 | definition: `not line.strip()`, the line is empty or holds only whitespace; `ApplyLine` states that such a line changes nothing |
| Fetch.IsComment | airbacus/fetch.py:132 | definition: `line.startswith(":")`; `ApplyLine` states that such a line changes nothing |
| Fetch.IndexOf | airbacus/fetch.py:135 | the position of the first `:` in a line, or the line's length when it has none |
| Fetch.ReadLineLength | airbacus/fetch.py:113 | the length of one line the response delivers: up to and including the first `\n`, or the whole rest when there is none |
| Fetch.ResponseChunks | airbacus/fetch.py:113 | the chunks of a response body, concatenated, are the body; no chunk is empty; each chunk holds a `\n` only at its end; every chunk but the last ends in `\n` |
| Fetch.LineEndedChunkLines | airbacus/fetch.py:113-114 | when every chunk but the last ends in `\n`, splitting chunk by chunk gives the lines of the whole body |
| Fetch.LineEndedFrames | airbacus/fetch.py:112-120 | two chunkings of one body whose chunks end in `\n` give the same frames |
| Fetch.ResponseFrames | airbacus/fetch.py:112-120 | the frames of a response are those of its whole body split into lines |
| Fetch.SplitField | airbacus/fetch.py:135-156 | the field name holds no `:`; a line without `:` is all field name, with value `""`; otherwise the value follows the first `:`, with exactly one leading space removed |
| Fetch.ApplyLine | airbacus/fetch.py:132-163 | blank and whitespace-only lines, comments and unknown fields change nothing; a line changes only the attribute it names |
| Fetch.Interpret | airbacus/fetch.py:128-163 | the statement sequence for one line computes `ApplyLine` |
| Fetch.ApplyLines | airbacus/fetch.py:126-163 | definition: the lines of a frame applied in order; its effect is stated by `ApplyLinesFields` |
| Fetch.Dispatch | airbacus/fetch.py:165-178 | definition: the end-of-frame rules; stated by `DispatchOf` |
| Fetch.FrameLines | airbacus/fetch.py:126-128 | definition: a frame split into lines without terminators, each decoded |
| Fetch.DecodeFrame | airbacus/fetch.py:124-178 | definition: a fresh event, the frame lines applied, then dispatch; its closed form is stated by `DecodeFrameFields` |
| Fetch.Decode | airbacus/fetch.py:124-174 | the line loop and the dispatch rules for one frame compute `DecodeFrame` |
| Fetch.Events | airbacus/fetch.py:122-178 | the frame loop yields the decoded events of `Frames(chunks)`, in frame order |
| Fetch.EventsOf | airbacus/fetch.py:123-178 | there are no more events than frames |
| Fetch.ApplyLinesFields | airbacus/fetch.py:158-163 | after a frame's lines, `data` holds every data value followed by `"\n"`, in order; `id`, `event` and `retry` hold their field's last value, or stay unchanged with none |
| Fetch.ApplyLinesData | airbacus/fetch.py:160-161 | each data line appends its value and `"\n"` |
| Fetch.ApplyLinesId | airbacus/fetch.py:162-163 | the last `id` line wins |
| Fetch.ApplyLinesType | airbacus/fetch.py:162-163 | the last `event` line wins |
| Fetch.ApplyLinesRetry | airbacus/fetch.py:162-163 | the last `retry` line wins; the value stays a string |
| Fetch.TerminatedIsJoin | airbacus/fetch.py:161-171 | the accumulated data with its one trailing `"\n"` removed is the data values joined by `"\n"` |
| Fetch.DecodeFrameFields | airbacus/fetch.py:124-174 | a frame with no data line yields nothing; otherwise its event has the last id, the last type (`"message"` when none or empty), the data values joined by `"\n"`, and the last retry |
| Fetch.DispatchOf | airbacus/fetch.py:165-174 | dispatch drops an event with no data, removes the trailing newline and defaults an empty type to `"message"` |
| Fetch.EventsOfAppend | airbacus/fetch.py:123-178 | decoding is frame by frame: the events of two frame sequences are the events of each, in order |
| Fetch.EventsOfOne | airbacus/fetch.py:166-178 | one frame yields one event or none |
| EventCodec.SplitOn | airbacus/fetch.py:160-171 | a text splits into newline-free pieces whose join by `"\n"` is the text |
| EventCodec.SplitFieldWritten | airbacus/fetch.py:135-156 | a line written as `field: value` splits back into that field and value |
| EventCodec.DecodeEncoded | airbacus/fetch.py:124-174 | decoding the frame written for an event gives back that event |
| EventCodec.FramesEncoded | airbacus/fetch.py:112-120 | a written frame, read as one chunk, is exactly one frame |
| EventCodec.RoundTrip | airbacus/fetch.py:105-178 | reading the bytes written for an event yields one frame and exactly that event |
| Storage.Samples | airbacus/store.py:62-69 | each pair element `x` contributes `(x[0], x[1])`, in order; entries after the second are ignored |
| Storage.Timestamp | airbacus/store.py:64-67 | definition: the timestamp a JSON value stands for: a number, or 1 and 0 for `true` and `false` |
| Storage.IsPair | airbacus/store.py:63-68 | definition: an element from which `x[0]`, as a timestamp, and `x[1]` can both be taken |
| Storage.Elements | airbacus/store.py:62 | definition: what `for x in m` visits: array items, the characters of a string, the keys of an object; nothing for a value that is not iterable |
| Storage.Batch | airbacus/store.py:62-72 | null, booleans and numbers cannot be iterated (an error); an array is accepted exactly when every element is a pair, and then yields one sample per element, in order |
| Storage.BatchOfTextOrObject | airbacus/store.py:62-72 | a string or object payload is accepted only when it is empty, since its elements (characters or keys) are not pairs |
| Storage.React | airbacus/store.py:55-72 | text that is not JSON is an error even in an error event; an error event is ignored; `"started"` adds nothing; `"done"` stops exactly when the event is not an error event; any other payload appends its batch, or aborts with the batch's fault |
| Storage.Halt | airbacus/store.py:54-60 | the position of the first event that ends the loop, by `"done"` or by an error; no earlier event ends it |
| Storage.ExtractSpec | airbacus/store.py:53-77 | the result is the first fault when one occurs before `"done"`; otherwise it is the samples of every event before `"done"` (or before the end of the stream), in arrival order |
| Storage.Extract | airbacus/store.py:53-77 | definition: the extraction loop over the events; its closed form is stated by `ExtractSpec` |
| Storage.Gathered | airbacus/store.py:62-69 | definition: the batches of the events, concatenated in arrival order |
| Storage.ExtractUnfold | airbacus/store.py:54-72 | one event ignored, finishing, appending or aborting advances the fold accordingly |
| Storage.ExtractKeepsPrefix | airbacus/store.py:53-77 | samples collected earlier stay in front, and whether the run fails does not depend on them |
| Storage.ExtractStopsAtDone | airbacus/store.py:58-59 | no event after `"done"` is consumed: what follows it does not change the result |
| Storage.StartedPairsDone | airbacus/store.py:53-77 | `"started"`, a payload of two pairs, then `"done"` give exactly the two samples |
| Storage.ErrorThenDone | airbacus/store.py:55-59 | an error event adds no samples and does not stop the loop; the following `"done"` does |
| Storage.Collect | airbacus/store.py:62-72 | the element loop appends the payload's samples, or fails with the payload's fault |
| Storage.Store.Absorb | airbacus/store.py:55-72 | one event handled by the loop body: ignored, finishing, appending its batch, or aborting, as `React` says |
| Storage.Store.FetchSSE | airbacus/store.py:45-77 | one request is sent, and the result is the extraction over the events of the server's response |
| Storage.Station.Id | airbacus/store.py:122-123 | the id is the feed, `:`, then the station |
| Storage.IdInjective | airbacus/store.py:122-123 | when feeds hold no `:`, equal ids mean equal feeds and stations |
| Storage.Since | airbacus/store.py:152 | definition: the start date `2020-01-01` of every historic download |
| Storage.HistoricQuery | airbacus/store.py:147-153 | definition: the query of a miss, with the station, the feed, the specie and `Since`; `WalkQueries` states which queries a walk sends |
| Storage.CacheKey | airbacus/store.py:140 | the key is the station id, `:`, then the specie |
| Storage.CacheKeyInjective | airbacus/store.py:140 | two species of one station never share a key |
| Storage.MergeSpec | airbacus/store.py:161-165 | after the merge every sample's timestamp is a row; the cell of the merged specie at `t` is its last sample at `t`; every other cell is unchanged |
| Storage.Put | airbacus/store.py:162-165 | definition: record one sample of a specie, creating its timestamp's row when missing |
| Storage.Merge | airbacus/store.py:161-165 | definition: record the samples of a specie one after the other; its effect is stated by `MergeSpec` |
| Storage.MergeSamples | airbacus/store.py:161-165 | the loop over samples computes `Merge` |
| Storage.WalkUnfold | airbacus/store.py:138-165 | one specie's turn: a hit merges the stored samples; a miss sends one query and either fails or stores a record with version 1 and merges the fetched samples |
| Storage.Fetched | airbacus/store.py:45-77 | definition: the extraction over the events of the server's body, read as the response delivers it |
| Storage.Walk | airbacus/store.py:137-165 | definition: the species loop of `download`; its effects are stated by `WalkUnfold`, `WalkCache`, `WalkQueries`, `WalkAllCached` and `WalkReadings` |
| Storage.Misses | airbacus/store.py:141-154 | definition: the queries for the species whose keys are missing when their turn comes, in listing order; a miss adds its key, so a specie listed again is then a hit |
| Storage.WalkCache | airbacus/store.py:140-159 | no existing key changes; every new key is the key of a listed specie, with the samples fetched for it, the time `now` and version 1 |
| Storage.WalkQueries | airbacus/store.py:138-159 | for any species list, repeats included: queries are sent only for species whose key is missing when their turn comes, one each, in listing order; a failing walk sends a prefix of them; a successful walk sends all of them |
| Storage.WalkAllCached | airbacus/store.py:141-144 | when every specie is cached, nothing is fetched, the cache is unchanged and the walk succeeds |
| Storage.WalkReadings | airbacus/store.py:138-165 | after a successful walk every specie has a cache record, and each cell holds that specie's last sample at that time |
| Storage.Store.constructor | airbacus/store.py:41-43 | a store starts from the given cache and has sent no request |
| Storage.Store.Download | airbacus/store.py:125-167 | a station with no species returns `None` and touches neither cache nor server; otherwise the cache, the requests and the result follow the species walk |
| Storage.SortedTimes | airbacus/store.py:180 | the timestamps in strictly ascending order, each exactly once |
| Storage.RowAt | airbacus/store.py:184-190 | a row has the timestamp and one cell per specie, in listing order, `None` where that specie has no value |
| Storage.Cell | airbacus/store.py:187 | definition: the specie's value at a timestamp, `None` where the table has none; `Csv` states that the rows are made of these cells |
| Storage.Csv | airbacus/store.py:176-191 | the header is `time` then the species; one row per distinct timestamp, in strictly ascending order; each row has one cell per specie, `None` where there is no value |

## Left out

- `Fetch`, `Response`, `SSEClient.__init__` and `SSEClient.close`
  (airbacus/fetch.py:11-103, 180-182). These are HTTP requests, headers and
  timeouts. The response is the `server` parameter, a total function from a
  query to its body, so network errors and timeouts are not modelled.
- `Configuration`, `Store.fetchJSON` and `Store.allStations`
  (airbacus/store.py:17-38, 79-108). These read a configuration file and
  fetch the station listing over the network. The server URL and token are
  not modelled.
- `json.loads` of event data is the `parse` parameter. `json.dumps` and
  `json.loads` of a cache record are left out: the cache holds `Record`
  values directly.
- Storage.Store.Download: one `now` stands for the time of every record a
  download writes. The source reads the clock once per record.
- `urllib.parse.urlencode` of the historic query. The query is the `Query`
  datatype, with the same four arguments and the start date `2020-01-01`.
- `datetime.fromtimestamp` and `strftime` (airbacus/store.py:65-67,
  181-183). Any number is accepted as a timestamp, so range and overflow
  errors of the date conversion are not modelled. A boolean is taken as 1 or
  0, as in Python. The timestamp text of a row is not modelled: a row
  carries the timestamp itself.
- `csv.writer` quoting and rendering. The table is a header and rows of
  values, not text.
- `Station.name` and `Station.geo`. These are one-line lookups in the
  listing that the core does not use.
- Progress printing, ANSI escapes and logging, and `Event.__str__`. These
  are display only.
- Character decoding of lines. Each byte becomes the character with its
  code, which is UTF-8 decoding on ASCII text.
- The `title` argument of `fetchSSE`. It is used only for printing.
- The dbm engine and its file. The cache is a map with lookup, read and
  write. The source never closes the file in `download`, and that is not
  modelled.
- Generators. `Read` and `Events` return whole sequences. So the model does
  not capture that a consumer can stop early, except in `Extract`, which
  consumes no event after `"done"`.
- Sample values are opaque JSON values. No arithmetic is done on them.
- An object payload is iterated over its keys, as Python does, so only an
  empty object yields no error. The key order of a Python dict is the order
  of the entries in `Object`.
