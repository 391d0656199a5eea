/**
 * The store side: extracting (timestamp, value) samples from the decoded
 * events of a historic-data stream, the cache-through download of a
 * station's species, the merge of their samples into one reading table,
 * and the table's rows.
 *
 * The server, the JSON decoder and the clock are parameters: `server` maps
 * a historic query to the body of its event-stream response, `parse`
 * stands for `json.loads` (None where the text is not JSON) and `now` for
 * the wall-clock time written into a cache record.
 */
module Storage {
  import opened Wrappers
  import opened Lines
  import opened Fetch

  /** A decoded JSON value. Numbers are reals; `true` and `false` are Bool. */
  datatype Json =
    | Null
    | Bool(b: bool)
    | Number(n: real)
    | Str(s: string)
    | Array(items: seq<Json>)
    | Object(entries: seq<(string, Json)>)

  /** A sample: a timestamp in seconds and the value measured then. */
  type Sample = (real, Json)

  /**
   * How a download run can fail: event data that is not JSON (an uncaught
   * decoding error), a payload that cannot be iterated (an uncaught type
   * error), or an element that is not a `[timestamp, value, ...]` pair (the
   * `exit(-1)` path).
   */
  datatype Fault = MalformedJson | NotIterable | BadElement

  // ---------------------------------------------------------------------
  // Sample extraction (Store.fetchSSE)
  // ---------------------------------------------------------------------

  /** The timestamp a JSON value stands for, when `fromtimestamp` accepts it. */
  function Timestamp(j: Json): Option<real>
  {
    match j
    case Number(n) => Some(n)
    case Bool(b) => Some(if b then 1.0 else 0.0)
    case _ => None
  }

  /** An element `x` from which `x[0]` as a timestamp and `x[1]` can both be taken. */
  predicate IsPair(x: Json)
  {
    x.Array? && |x.items| >= 2 && Timestamp(x.items[0]).Some?
  }

  function ToSample(x: Json): Sample
    requires IsPair(x)
  {
    (Timestamp(x.items[0]).value, x.items[1])
  }

  /**
   * What `for x in m` visits: the items of an array, the one-character
   * strings of a string, the keys of an object; None for a value that is
   * not iterable.
   */
  function Elements(m: Json): Option<seq<Json>>
  {
    match m
    case Array(items) => Some(items)
    case Str(s) => Some(seq(|s|, i requires 0 <= i < |s| => Str([s[i]])))
    case Object(entries) => Some(seq(|entries|, i requires 0 <= i < |entries| => Str(entries[i].0)))
    case _ => None
  }

  /** The samples of elements that are all pairs, in order. */
  function Samples(xs: seq<Json>): (r: seq<Sample>)
    requires forall i :: 0 <= i < |xs| ==> IsPair(xs[i])
    ensures |r| == |xs|
    ensures forall i :: 0 <= i < |xs| ==> r[i] == ToSample(xs[i])
    decreases |xs|
  {
    if xs == [] then []
    else Samples(xs[..|xs| - 1]) + [ToSample(xs[|xs| - 1])]
  }

  /** The samples one payload contributes, or why it aborts the run. */
  function Batch(m: Json): (r: Result<seq<Sample>, Fault>)
    ensures m.Null? || m.Bool? || m.Number? ==> r == Err(NotIterable)
    ensures m.Array? ==> (r.Ok? <==> forall i :: 0 <= i < |m.items| ==> IsPair(m.items[i]))
    ensures m.Array? && r.Ok? ==> |r.value| == |m.items|
    ensures m.Array? && r.Ok? ==>
      forall i :: 0 <= i < |m.items| ==> r.value[i] == (Timestamp(m.items[i].items[0]).value, m.items[i].items[1])
  {
    match Elements(m)
    case None => Err(NotIterable)
    case Some(xs) =>
      if forall i :: 0 <= i < |xs| ==> IsPair(xs[i]) then Ok(Samples(xs)) else Err(BadElement)
  }

  /** Iterating a string or an object yields strings, which are never pairs. */
  lemma BatchOfTextOrObject(m: Json)
    requires m.Str? || m.Object?
    ensures Batch(m) == if Elements(m).value == [] then Ok([]) else Err(BadElement)
    ensures m.Str? ==> (Batch(m).Ok? <==> m.s == "")
    ensures m.Object? ==> (Batch(m).Ok? <==> m.entries == [])
  {
    var xs := Elements(m).value;
    if xs != [] {
      assert !IsPair(xs[0]);
      assert Batch(m) == Err(BadElement);
    } else {
      assert Batch(m) == Ok([]);
    }
  }

  /** What the extraction loop does with one event. */
  datatype Reaction = Ignore | Finish | Append(batch: seq<Sample>) | Abort(fault: Fault)

  /**
   * One event: its data is decoded first; an error event is then skipped,
   * `"done"` ends the loop, `"started"` is skipped and any other payload
   * contributes its batch.
   */
  function React(e: Event, parse: string -> Option<Json>): (r: Reaction)
    ensures parse(e.data).None? ==> r == Abort(MalformedJson)
    ensures parse(e.data).Some? && e.event == "error" ==> r == Ignore
    ensures parse(e.data) == Some(Str("started")) ==> r == Ignore
    ensures r == Finish <==> parse(e.data) == Some(Str("done")) && e.event != "error"
    ensures r.Append? ==> parse(e.data).Some? && Batch(parse(e.data).value) == Ok(r.batch)
    // any other payload of a non-error event is collected, or aborts the run with its fault
    ensures parse(e.data).Some? && e.event != "error" &&
            parse(e.data).value != Str("done") && parse(e.data).value != Str("started") ==>
      r == match Batch(parse(e.data).value) case Ok(b) => Append(b) case Err(f) => Abort(f)
  {
    match parse(e.data)
    case None => Abort(MalformedJson)
    case Some(m) =>
      if e.event == "error" then Ignore
      else if m == Str("done") then Finish
      else if m == Str("started") then Ignore
      else match Batch(m)
        case Ok(b) => Append(b)
        case Err(f) => Abort(f)
  }

  /** The result of the extraction loop over `events`, with `acc` collected so far. */
  function Extract(events: seq<Event>, parse: string -> Option<Json>, acc: seq<Sample>): Result<seq<Sample>, Fault>
    decreases |events|
  {
    if events == [] then Ok(acc)
    else match React(events[0], parse)
      case Ignore => Extract(events[1..], parse, acc)
      case Finish => Ok(acc)
      case Append(b) => Extract(events[1..], parse, acc + b)
      case Abort(f) => Err(f)
  }

  predicate Halts(r: Reaction)
  {
    r.Finish? || r.Abort?
  }

  /** The index of the first event that ends the loop, or |events| if none does. */
  function Halt(events: seq<Event>, parse: string -> Option<Json>): (k: nat)
    ensures k <= |events|
    ensures forall i :: 0 <= i < k ==> !Halts(React(events[i], parse))
    ensures k < |events| ==> Halts(React(events[k], parse))
    decreases |events|
  {
    if events == [] || Halts(React(events[0], parse)) then 0
    else
      var k := Halt(events[1..], parse);
      assert forall i :: 1 <= i < k + 1 ==> events[i] == events[1..][i - 1];
      k + 1
  }

  function Contribution(e: Event, parse: string -> Option<Json>): seq<Sample>
  {
    match React(e, parse)
    case Append(b) => b
    case _ => []
  }

  /** The batches of the events, concatenated in arrival order. */
  function Gathered(events: seq<Event>, parse: string -> Option<Json>): seq<Sample>
    decreases |events|
  {
    if events == [] then [] else Contribution(events[0], parse) + Gathered(events[1..], parse)
  }

  /**
   * Extraction, declaratively: the loop ends at the first `"done"` or
   * failure; a failure is the result, and otherwise the result is what was
   * collected before followed by the batches of every earlier event, in
   * arrival order. A stream that ends without `"done"` gives that too.
   */
  lemma {:induction false} ExtractSpec(events: seq<Event>, parse: string -> Option<Json>, acc: seq<Sample>)
    ensures var k := Halt(events, parse);
      Extract(events, parse, acc) ==
        if k < |events| && React(events[k], parse).Abort? then Err(React(events[k], parse).fault)
        else Ok(acc + Gathered(events[..k], parse))
    decreases |events|
  {
    var k := Halt(events, parse);
    if events == [] || Halts(React(events[0], parse)) {
      assert k == 0;
      var none: seq<Event> := [];
      assert events[..0] == none;
      assert Gathered(none, parse) == [];
      assert acc + Gathered(events[..k], parse) == acc;
    } else {
      var rest := events[1..];
      var acc' := acc + Contribution(events[0], parse);
      ExtractStep(events, parse, acc);
      ExtractSpec(rest, parse, acc');
      GatheredStep(events, parse, acc, k);
      if k < |events| {
        assert events[k] == rest[k - 1];
      }
    }
  }

  /** An event that does not end the loop passes its contribution on. */
  lemma ExtractStep(events: seq<Event>, parse: string -> Option<Json>, acc: seq<Sample>)
    requires events != [] && !Halts(React(events[0], parse))
    ensures Extract(events, parse, acc) == Extract(events[1..], parse, acc + Contribution(events[0], parse))
  {
    if React(events[0], parse).Ignore? {
      assert acc + [] == acc;
    }
  }

  lemma GatheredStep(events: seq<Event>, parse: string -> Option<Json>, acc: seq<Sample>, k: nat)
    requires 0 < k <= |events|
    ensures acc + Gathered(events[..k], parse) == (acc + Contribution(events[0], parse)) + Gathered(events[1..][..k - 1], parse)
  {
    assert events[..k][0] == events[0] && events[..k][1..] == events[1..][..k - 1];
    AppendAssoc(acc, Contribution(events[0], parse), Gathered(events[1..][..k - 1], parse));
  }

  /** One turn of the extraction loop, at position i. */
  lemma ExtractUnfold(events: seq<Event>, i: nat, parse: string -> Option<Json>, acc: seq<Sample>)
    requires i < |events|
    ensures React(events[i], parse).Ignore? ==> Extract(events[i..], parse, acc) == Extract(events[i + 1..], parse, acc)
    ensures React(events[i], parse).Finish? ==> Extract(events[i..], parse, acc) == Ok(acc)
    ensures React(events[i], parse).Append? ==>
      Extract(events[i..], parse, acc) == Extract(events[i + 1..], parse, acc + React(events[i], parse).batch)
    ensures React(events[i], parse).Abort? ==> Extract(events[i..], parse, acc) == Err(React(events[i], parse).fault)
  {
    assert events[i..][0] == events[i] && events[i..][1..] == events[i + 1..];
  }

  /** What was collected before is kept in front of the result. */
  lemma {:induction false} ExtractKeepsPrefix(events: seq<Event>, parse: string -> Option<Json>, acc: seq<Sample>)
    ensures Extract(events, parse, acc).Ok? <==> Extract(events, parse, []).Ok?
    ensures Extract(events, parse, acc).Ok? ==>
      Extract(events, parse, acc).value == acc + Extract(events, parse, []).value
  {
    var k := Halt(events, parse);
    var aborts := k < |events| && React(events[k], parse).Abort?;
    ExtractSpec(events, parse, acc);
    ExtractSpec(events, parse, []);
    KeepsPrefix(Extract(events, parse, acc), Extract(events, parse, []), acc, Gathered(events[..k], parse),
                aborts, if aborts then React(events[k], parse).fault else MalformedJson);
  }

  lemma KeepsPrefix(r: Result<seq<Sample>, Fault>, r0: Result<seq<Sample>, Fault>, acc: seq<Sample>, g: seq<Sample>,
                    aborts: bool, f: Fault)
    requires r == if aborts then Err(f) else Ok(acc + g)
    requires r0 == if aborts then Err(f) else Ok([] + g)
    ensures (r.Ok? <==> r0.Ok?) && (r.Ok? ==> r.value == acc + r0.value)
  {
    assert [] + g == g;
  }

  /** Once `"done"` arrives nothing after it is looked at. */
  lemma {:induction false} ExtractStopsAtDone(before: seq<Event>, done: Event, after: seq<Event>, other: seq<Event>,
                                            parse: string -> Option<Json>, acc: seq<Sample>)
    requires React(done, parse) == Finish
    ensures Extract(before + [done] + after, parse, acc) == Extract(before + [done] + other, parse, acc)
    decreases |before|
  {
    if before == [] {
      assert ([done] + after)[0] == done && ([done] + other)[0] == done;
    } else {
      assert (before + [done] + after)[1..] == before[1..] + [done] + after;
      assert (before + [done] + other)[1..] == before[1..] + [done] + other;
      assert (before + [done] + after)[0] == before[0] && (before + [done] + other)[0] == before[0];
      match React(before[0], parse)
      case Ignore => ExtractStopsAtDone(before[1..], done, after, other, parse, acc);
      case Finish =>
      case Append(b) => ExtractStopsAtDone(before[1..], done, after, other, parse, acc + b);
      case Abort(f) =>
    }
  }

  /** `"started"`, a sample array, `"done"`: the samples of the array. */
  lemma StartedPairsDone(parse: string -> Option<Json>, started: string, pairs: string, done: string)
    requires parse(started) == Some(Str("started"))
    requires parse(pairs) == Some(Array([Array([Number(1577836800.0), Number(10.0)]),
                                         Array([Number(1577923200.0), Number(12.0)])]))
    requires parse(done) == Some(Str("done"))
    ensures Extract([Event(None, "message", started, None), Event(None, "message", pairs, None),
                     Event(None, "message", done, None)], parse, []) ==
      Ok([(1577836800.0, Number(10.0)), (1577923200.0, Number(12.0))])
  {
    var events := [Event(None, "message", started, None), Event(None, "message", pairs, None),
                   Event(None, "message", done, None)];
    var m := parse(pairs).value;
    assert IsPair(m.items[0]) && IsPair(m.items[1]);
    var b := Batch(m).value;
    assert b == [(1577836800.0, Number(10.0)), (1577923200.0, Number(12.0))];
    assert React(events[0], parse) == Ignore;
    assert React(events[1], parse) == Append(b);
    assert React(events[2], parse) == Finish;
    assert events[0..] == events;
    ExtractUnfold(events, 0, parse, []);
    ExtractUnfold(events, 1, parse, []);
    ExtractUnfold(events, 2, parse, [] + b);
    assert [] + b == b;
  }

  /** An error event in between does not end extraction; a later `"done"` does. */
  lemma ErrorThenDone(parse: string -> Option<Json>, report: string, done: string, acc: seq<Sample>)
    requires parse(report).Some?
    requires parse(done) == Some(Str("done"))
    ensures Extract([Event(None, "error", report, None), Event(None, "message", done, None)], parse, acc) == Ok(acc)
  {
    var events := [Event(None, "error", report, None), Event(None, "message", done, None)];
    assert events[1..] == [events[1]];
  }

  // ---------------------------------------------------------------------
  // Stations, cache keys, the reading table
  // ---------------------------------------------------------------------

  /** The query string of a historic download: station, feed, specie and start date. */
  datatype Query = Historic(station: string, feed: string, specie: string, from: string)

  /** Historic downloads start at this date. */
  const Since: string := "2020-01-01"

  /** A cache record: the samples, when they were fetched, the record format version. */
  datatype Record = Record(samples: seq<Sample>, fetched: real, version: int)

  /** timestamp -> (specie -> value) */
  type Readings = map<real, map<string, Json>>

  /** A station of the listing: its feed, its identifier within it, its species (None: none active). */
  datatype Station = Station(feed: string, station: string, species: Option<seq<string>>)
  {
    /** `feed:station`. */
    function Id(): (id: string)
      ensures |id| == |feed| + 1 + |station|
      ensures id[..|feed|] == feed && id[|feed|] == ':' && id[|feed| + 1..] == station
    {
      feed + ":" + station
    }
  }

  /** Stations of feeds without `:` have distinct identifiers. */
  lemma IdInjective(a: Station, b: Station)
    requires ':' !in a.feed && ':' !in b.feed
    requires a.Id() == b.Id()
    ensures a.feed == b.feed && a.station == b.station
  {
  }

  /** The cache key of a station's specie. */
  function CacheKey(st: Station, specie: string): (key: string)
    ensures key == st.Id() + ":" + specie
  {
    st.feed + ":" + st.station + ":" + specie
  }

  /** Distinct species of one station have distinct cache keys. */
  lemma CacheKeyInjective(st: Station, a: string, b: string)
    requires CacheKey(st, a) == CacheKey(st, b)
    ensures a == b
  {
    var n := |st.Id()| + 1;
    assert a == CacheKey(st, a)[n..];
    assert b == CacheKey(st, b)[n..];
  }

  function HistoricQuery(st: Station, specie: string): Query
  {
    Historic(st.station, st.feed, specie, Since)
  }

  /** The value of specie at t in the table, None where the table has none. */
  function Cell(r: Readings, t: real, specie: string): Option<Json>
  {
    if t in r && specie in r[t] then Some(r[t][specie]) else None
  }

  /** Record sample x of specie in the table. */
  function Put(r: Readings, specie: string, x: Sample): Readings
  {
    r[x.0 := (if x.0 in r then r[x.0] else map[])[specie := x.1]]
  }

  /** The table after recording the samples of specie one after the other. */
  function Merge(r: Readings, specie: string, samples: seq<Sample>): Readings
    decreases |samples|
  {
    if samples == [] then r
    else Put(Merge(r, specie, samples[..|samples| - 1]), specie, samples[|samples| - 1])
  }

  /** The value of the last sample at time t. */
  function LastAt(samples: seq<Sample>, t: real): Option<Json>
    decreases |samples|
  {
    if samples == [] then None
    else if samples[|samples| - 1].0 == t then Some(samples[|samples| - 1].1)
    else LastAt(samples[..|samples| - 1], t)
  }

  /**
   * Merging: the table gains a row for every sample time; the cell of specie
   * at t holds the last sample at t; every other cell is as it was.
   */
  lemma {:induction false} MergeSpec(r: Readings, specie: string, samples: seq<Sample>)
    ensures forall t :: t in Merge(r, specie, samples) <==> t in r || LastAt(samples, t).Some?
    ensures forall t, o ::
      Cell(Merge(r, specie, samples), t, o) == if o == specie && LastAt(samples, t).Some? then LastAt(samples, t) else Cell(r, t, o)
    decreases |samples|
  {
    if samples != [] {
      var front := samples[..|samples| - 1];
      var x := samples[|samples| - 1];
      MergeSpec(r, specie, front);
      var m := Merge(r, specie, front);
      assert Merge(r, specie, samples) == Put(m, specie, x);
      forall t, o
        ensures Cell(Put(m, specie, x), t, o) ==
          if o == specie && LastAt(samples, t).Some? then LastAt(samples, t) else Cell(r, t, o)
      {
        assert Cell(Put(m, specie, x), t, o) ==
          if t == x.0 && o == specie then Some(x.1) else Cell(m, t, o);
      }
    }
  }

  // ---------------------------------------------------------------------
  // The download walk (Station.download) and the table (StationReadings.csv)
  // ---------------------------------------------------------------------

  /** The samples the server's response to q yields, its body read line by line. */
  function Fetched(server: Query -> seq<byte>, parse: string -> Option<Json>, q: Query): Result<seq<Sample>, Fault>
  {
    Extract(EventsOf(Frames(ResponseChunks(server(q)))), parse, [])
  }

  /** Where a walk over species ends: the cache, the queries sent so far, the table or the failure. */
  datatype Trace = Trace(db: map<string, Record>, log: seq<Query>, outcome: Result<Readings, Fault>)

  /**
   * The species loop of a download: each specie's samples come from the
   * cache on a hit, from the server on a miss (then stored with `now` and
   * version 1), and are merged into the table; a failed fetch ends the walk.
   */
  function Walk(db: map<string, Record>, st: Station, species: seq<string>, readings: Readings, log: seq<Query>,
                now: real, fetch: Query -> Result<seq<Sample>, Fault>): Trace
    decreases |species|
  {
    if species == [] then Trace(db, log, Ok(readings))
    else
      var key := CacheKey(st, species[0]);
      if key in db then
        Walk(db, st, species[1..], Merge(readings, species[0], db[key].samples), log, now, fetch)
      else
        var q := HistoricQuery(st, species[0]);
        match fetch(q)
        case Err(f) => Trace(db, log + [q], Err(f))
        case Ok(samples) =>
          Walk(db[key := Record(samples, now, 1)], st, species[1..], Merge(readings, species[0], samples),
               log + [q], now, fetch)
  }

  /** One turn of the species loop, at position i. */
  lemma WalkUnfold(db: map<string, Record>, st: Station, species: seq<string>, i: nat, readings: Readings,
                   log: seq<Query>, now: real, fetch: Query -> Result<seq<Sample>, Fault>)
    requires i < |species|
    ensures var key := CacheKey(st, species[i]);
      key in db ==>
        Walk(db, st, species[i..], readings, log, now, fetch) ==
        Walk(db, st, species[i + 1..], Merge(readings, species[i], db[key].samples), log, now, fetch)
    ensures var key := CacheKey(st, species[i]);
      var q := HistoricQuery(st, species[i]);
      key !in db && fetch(q).Err? ==>
        Walk(db, st, species[i..], readings, log, now, fetch) ==
        Trace(db, log + [q], Err(fetch(q).error))
    ensures var key := CacheKey(st, species[i]);
      var q := HistoricQuery(st, species[i]);
      key !in db && fetch(q).Ok? ==>
        var samples := fetch(q).value;
        Walk(db, st, species[i..], readings, log, now, fetch) ==
        Walk(db[key := Record(samples, now, 1)], st, species[i + 1..], Merge(readings, species[i], samples),
             log + [q], now, fetch)
  {
    assert species[i..][0] == species[i] && species[i..][1..] == species[i + 1..];
  }

  /**
   * The cache after a walk: a record that was there is never rewritten;
   * every new record is the key of one of the species, holds exactly the
   * samples fetched for it, `now` and version 1; no other key appears.
   */
  lemma {:induction false} WalkCache(db: map<string, Record>, st: Station, species: seq<string>, readings: Readings,
                                     log: seq<Query>, now: real, fetch: Query -> Result<seq<Sample>, Fault>)
    ensures var w := Walk(db, st, species, readings, log, now, fetch);
      forall k :: k in db ==> k in w.db && w.db[k] == db[k]
    ensures var w := Walk(db, st, species, readings, log, now, fetch);
      forall k :: k in w.db && k !in db ==>
        exists sp :: sp in species && k == CacheKey(st, sp) &&
          w.db[k] == Record(w.db[k].samples, now, 1) &&
          fetch(HistoricQuery(st, sp)) == Ok(w.db[k].samples)
    decreases |species|
  {
    if species != [] {
      var key := CacheKey(st, species[0]);
      var rest := species[1..];
      assert forall sp :: sp in rest ==> sp in species;
      if key in db {
        WalkCache(db, st, rest, Merge(readings, species[0], db[key].samples), log, now, fetch);
      } else {
        var q := HistoricQuery(st, species[0]);
        match fetch(q)
        case Err(f) =>
        case Ok(samples) =>
          var db' := db[key := Record(samples, now, 1)];
          WalkCache(db', st, rest, Merge(readings, species[0], samples), log + [q], now, fetch);
          var w := Walk(db', st, rest, Merge(readings, species[0], samples), log + [q], now, fetch);
          assert w.db[key] == Record(samples, now, 1);
      }
    }
  }

  /**
   * The queries for the species whose keys are missing, in listing order,
   * where `cached` holds the keys present so far: a miss writes its key,
   * so a specie listed again after its miss is a hit.
   */
  function Misses(cached: set<string>, st: Station, species: seq<string>): seq<Query>
    decreases |species|
  {
    if species == [] then []
    else
      var key := CacheKey(st, species[0]);
      if key in cached then Misses(cached, st, species[1..])
      else [HistoricQuery(st, species[0])] + Misses(cached + {key}, st, species[1..])
  }

  /**
   * A walk sends one query per specie whose key is missing when its turn
   * comes and none for a cached one, in listing order: all of them when it
   * succeeds, the ones up to the failing fetch when it fails.
   */
  lemma {:induction false} WalkQueries(db: map<string, Record>, st: Station, species: seq<string>, readings: Readings,
                                       log: seq<Query>, now: real, fetch: Query -> Result<seq<Sample>, Fault>)
    ensures var w := Walk(db, st, species, readings, log, now, fetch);
      var misses := Misses(db.Keys, st, species);
      |log| <= |w.log| <= |log| + |misses| && w.log == log + misses[..|w.log| - |log|] &&
      (w.outcome.Ok? ==> w.log == log + misses)
    decreases |species|
  {
    var w := Walk(db, st, species, readings, log, now, fetch);
    var misses := Misses(db.Keys, st, species);
    if species == [] {
      assert w.log == log + misses[..0];
    } else {
      var key := CacheKey(st, species[0]);
      var rest := species[1..];
      if key in db {
        WalkQueries(db, st, rest, Merge(readings, species[0], db[key].samples), log, now, fetch);
        assert misses == Misses(db.Keys, st, rest);
      } else {
        var q := HistoricQuery(st, species[0]);
        var later := Misses(db.Keys + {key}, st, rest);
        assert misses == [q] + later;
        if fetch(q).Err? {
          assert w == Trace(db, log + [q], Err(fetch(q).error));
          assert w.log == log + misses[..1] && !w.outcome.Ok?;
        } else {
          var samples := fetch(q).value;
          var db' := db[key := Record(samples, now, 1)];
          assert db'.Keys == db.Keys + {key};
          WalkQueries(db', st, rest, Merge(readings, species[0], samples), log + [q], now, fetch);
          var w' := Walk(db', st, rest, Merge(readings, species[0], samples), log + [q], now, fetch);
          assert w == w';
          var n := |w'.log| - |log + [q]|;
          assert misses[..n + 1] == [q] + later[..n];
          AppendAssoc(log, [q], later[..n]);
          assert w.log == log + misses[..n + 1];
          if w.outcome.Ok? {
            AppendAssoc(log, [q], later);
          }
        }
      }
    }
  }

  /** A walk over cached species only reads the cache: no query, no write, no failure. */
  lemma {:induction false} WalkAllCached(db: map<string, Record>, st: Station, species: seq<string>, readings: Readings,
                                         log: seq<Query>, now: real, fetch: Query -> Result<seq<Sample>, Fault>)
    requires forall i :: 0 <= i < |species| ==> CacheKey(st, species[i]) in db
    ensures var w := Walk(db, st, species, readings, log, now, fetch);
      w.db == db && w.log == log && w.outcome.Ok?
    decreases |species|
  {
    if species != [] {
      var key := CacheKey(st, species[0]);
      WalkAllCached(db, st, species[1..], Merge(readings, species[0], db[key].samples), log, now, fetch);
    }
  }

  /**
   * The table a successful walk builds: the cell of a listed specie at t is
   * the last sample at t among the samples its cache record holds after the
   * walk (where it has one); every other cell is as it was.
   */
  lemma {:induction false} WalkReadings(db: map<string, Record>, st: Station, species: seq<string>, readings: Readings,
                                        log: seq<Query>, now: real, fetch: Query -> Result<seq<Sample>, Fault>)
    ensures var w := Walk(db, st, species, readings, log, now, fetch);
      w.outcome.Ok? ==>
        (forall sp :: sp in species ==> CacheKey(st, sp) in w.db) &&
        forall t, o :: Cell(w.outcome.value, t, o) ==
          if o in species && LastAt(w.db[CacheKey(st, o)].samples, t).Some?
          then LastAt(w.db[CacheKey(st, o)].samples, t)
          else Cell(readings, t, o)
    decreases |species|
  {
    var w := Walk(db, st, species, readings, log, now, fetch);
    if species != [] && w.outcome.Ok? {
      var sp := species[0];
      var key := CacheKey(st, sp);
      var rest := species[1..];
      assert forall o :: o in species <==> o == sp || o in rest;
      var db', samples, log' := db, if key in db then db[key].samples else [], log;
      if key !in db {
        var q := HistoricQuery(st, sp);
        samples := fetch(q).value;
        db', log' := db[key := Record(samples, now, 1)], log + [q];
      }
      assert key in db' && db'[key].samples == samples;
      var merged := Merge(readings, sp, samples);
      assert w == Walk(db', st, rest, merged, log', now, fetch);
      WalkReadings(db', st, rest, merged, log', now, fetch);
      WalkCache(db', st, rest, merged, log', now, fetch);
      MergeSpec(readings, sp, samples);
      assert w.db[key] == db'[key];
    }
  }

  // ---------------------------------------------------------------------
  // The store and its operations
  // ---------------------------------------------------------------------

  /** The readings of the species of one station. */
  datatype StationReadings = StationReadings(species: seq<string>, readings: Readings)

  /** One table row: the timestamp and one cell per specie. */
  datatype Row = Row(time: real, cells: seq<Option<Json>>)

  /** The table `csv` writes: its header and its rows, before rendering. */
  datatype Table = Table(header: seq<string>, rows: seq<Row>)

  /** The row of t: one cell per specie, in listing order, None where t has no value for it. */
  function RowAt(readings: Readings, species: seq<string>, t: real): (row: Row)
    requires t in readings
    ensures row.time == t && |row.cells| == |species|
    ensures forall j :: 0 <= j < |species| ==> row.cells[j] == Cell(readings, t, species[j])
  {
    Row(t, seq(|species|, j requires 0 <= j < |species| =>
      if species[j] in readings[t] then Some(readings[t][species[j]]) else None))
  }

  /** What a download returns. */
  datatype Downloaded = NoMeasurement | Failed(fault: Fault) | Done(result: StationReadings)

  /**
   * The inner loop of `fetchSSE`: append the sample of every element of the
   * payload to `samples`, or fail at the first element that is no pair.
   */
  method Collect(m: Json, samples: seq<Sample>) returns (r: Result<seq<Sample>, Fault>)
    ensures Batch(m).Ok? ==> r == Ok(samples + Batch(m).value)
    ensures Batch(m).Err? ==> r == Err(Batch(m).error)
  {
    var xs := Elements(m);
    if xs.None? {
      return Err(NotIterable);
    }
    var collected := samples;
    for j := 0 to |xs.value|
      invariant forall k :: 0 <= k < j ==> IsPair(xs.value[k])
      invariant collected == samples + Samples(xs.value[..j])
    {
      var x := xs.value[j];
      if !IsPair(x) {
        return Err(BadElement);
      }
      assert xs.value[..j + 1][..j] == xs.value[..j];
      collected := collected + [ToSample(x)];
    }
    assert xs.value[..|xs.value|] == xs.value;
    return Ok(collected);
  }

  /** The merge loop of `download`: record each sample of specie in the table, in order. */
  method MergeSamples(readings: Readings, specie: string, samples: seq<Sample>) returns (merged: Readings)
    ensures merged == Merge(readings, specie, samples)
  {
    merged := readings;
    for j := 0 to |samples|
      invariant merged == Merge(readings, specie, samples[..j])
    {
      assert samples[..j + 1][..j] == samples[..j] && samples[..j + 1][j] == samples[j];
      var t := samples[j].0;
      // a new timestamp starts an empty row
      var row := if t in merged then merged[t] else map[];
      merged := merged[t := row[specie := samples[j].1]];
    }
    assert samples[..|samples|] == samples;
  }

  /**
   * The store: its key-value cache (the dbm file), the historic queries
   * sent so far, the server and the JSON decoder.
   */
  class Store {
    var db: map<string, Record>
    var requests: seq<Query>
    const server: Query -> seq<byte>
    const parse: string -> Option<Json>

    constructor(cache: map<string, Record>, server: Query -> seq<byte>, parse: string -> Option<Json>)
      ensures db == cache && requests == []
      ensures this.server == server && this.parse == parse
    {
      db := cache;
      requests := [];
      this.server := server;
      this.parse := parse;
    }

    /**
     * One turn of the extraction loop: decode the data, then report and skip
     * an error event, stop at `"done"`, skip `"started"` or collect the batch.
     */
    method Absorb(e: Event, samples: seq<Sample>) returns (stop: bool, r: Result<seq<Sample>, Fault>)
      ensures React(e, parse).Ignore? ==> !stop && r == Ok(samples)
      ensures React(e, parse).Finish? ==> stop && r == Ok(samples)
      ensures React(e, parse).Append? ==> !stop && r == Ok(samples + React(e, parse).batch)
      ensures React(e, parse).Abort? ==> r == Err(React(e, parse).fault)
    {
      var m := parse(e.data);
      if m.None? {
        return false, Err(MalformedJson);
      }
      if e.event == "error" {
        // reported and skipped
        return false, Ok(samples);
      } else if m.value == Str("done") {
        return true, Ok(samples);
      } else if m.value == Str("started") {
        return false, Ok(samples);
      }
      r := Collect(m.value, samples);
      stop := false;
    }

    /**
     * `fetchSSE`: send q, then fold the events of the response into
     * samples until `"done"`, a failure or the end of the stream.
     */
    method FetchSSE(q: Query) returns (r: Result<seq<Sample>, Fault>)
      modifies this`requests
      ensures requests == old(requests) + [q]
      ensures r == Fetched(server, parse, q)
    {
      requests := requests + [q];
      var events := Events(ResponseChunks(server(q)));
      ghost var goal := Extract(events, parse, []);
      var samples: seq<Sample> := [];
      var i := 0;
      while i < |events|
        invariant 0 <= i <= |events|
        invariant Extract(events[i..], parse, samples) == goal
        invariant requests == old(requests) + [q]
      {
        ExtractUnfold(events, i, parse, samples);
        var stop, got := Absorb(events[i], samples);
        if got.Err? {
          return got;
        }
        if stop {
          break;
        }
        samples := got.value;
        i := i + 1;
      }
      return Ok(samples);
    }

    /**
     * `Station.download`: nothing for a station without species; otherwise
     * the walk over its species, in listing order, on the cache and the
     * server, with `now` as the fetch time of every new record.
     */
    method Download(st: Station, now: real) returns (r: Downloaded)
      modifies this`db, this`requests
      ensures st.species.None? ==> r == NoMeasurement && db == old(db) && requests == old(requests)
      ensures st.species.Some? ==>
        var w := Walk(old(db), st, st.species.value, map[], old(requests), now, q => Fetched(server, parse, q));
        db == w.db && requests == w.log &&
        r == match w.outcome case Ok(readings) => Done(StationReadings(st.species.value, readings))
                             case Err(f) => Failed(f)
    {
      if st.species.None? {
        return NoMeasurement;
      }
      var species := st.species.value;
      var readings: Readings := map[];
      ghost var fetch := q => Fetched(server, parse, q);
      ghost var goal := Walk(db, st, species, map[], requests, now, fetch);
      for i := 0 to |species|
        invariant goal == Walk(db, st, species[i..], readings, requests, now, fetch)
      {
        var specie := species[i];
        WalkUnfold(db, st, species, i, readings, requests, now, fetch);
        var key := CacheKey(st, specie);
        var samples: seq<Sample>;
        if key in db {
          samples := db[key].samples;
        } else {
          var got := FetchSSE(HistoricQuery(st, specie));
          if got.Err? {
            return Failed(got.error);
          }
          samples := got.value;
          db := db[key := Record(samples, now, 1)];
        }
        readings := MergeSamples(readings, specie, samples);
      }
      return Done(StationReadings(species, readings));
    }
  }

  /** Every time in the set is at least m. */
  predicate IsMin(s: set<real>, m: real)
  {
    m in s && forall x :: x in s ==> m <= x
  }

  lemma {:induction false} MinExists(s: set<real>)
    requires s != {}
    ensures exists m :: IsMin(s, m)
    decreases |s|
  {
    if forall y :: y !in s {
      assert false;
    }
    var x :| x in s;
    var rest := s - {x};
    if rest != {} {
      MinExists(rest);
      var m :| IsMin(rest, m);
      assert forall y :: y in s ==> y == x || y in rest;
      if x < m {
        assert IsMin(s, x);
      } else {
        assert IsMin(s, m);
      }
    } else {
      forall y | y in s
        ensures x <= y
      {
        if y != x {
          assert false;
        }
      }
      assert IsMin(s, x);
    }
  }

  /** `sorted(keys)`: the times of the set in strictly ascending order. */
  method SortedTimes(s: set<real>) returns (ts: seq<real>)
    ensures |ts| == |s|
    ensures forall i, j :: 0 <= i < j < |ts| ==> ts[i] < ts[j]
    ensures forall t :: t in s <==> t in ts
  {
    ts := [];
    var rest := s;
    while rest != {}
      invariant rest <= s
      invariant |ts| + |rest| == |s|
      invariant forall i, j :: 0 <= i < j < |ts| ==> ts[i] < ts[j]
      invariant forall i, t :: 0 <= i < |ts| && t in rest ==> ts[i] < t
      invariant forall t :: t in s <==> t in ts || t in rest
      decreases |rest|
    {
      MinExists(rest);
      var m :| IsMin(rest, m);
      ts := ts + [m];
      rest := rest - {m};
    }
  }

  /**
   * `StationReadings.csv`: the header `time` followed by the species, then
   * one row per distinct timestamp, in ascending order, with one cell per
   * specie (None where that specie has no value then).
   */
  method Csv(sr: StationReadings) returns (table: Table)
    ensures table.header == ["time"] + sr.species
    ensures |table.rows| == |sr.readings|
    ensures forall i, j :: 0 <= i < j < |table.rows| ==> table.rows[i].time < table.rows[j].time
    ensures forall t :: t in sr.readings <==> exists i :: 0 <= i < |table.rows| && table.rows[i].time == t
    ensures forall i :: 0 <= i < |table.rows| ==> |table.rows[i].cells| == |sr.species|
    ensures forall i, j :: 0 <= i < |table.rows| && 0 <= j < |sr.species| ==>
      table.rows[i].cells[j] == Cell(sr.readings, table.rows[i].time, sr.species[j])
  {
    var times := SortedTimes(sr.readings.Keys);
    var rows: seq<Row> := [];
    for i := 0 to |times|
      invariant |rows| == i
      invariant forall k :: 0 <= k < i ==> rows[k].time == times[k]
      invariant forall k :: 0 <= k < i ==> |rows[k].cells| == |sr.species|
      invariant forall k, j :: 0 <= k < i && 0 <= j < |sr.species| ==>
        rows[k].cells[j] == Cell(sr.readings, times[k], sr.species[j])
    {
      rows := rows + [RowAt(sr.readings, sr.species, times[i])];
    }
    assert forall t :: t in sr.readings <==> exists i :: 0 <= i < |rows| && rows[i].time == t by {
      forall t | t in sr.readings
        ensures exists i :: 0 <= i < |rows| && rows[i].time == t
      {
        var i :| 0 <= i < |times| && times[i] == t;
        assert rows[i].time == t;
      }
    }
    return Table(["time"] + sr.species, rows);
  }
}
