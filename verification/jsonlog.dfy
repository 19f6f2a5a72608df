/**
 * The older server keeps its detection log and its event log as JSONL
 * files: one JSON object per line, appended to. This module models how it
 * reads the tail of either file, how it names records that carry no id,
 * and how it rewrites the detection log without one entry.
 *
 * A file is `Option<seq<string>>`, its lines already split; None stands for
 * a file that is missing or cannot be read. `decode` stands for
 * `json.loads`, `digest` for the hexadecimal SHA-1 of a text.
 */
module JsonLog {
  import opened PyValues
  import opened Records
  import Tallies

  // ---------------------------------------------------------------- ids

  /** `str(entry["id"])` when the record's id is truthy, else the first 12 hex digits of the digest of `base`. */
  function StableId(id: Option<string>, base: string, digest: string -> string): (r: string)
    ensures id.Some? && id.value != "" ==> r == id.value
    ensures (id.None? || id.value == "") ==> |r| <= 12 && |r| <= |digest(base)| && r == digest(base)[..|r|]
  {
    if id.Some? && id.value != "" then id.value
    else
      var h := digest(base);
      if |h| <= 12 then h else h[..12]
  }

  /** The text `entry_id` hashes: timestamp, species and confidence joined by '|'. */
  function EntryIdBase(e: Entry, repr: FloatRepr): string {
    FieldText(e.timestamp) + "|" + FieldText(e.species) + "|"
    + (if e.confidence.None? then "" else PyStr(e.confidence.value, repr))
  }

  /** `entry_id(entry)` */
  function EntryId(e: Entry, digest: string -> string, repr: FloatRepr): string {
    StableId(e.id, EntryIdBase(e, repr), digest)
  }

  /** `entry["id"] = entry_id(entry)` */
  function WithId(e: Entry, digest: string -> string, repr: FloatRepr): (r: Entry)
    ensures r.id == Some(EntryId(e, digest, repr))
    ensures r.(id := e.id) == e
  {
    e.(id := Some(EntryId(e, digest, repr)))
  }

  /**
   * Writing the id into an entry does not change it: the id a read
   * reports is the one a later read, or `delete_log_entry`, computes again.
   */
  lemma EntryIdStable(e: Entry, digest: string -> string, repr: FloatRepr)
    ensures EntryId(WithId(e, digest, repr), digest, repr) == EntryId(e, digest, repr)
  {
    assert EntryIdBase(WithId(e, digest, repr), repr) == EntryIdBase(e, repr);
  }

  /** Every entry with its id written in. */
  function WithIds(entries: seq<Entry>, digest: string -> string, repr: FloatRepr): (r: seq<Entry>)
    ensures |r| == |entries|
    ensures forall i :: 0 <= i < |r| ==> r[i] == WithId(entries[i], digest, repr)
  {
    seq(|entries|, i requires 0 <= i < |entries| => WithId(entries[i], digest, repr))
  }

  lemma WithIdsAppend(a: seq<Entry>, b: seq<Entry>, digest: string -> string, repr: FloatRepr)
    ensures WithIds(a + b, digest, repr) == WithIds(a, digest, repr) + WithIds(b, digest, repr)
  {
    var l := WithIds(a + b, digest, repr);
    var r := WithIds(a, digest, repr) + WithIds(b, digest, repr);
    assert |l| == |r|;
    forall i | 0 <= i < |l|
      ensures l[i] == r[i]
    {
      if i < |a| {
        assert (a + b)[i] == a[i];
      } else {
        assert (a + b)[i] == b[i - |a|];
      }
    }
  }

  // ---------------------------------------------------------------- tails of a file

  /** Python's `xs[start:]`, negative starts counting from the end. */
  function PySuffix<T>(xs: seq<T>, start: int): (r: seq<T>)
    ensures |r| <= |xs| && r == xs[|xs| - |r|..]
    ensures start < 0 ==> |r| == if -start <= |xs| then -start else |xs|
    ensures start >= 0 ==> |r| == if start <= |xs| then |xs| - start else 0
  {
    if start < 0 then (if -start <= |xs| then xs[|xs| + start..] else xs)
    else if start <= |xs| then xs[start..] else []
  }

  /** The parsed records of a tail of the file come after those of the lines before it. */
  lemma TailSplit<T>(lines: seq<string>, tail: seq<string>, decode: string -> Option<T>)
    requires |tail| <= |lines| && tail == lines[|lines| - |tail|..]
    ensures ParseLines(lines, decode) == ParseLines(lines[..|lines| - |tail|], decode) + ParseLines(tail, decode)
  {
    assert lines == lines[..|lines| - |tail|] + tail;
    ParseLinesAppend(lines[..|lines| - |tail|], tail, decode);
  }

  // ---------------------------------------------------------------- read_log

  /** What `read_log(limit)` returns; `limit` None reads the whole file. */
  function ReadLogOf(file: Option<seq<string>>, limit: Option<int>, decode: string -> Option<Entry>,
                     digest: string -> string, repr: FloatRepr): seq<Entry> {
    if file.None? then []
    else if limit.None? then WithIds(ParseLines(file.value, decode), digest, repr)
    else if limit.value <= 0 then []
    else WithIds(ParseLines(PySuffix(file.value, -limit.value), decode), digest, repr)
  }

  /** The loop of `read_log`: parse the kept lines, skip the rest, write each entry's id. */
  method ReadLines(lines: seq<string>, decode: string -> Option<Entry>, digest: string -> string, repr: FloatRepr)
    returns (output: seq<Entry>)
    ensures output == WithIds(ParseLines(lines, decode), digest, repr)
  {
    output := [];
    ghost var seen: seq<Entry> := [];
    var i := 0;
    while i < |lines|
      invariant 0 <= i <= |lines|
      invariant seen == ParseLines(lines[..i], decode)
      invariant output == WithIds(seen, digest, repr)
    {
      ParseLinesNext(lines, i, decode);
      ghost var next := ParseLines(lines[..i + 1], decode);
      var line := lines[i];
      var parsed := if IsBlank(line) then None else decode(line);
      if parsed.Some? {
        assert RecordOf(line, decode) == [parsed.value];
        assert seen + [parsed.value] == next;
        WithIdsAppend(seen, [parsed.value], digest, repr);
        output := output + [WithId(parsed.value, digest, repr)];
        seen := seen + [parsed.value];
      } else {
        assert RecordOf(line, decode) == [];
        assert seen == next;
      }
      i := i + 1;
    }
    assert lines[..i] == lines;
  }

  /** `read_log(limit)`: the entries among the file's last `limit` lines. */
  method ReadLog(file: Option<seq<string>>, limit: Option<int>, decode: string -> Option<Entry>,
                 digest: string -> string, repr: FloatRepr)
    returns (output: seq<Entry>)
    ensures output == ReadLogOf(file, limit, decode, digest, repr)
    ensures limit.Some? && limit.value <= 0 ==> output == []
    ensures limit.Some? ==> |output| <= limit.value || output == []
  {
    if file.None? {
      return [];
    }
    var lines := file.value;
    if limit.Some? {
      if limit.value <= 0 {
        return [];
      }
      lines := PySuffix(lines, -limit.value);
    }
    output := ReadLines(lines, decode, digest, repr);
  }

  /**
   * A limited read returns the last entries of the whole log, in file
   * order: the unlimited read ends with exactly what the limited one returns.
   */
  lemma ReadLogIsSuffix(file: Option<seq<string>>, limit: Option<int>, decode: string -> Option<Entry>,
                        digest: string -> string, repr: FloatRepr)
    ensures var all := ReadLogOf(file, None, decode, digest, repr);
      var part := ReadLogOf(file, limit, decode, digest, repr);
      |part| <= |all| && part == all[|all| - |part|..]
  {
    if file.Some? && limit.None? {
      var all := ReadLogOf(file, None, decode, digest, repr);
      assert all[0..] == all;
    } else if file.Some? && limit.value > 0 {
      ReadLogTail(file.value, limit.value, decode, digest, repr);
    }
  }

  /** A positive limit reads the last records of the file. */
  lemma ReadLogTail(lines: seq<string>, limit: int, decode: string -> Option<Entry>,
                    digest: string -> string, repr: FloatRepr)
    requires limit > 0
    ensures IsSuffix(ReadLogOf(Some(lines), Some(limit), decode, digest, repr), ReadLogOf(Some(lines), None, decode, digest, repr))
  {
    var tail := PySuffix(lines, -limit);
    var parsedTail := ParseLines(tail, decode);
    assert ReadLogOf(Some(lines), Some(limit), decode, digest, repr) == WithIds(parsedTail, digest, repr);
    ParsedTail(lines, tail, decode);
    WithIdsSuffix(ParseLines(lines, decode), parsedTail, digest, repr);
  }

  /** Writing the ids in keeps a suffix a suffix. */
  lemma WithIdsSuffix(entries: seq<Entry>, kept: seq<Entry>, digest: string -> string, repr: FloatRepr)
    requires IsSuffix(kept, entries)
    ensures IsSuffix(WithIds(kept, digest, repr), WithIds(entries, digest, repr))
  {
    var head := entries[..|entries| - |kept|];
    assert entries == head + kept;
    WithIdsAppend(head, kept, digest, repr);
    var w := WithIds(head, digest, repr);
    var part := WithIds(kept, digest, repr);
    assert (w + part)[|w|..] == part;
  }

  // ---------------------------------------------------------------- delete_log_entry

  /** Whether some entry's id is `key`. */
  predicate Matches(entries: seq<Entry>, key: string, digest: string -> string, repr: FloatRepr) {
    exists i :: 0 <= i < |entries| && EntryId(entries[i], digest, repr) == key
  }

  /** The entries whose id is not `key`, in their order. */
  function Without(entries: seq<Entry>, key: string, digest: string -> string, repr: FloatRepr): (r: seq<Entry>)
    ensures |r| <= |entries|
    decreases |entries|
  {
    if entries == [] then []
    else
      var last := entries[|entries| - 1];
      Without(entries[..|entries| - 1], key, digest, repr)
      + (if EntryId(last, digest, repr) == key then [] else [last])
  }

  /**
   * The file part of `delete_log_entry(key)`: `removed` is whether an entry
   * went, `rewritten` holds the entries of the file written back (None when
   * nothing is written).
   */
  method RewriteWithout(key: string, file: Option<seq<string>>, decode: string -> Option<Entry>,
                        digest: string -> string, repr: FloatRepr)
    returns (removed: bool, rewritten: Option<seq<Entry>>)
    ensures key == "" || file.None? ==> !removed && rewritten.None?
    ensures key != "" && file.Some? ==>
      var entries := ParseLines(file.value, decode);
      && rewritten == Some(Without(entries, key, digest, repr))
      && (removed <==> Matches(entries, key, digest, repr))
  {
    if key == "" || file.None? {
      return false, None;
    }
    var kept;
    removed, kept := KeepOthers(file.value, key, decode, digest, repr);
    rewritten := Some(kept);
  }

  /**
   * `delete_log_entry(key)`. After a removal the server rebuilds the species
   * set and counts from `read_log(None)` of the rewritten file, which gives
   * back the kept entries with their ids written in, and bumps the log
   * revision with the clock reading `nowMs`.
   */
  method DeleteLogEntry(state: Tallies.ServerState, key: string, file: Option<seq<string>>,
                        decode: string -> Option<Entry>, digest: string -> string, repr: FloatRepr, nowMs: int)
    returns (removed: bool, rewritten: Option<seq<Entry>>)
    modifies state
    ensures key == "" || file.None? ==> !removed && rewritten.None?
    ensures key != "" && file.Some? ==>
      var entries := ParseLines(file.value, decode);
      && rewritten == Some(Without(entries, key, digest, repr))
      && (removed <==> Matches(entries, key, digest, repr))
    ensures removed ==>
      var reread := WithIds(rewritten.value, digest, repr);
      && state.speciesSet == SpeciesNames(reread)
      && state.speciesCounts == Tallies.Tally(reread)
      && state.logRevision == Tallies.NextRevision(old(state.logRevision), nowMs)
    ensures !removed ==> unchanged(state)
  {
    removed, rewritten := RewriteWithout(key, file, decode, digest, repr);
    if removed {
      RefreshAfterDelete(state, rewritten.value, digest, repr, nowMs);
    }
  }

  /** What `delete_log_entry` does after a removal, with `kept` the entries written back. */
  method RefreshAfterDelete(state: Tallies.ServerState, kept: seq<Entry>, digest: string -> string,
                            repr: FloatRepr, nowMs: int)
    modifies state
    ensures var reread := WithIds(kept, digest, repr);
      && state.speciesSet == SpeciesNames(reread)
      && state.speciesCounts == Tallies.Tally(reread)
      && state.logRevision == Tallies.NextRevision(old(state.logRevision), nowMs)
  {
    var reread := WithIds(kept, digest, repr);
    state.RebuildSpeciesSet(reread);
    state.RebuildSpeciesCounts(reread);
    var _ := state.BumpLogRevision(nowMs);
  }

  /** The loop of `delete_log_entry`: keep the parseable entries whose id is not `key`. */
  method KeepOthers(lines: seq<string>, key: string, decode: string -> Option<Entry>,
                    digest: string -> string, repr: FloatRepr)
    returns (removed: bool, kept: seq<Entry>)
    ensures kept == Without(ParseLines(lines, decode), key, digest, repr)
    ensures removed <==> Matches(ParseLines(lines, decode), key, digest, repr)
  {
    removed := false;
    kept := [];
    ghost var seen: seq<Entry> := [];
    var i := 0;
    while i < |lines|
      invariant 0 <= i <= |lines|
      invariant seen == ParseLines(lines[..i], decode)
      invariant kept == Without(seen, key, digest, repr)
      invariant removed <==> Matches(seen, key, digest, repr)
    {
      ParseLinesNext(lines, i, decode);
      ghost var next := ParseLines(lines[..i + 1], decode);
      var line := lines[i];
      var parsed := if IsBlank(line) then None else decode(line);
      if parsed.Some? {
        var entry := parsed.value;
        var hit := EntryId(entry, digest, repr) == key;
        assert seen + [entry] == next by {
          assert RecordOf(line, decode) == [entry];
        }
        MatchesSnoc(seen, entry, key, digest, repr);
        WithoutSnoc(seen, entry, key, digest, repr);
        if hit {
          removed := true;
        } else {
          kept := kept + [entry];
        }
      } else {
        assert seen == next by {
          assert RecordOf(line, decode) == [];
        }
      }
      seen := next;
      i := i + 1;
    }
    assert lines[..i] == lines;
  }

  lemma WithoutSnoc(entries: seq<Entry>, e: Entry, key: string, digest: string -> string, repr: FloatRepr)
    ensures Without(entries + [e], key, digest, repr)
      == Without(entries, key, digest, repr) + (if EntryId(e, digest, repr) == key then [] else [e])
  {
    assert (entries + [e])[..|entries|] == entries;
  }

  lemma MatchesSnoc(entries: seq<Entry>, e: Entry, key: string, digest: string -> string, repr: FloatRepr)
    ensures Matches(entries + [e], key, digest, repr)
      <==> Matches(entries, key, digest, repr) || EntryId(e, digest, repr) == key
  {
    var all := entries + [e];
    if Matches(entries, key, digest, repr) {
      var i :| 0 <= i < |entries| && EntryId(entries[i], digest, repr) == key;
      assert all[i] == entries[i];
    }
    if EntryId(e, digest, repr) == key {
      assert all[|entries|] == e;
    }
    if Matches(all, key, digest, repr) {
      var i :| 0 <= i < |all| && EntryId(all[i], digest, repr) == key;
      if i < |entries| {
        assert all[i] == entries[i];
      }
    }
  }

  /**
   * The rewritten log keeps an entry exactly when its id is not the key, it
   * is shorter exactly when some entry matched, and what it keeps it keeps
   * in order: each kept entry is one of the originals, later ones later.
   */
  lemma {:induction false} WithoutSpec(entries: seq<Entry>, key: string, digest: string -> string, repr: FloatRepr)
    ensures var r := Without(entries, key, digest, repr);
      && (forall x :: x in r <==> x in entries && EntryId(x, digest, repr) != key)
      && (|r| == |entries| <==> !Matches(entries, key, digest, repr))
    decreases |entries|
  {
    if entries != [] {
      var init := entries[..|entries| - 1];
      var last := entries[|entries| - 1];
      assert entries == init + [last];
      WithoutSpec(init, key, digest, repr);
      MatchesSnoc(init, last, key, digest, repr);
    }
  }

  /** Deleting the same key twice removes nothing the second time. */
  lemma {:induction false} WithoutIdempotent(entries: seq<Entry>, key: string, digest: string -> string, repr: FloatRepr)
    ensures Without(Without(entries, key, digest, repr), key, digest, repr) == Without(entries, key, digest, repr)
    decreases |entries|
  {
    if entries != [] {
      var init := entries[..|entries| - 1];
      var last := entries[|entries| - 1];
      var w := Without(init, key, digest, repr);
      WithoutIdempotent(init, key, digest, repr);
      if EntryId(last, digest, repr) != key {
        assert Without(entries, key, digest, repr) == w + [last];
        assert (w + [last])[..|w|] == w;
        assert Without(w + [last], key, digest, repr) == Without(w, key, digest, repr) + [last];
      } else {
        assert Without(entries, key, digest, repr) == w + [];
        assert w + [] == w;
      }
    }
  }

  /**
   * An id `read_log` reports deletes its entry: `delete_log_entry` called
   * with it on the same file removes something.
   */
  lemma DeleteFindsReadId(file: Option<seq<string>>, limit: Option<int>, decode: string -> Option<Entry>,
                          digest: string -> string, repr: FloatRepr, i: nat)
    requires i < |ReadLogOf(file, limit, decode, digest, repr)|
    requires ReadLogOf(file, limit, decode, digest, repr)[i].id.value != ""
    ensures file.Some?
    ensures Matches(ParseLines(file.value, decode), ReadLogOf(file, limit, decode, digest, repr)[i].id.value, digest, repr)
  {
    var part := ReadLogOf(file, limit, decode, digest, repr);
    var all := ReadLogOf(file, None, decode, digest, repr);
    ReadLogIsSuffix(file, limit, decode, digest, repr);
    var j := |all| - |part| + i;
    assert part[i] == all[j];
    var entries := ParseLines(file.value, decode);
    assert all[j] == WithId(entries[j], digest, repr);
  }

  // ---------------------------------------------------------------- read_events

  /** An event record: what `log_event` appends. */
  datatype Event = Event(timestamp: Field, kind: Field, message: Field, id: Option<string>)

  /** `event_id(entry)`: timestamp, type and message joined by '|' when the event carries no id. */
  function EventId(e: Event, digest: string -> string): string {
    StableId(e.id, FieldText(e.timestamp) + "|" + FieldText(e.kind) + "|" + FieldText(e.message), digest)
  }

  /** `entry["id"] = event_id(entry)` */
  function EventWithId(e: Event, digest: string -> string): (r: Event)
    ensures r.id == Some(EventId(e, digest))
    ensures r.(id := e.id) == e
  {
    e.(id := Some(EventId(e, digest)))
  }

  function EventsWithIds(events: seq<Event>, digest: string -> string): (r: seq<Event>)
    ensures |r| == |events|
    ensures forall i :: 0 <= i < |r| ==> r[i] == EventWithId(events[i], digest)
  {
    seq(|events|, i requires 0 <= i < |events| => EventWithId(events[i], digest))
  }

  lemma EventsWithIdsAppend(a: seq<Event>, b: seq<Event>, digest: string -> string)
    ensures EventsWithIds(a + b, digest) == EventsWithIds(a, digest) + EventsWithIds(b, digest)
  {
    var l := EventsWithIds(a + b, digest);
    var r := EventsWithIds(a, digest) + EventsWithIds(b, digest);
    assert |l| == |r|;
    forall i | 0 <= i < |l|
      ensures l[i] == r[i]
    {
      if i < |a| {
        assert (a + b)[i] == a[i];
      } else {
        assert (a + b)[i] == b[i - |a|];
      }
    }
  }

  /**
   * `read_events(limit)` of the older server, as written: a falsy limit
   * (None or 0) reads every line, any other the slice `lines[-limit:]`.
   */
  function ReadEventsOf(file: Option<seq<string>>, limit: Option<int>, decode: string -> Option<Event>,
                        digest: string -> string): seq<Event> {
    if file.None? then []
    else if limit.None? || limit.value == 0 then EventsWithIds(ParseLines(file.value, decode), digest)
    else EventsWithIds(ParseLines(PySuffix(file.value, -limit.value), decode), digest)
  }

  /** `read_events(limit)` of the older server. */
  method ReadEvents(file: Option<seq<string>>, limit: Option<int>, decode: string -> Option<Event>,
                    digest: string -> string)
    returns (output: seq<Event>)
    ensures output == ReadEventsOf(file, limit, decode, digest)
  {
    if file.None? {
      return [];
    }
    var lines := file.value;
    if limit.Some? && limit.value != 0 {
      lines := PySuffix(lines, -limit.value);
    }
    output := ReadEventLines(lines, decode, digest);
    assert ReadEventsOf(file, limit, decode, digest) == EventsWithIds(ParseLines(lines, decode), digest);
  }

  /** The loop of `read_events`: parse the kept lines, skip the rest, write each event's id. */
  method ReadEventLines(lines: seq<string>, decode: string -> Option<Event>, digest: string -> string)
    returns (output: seq<Event>)
    ensures output == EventsWithIds(ParseLines(lines, decode), digest)
  {
    output := [];
    ghost var seen: seq<Event> := [];
    var i := 0;
    while i < |lines|
      invariant 0 <= i <= |lines|
      invariant seen == ParseLines(lines[..i], decode)
      invariant output == EventsWithIds(seen, digest)
    {
      ParseLinesNext(lines, i, decode);
      ghost var next := ParseLines(lines[..i + 1], decode);
      var line := lines[i];
      var parsed := if IsBlank(line) then None else decode(line);
      if parsed.Some? {
        var event := parsed.value;
        assert RecordOf(line, decode) == [event];
        assert seen + [event] == next;
        EventsWithIdsAppend(seen, [event], digest);
        output := output + [EventWithId(event, digest)];
        seen := seen + [event];
      } else {
        assert RecordOf(line, decode) == [];
        assert seen == next;
      }
      i := i + 1;
    }
    assert lines[..i] == lines;
  }

  /**
   * A falsy limit reads every event; a positive one at most `limit` of
   * them, the last ones of the file.
   */
  lemma ReadEventsLimits(file: Option<seq<string>>, limit: Option<int>, decode: string -> Option<Event>,
                         digest: string -> string)
    ensures limit.None? || limit == Some(0) ==>
      ReadEventsOf(file, limit, decode, digest) == ReadEventsOf(file, None, decode, digest)
    ensures limit.Some? && limit.value > 0 ==>
      var all := ReadEventsOf(file, None, decode, digest);
      var part := ReadEventsOf(file, limit, decode, digest);
      |part| <= limit.value && |part| <= |all| && part == all[|all| - |part|..]
  {
    if file.Some? && limit.Some? && limit.value > 0 {
      ReadEventsTail(file.value, limit.value, decode, digest);
    }
  }

  /** A positive limit reads the last events of the file, at most `limit` of them. */
  lemma ReadEventsTail(lines: seq<string>, limit: int, decode: string -> Option<Event>, digest: string -> string)
    requires limit > 0
    ensures |ReadEventsOf(Some(lines), Some(limit), decode, digest)| <= limit
    ensures IsSuffix(ReadEventsOf(Some(lines), Some(limit), decode, digest), ReadEventsOf(Some(lines), None, decode, digest))
  {
    var tail := PySuffix(lines, -limit);
    var parsedTail := ParseLines(tail, decode);
    assert ReadEventsOf(Some(lines), Some(limit), decode, digest) == EventsWithIds(parsedTail, digest);
    assert |parsedTail| <= |tail| <= limit;
    ParsedTail(lines, tail, decode);
    EventsWithIdsSuffix(ParseLines(lines, decode), parsedTail, digest);
  }

  /** `part` is a suffix of `all`. */
  ghost predicate IsSuffix<T>(part: seq<T>, all: seq<T>) {
    |part| <= |all| && part == all[|all| - |part|..]
  }

  /** The records of a tail of the file are the last of all its records. */
  lemma ParsedTail<T>(lines: seq<string>, tail: seq<string>, decode: string -> Option<T>)
    requires |tail| <= |lines| && tail == lines[|lines| - |tail|..]
    ensures IsSuffix(ParseLines(tail, decode), ParseLines(lines, decode))
  {
    TailSplit(lines, tail, decode);
    var head := ParseLines(lines[..|lines| - |tail|], decode);
    var part := ParseLines(tail, decode);
    assert (head + part)[|head|..] == part;
  }

  /** Writing the ids in keeps a suffix a suffix. */
  lemma EventsWithIdsSuffix(events: seq<Event>, kept: seq<Event>, digest: string -> string)
    requires IsSuffix(kept, events)
    ensures IsSuffix(EventsWithIds(kept, digest), EventsWithIds(events, digest))
  {
    var head := events[..|events| - |kept|];
    assert events == head + kept;
    EventsWithIdsAppend(head, kept, digest);
    var w := EventsWithIds(head, digest);
    var part := EventsWithIds(kept, digest);
    assert (w + part)[|w|..] == part;
  }

  /** One event record, accepted by any `decode` that accepts every line. */
  const SampleEvent: Event := Event(Absent, Absent, Absent, None)

  /**
   * A negative limit is not refused: `read_events(-1)` on a file of three
   * events skips the first line and returns the other two.
   */
  lemma ReadEventsNegativeLimit()
    ensures |ReadEventsOf(Some(["a", "b", "c"]), Some(-1), _ => Some(SampleEvent), _ => "")| == 2
  {
    var lines := ["a", "b", "c"];
    var decode: string -> Option<Event> := _ => Some(SampleEvent);
    assert PySuffix(lines, 1) == ["b", "c"];
    assert !IsBlank("b") by { assert !IsSpace("b"[0]); }
    assert !IsBlank("c") by { assert !IsSpace("c"[0]); }
    assert ["b", "c"][..1] == ["b"];
    assert ["b"][..0] == [];
    assert ParseLines(["b", "c"], decode) == [SampleEvent, SampleEvent];
  }

  /**
   * `read_events` as the newer server and `read_log` treat the limit: None
   * reads everything, a limit of zero or below reads nothing.
   */
  function ReadEventsBounded(file: Option<seq<string>>, limit: Option<int>, decode: string -> Option<Event>,
                             digest: string -> string): (r: seq<Event>)
    ensures limit.Some? && limit.value <= 0 ==> r == []
    ensures limit.Some? ==> |r| <= limit.value || r == []
    ensures limit.None? ==> r == ReadEventsOf(file, None, decode, digest)
  {
    ReadEventsLimits(file, limit, decode, digest);
    if limit.Some? && limit.value <= 0 then [] else ReadEventsOf(file, limit, decode, digest)
  }

  /** With a positive limit, or none, the corrected read agrees with the one as written. */
  lemma ReadEventsBoundedAgrees(file: Option<seq<string>>, limit: Option<int>, decode: string -> Option<Event>,
                                digest: string -> string)
    requires limit.None? || limit.value > 0
    ensures ReadEventsBounded(file, limit, decode, digest) == ReadEventsOf(file, limit, decode, digest)
  {
  }
}
