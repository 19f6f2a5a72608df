/**
 * The per-species digest `summarize_log` builds in one pass over the log:
 * how often each species was heard and which of its entries is the most
 * recent one, ties broken by confidence. The newer server reads the parsed
 * log; the older one reads the file's lines itself and counts only the
 * lines that parse.
 */
module Summary {
  import opened PyValues
  import opened Records
  import Tallies
  import Detections

  /** `normalize_confidence(entry.get("confidence")) or -1.0`: -1.0 also stands in for 0.0. */
  function SummaryConfidence(e: Entry, parse: FloatParse): (r: real)
    ensures r == -1.0 || 0.0 < r <= 1.0
  {
    var c := Detections.NormalizeConfidence(ConfidenceOf(e), parse);
    if c.None? || c.value == 0.0 then -1.0 else c.value
  }

  /** `entry.get("timestamp", "") or ""` */
  function RawStamp(e: Entry): string {
    Stamp(e).GetOr("")
  }

  /** What the digest keeps per species. */
  datatype Tracked = Tracked(count: nat, latest: Entry, time: Option<int>, raw: string, conf: real)

  /** Whether an entry with this time, raw stamp and confidence displaces the species' latest entry. */
  predicate Replaces(item: Tracked, time: Option<int>, raw: string, conf: real) {
    if time.Some? && (item.time.None? || time.value > item.time.value) then true
    else if time.None? && item.time.None? then StrLess(item.raw, raw)
    else if time.Some? && item.time.Some? && time.value == item.time.value then conf > item.conf
    else false
  }

  /** The species' record after one more of its entries. */
  function Track(item: Option<Tracked>, e: Entry, parse: FloatParse, parseTime: string -> Option<int>): (r: Tracked)
    ensures r.count == if item.None? then 1 else item.value.count + 1
  {
    var time := ParsedTime(e, parseTime);
    var raw := RawStamp(e);
    var conf := SummaryConfidence(e, parse);
    if item.None? then Tracked(1, e, time, raw, conf)
    else if Replaces(item.value, time, raw, conf) then Tracked(item.value.count + 1, e, time, raw, conf)
    else item.value.(count := item.value.count + 1)
  }

  function Get(summary: map<string, Tracked>, species: string): Option<Tracked> {
    if species in summary then Some(summary[species]) else None
  }

  /** One pass of the loop. */
  function SummaryStep(summary: map<string, Tracked>, e: Entry, parse: FloatParse, parseTime: string -> Option<int>): map<string, Tracked> {
    var species := SpeciesOf(e);
    summary[species := Track(Get(summary, species), e, parse, parseTime)]
  }

  /** The digest of the entries, in log order. */
  function SummaryOf(entries: seq<Entry>, parse: FloatParse, parseTime: string -> Option<int>): map<string, Tracked>
    decreases |entries|
  {
    if entries == [] then map[]
    else SummaryStep(SummaryOf(entries[..|entries| - 1], parse, parseTime), entries[|entries| - 1], parse, parseTime)
  }

  /** The loop of the newer server's `summarize_log`; `total` is the number of entries. */
  method SummarizeEntries(entries: seq<Entry>, parse: FloatParse, parseTime: string -> Option<int>)
    returns (summary: map<string, Tracked>, total: nat)
    ensures summary == SummaryOf(entries, parse, parseTime)
    ensures total == |entries|
  {
    summary := map[];
    total := |entries|;
    var i := 0;
    while i < |entries|
      invariant 0 <= i <= |entries|
      invariant summary == SummaryOf(entries[..i], parse, parseTime)
    {
      assert entries[..i + 1][..i] == entries[..i];
      ghost var before := summary;
      var entry := entries[i];
      var species := SpeciesOf(entry);
      var time := ParsedTime(entry, parseTime);
      var raw := RawStamp(entry);
      var conf := SummaryConfidence(entry, parse);
      ghost var tracked := Track(Get(before, species), entry, parse, parseTime);
      if species !in summary {
        assert Tracked(1, entry, time, raw, conf) == tracked;
        summary := summary[species := Tracked(1, entry, time, raw, conf)];
      } else {
        var item := summary[species];
        if Replaces(item, time, raw, conf) {
          assert Tracked(item.count + 1, entry, time, raw, conf) == tracked;
          summary := summary[species := Tracked(item.count + 1, entry, time, raw, conf)];
        } else {
          assert item.(count := item.count + 1) == tracked;
          summary := summary[species := item.(count := item.count + 1)];
        }
      }
      assert summary == SummaryStep(before, entry, parse, parseTime);
      i := i + 1;
    }
    assert entries[..i] == entries;
  }

  lemma SummaryOfSnoc(entries: seq<Entry>, e: Entry, parse: FloatParse, parseTime: string -> Option<int>)
    ensures SummaryOf(entries + [e], parse, parseTime) == SummaryStep(SummaryOf(entries, parse, parseTime), e, parse, parseTime)
  {
    assert (entries + [e])[..|entries|] == entries;
  }

  /**
   * The older server's loop over the log file's lines: blank lines and
   * lines that are not JSON are skipped, `total` counts the rest. A
   * missing or unreadable file (None) gives an empty digest.
   */
  method SummarizeLogLines(file: Option<seq<string>>, decode: string -> Option<Entry>,
                           parse: FloatParse, parseTime: string -> Option<int>)
    returns (summary: map<string, Tracked>, total: nat)
    ensures file.None? ==> summary == map[] && total == 0
    ensures file.Some? ==>
      var entries := ParseLines(file.value, decode);
      summary == SummaryOf(entries, parse, parseTime) && total == |entries|
  {
    summary := map[];
    total := 0;
    if file.None? {
      return;
    }
    var lines := file.value;
    var i := 0;
    ghost var seen: seq<Entry> := [];
    while i < |lines|
      invariant 0 <= i <= |lines|
      invariant seen == ParseLines(lines[..i], decode)
      invariant summary == SummaryOf(seen, parse, parseTime)
      invariant total == |seen|
    {
      ParseLinesNext(lines, i, decode);
      var line := lines[i];
      var parsed := if IsBlank(line) then None else decode(line);
      if parsed.Some? {
        assert RecordOf(line, decode) == [parsed.value];
        SummaryOfSnoc(seen, parsed.value, parse, parseTime);
        total := total + 1;
        summary := SummaryStep(summary, parsed.value, parse, parseTime);
        seen := seen + [parsed.value];
      } else {
        assert RecordOf(line, decode) == [];
      }
      i := i + 1;
    }
    assert lines[..i] == lines;
  }

  // ---------------------------------------------------------------- what the digest holds

  /** The species counts the digest yields (`species_counts` after a rebuild). */
  function CountsOf(summary: map<string, Tracked>): map<string, nat> {
    map s | s in summary :: summary[s].count
  }

  /** Only the entry's own species changes. */
  lemma SummaryStepOthers(summary: map<string, Tracked>, e: Entry, parse: FloatParse,
                          parseTime: string -> Option<int>, s: string)
    requires s != SpeciesOf(e)
    ensures Get(SummaryStep(summary, e, parse, parseTime), s) == Get(summary, s)
  {
  }

  /** One step adds the entry's species and raises its count by one. */
  lemma StepCounts(summary: map<string, Tracked>, e: Entry, parse: FloatParse, parseTime: string -> Option<int>)
    ensures SummaryStep(summary, e, parse, parseTime).Keys == summary.Keys + {SpeciesOf(e)}
    ensures CountsOf(SummaryStep(summary, e, parse, parseTime)) == Tallies.Inc(CountsOf(summary), SpeciesOf(e))
  {
    var after := SummaryStep(summary, e, parse, parseTime);
    assert CountsOf(after).Keys == Tallies.Inc(CountsOf(summary), SpeciesOf(e)).Keys;
  }

  /**
   * The digest has one record per species in the log, and each record
   * counts that species' entries: the counts are those `Tally` rebuilds.
   */
  lemma {:induction false} SummaryCounts(entries: seq<Entry>, parse: FloatParse, parseTime: string -> Option<int>)
    ensures SummaryOf(entries, parse, parseTime).Keys == SpeciesNames(entries)
    ensures CountsOf(SummaryOf(entries, parse, parseTime)) == Tallies.Tally(entries)
  {
    SummaryKeySet(entries, parse, parseTime);
    SummaryTally(entries, parse, parseTime);
  }

  lemma {:induction false} SummaryKeySet(entries: seq<Entry>, parse: FloatParse, parseTime: string -> Option<int>)
    ensures SummaryOf(entries, parse, parseTime).Keys == SpeciesNames(entries)
    decreases |entries|
  {
    if entries != [] {
      var init := entries[..|entries| - 1];
      var e := entries[|entries| - 1];
      SummaryKeySet(init, parse, parseTime);
      assert entries == init + [e];
      SpeciesNamesSnoc(init, e);
      StepCounts(SummaryOf(init, parse, parseTime), e, parse, parseTime);
    }
  }

  lemma {:induction false} SummaryTally(entries: seq<Entry>, parse: FloatParse, parseTime: string -> Option<int>)
    ensures CountsOf(SummaryOf(entries, parse, parseTime)) == Tallies.Tally(entries)
    decreases |entries|
  {
    if entries != [] {
      var init := entries[..|entries| - 1];
      var e := entries[|entries| - 1];
      SummaryTally(init, parse, parseTime);
      StepCounts(SummaryOf(init, parse, parseTime), e, parse, parseTime);
    }
  }

  /** The count kept for a species is the number of its entries. */
  lemma SummaryCountIsOccurrences(entries: seq<Entry>, parse: FloatParse, parseTime: string -> Option<int>, s: string)
    requires s in SummaryOf(entries, parse, parseTime)
    ensures SummaryOf(entries, parse, parseTime)[s].count == Occurrences(entries, s)
  {
    SummaryCounts(entries, parse, parseTime);
    Tallies.AddAllCount(map[], entries, s);
    assert CountsOf(SummaryOf(entries, parse, parseTime))[s] == SummaryOf(entries, parse, parseTime)[s].count;
  }

  /** The per-species counts add up to `total_detections`, the number of entries read. */
  lemma SummaryTotal(entries: seq<Entry>, parse: FloatParse, parseTime: string -> Option<int>)
    ensures Tallies.Total(CountsOf(SummaryOf(entries, parse, parseTime))) == |entries|
  {
    SummaryCounts(entries, parse, parseTime);
    Tallies.AddAllTotal(map[], entries);
  }

  /** The record's time, raw stamp and confidence are those of its latest entry, an entry of that species. */
  lemma {:induction false} SummaryLatestEntry(entries: seq<Entry>, parse: FloatParse, parseTime: string -> Option<int>, s: string)
    requires s in SummaryOf(entries, parse, parseTime)
    ensures var t := SummaryOf(entries, parse, parseTime)[s];
      && t.latest in entries && SpeciesOf(t.latest) == s
      && t.time == ParsedTime(t.latest, parseTime)
      && t.raw == RawStamp(t.latest)
      && t.conf == SummaryConfidence(t.latest, parse)
    decreases |entries|
  {
    var init := entries[..|entries| - 1];
    var e := entries[|entries| - 1];
    assert entries == init + [e];
    var before := SummaryOf(init, parse, parseTime);
    var t := SummaryOf(entries, parse, parseTime)[s];
    if s in before {
      SummaryLatestEntry(init, parse, parseTime, s);
    }
    if SpeciesOf(e) == s {
      TrackLatest(Get(before, s), e, parse, parseTime);
    } else {
      assert t == before[s];
    }
  }

  /** The tracked fields describe the entry the record keeps, which is the new one or the old latest. */
  lemma TrackLatest(item: Option<Tracked>, e: Entry, parse: FloatParse, parseTime: string -> Option<int>)
    requires item.Some? ==> var t := item.value;
      t.time == ParsedTime(t.latest, parseTime) && t.raw == RawStamp(t.latest) && t.conf == SummaryConfidence(t.latest, parse)
    ensures var r := Track(item, e, parse, parseTime);
      && (r.latest == e || (item.Some? && r.latest == item.value.latest))
      && r.time == ParsedTime(r.latest, parseTime) && r.raw == RawStamp(r.latest) && r.conf == SummaryConfidence(r.latest, parse)
  {
  }

  /** An entry of `s` in the log: the form the maximality facts quantify over. */
  predicate OfSpecies(entries: seq<Entry>, i: int, s: string) {
    0 <= i < |entries| && SpeciesOf(entries[i]) == s
  }

  /** The digest has a record for exactly the species heard in the log. */
  lemma SummaryKeys(entries: seq<Entry>, parse: FloatParse, parseTime: string -> Option<int>, s: string)
    ensures s in SummaryOf(entries, parse, parseTime) <==> exists i :: OfSpecies(entries, i, s)
  {
    SummaryCounts(entries, parse, parseTime);
    if s in SpeciesNames(entries) {
      var e :| e in entries && SpeciesOf(e) == s;
      var i :| 0 <= i < |entries| && entries[i] == e;
      assert OfSpecies(entries, i, s);
    }
    if exists i :: OfSpecies(entries, i, s) {
      var i :| OfSpecies(entries, i, s);
      assert entries[i] in entries;
    }
  }

  /** No entry at `time` is later than the record's: a `time` that parses is at most the record's, which parses too. */
  predicate TimeBound(t: Tracked, time: Option<int>) {
    time.Some? ==> t.time.Some? && time.value <= t.time.value
  }

  /** An entry at the record's time has no higher confidence than the record. */
  predicate ConfBound(t: Tracked, e: Entry, parse: FloatParse, parseTime: string -> Option<int>) {
    t.time.Some? && ParsedTime(e, parseTime) == t.time ==> SummaryConfidence(e, parse) <= t.conf
  }

  /** When the record's stamp does not parse, the entry's raw stamp is not greater. */
  predicate RawBound(t: Tracked, e: Entry) {
    t.time.None? ==> !StrLess(t.raw, RawStamp(e))
  }

  /** One step: the new entry is bounded by the record, and the record's time never goes back. */
  lemma TrackStep(item: Option<Tracked>, e: Entry, parse: FloatParse, parseTime: string -> Option<int>)
    ensures var r := Track(item, e, parse, parseTime);
      && TimeBound(r, ParsedTime(e, parseTime))
      && ConfBound(r, e, parse, parseTime)
      && RawBound(r, e)
      && (item.Some? ==> TimeBound(r, item.value.time))
      && (item.Some? && r.time.Some? && r.time == item.value.time ==> item.value.conf <= r.conf)
      && (item.Some? && r.time.None? ==>
            item.value.time.None? && (r.raw == item.value.raw || StrLess(item.value.raw, r.raw)))
  {
    var r := Track(item, e, parse, parseTime);
    StrLessIrreflexive(r.raw);
  }

  /**
   * No entry of the species parses to a later time than its latest entry,
   * and once one of them parses, so does the latest entry's stamp.
   */
  lemma {:induction false} SummaryLatestTimeMax(entries: seq<Entry>, parse: FloatParse, parseTime: string -> Option<int>, s: string)
    requires s in SummaryOf(entries, parse, parseTime)
    ensures var t := SummaryOf(entries, parse, parseTime)[s];
      forall i :: OfSpecies(entries, i, s) ==> TimeBound(t, ParsedTime(entries[i], parseTime))
    decreases |entries|
  {
    var init := entries[..|entries| - 1];
    var e := entries[|entries| - 1];
    var before := SummaryOf(init, parse, parseTime);
    var t := SummaryOf(entries, parse, parseTime)[s];
    if SpeciesOf(e) == s {
      TrackStep(Get(before, s), e, parse, parseTime);
    }
    if s in before {
      SummaryLatestTimeMax(init, parse, parseTime, s);
    } else {
      SummaryKeys(init, parse, parseTime, s);
    }
    forall i | OfSpecies(entries, i, s)
      ensures TimeBound(t, ParsedTime(entries[i], parseTime))
    {
      if i < |init| {
        assert OfSpecies(init, i, s) && init[i] == entries[i];
        if SpeciesOf(e) != s {
          assert t == before[s];
        }
      } else {
        assert entries[i] == e;
      }
    }
  }

  /** Among the entries of the species at the latest time, the latest entry has the highest confidence. */
  lemma {:induction false} SummaryLatestConfMax(entries: seq<Entry>, parse: FloatParse, parseTime: string -> Option<int>, s: string)
    requires s in SummaryOf(entries, parse, parseTime)
    ensures var t := SummaryOf(entries, parse, parseTime)[s];
      forall i :: OfSpecies(entries, i, s) ==> ConfBound(t, entries[i], parse, parseTime)
    decreases |entries|
  {
    var init := entries[..|entries| - 1];
    var e := entries[|entries| - 1];
    var before := SummaryOf(init, parse, parseTime);
    var t := SummaryOf(entries, parse, parseTime)[s];
    if SpeciesOf(e) == s {
      TrackStep(Get(before, s), e, parse, parseTime);
    }
    if s in before {
      SummaryLatestConfMax(init, parse, parseTime, s);
      SummaryLatestTimeMax(init, parse, parseTime, s);
    } else {
      SummaryKeys(init, parse, parseTime, s);
    }
    forall i | OfSpecies(entries, i, s)
      ensures ConfBound(t, entries[i], parse, parseTime)
    {
      if i < |init| {
        assert OfSpecies(init, i, s) && init[i] == entries[i];
        if SpeciesOf(e) != s {
          assert t == before[s];
        }
      } else {
        assert entries[i] == e;
      }
    }
  }

  /** When no stamp of the species parses, the latest entry's stamp is the greatest as a string. */
  lemma {:induction false} SummaryLatestRawMax(entries: seq<Entry>, parse: FloatParse, parseTime: string -> Option<int>, s: string)
    requires s in SummaryOf(entries, parse, parseTime)
    ensures var t := SummaryOf(entries, parse, parseTime)[s];
      forall i :: OfSpecies(entries, i, s) ==> RawBound(t, entries[i])
    decreases |entries|
  {
    var init := entries[..|entries| - 1];
    var e := entries[|entries| - 1];
    var before := SummaryOf(init, parse, parseTime);
    var t := SummaryOf(entries, parse, parseTime)[s];
    if SpeciesOf(e) == s {
      TrackStep(Get(before, s), e, parse, parseTime);
    }
    if s in before {
      SummaryLatestRawMax(init, parse, parseTime, s);
    } else {
      SummaryKeys(init, parse, parseTime, s);
    }
    forall i | OfSpecies(entries, i, s)
      ensures RawBound(t, entries[i])
    {
      if i < |init| {
        assert OfSpecies(init, i, s) && init[i] == entries[i];
        if t.time.None? && t != before[s] && StrLess(t.raw, RawStamp(init[i])) {
          StrLessTransitive(before[s].raw, t.raw, RawStamp(init[i]));
        }
      } else {
        assert entries[i] == e;
      }
    }
  }
}
