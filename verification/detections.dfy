/**
 * What the overlay shows as "the last detection": the confidence
 * normalisation every reader of the log shares, the scan that finds the
 * latest timestamp in the log, and the record `derive_last_detection`
 * builds from the entries stamped with it.
 */
module Detections {
  import opened PyValues
  import opened Records
  import opened Ordering
  import Settings
  import Tallies
  import TextPaths

  // ---------------------------------------------------------------- confidence

  /** `value.strip().replace("%", "")` for a string; any other value is used as it is. */
  function Unpercent(v: Value): Value {
    if v.Str? then Str(RemoveChar(Strip(v.s), '%')) else v
  }

  /**
   * `normalize_confidence`: a fraction in [0, 1]. Readings above 1 are
   * taken as percentages; None when the value is missing or not a number.
   */
  function NormalizeConfidence(v: Value, parse: FloatParse): (r: Option<real>)
    ensures v.Null? ==> r.None?
    ensures r.Some? ==> 0.0 <= r.value <= 1.0
    ensures !v.Null? ==> (r.None? <==> ToFloat(Unpercent(v), parse).None?)
    ensures !v.Null? && ToFloat(Unpercent(v), parse).Some? ==>
      var x := ToFloat(Unpercent(v), parse).value;
      && (0.0 <= x <= 1.0 ==> r == Some(x))
      && (1.0 < x <= 100.0 ==> r == Some(x / 100.0))
      && (x > 100.0 ==> r == Some(1.0))
      && (x < 0.0 ==> r == Some(0.0))
  {
    if v.Null? then None
    else
      match ToFloat(Unpercent(v), parse)
      case None => None
      case Some(x) =>
        var scaled := if x > 1.0 then x / 100.0 else x;
        Some(Settings.Clamp(0.0, 1.0, scaled))
  }

  /** The sort key of `derive_last_detection`: `float(confidence)`, or 0.0 when that raises. */
  function ConfidenceKey(e: Entry, parse: FloatParse): real {
    ToFloat(ConfidenceOf(e), parse).GetOr(0.0)
  }

  // ---------------------------------------------------------------- the latest timestamp

  /** The scan's state: the latest stamp so far and, once one parsed, its time. */
  datatype Latest = Latest(stamp: Option<string>, time: Option<int>)

  /** The non-empty timestamp of an entry, if it has one. */
  predicate Stamped(e: Entry) {
    Stamp(e).Some? && Stamp(e).value != ""
  }

  /**
   * One pass of the scan. A stamp that parses wins when it is strictly
   * later than the latest parsed one; a stamp that does not parse only
   * counts while none has parsed, and then compares as a string.
   */
  function LatestStep(l: Latest, e: Entry, parseTime: string -> Option<int>): Latest {
    var t := ParsedTime(e, parseTime);
    if t.None? then
      if l.time.None? && Stamped(e) && (l.stamp.None? || StrLess(l.stamp.value, Stamp(e).value))
      then Latest(Stamp(e), None)
      else l
    else if l.time.None? || t.value > l.time.value then Latest(Stamp(e), t)
    else l
  }

  /** The state after scanning the entries in log order. */
  function LatestOf(entries: seq<Entry>, parseTime: string -> Option<int>): Latest
    decreases |entries|
  {
    if entries == [] then Latest(None, None)
    else LatestStep(LatestOf(entries[..|entries| - 1], parseTime), entries[|entries| - 1], parseTime)
  }

  /** Some entry parses. */
  predicate AnyParsed(entries: seq<Entry>, parseTime: string -> Option<int>) {
    exists i :: 0 <= i < |entries| && ParsedTime(entries[i], parseTime).Some?
  }

  /** Some entry has a non-empty stamp. */
  predicate AnyStamped(entries: seq<Entry>) {
    exists i :: 0 <= i < |entries| && Stamped(entries[i])
  }

  /**
   * The latest stamp is the stamp of some entry, and there is one exactly
   * when some entry carries a non-empty stamp; a time is recorded exactly
   * when some stamp parses.
   */
  lemma {:induction false} LatestOrigin(entries: seq<Entry>, parseTime: string -> Option<int>)
    ensures var l := LatestOf(entries, parseTime);
      && (l.stamp.Some? <==> AnyStamped(entries))
      && (l.time.Some? <==> AnyParsed(entries, parseTime))
      && (l.stamp.Some? ==> l.stamp.value != "" && exists i :: 0 <= i < |entries| && Stamp(entries[i]) == l.stamp)
      && (l.time.Some? ==> l.stamp.Some?)
    decreases |entries|
  {
    if entries != [] {
      var init := entries[..|entries| - 1];
      var e := entries[|entries| - 1];
      LatestOrigin(init, parseTime);
      var l0 := LatestOf(init, parseTime);
      var l := LatestOf(entries, parseTime);
      assert forall i :: 0 <= i < |init| ==> init[i] == entries[i];
      if AnyStamped(entries) && !Stamped(e) {
        var i :| 0 <= i < |entries| && Stamped(entries[i]);
        assert i < |init| && Stamped(init[i]);
      }
      if AnyParsed(entries, parseTime) && ParsedTime(e, parseTime).None? {
        var i :| 0 <= i < |entries| && ParsedTime(entries[i], parseTime).Some?;
        assert i < |init| && ParsedTime(init[i], parseTime).Some?;
      }
      if l.stamp.Some? {
        if l.stamp == Stamp(e) {
          assert Stamp(entries[|entries| - 1]) == l.stamp;
        } else {
          assert l == l0;
          var i :| 0 <= i < |init| && Stamp(init[i]) == l.stamp;
          assert Stamp(entries[i]) == l.stamp;
        }
      }
    }
  }

  /**
   * Once a stamp parses, the recorded time is the largest parsed time and
   * the latest stamp is that of an entry parsed to it.
   */
  lemma {:induction false} LatestIsMaxTime(entries: seq<Entry>, parseTime: string -> Option<int>)
    ensures var l := LatestOf(entries, parseTime);
      l.time.Some? ==>
        && (forall i :: 0 <= i < |entries| && ParsedTime(entries[i], parseTime).Some? ==>
              ParsedTime(entries[i], parseTime).value <= l.time.value)
        && (exists i :: 0 <= i < |entries| && ParsedTime(entries[i], parseTime) == l.time
              && Stamp(entries[i]) == l.stamp)
    decreases |entries|
  {
    if entries != [] {
      var init := entries[..|entries| - 1];
      var e := entries[|entries| - 1];
      LatestIsMaxTime(init, parseTime);
      LatestOrigin(init, parseTime);
      var l0 := LatestOf(init, parseTime);
      var l := LatestOf(entries, parseTime);
      assert forall i :: 0 <= i < |init| ==> init[i] == entries[i];
      if l.time.Some? {
        if l == l0 {
          var i :| 0 <= i < |init| && ParsedTime(init[i], parseTime) == l0.time && Stamp(init[i]) == l0.stamp;
          assert ParsedTime(entries[i], parseTime) == l.time && Stamp(entries[i]) == l.stamp;
        } else {
          assert ParsedTime(entries[|entries| - 1], parseTime) == l.time;
          if l0.time.None? {
            assert !AnyParsed(init, parseTime);
          }
        }
      }
    }
  }

  /** While no stamp parses, the latest stamp is the greatest non-empty stamp as a string. */
  lemma {:induction false} LatestIsMaxText(entries: seq<Entry>, parseTime: string -> Option<int>)
    requires !AnyParsed(entries, parseTime)
    ensures var l := LatestOf(entries, parseTime);
      forall i :: 0 <= i < |entries| && Stamped(entries[i]) ==>
        l.stamp.Some? && !StrLess(l.stamp.value, Stamp(entries[i]).value)
    decreases |entries|
  {
    if entries != [] {
      var init := entries[..|entries| - 1];
      var e := entries[|entries| - 1];
      assert forall i :: 0 <= i < |init| ==> init[i] == entries[i];
      forall i | 0 <= i < |init|
        ensures ParsedTime(init[i], parseTime).None?
      {
        assert init[i] == entries[i];
      }
      LatestIsMaxText(init, parseTime);
      LatestOrigin(init, parseTime);
      var l0 := LatestOf(init, parseTime);
      var l := LatestOf(entries, parseTime);
      assert ParsedTime(e, parseTime).None?;
      forall i | 0 <= i < |entries| && Stamped(entries[i])
        ensures l.stamp.Some? && !StrLess(l.stamp.value, Stamp(entries[i]).value)
      {
        var s := Stamp(entries[i]).value;
        if i < |init| {
          assert Stamped(init[i]);
          if l != l0 && StrLess(Stamp(e).value, s) {
            StrLessTransitive(l0.stamp.value, Stamp(e).value, s);
          }
        } else if l != l0 {
          StrLessIrreflexive(s);
        }
      }
    }
  }

  // ---------------------------------------------------------------- the detection record

  /**
   * One of the top predictions shown beside the detection. The fields are
   * what `entry.get(...)` returns: a null species is shown as None.
   */
  datatype TopPrediction = TopPrediction(species: Value, scientificName: Value, confidence: Value)

  /** The record `derive_last_detection` returns. */
  datatype LastDetection = LastDetection(
    timestamp: Value,
    species: Value,
    scientificName: Value,
    confidence: Value,
    clipSeconds: Value,
    timesHeard: nat,
    topPredictions: seq<TopPrediction>,
    location: Value,
    iconUrl: string)

  /** The entries stamped exactly `stamp`, in log order. */
  function Grouped(entries: seq<Entry>, stamp: string): (r: seq<Entry>)
    ensures |r| <= |entries|
    ensures forall e :: e in r ==> e in entries && Stamp(e) == Some(stamp)
    ensures (exists i :: 0 <= i < |entries| && Stamp(entries[i]) == Some(stamp)) ==> r != []
    decreases |entries|
  {
    if entries == [] then []
    else
      var last := entries[|entries| - 1];
      var init := Grouped(entries[..|entries| - 1], stamp);
      assert forall i :: 0 <= i < |entries| - 1 ==> entries[..|entries| - 1][i] == entries[i];
      init + (if Stamp(last) == Some(stamp) then [last] else [])
  }

  /** Each entry paired with its sort key. */
  function ByConfidence(entries: seq<Entry>, parse: FloatParse): (r: seq<(real, Entry)>)
    ensures |r| == |entries|
    ensures forall i :: 0 <= i < |r| ==> r[i] == (ConfidenceKey(entries[i], parse), entries[i])
  {
    seq(|entries|, i requires 0 <= i < |entries| => (ConfidenceKey(entries[i], parse), entries[i]))
  }

  /** The stamp's entries, most confident first; ties keep log order. */
  function Ranked(grouped: seq<Entry>, parse: FloatParse): (r: seq<Entry>)
    ensures |r| == |grouped|
  {
    Items(SortDesc(ByConfidence(grouped, parse)))
  }

  /** The fields shown for one of the top predictions. */
  function TopOf(e: Entry): TopPrediction {
    TopPrediction(GetField(e.species, "Unknown"), GetField(e.scientificName, ""), ConfidenceOf(e))
  }

  /** `get_species_heard_count(species)`: a falsy species was heard 0 times. */
  function HeardOf(counts: map<string, nat>, species: Value): (n: nat)
    ensures !Truthy(species) ==> n == 0
    ensures species.Str? ==> n == Tallies.Heard(counts, species.s)
  {
    if species.Str? then Tallies.Heard(counts, species.s) else 0
  }

  /** `top.get("location") or config.get("location", "Stream")` */
  function LocationOf(top: Entry, config: map<string, Value>): Value {
    if top.location.Some? && top.location.value != "" then Str(top.location.value)
    else if "location" in config then config["location"]
    else Str("Stream")
  }

  /** The record built around the most confident entry of the latest stamp. */
  function DetectionFor(ranked: seq<Entry>, tops: seq<TopPrediction>, config: map<string, Value>,
                        counts: map<string, nat>, index: map<string, string>, fileExists: string -> bool,
                        now: string, repr: FloatRepr): LastDetection
    requires ranked != []
  {
    var top := ranked[0];
    var species := GetField(top.species, "Unknown");
    LastDetection(
      GetField(top.timestamp, now),
      species,
      GetField(top.scientificName, ""),
      ConfidenceOf(top),
      Settings.Lookup(config, "segment_seconds"),
      HeardOf(counts, species),
      tops,
      LocationOf(top, config),
      TextPaths.IconUrlFor(species, index, fileExists, repr))
  }

  /**
   * `derive_last_detection`: None for an empty log or a log without a
   * non-empty stamp. `counts` are the species counts, `index` the icon
   * index, `now` the clock reading used when the top entry has no stamp.
   */
  function LastDetectionOf(entries: seq<Entry>, config: map<string, Value>, counts: map<string, nat>,
                           index: map<string, string>, fileExists: string -> bool, now: string,
                           parse: FloatParse, parseTime: string -> Option<int>, repr: FloatRepr): Option<LastDetection>
  {
    if entries == [] then None
    else
      var latest := LatestOf(entries, parseTime).stamp;
      if latest.None? || latest.value == "" then None
      else
        var grouped := Grouped(entries, latest.value);
        if grouped == [] then None
        else
          var ranked := Ranked(grouped, parse);
          Some(DetectionFor(ranked, TopsOf(ranked), config, counts, index, fileExists, now, repr))
  }

  /** The scan at the head of `derive_last_detection`. */
  method ScanLatest(entries: seq<Entry>, parseTime: string -> Option<int>) returns (latest: Option<string>, latestDt: Option<int>)
    ensures Latest(latest, latestDt) == LatestOf(entries, parseTime)
  {
    latest := None;
    latestDt := None;
    var i := 0;
    while i < |entries|
      invariant 0 <= i <= |entries|
      invariant Latest(latest, latestDt) == LatestOf(entries[..i], parseTime)
    {
      assert entries[..i + 1][..i] == entries[..i];
      ghost var next := LatestStep(Latest(latest, latestDt), entries[i], parseTime);
      var stamp := Stamp(entries[i]);
      var dt := ParsedTime(entries[i], parseTime);
      if dt.None? {
        if latestDt.None? && stamp.Some? && stamp.value != "" {
          if latest.None? || StrLess(latest.value, stamp.value) {
            latest := stamp;
          }
        }
      } else if latestDt.None? || dt.value > latestDt.value {
        latestDt := dt;
        latest := stamp;
      }
      assert Latest(latest, latestDt) == next;
      i := i + 1;
    }
    assert entries[..i] == entries;
  }

  /** The shown fields of each of the first three ranked entries. */
  function TopsOf(ranked: seq<Entry>): (r: seq<TopPrediction>)
    ensures |r| == |Prefix(ranked, 3)|
    ensures forall i :: 0 <= i < |r| ==> r[i] == TopOf(ranked[i])
  {
    var head := Prefix(ranked, 3);
    seq(|head|, i requires 0 <= i < |head| => TopOf(head[i]))
  }

  /** The loop that collects the top predictions. */
  method CollectTops(ranked: seq<Entry>) returns (tops: seq<TopPrediction>)
    ensures tops == TopsOf(ranked)
  {
    var head := Prefix(ranked, 3);
    tops := [];
    var k := 0;
    while k < |head|
      invariant 0 <= k <= |head|
      invariant |tops| == k
      invariant forall j :: 0 <= j < k ==> tops[j] == TopOf(ranked[j])
    {
      tops := tops + [TopOf(head[k])];
      k := k + 1;
    }
  }

  /** `derive_last_detection` */
  method DeriveLastDetection(entries: seq<Entry>, config: map<string, Value>, counts: map<string, nat>,
                             index: map<string, string>, fileExists: string -> bool, now: string,
                             parse: FloatParse, parseTime: string -> Option<int>, repr: FloatRepr)
    returns (d: Option<LastDetection>)
    ensures d == LastDetectionOf(entries, config, counts, index, fileExists, now, parse, parseTime, repr)
  {
    if entries == [] {
      return None;
    }
    var latest, _ := ScanLatest(entries, parseTime);
    if latest.None? || latest.value == "" {
      return None;
    }
    var grouped := Grouped(entries, latest.value);
    if grouped == [] {
      return None;
    }
    var ranked := Ranked(grouped, parse);
    var tops := CollectTops(ranked);
    d := Some(DetectionFor(ranked, tops, config, counts, index, fileExists, now, repr));
  }

  /** There is a detection exactly when some entry of a non-empty log carries a non-empty stamp. */
  lemma DetectionExists(entries: seq<Entry>, config: map<string, Value>, counts: map<string, nat>,
                        index: map<string, string>, fileExists: string -> bool, now: string,
                        parse: FloatParse, parseTime: string -> Option<int>, repr: FloatRepr)
    ensures LastDetectionOf(entries, config, counts, index, fileExists, now, parse, parseTime, repr).Some?
      <==> AnyStamped(entries)
  {
    LatestOrigin(entries, parseTime);
    if AnyStamped(entries) {
      var l := LatestOf(entries, parseTime);
      var i :| 0 <= i < |entries| && Stamp(entries[i]) == l.stamp;
      assert Grouped(entries, l.stamp.value) != [];
    }
  }

  /** The top entry of the ranking is the earliest of the stamp's entries with the largest confidence. */
  lemma RankedHead(grouped: seq<Entry>, parse: FloatParse)
    requires grouped != []
    ensures var keyed := ByConfidence(grouped, parse);
      Ranked(grouped, parse)[0] == grouped[FirstMaxIndex(keyed)]
    ensures forall e :: e in grouped ==> ConfidenceKey(e, parse) <= ConfidenceKey(Ranked(grouped, parse)[0], parse)
  {
    var keyed := ByConfidence(grouped, parse);
    SortDescHead(keyed);
    var m := FirstMaxIndex(keyed);
    forall e | e in grouped
      ensures ConfidenceKey(e, parse) <= ConfidenceKey(Ranked(grouped, parse)[0], parse)
    {
      var j :| 0 <= j < |grouped| && grouped[j] == e;
      assert keyed[j].0 <= keyed[m].0;
    }
  }

  /** The ranking lists the stamp's entries by non-increasing confidence and keeps all of them. */
  lemma RankedOrder(grouped: seq<Entry>, parse: FloatParse)
    ensures var r := Ranked(grouped, parse);
      forall i, j :: 0 <= i < j < |r| ==> ConfidenceKey(r[i], parse) >= ConfidenceKey(r[j], parse)
    ensures multiset(Ranked(grouped, parse)) == multiset(grouped)
  {
    var keyed := ByConfidence(grouped, parse);
    var sorted := SortDesc(keyed);
    SortDescSpec(keyed);
    forall i | 0 <= i < |sorted|
      ensures sorted[i].0 == ConfidenceKey(sorted[i].1, parse)
    {
      assert sorted[i] in multiset(keyed);
      var j :| 0 <= j < |keyed| && keyed[j] == sorted[i];
    }
    SortDescItems(keyed);
    KeyedItems(grouped, parse);
  }

  lemma KeyedItems(entries: seq<Entry>, parse: FloatParse)
    ensures Items(ByConfidence(entries, parse)) == entries
  {
  }

  /**
   * The record describes the latest stamp: its time is that stamp, its
   * species is the most confident entry's, it lists at most three
   * predictions starting with that entry, and its count is that species'.
   */
  lemma DetectionFields(entries: seq<Entry>, config: map<string, Value>, counts: map<string, nat>,
                        index: map<string, string>, fileExists: string -> bool, now: string,
                        parse: FloatParse, parseTime: string -> Option<int>, repr: FloatRepr)
    requires LastDetectionOf(entries, config, counts, index, fileExists, now, parse, parseTime, repr).Some?
    ensures LatestOf(entries, parseTime).stamp.Some?
    ensures Ranked(Grouped(entries, LatestOf(entries, parseTime).stamp.value), parse) != []
    ensures var d := LastDetectionOf(entries, config, counts, index, fileExists, now, parse, parseTime, repr).value;
      var latest := LatestOf(entries, parseTime).stamp;
      var grouped := Grouped(entries, latest.value);
      var top := Ranked(grouped, parse)[0];
      && d.timestamp == Str(latest.value)
      && top in grouped
      && d.species == GetField(top.species, "Unknown")
      && (forall e :: e in grouped ==> ConfidenceKey(e, parse) <= ConfidenceKey(top, parse))
      && 1 <= |d.topPredictions| <= 3
      && d.topPredictions[0] == TopOf(top)
      && d.timesHeard == HeardOf(counts, d.species)
      && d.iconUrl == TextPaths.IconUrlFor(d.species, index, fileExists, repr)
  {
    var latest := LatestOf(entries, parseTime).stamp;
    var grouped := Grouped(entries, latest.value);
    var ranked := Ranked(grouped, parse);
    LastDetectionOfLatest(entries, config, counts, index, fileExists, now, parse, parseTime, repr);
    RankedHead(grouped, parse);
    RankedOrder(grouped, parse);
    var top := ranked[0];
    assert top in multiset(grouped);
    assert Stamp(top) == Some(latest.value);
    DetectionForShape(ranked, TopsOf(ranked), config, counts, index, fileExists, now, repr);
    assert top.timestamp == Text(latest.value);
  }

  /**
   * Every one of the record's top predictions comes from an entry of the
   * latest stamp, and their confidences do not increase down the list
   * (a confidence that `float` refuses counts as 0).
   */
  lemma TopPredictionsLatest(entries: seq<Entry>, config: map<string, Value>, counts: map<string, nat>,
                             index: map<string, string>, fileExists: string -> bool, now: string,
                             parse: FloatParse, parseTime: string -> Option<int>, repr: FloatRepr)
    requires LastDetectionOf(entries, config, counts, index, fileExists, now, parse, parseTime, repr).Some?
    ensures var d := LastDetectionOf(entries, config, counts, index, fileExists, now, parse, parseTime, repr).value;
      var latest := LatestOf(entries, parseTime).stamp;
      var tops := d.topPredictions;
      && (forall i :: 0 <= i < |tops| ==> exists e :: e in entries && Stamp(e) == latest && tops[i] == TopOf(e))
      && (forall i, j :: 0 <= i < j < |tops| ==>
            ToFloat(tops[i].confidence, parse).GetOr(0.0) >= ToFloat(tops[j].confidence, parse).GetOr(0.0))
  {
    var latest := LatestOf(entries, parseTime).stamp;
    var grouped := Grouped(entries, latest.value);
    var ranked := Ranked(grouped, parse);
    var tops := TopsOf(ranked);
    LastDetectionOfLatest(entries, config, counts, index, fileExists, now, parse, parseTime, repr);
    DetectionForShape(ranked, tops, config, counts, index, fileExists, now, repr);
    TopsFromGroup(grouped, parse);
    forall i | 0 <= i < |tops|
      ensures exists e :: e in entries && Stamp(e) == latest && tops[i] == TopOf(e)
    {
      var e :| e in grouped && tops[i] == TopOf(e);
      assert e in entries && Stamp(e) == latest;
    }
  }

  /** The record, when there is one, is built from the ranked entries of the latest stamp. */
  lemma LastDetectionOfLatest(entries: seq<Entry>, config: map<string, Value>, counts: map<string, nat>,
                              index: map<string, string>, fileExists: string -> bool, now: string,
                              parse: FloatParse, parseTime: string -> Option<int>, repr: FloatRepr)
    requires LastDetectionOf(entries, config, counts, index, fileExists, now, parse, parseTime, repr).Some?
    ensures LatestOf(entries, parseTime).stamp.Some?
    ensures Ranked(Grouped(entries, LatestOf(entries, parseTime).stamp.value), parse) != []
    ensures var ranked := Ranked(Grouped(entries, LatestOf(entries, parseTime).stamp.value), parse);
      LastDetectionOf(entries, config, counts, index, fileExists, now, parse, parseTime, repr)
        == Some(DetectionFor(ranked, TopsOf(ranked), config, counts, index, fileExists, now, repr))
  {
  }

  /** The top predictions of a group come from the group, most confident first. */
  lemma TopsFromGroup(grouped: seq<Entry>, parse: FloatParse)
    ensures var tops := TopsOf(Ranked(grouped, parse));
      && (forall i :: 0 <= i < |tops| ==> exists e :: e in grouped && tops[i] == TopOf(e))
      && (forall i, j :: 0 <= i < j < |tops| ==>
            ToFloat(tops[i].confidence, parse).GetOr(0.0) >= ToFloat(tops[j].confidence, parse).GetOr(0.0))
  {
    var ranked := Ranked(grouped, parse);
    var tops := TopsOf(ranked);
    RankedOrder(grouped, parse);
    forall i | 0 <= i < |tops|
      ensures exists e :: e in grouped && tops[i] == TopOf(e)
    {
      assert ranked[i] in multiset(grouped);
    }
    forall i, j | 0 <= i < j < |tops|
      ensures ToFloat(tops[i].confidence, parse).GetOr(0.0) >= ToFloat(tops[j].confidence, parse).GetOr(0.0)
    {
      assert ConfidenceKey(ranked[i], parse) >= ConfidenceKey(ranked[j], parse);
    }
  }

  /** The record's fields are read from the top entry with the defaults of `dict.get`. */
  lemma DetectionForShape(ranked: seq<Entry>, tops: seq<TopPrediction>, config: map<string, Value>,
                          counts: map<string, nat>, index: map<string, string>, fileExists: string -> bool,
                          now: string, repr: FloatRepr)
    requires ranked != []
    ensures var d := DetectionFor(ranked, tops, config, counts, index, fileExists, now, repr);
      && d.timestamp == GetField(ranked[0].timestamp, now)
      && d.species == GetField(ranked[0].species, "Unknown")
      && d.topPredictions == tops
      && d.timesHeard == HeardOf(counts, d.species)
      && d.iconUrl == TextPaths.IconUrlFor(d.species, index, fileExists, repr)
  {
  }
}
