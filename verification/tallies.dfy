/**
 * The server's process-wide detection bookkeeping: the log revision that
 * clients poll to notice changes, the set of species heard, and the number
 * of detections per species together with the rank derived from it.
 */
module Tallies {
  import opened PyValues
  import opened Records

  // ---------------------------------------------------------------- revision

  /**
   * The revision `bump_log_revision` moves to: the clock reading in
   * milliseconds, unless that does not exceed the current revision.
   */
  function NextRevision(current: int, nowMs: int): (r: int)
    ensures r > current && r >= nowMs
    ensures r == nowMs || r == current + 1
  {
    if nowMs <= current then current + 1 else nowMs
  }

  // ---------------------------------------------------------------- species counts

  function CountOf(counts: map<string, nat>, species: string): nat {
    if species in counts then counts[species] else 0
  }

  /** `counts[species] = counts.get(species, 0) + 1` */
  function Inc(counts: map<string, nat>, species: string): map<string, nat> {
    counts[species := CountOf(counts, species) + 1]
  }

  /** The counts after the entries are added one by one, in order. */
  function AddAll(counts: map<string, nat>, entries: seq<Entry>): map<string, nat>
    decreases |entries|
  {
    if entries == [] then counts
    else Inc(AddAll(counts, entries[..|entries| - 1]), SpeciesOf(entries[|entries| - 1]))
  }

  /** The counts rebuilt from a whole log. */
  function Tally(entries: seq<Entry>): map<string, nat> {
    AddAll(map[], entries)
  }

  /** The sum of all counts. */
  ghost function Total(counts: map<string, nat>): nat
    decreases |counts.Keys|
  {
    if counts == map[] then 0
    else
      var k :| k in counts;
      counts[k] + Total(counts - {k})
  }

  lemma {:induction false} TotalRemove(counts: map<string, nat>, k: string)
    requires k in counts
    ensures Total(counts) == counts[k] + Total(counts - {k})
    decreases |counts.Keys|
  {
    var j :| j in counts && Total(counts) == counts[j] + Total(counts - {j});
    if j != k {
      var rest := counts - {j};
      TotalRemove(rest, k);
      TotalRemove(counts - {k}, j);
      assert rest - {k} == (counts - {k}) - {j};
    }
  }

  lemma {:induction false} TotalInc(counts: map<string, nat>, species: string)
    ensures Total(Inc(counts, species)) == Total(counts) + 1
  {
    var next := Inc(counts, species);
    TotalRemove(next, species);
    if species in counts {
      TotalRemove(counts, species);
      assert next - {species} == counts - {species};
    } else {
      assert next - {species} == counts;
    }
  }

  /** Each entry raises exactly its own species' count by one. */
  lemma {:induction false} AddAllCount(counts: map<string, nat>, entries: seq<Entry>, species: string)
    ensures CountOf(AddAll(counts, entries), species) == CountOf(counts, species) + Occurrences(entries, species)
    decreases |entries|
  {
    if entries != [] {
      AddAllCount(counts, entries[..|entries| - 1], species);
    }
  }

  /** The counted species are the old ones plus those of the new entries. */
  lemma {:induction false} AddAllKeys(counts: map<string, nat>, entries: seq<Entry>)
    ensures AddAll(counts, entries).Keys == counts.Keys + SpeciesNames(entries)
    decreases |entries|
  {
    if entries != [] {
      var init := entries[..|entries| - 1];
      AddAllKeys(counts, init);
      assert entries == init + [entries[|entries| - 1]];
      assert SpeciesNames(entries) == SpeciesNames(init) + {SpeciesOf(entries[|entries| - 1])};
    }
  }

  /** Adding the entries raises the sum of all counts by their number. */
  lemma {:induction false} AddAllTotal(counts: map<string, nat>, entries: seq<Entry>)
    ensures Total(AddAll(counts, entries)) == Total(counts) + |entries|
    decreases |entries|
  {
    if entries != [] {
      AddAllTotal(counts, entries[..|entries| - 1]);
      TotalInc(AddAll(counts, entries[..|entries| - 1]), SpeciesOf(entries[|entries| - 1]));
    }
  }

  /** `get_species_heard_count`: zero for an empty name or a species never counted. */
  function Heard(counts: map<string, nat>, species: string): nat {
    if species == "" then 0 else CountOf(counts, species)
  }

  /**
   * After a rebuild, every species was heard exactly as often as the log
   * names it; no entry is counted under the empty name.
   */
  lemma HeardAfterRebuild(entries: seq<Entry>, species: string)
    ensures Heard(Tally(entries), species) == Occurrences(entries, species)
  {
    if species == "" {
      NoneUnnamed(entries);
    } else {
      AddAllCount(map[], entries, species);
    }
  }

  // ---------------------------------------------------------------- rank

  /** `a` sorts before `b` under the key (-count, name). */
  predicate Precedes(counts: map<string, nat>, a: string, b: string)
    requires a in counts && b in counts
  {
    counts[a] > counts[b] || (counts[a] == counts[b] && StrLess(a, b))
  }

  /** The species that sort before `species`. */
  function Ahead(counts: map<string, nat>, species: string): set<string>
    requires species in counts
  {
    set s | s in counts.Keys && Precedes(counts, s, species)
  }

  /** The 1-based position of `species` in the counts sorted by (-count, name). */
  function Rank(counts: map<string, nat>, species: string): Option<nat> {
    if species == "" || species !in counts then None
    else Some(1 + |Ahead(counts, species)|)
  }

  lemma {:induction false} SubsetSize(a: set<string>, b: set<string>)
    requires a <= b
    ensures |a| <= |b|
    ensures a < b ==> |a| < |b|
    decreases |b|
  {
    if a != b {
      var x :| x in b && x !in a;
      SubsetSize(a, b - {x});
    }
  }

  lemma PrecedesIrreflexive(counts: map<string, nat>, a: string)
    requires a in counts
    ensures !Precedes(counts, a, a)
  {
    StrLessIrreflexive(a);
  }

  lemma PrecedesTransitive(counts: map<string, nat>, a: string, b: string, c: string)
    requires a in counts && b in counts && c in counts
    requires Precedes(counts, a, b) && Precedes(counts, b, c)
    ensures Precedes(counts, a, c)
  {
    if counts[a] == counts[b] && counts[b] == counts[c] {
      StrLessTransitive(a, b, c);
    }
  }

  /** A counted species has a rank between 1 and the number of species. */
  lemma RankBounds(counts: map<string, nat>, species: string)
    requires species != "" && species in counts
    ensures Rank(counts, species).Some?
    ensures 1 <= Rank(counts, species).value <= |counts|
  {
    PrecedesIrreflexive(counts, species);
    assert Ahead(counts, species) <= counts.Keys - {species};
    assert |counts.Keys - {species}| == |counts.Keys| - 1;
    SubsetSize(Ahead(counts, species), counts.Keys - {species});
  }

  /** A higher count, or an equal count and a smaller name, gives an earlier rank. */
  lemma RankOrder(counts: map<string, nat>, a: string, b: string)
    requires a != "" && b != "" && a in counts && b in counts
    requires Precedes(counts, a, b)
    ensures Rank(counts, a).value < Rank(counts, b).value
  {
    forall s | s in Ahead(counts, a)
      ensures s in Ahead(counts, b)
    {
      PrecedesTransitive(counts, s, a, b);
    }
    PrecedesIrreflexive(counts, a);
    assert a in Ahead(counts, b) && a !in Ahead(counts, a);
    assert Ahead(counts, a) < Ahead(counts, b);
    SubsetSize(Ahead(counts, a), Ahead(counts, b));
  }

  /** Two different species never share a rank. */
  lemma RankDistinct(counts: map<string, nat>, a: string, b: string)
    requires a != "" && b != "" && a in counts && b in counts && a != b
    ensures Rank(counts, a) != Rank(counts, b)
  {
    StrLessTotal(a, b);
    if Precedes(counts, a, b) {
      RankOrder(counts, a, b);
    } else {
      RankOrder(counts, b, a);
    }
  }

  // ---------------------------------------------------------------- the shared state

  class ServerState {
    var logRevision: int
    var speciesSet: set<string>
    var speciesCounts: map<string, nat>

    /** The revision starts at the start-up clock reading in milliseconds. */
    constructor (startMs: int)
      ensures logRevision == startMs && speciesSet == {} && speciesCounts == map[]
    {
      logRevision := startMs;
      speciesSet := {};
      speciesCounts := map[];
    }

    method BumpLogRevision(nowMs: int) returns (r: int)
      modifies this`logRevision
      ensures logRevision == NextRevision(old(logRevision), nowMs)
      ensures r == logRevision && r > old(logRevision)
    {
      var candidate := nowMs;
      if candidate <= logRevision {
        candidate := logRevision + 1;
      }
      logRevision := candidate;
      r := logRevision;
    }

    method RebuildSpeciesSet(entries: seq<Entry>)
      modifies this`speciesSet
      ensures speciesSet == SpeciesNames(entries)
    {
      var species: set<string> := {};
      var i := 0;
      while i < |entries|
        invariant 0 <= i <= |entries|
        invariant species == SpeciesNames(entries[..i])
      {
        assert entries[..i + 1] == entries[..i] + [entries[i]];
        species := species + {SpeciesOf(entries[i])};
        i := i + 1;
      }
      assert entries[..i] == entries;
      speciesSet := species;
    }

    method RebuildSpeciesCounts(entries: seq<Entry>)
      modifies this`speciesCounts
      ensures speciesCounts == Tally(entries)
    {
      var counts: map<string, nat> := map[];
      var i := 0;
      while i < |entries|
        invariant 0 <= i <= |entries|
        invariant counts == AddAll(map[], entries[..i])
      {
        assert entries[..i + 1][..i] == entries[..i];
        counts := Inc(counts, SpeciesOf(entries[i]));
        i := i + 1;
      }
      assert entries[..i] == entries;
      speciesCounts := counts;
    }

    method UpdateSpeciesSet(entries: seq<Entry>)
      modifies this`speciesSet
      ensures speciesSet == old(speciesSet) + SpeciesNames(entries)
    {
      var i := 0;
      while i < |entries|
        invariant 0 <= i <= |entries|
        invariant speciesSet == old(speciesSet) + SpeciesNames(entries[..i])
      {
        assert entries[..i + 1] == entries[..i] + [entries[i]];
        speciesSet := speciesSet + {SpeciesOf(entries[i])};
        i := i + 1;
      }
      assert entries[..i] == entries;
    }

    method UpdateSpeciesCounts(entries: seq<Entry>)
      modifies this`speciesCounts
      ensures speciesCounts == AddAll(old(speciesCounts), entries)
    {
      var i := 0;
      while i < |entries|
        invariant 0 <= i <= |entries|
        invariant speciesCounts == AddAll(old(speciesCounts), entries[..i])
      {
        assert entries[..i + 1][..i] == entries[..i];
        speciesCounts := Inc(speciesCounts, SpeciesOf(entries[i]));
        i := i + 1;
      }
      assert entries[..i] == entries;
    }

    /** `get_species_count` */
    function SpeciesCount(): nat
      reads this
    {
      |speciesSet|
    }

    /** `get_species_heard_count` on the current counts. */
    function HeardCount(species: string): (n: nat)
      reads this
      ensures n == Heard(speciesCounts, species)
    {
      Heard(speciesCounts, species)
    }

    method GetSpeciesRank(species: string) returns (rank: Option<nat>)
      ensures rank == Rank(speciesCounts, species)
    {
      if species == "" {
        return None;
      }
      var items := speciesCounts;
      if |items| == 0 || species !in items {
        return None;
      }
      var remaining := items.Keys;
      var ahead: set<string> := {};
      while remaining != {}
        invariant remaining <= items.Keys
        invariant ahead == set s | s in items.Keys && s !in remaining && Precedes(items, s, species)
        decreases |remaining|
      {
        var name :| name in remaining;
        if Precedes(items, name, species) {
          ahead := ahead + {name};
        }
        remaining := remaining - {name};
      }
      assert ahead == Ahead(items, species);
      rank := Some(1 + |ahead|);
    }
  }
}
