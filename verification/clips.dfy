/**
 * The older server's best-clip index: for each species, the audio segment
 * of its most confident detection so far. `update_best_clips` goes through
 * a segment's predictions and copies the segment over a species' clip when
 * the prediction is more confident than the clip on record.
 *
 * Copying the file is the parameter `copied`: whether `shutil.copy2` of the
 * segment to the species' clip file succeeds. The clock is the parameter `now`.
 */
module Clips {
  import opened PyValues
  import opened Records
  import TextPaths

  /** A clip index entry as `update_best_clips` writes it. */
  datatype Clip = Clip(species: string, scientificName: Value, confidence: Value, timestamp: string, filename: string)

  /**
   * `float(entry.get("confidence", -1))` for the species' entry, -1.0 when
   * the species has none or its confidence is not a number.
   */
  function StoredConf(index: map<string, Clip>, species: string, parse: FloatParse): real {
    if species in index then ToFloat(index[species].confidence, parse).GetOr(-1.0) else -1.0
  }

  /** `float(prediction.get("confidence"))`, -1.0 when that raises. */
  function PredictionConf(p: Entry, parse: FloatParse): real {
    ToFloat(ConfidenceOf(p), parse).GetOr(-1.0)
  }

  /** `f"{slugify(species)}.wav"` */
  function ClipFile(species: string): string {
    TextPaths.Slugify(species) + ".wav"
  }

  /** The index after one prediction, and whether that prediction replaced a clip. */
  function ClipStep(index: map<string, Clip>, p: Entry, copied: string -> bool, now: string, parse: FloatParse)
    : (map<string, Clip>, bool)
  {
    var species := SpeciesOf(p);
    if PredictionConf(p, parse) <= StoredConf(index, species, parse) then (index, false)
    else if !copied(species) then (index, false)
    else
      var clip := Clip(species, GetField(p.scientificName, ""), ConfidenceOf(p), now, ClipFile(species));
      (index[species := clip], true)
  }

  /** The index after all the predictions, and whether any replaced a clip (and the index is saved). */
  function BestClips(index: map<string, Clip>, predictions: seq<Entry>, copied: string -> bool, now: string,
                     parse: FloatParse): (map<string, Clip>, bool)
    decreases |predictions|
  {
    if predictions == [] then (index, false)
    else
      var prev := BestClips(index, predictions[..|predictions| - 1], copied, now, parse);
      var next := ClipStep(prev.0, predictions[|predictions| - 1], copied, now, parse);
      (next.0, prev.1 || next.1)
  }

  /** `update_best_clips(segment_path, predictions)` on the loaded index. */
  method UpdateBestClips(index: map<string, Clip>, predictions: seq<Entry>, copied: string -> bool, now: string,
                         parse: FloatParse)
    returns (result: map<string, Clip>, saved: bool)
    ensures (result, saved) == BestClips(index, predictions, copied, now, parse)
  {
    result := index;
    saved := false;
    var i := 0;
    while i < |predictions|
      invariant 0 <= i <= |predictions|
      invariant (result, saved) == BestClips(index, predictions[..i], copied, now, parse)
    {
      assert predictions[..i + 1][..i] == predictions[..i];
      var prediction := predictions[i];
      var species := SpeciesOf(prediction);
      var confidence := PredictionConf(prediction, parse);
      var existing := StoredConf(result, species, parse);
      if confidence > existing {
        var filename := ClipFile(species);
        if copied(species) {
          result := result[species := Clip(species, GetField(prediction.scientificName, ""), ConfidenceOf(prediction), now, filename)];
          saved := true;
        }
      }
      i := i + 1;
    }
    assert predictions[..i] == predictions;
  }

  // ---------------------------------------------------------------- what the rule guarantees

  /**
   * One prediction replaces its species' clip only when it is strictly more
   * confident than the stored one and the copy succeeded; the new stored
   * confidence is then the prediction's, and nothing else changes.
   */
  lemma ClipStepRule(index: map<string, Clip>, p: Entry, copied: string -> bool, now: string, parse: FloatParse)
    ensures var (after, replaced) := ClipStep(index, p, copied, now, parse);
      && (replaced <==> PredictionConf(p, parse) > StoredConf(index, SpeciesOf(p), parse) && copied(SpeciesOf(p)))
      && (replaced ==>
            SpeciesOf(p) in after && StoredConf(after, SpeciesOf(p), parse) == PredictionConf(p, parse)
            && after[SpeciesOf(p)].filename == ClipFile(SpeciesOf(p)))
      && (!replaced ==> after == index)
      && (forall s :: s != SpeciesOf(p) ==> (s in after <==> s in index) && (s in index ==> after[s] == index[s]))
  {
  }

  /** One prediction never lowers a stored confidence, and leaves its own species at least as confident as itself once copied. */
  lemma ClipStepConf(index: map<string, Clip>, p: Entry, copied: string -> bool, now: string, parse: FloatParse, s: string)
    ensures var after := ClipStep(index, p, copied, now, parse).0;
      && StoredConf(after, s, parse) >= StoredConf(index, s, parse)
      && (s == SpeciesOf(p) && copied(s) ==> StoredConf(after, s, parse) >= PredictionConf(p, parse))
  {
  }

  /** A species no prediction names keeps its entry, or its absence. */
  lemma {:induction false} BestClipsOthers(index: map<string, Clip>, predictions: seq<Entry>, copied: string -> bool,
                                           now: string, parse: FloatParse, s: string)
    requires forall i :: 0 <= i < |predictions| ==> SpeciesOf(predictions[i]) != s
    ensures var after := BestClips(index, predictions, copied, now, parse).0;
      (s in after <==> s in index) && (s in index ==> after[s] == index[s])
    decreases |predictions|
  {
    if predictions != [] {
      var init := predictions[..|predictions| - 1];
      BestClipsOthers(index, init, copied, now, parse, s);
      var prev := BestClips(index, init, copied, now, parse);
      ClipStepRule(prev.0, predictions[|predictions| - 1], copied, now, parse);
    }
  }

  /** No species' stored confidence ever goes down. */
  lemma {:induction false} BestClipsMonotone(index: map<string, Clip>, predictions: seq<Entry>, copied: string -> bool,
                                             now: string, parse: FloatParse, s: string)
    ensures StoredConf(BestClips(index, predictions, copied, now, parse).0, s, parse) >= StoredConf(index, s, parse)
    decreases |predictions|
  {
    if predictions != [] {
      var init := predictions[..|predictions| - 1];
      BestClipsMonotone(index, init, copied, now, parse, s);
      var prev := BestClips(index, init, copied, now, parse);
      ClipStepConf(prev.0, predictions[|predictions| - 1], copied, now, parse, s);
    }
  }

  /**
   * The clip kept is the best one: every prediction whose copy succeeds is
   * at most as confident as what ends up stored for its species.
   */
  lemma {:induction false} BestClipsIsBest(index: map<string, Clip>, predictions: seq<Entry>, copied: string -> bool,
                                           now: string, parse: FloatParse, i: nat)
    requires i < |predictions| && copied(SpeciesOf(predictions[i]))
    ensures PredictionConf(predictions[i], parse)
      <= StoredConf(BestClips(index, predictions, copied, now, parse).0, SpeciesOf(predictions[i]), parse)
    decreases |predictions|
  {
    var init := predictions[..|predictions| - 1];
    var last := predictions[|predictions| - 1];
    var prev := BestClips(index, init, copied, now, parse);
    ClipStepConf(prev.0, last, copied, now, parse, SpeciesOf(predictions[i]));
    if i < |init| {
      assert init[i] == predictions[i];
      BestClipsIsBest(index, init, copied, now, parse, i);
    }
  }

  /** When no prediction replaced a clip, the index is not saved and is as loaded. */
  lemma {:induction false} UnsavedUnchanged(index: map<string, Clip>, predictions: seq<Entry>, copied: string -> bool,
                                           now: string, parse: FloatParse)
    ensures !BestClips(index, predictions, copied, now, parse).1 ==> BestClips(index, predictions, copied, now, parse).0 == index
    decreases |predictions|
  {
    if predictions != [] {
      var init := predictions[..|predictions| - 1];
      UnsavedUnchanged(index, init, copied, now, parse);
      var prev := BestClips(index, init, copied, now, parse);
      ClipStepRule(prev.0, predictions[|predictions| - 1], copied, now, parse);
    }
  }
}
