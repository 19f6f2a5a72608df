/**
 * One analysed segment: the predictions read back from BirdNET's CSV
 * output (`extract_predictions`), the check on the command template
 * (`build_birdnet_command`), and the split of the predictions at the
 * report threshold (`analyze_segment`).
 *
 * A CSV row is a map from column name to cell text; a cell that
 * `csv.DictReader` fills with None (a short row) is a missing key. Python's
 * `float` on the cell text is the parameter `parse`.
 */
module Analysis {
  import opened PyValues
  import opened Ordering

  /** One prediction as `extract_predictions` returns it. */
  datatype Prediction = Prediction(species: string, scientificName: string, confidence: real)

  // ---------------------------------------------------------------- header matching

  /** `normalize_header(value)`: stripped, lower-cased, underscores read as spaces. */
  function NormalizeHeader(s: string): string {
    ReplaceChar(Lower(Strip(s)), '_', ' ')
  }

  /** A normalised header has no underscore left, and normalising ignores case. */
  lemma NormalizeHeaderSpec(s: string)
    ensures forall i :: 0 <= i < |NormalizeHeader(s)| ==> NormalizeHeader(s)[i] != '_'
    ensures NormalizeHeader(Lower(s)) == NormalizeHeader(s)
  {
    forall i | 0 <= i < |NormalizeHeader(s)|
      ensures NormalizeHeader(s)[i] != '_'
    {
      ReplaceCharAt(Lower(Strip(s)), '_', ' ', i);
    }
    StripLower(s);
    LowerIdempotent(Strip(s));
  }

  /**
   * `{norm(name): name for name in fieldnames}`: a later column wins a
   * clash. The lemmas below hold for any normaliser `norm`.
   */
  function HeaderMapBy(fieldnames: seq<string>, norm: string -> string): map<string, string>
    decreases |fieldnames|
  {
    if fieldnames == [] then map[]
    else
      var last := fieldnames[|fieldnames| - 1];
      HeaderMapBy(fieldnames[..|fieldnames| - 1], norm)[norm(last) := last]
  }

  /** `header_map` of `extract_predictions`. */
  function HeaderMap(fieldnames: seq<string>): map<string, string> {
    HeaderMapBy(fieldnames, NormalizeHeader)
  }

  /** The header map holds exactly the normalised headers. */
  lemma {:induction false} HeaderMapKeys(fieldnames: seq<string>, norm: string -> string, key: string)
    ensures key in HeaderMapBy(fieldnames, norm) <==> exists j :: 0 <= j < |fieldnames| && norm(fieldnames[j]) == key
    decreases |fieldnames|
  {
    if fieldnames != [] {
      var n := |fieldnames| - 1;
      var init := fieldnames[..n];
      HeaderMapKeys(init, norm, key);
      if exists j :: 0 <= j < |fieldnames| && norm(fieldnames[j]) == key {
        var j :| 0 <= j < |fieldnames| && norm(fieldnames[j]) == key;
        if j < n {
          assert init[j] == fieldnames[j];
        }
      }
      if key in HeaderMapBy(init, norm) {
        var j :| 0 <= j < |init| && norm(init[j]) == key;
        assert fieldnames[j] == init[j];
      }
    }
  }

  /** Column `j` is the last one whose header normalises to `key`. */
  predicate LastWithKey(fieldnames: seq<string>, norm: string -> string, key: string, j: int) {
    0 <= j < |fieldnames| && norm(fieldnames[j]) == key
    && forall k :: j < k < |fieldnames| ==> norm(fieldnames[k]) != key
  }

  /** Each normalised header maps to the last column whose header normalises to it. */
  lemma {:induction false} HeaderMapValue(fieldnames: seq<string>, norm: string -> string, key: string)
    requires key in HeaderMapBy(fieldnames, norm)
    ensures exists j :: LastWithKey(fieldnames, norm, key, j) && HeaderMapBy(fieldnames, norm)[key] == fieldnames[j]
    decreases |fieldnames|
  {
    var n := |fieldnames| - 1;
    var init := fieldnames[..n];
    if norm(fieldnames[n]) == key {
      assert LastWithKey(fieldnames, norm, key, n);
    } else {
      HeaderMapValue(init, norm, key);
      var j :| LastWithKey(init, norm, key, j) && HeaderMapBy(init, norm)[key] == init[j];
      assert fieldnames[j] == init[j];
      assert LastWithKey(fieldnames, norm, key, j);
    }
  }

  /** `pick(*options)`: the column of the first option whose normalised form is in the header map. */
  function PickBy(headers: map<string, string>, options: seq<string>, norm: string -> string): (r: Option<string>)
    ensures r.None? <==> forall i :: 0 <= i < |options| ==> norm(options[i]) !in headers
    ensures r.Some? ==>
      exists i :: 0 <= i < |options| && norm(options[i]) in headers && r.value == headers[norm(options[i])]
        && forall k :: 0 <= k < i ==> norm(options[k]) !in headers
    decreases |options|
  {
    if options == [] then None
    else if norm(options[0]) in headers then Some(headers[norm(options[0])])
    else
      var r := PickBy(headers, options[1..], norm);
      assert forall i :: 1 <= i < |options| ==> options[1..][i - 1] == options[i];
      r
  }

  function Pick(headers: map<string, string>, options: seq<string>): Option<string> {
    PickBy(headers, options, NormalizeHeader)
  }

  const CommonOptions: seq<string> := ["common name", "common_name", "species"]
  const ScientificOptions: seq<string> := ["scientific name", "scientific_name"]
  const ConfidenceOptions: seq<string> := ["confidence", "score", "probability"]

  /** The columns read for the common name, the scientific name and the confidence. */
  datatype Columns = Columns(common: Option<string>, scientific: Option<string>, confidence: Option<string>)

  function ColumnsOf(fieldnames: seq<string>): Columns {
    var headers := HeaderMap(fieldnames);
    Columns(Pick(headers, CommonOptions), Pick(headers, ScientificOptions), Pick(headers, ConfidenceOptions))
  }

  /** No column is picked exactly when no option matches any column's header. */
  lemma PickMissing(fieldnames: seq<string>, options: seq<string>, norm: string -> string)
    ensures PickBy(HeaderMapBy(fieldnames, norm), options, norm).None? <==>
      forall i, j :: 0 <= i < |options| && 0 <= j < |fieldnames| ==> norm(options[i]) != norm(fieldnames[j])
  {
    forall i | 0 <= i < |options|
      ensures norm(options[i]) in HeaderMapBy(fieldnames, norm) <==>
        exists j :: 0 <= j < |fieldnames| && norm(fieldnames[j]) == norm(options[i])
    {
      HeaderMapKeys(fieldnames, norm, norm(options[i]));
    }
  }

  /** A picked column is one of the CSV's own columns, and its header matches an option. */
  lemma PickFound(fieldnames: seq<string>, options: seq<string>, norm: string -> string)
    requires PickBy(HeaderMapBy(fieldnames, norm), options, norm).Some?
    ensures var c := PickBy(HeaderMapBy(fieldnames, norm), options, norm).value;
      c in fieldnames && exists i :: 0 <= i < |options| && norm(options[i]) == norm(c)
  {
    var headers := HeaderMapBy(fieldnames, norm);
    var c := PickBy(headers, options, norm).value;
    var i :| 0 <= i < |options| && norm(options[i]) in headers && c == headers[norm(options[i])];
    HeaderMapValue(fieldnames, norm, norm(options[i]));
  }

  /** The first option that matches some column decides which column is picked. */
  lemma PickFirst(fieldnames: seq<string>, options: seq<string>, norm: string -> string, i: nat, j: nat)
    requires i < |options| && j < |fieldnames| && norm(options[i]) == norm(fieldnames[j])
    requires forall k, m :: 0 <= k < i && 0 <= m < |fieldnames| ==> norm(options[k]) != norm(fieldnames[m])
    ensures norm(options[i]) in HeaderMapBy(fieldnames, norm)
    ensures PickBy(HeaderMapBy(fieldnames, norm), options, norm) == Some(HeaderMapBy(fieldnames, norm)[norm(options[i])])
  {
    var headers := HeaderMapBy(fieldnames, norm);
    HeaderMapKeys(fieldnames, norm, norm(options[i]));
    forall k | 0 <= k < i
      ensures norm(options[k]) !in headers
    {
      HeaderMapKeys(fieldnames, norm, norm(options[k]));
    }
  }

  // ---------------------------------------------------------------- rows

  /** `row.get(key) or ""` */
  function Cell(row: map<string, string>, key: Option<string>): string {
    if key.Some? && key.value in row then row[key.value] else ""
  }

  /** `(row.get(common_key) or "").strip() or "Unknown"` */
  function SpeciesCell(row: map<string, string>, key: Option<string>): (r: string)
    ensures r != ""
    ensures Strip(Cell(row, key)) != "" ==> r == Strip(Cell(row, key))
  {
    var s := Strip(Cell(row, key));
    if s == "" then "Unknown" else s
  }

  /**
   * The prediction a row gives, None when the row is skipped: it is empty,
   * or `float(row.get(confidence_key, ""))` raises.
   */
  function PredictionOf(row: map<string, string>, columns: Columns, parse: FloatParse): (r: Option<Prediction>)
    ensures r.Some? ==>
      columns.confidence.Some? && columns.confidence.value in row
      && parse(row[columns.confidence.value]) == Some(r.value.confidence)
    ensures r.Some? ==> r.value.species != ""
  {
    if row == map[] then None
    else if columns.confidence.None? || columns.confidence.value !in row then None
    else
      match parse(row[columns.confidence.value])
      case None => None
      case Some(c) => Some(Prediction(SpeciesCell(row, columns.common), Strip(Cell(row, columns.scientific)), c))
  }

  /** The predictions of the rows, in file order. */
  function Collected(rows: seq<map<string, string>>, columns: Columns, parse: FloatParse): seq<Prediction> {
    Somes(rows, row => PredictionOf(row, columns, parse))
  }

  lemma CollectedNext(rows: seq<map<string, string>>, i: nat, columns: Columns, parse: FloatParse)
    requires i < |rows|
    ensures Collected(rows[..i + 1], columns, parse)
      == Collected(rows[..i], columns, parse) + OptionSeq(PredictionOf(rows[i], columns, parse))
  {
    SomesNext(rows, i, row => PredictionOf(row, columns, parse));
  }

  /** A prediction is collected exactly when some row gives it. */
  lemma CollectedSpec(rows: seq<map<string, string>>, columns: Columns, parse: FloatParse, p: Prediction)
    ensures p in Collected(rows, columns, parse) <==>
      exists i :: 0 <= i < |rows| && PredictionOf(rows[i], columns, parse) == Some(p)
  {
    SomesSpec(rows, row => PredictionOf(row, columns, parse), p);
  }

  /** Each prediction with its sort key, `item.get("confidence", 0)`. */
  function Keyed(predictions: seq<Prediction>): (r: seq<(real, Prediction)>)
    ensures |r| == |predictions|
    ensures forall i :: 0 <= i < |r| ==> r[i] == (predictions[i].confidence, predictions[i])
  {
    seq(|predictions|, i requires 0 <= i < |predictions| => (predictions[i].confidence, predictions[i]))
  }

  /** `extract_predictions(csv_path)` on the header and rows of the file. */
  /** `predictions.sort(key=lambda item: item.get("confidence", 0), reverse=True)` */
  function Ranked(predictions: seq<Prediction>): (r: seq<Prediction>)
    ensures |r| == |predictions|
  {
    Items(SortDesc(Keyed(predictions)))
  }

  /** `extract_predictions(csv_path)` on the header and rows of the file. */
  function ExtractedOf(fieldnames: seq<string>, rows: seq<map<string, string>>, parse: FloatParse)
    : (r: seq<Prediction>)
    ensures fieldnames == [] ==> r == []
    ensures |r| <= |rows|
  {
    if fieldnames == [] then [] else Ranked(Collected(rows, ColumnsOf(fieldnames), parse))
  }

  /** The row loop of `extract_predictions`. */
  method CollectRows(rows: seq<map<string, string>>, columns: Columns, parse: FloatParse)
    returns (collected: seq<Prediction>)
    ensures collected == Collected(rows, columns, parse)
  {
    collected := [];
    var i := 0;
    while i < |rows|
      invariant 0 <= i <= |rows|
      invariant collected == Collected(rows[..i], columns, parse)
    {
      CollectedNext(rows, i, columns, parse);
      var p := PredictionOf(rows[i], columns, parse);
      if p.Some? {
        collected := collected + [p.value];
      }
      i := i + 1;
    }
    assert rows[..i] == rows;
  }

  /** `extract_predictions`. */
  method ExtractPredictions(fieldnames: seq<string>, rows: seq<map<string, string>>, parse: FloatParse)
    returns (predictions: seq<Prediction>)
    ensures predictions == ExtractedOf(fieldnames, rows, parse)
  {
    if fieldnames == [] {
      return [];
    }
    var collected := CollectRows(rows, ColumnsOf(fieldnames), parse);
    predictions := Ranked(collected);
  }

  // ---------------------------------------------------------------- what extraction promises

  /** Without a confidence column every row is skipped. */
  lemma NoConfidenceColumn(rows: seq<map<string, string>>, columns: Columns, parse: FloatParse)
    requires columns.confidence.None?
    ensures Collected(rows, columns, parse) == []
  {
    var c := Collected(rows, columns, parse);
    if c != [] {
      CollectedSpec(rows, columns, parse, c[0]);
    }
  }

  lemma KeyedItems(predictions: seq<Prediction>)
    ensures Items(Keyed(predictions)) == predictions
  {
  }

  /** The ranking puts the predictions most confident first and keeps each of them, as often as it occurs. */
  lemma RankedSpec(predictions: seq<Prediction>)
    ensures var r := Ranked(predictions);
      && (forall i, j :: 0 <= i < j < |r| ==> r[i].confidence >= r[j].confidence)
      && multiset(r) == multiset(predictions)
  {
    var keyed := Keyed(predictions);
    var sorted := SortDesc(keyed);
    SortDescSpec(keyed);
    forall i | 0 <= i < |sorted|
      ensures sorted[i].0 == sorted[i].1.confidence
    {
      assert sorted[i] in multiset(keyed);
      var j :| 0 <= j < |keyed| && keyed[j] == sorted[i];
    }
    SortDescItems(keyed);
    KeyedItems(predictions);
  }

  /**
   * A prediction is returned exactly when some row gives it, and its species
   * is never blank.
   */
  lemma ExtractedRows(rows: seq<map<string, string>>, columns: Columns, parse: FloatParse, p: Prediction)
    ensures p in Ranked(Collected(rows, columns, parse)) <==>
      exists i :: 0 <= i < |rows| && PredictionOf(rows[i], columns, parse) == Some(p)
    ensures p in Ranked(Collected(rows, columns, parse)) ==> p.species != ""
  {
    var c := Collected(rows, columns, parse);
    RankedSpec(c);
    var r := Ranked(c);
    assert p in r <==> p in multiset(r);
    assert p in c <==> p in multiset(c);
    CollectedSpec(rows, columns, parse, p);
  }

  // ---------------------------------------------------------------- the command template

  const TemplateError: string := "BIRDNET_TEMPLATE must include {input} and {output}."

  /** The ValueError `build_birdnet_command` raises, None when the template is accepted. */
  function TemplateCheck(template: string): Option<string> {
    if !Contains(template, "{input}") || !Contains(template, "{output}") then Some(TemplateError) else None
  }

  /**
   * The template is accepted exactly when both placeholders occur in it,
   * and refused with the one message otherwise.
   */
  lemma TemplateCheckSpec(template: string)
    ensures TemplateCheck(template).None? <==>
      (exists i: nat :: OccursAt(template, "{input}", i)) && (exists j: nat :: OccursAt(template, "{output}", j))
    ensures TemplateCheck(template).Some? ==> TemplateCheck(template).value == TemplateError
  {
    if Contains(template, "{input}") {
      ContainsFound(template, "{input}");
    }
    if Contains(template, "{output}") {
      ContainsFound(template, "{output}");
    }
    if exists i: nat :: OccursAt(template, "{input}", i) {
      var i: nat :| OccursAt(template, "{input}", i);
      ContainsWitness(template, "{input}", i);
    }
    if exists j: nat :: OccursAt(template, "{output}", j) {
      var j: nat :| OccursAt(template, "{output}", j);
      ContainsWitness(template, "{output}", j);
    }
  }

  lemma {:induction false} ContainsFirstChar(s: string, sub: string)
    requires sub != [] && Contains(s, sub)
    ensures sub[0] in s
    decreases |s|
  {
    if !StartsWith(s, sub) {
      ContainsFirstChar(s[1..], sub);
    }
  }

  /** A template naming both placeholders is accepted, wherever they stand. */
  lemma TemplateAccepted(a: string, b: string, c: string)
    ensures TemplateCheck(a + "{input}" + b + "{output}" + c).None?
  {
    var t := a + "{input}" + b + "{output}" + c;
    assert t[|a|..|a| + 7] == "{input}";
    ContainsWitness(t, "{input}", |a|);
    var k := |a| + 7 + |b|;
    assert t[k..k + 8] == "{output}";
    ContainsWitness(t, "{output}", k);
  }

  /** A template without a brace is refused. */
  lemma TemplateWithoutBraceRejected(template: string)
    requires '{' !in template
    ensures TemplateCheck(template) == Some(TemplateError)
  {
    if Contains(template, "{input}") {
      ContainsFirstChar(template, "{input}");
    }
  }

  // ---------------------------------------------------------------- the report threshold

  /** `[item for item in predictions if item["confidence"] >= threshold]` */
  function AtLeast(predictions: seq<Prediction>, threshold: real): (r: seq<Prediction>)
    ensures |r| <= |predictions|
    decreases |predictions|
  {
    if predictions == [] then []
    else (if predictions[0].confidence >= threshold then [predictions[0]] else []) + AtLeast(predictions[1..], threshold)
  }

  /** `[item for item in predictions if item["confidence"] < threshold]` */
  function Under(predictions: seq<Prediction>, threshold: real): (r: seq<Prediction>)
    ensures |r| <= |predictions|
    decreases |predictions|
  {
    if predictions == [] then []
    else (if predictions[0].confidence < threshold then [predictions[0]] else []) + Under(predictions[1..], threshold)
  }

  /** What `analyze_segment` reports for the segment. */
  datatype Report = Report(above: seq<Prediction>, below: seq<Prediction>, status: string)

  const Detected: string := "Detected"
  const NoDetections: string := "No detections"

  /** The first three predictions on each side of the threshold, and the status that follows. */
  function Partition(predictions: seq<Prediction>, threshold: real): (r: Report)
    ensures |r.above| <= 3 && |r.below| <= 3
    ensures r.status == (if r.above != [] then Detected else NoDetections)
  {
    var above := Prefix(AtLeast(predictions, threshold), 3);
    var below := Prefix(Under(predictions, threshold), 3);
    Report(above, below, if above != [] then Detected else NoDetections)
  }

  lemma {:induction false} AtLeastSpec(predictions: seq<Prediction>, threshold: real, p: Prediction)
    ensures p in AtLeast(predictions, threshold) <==> p in predictions && p.confidence >= threshold
    decreases |predictions|
  {
    if predictions != [] {
      AtLeastSpec(predictions[1..], threshold, p);
      assert predictions == [predictions[0]] + predictions[1..];
    }
  }

  lemma {:induction false} UnderSpec(predictions: seq<Prediction>, threshold: real, p: Prediction)
    ensures p in Under(predictions, threshold) <==> p in predictions && p.confidence < threshold
    decreases |predictions|
  {
    if predictions != [] {
      UnderSpec(predictions[1..], threshold, p);
      assert predictions == [predictions[0]] + predictions[1..];
    }
  }

  /**
   * Every reported prediction is on its side of the threshold and among the
   * segment's predictions, the two sides share none, and the segment counts
   * as detected exactly when some prediction reaches the threshold.
   */
  lemma PartitionSpec(predictions: seq<Prediction>, threshold: real)
    ensures var r := Partition(predictions, threshold);
      && (forall p :: p in r.above ==> p in predictions && p.confidence >= threshold)
      && (forall p :: p in r.below ==> p in predictions && p.confidence < threshold)
      && (forall p :: p in r.above ==> p !in r.below)
      && (r.status == Detected <==> exists p :: p in predictions && p.confidence >= threshold)
  {
    var r := Partition(predictions, threshold);
    var above := AtLeast(predictions, threshold);
    var below := Under(predictions, threshold);
    forall p | p in r.above
      ensures p in predictions && p.confidence >= threshold
    {
      AtLeastSpec(predictions, threshold, p);
    }
    forall p | p in r.below
      ensures p in predictions && p.confidence < threshold
    {
      UnderSpec(predictions, threshold, p);
    }
    if exists p :: p in predictions && p.confidence >= threshold {
      var p :| p in predictions && p.confidence >= threshold;
      AtLeastSpec(predictions, threshold, p);
      assert above != [];
      assert r.above[0] == above[0];
    }
    if r.above != [] {
      assert r.above[0] in r.above;
    }
  }

  /** On predictions sorted most confident first, those at the threshold lead the list. */
  lemma {:induction false} SortedAtLeastIsHead(predictions: seq<Prediction>, threshold: real)
    requires forall i, j :: 0 <= i < j < |predictions| ==> predictions[i].confidence >= predictions[j].confidence
    ensures var a := AtLeast(predictions, threshold);
      a == predictions[..|a|]
    decreases |predictions|
  {
    if predictions != [] {
      var rest := predictions[1..];
      SortedAtLeastIsHead(rest, threshold);
      if predictions[0].confidence < threshold {
        AtLeastNone(rest, threshold, predictions[0].confidence);
      }
    }
  }

  lemma {:induction false} AtLeastNone(predictions: seq<Prediction>, threshold: real, bound: real)
    requires bound < threshold
    requires forall i :: 0 <= i < |predictions| ==> predictions[i].confidence <= bound
    ensures AtLeast(predictions, threshold) == []
    decreases |predictions|
  {
    if predictions != [] {
      AtLeastNone(predictions[1..], threshold, bound);
    }
  }

  /**
   * Applied to ranked predictions, the reported detections are the most
   * confident predictions, up to three, in order.
   */
  lemma ReportedAreTop(predictions: seq<Prediction>, threshold: real)
    ensures var ranked := Ranked(predictions);
      var above := Partition(ranked, threshold).above;
      above == ranked[..|above|]
  {
    RankedSpec(predictions);
    SortedAtLeastIsHead(Ranked(predictions), threshold);
  }
}
