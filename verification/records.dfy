/**
 * Detection log records. A log entry is the JSON object the server appends
 * for each reported prediction. `dict.get` tells an absent field from one
 * present with a null value (`entry.get("species", "Unknown")` gives
 * "Unknown" for the first and None for the second), so a text field is a
 * `Field`.
 */
module Records {
  import opened PyValues

  /** A text field of a JSON object: absent, present with null, or present with a string. */
  datatype Field = Absent | JsonNull | Text(s: string)

  /** `obj.get(key)` for a text field: the string, or None when absent or null. */
  function TextOf(f: Field): Option<string> {
    if f.Text? then Some(f.s) else None
  }

  /**
   * `obj.get(key, default)` for a text field: None exactly for a null
   * field, otherwise the text `obj.get(key)` finds, or the default in its
   * place; it is truthy exactly when that text is not empty.
   */
  function GetField(f: Field, default: string): (v: Value)
    ensures v == Null <==> f.JsonNull?
    ensures v.Str? || v == Null
    ensures v.Str? ==> v.s == TextOf(f).GetOr(default)
    ensures Truthy(v) <==> !f.JsonNull? && TextOf(f).GetOr(default) != ""
  {
    match f
    case Absent => Str(default)
    case JsonNull => Null
    case Text(s) => Str(s)
  }

  /** `f"{obj.get(key, '')}"` for a text field. */
  function FieldText(f: Field): string {
    match f
    case Absent => ""
    case JsonNull => "None"
    case Text(s) => s
  }

  /** The formatted field is `str` of what `get(key, "")` gives, whatever `str` does to floats. */
  lemma FieldTextIsStr(f: Field, repr: FloatRepr)
    ensures FieldText(f) == PyStr(GetField(f, ""), repr)
  {
  }

  /** A log entry; `confidence` is None when the field is absent and may hold any scalar otherwise. */
  datatype Entry = Entry(
    species: Field,
    scientificName: Field,
    timestamp: Field,
    confidence: Option<Value>,
    location: Option<string>,
    id: Option<string>)

  /** `entry.get("species", "Unknown") or "Unknown"`: the key species are counted under. */
  function SpeciesOf(e: Entry): (s: string)
    ensures s != ""
    ensures e.species.Text? && e.species.s != "" ==> s == e.species.s
  {
    if e.species.Text? && e.species.s != "" then e.species.s else "Unknown"
  }

  /** `SpeciesOf` is `entry.get("species", "Unknown") or "Unknown"`: `or` keeps a truthy value. */
  lemma SpeciesOfGetOr(e: Entry)
    ensures var v := GetField(e.species, "Unknown");
      SpeciesOf(e) == if Truthy(v) then v.s else "Unknown"
  {
  }

  /** `entry.get("timestamp")` when it is a string. */
  function Stamp(e: Entry): Option<string> {
    TextOf(e.timestamp)
  }

  /** `entry.get("confidence")`: None (`Null`) when absent or null. */
  function ConfidenceOf(e: Entry): Value {
    e.confidence.GetOr(Null)
  }

  /** `parse_timestamp(entry.get("timestamp"))`: an empty or missing stamp is never parsed. */
  function ParsedTime(e: Entry, parse: string -> Option<int>): Option<int> {
    if Stamp(e).Some? && Stamp(e).value != "" then parse(Stamp(e).value) else None
  }

  /** How many entries are counted under `species`. */
  function Occurrences(entries: seq<Entry>, species: string): (n: nat)
    ensures n <= |entries|
  {
    if entries == [] then 0
    else Occurrences(entries[..|entries| - 1], species)
         + (if SpeciesOf(entries[|entries| - 1]) == species then 1 else 0)
  }

  /** No entry is counted under the empty name. */
  lemma {:induction false} NoneUnnamed(entries: seq<Entry>)
    ensures Occurrences(entries, "") == 0
    decreases |entries|
  {
    if entries != [] {
      NoneUnnamed(entries[..|entries| - 1]);
    }
  }

  /** Every species key the entries are counted under. */
  function SpeciesNames(entries: seq<Entry>): set<string> {
    set e | e in entries :: SpeciesOf(e)
  }

  lemma SpeciesNamesSnoc(entries: seq<Entry>, e: Entry)
    ensures SpeciesNames(entries + [e]) == SpeciesNames(entries) + {SpeciesOf(e)}
  {
    assert forall x :: x in entries + [e] <==> x in entries || x == e;
  }

  /** A line of a JSONL file is skipped when it is blank or is not JSON. */
  predicate IsBlank(line: string) {
    forall i :: 0 <= i < |line| ==> IsSpace(line[i])
  }

  /** A line is blank exactly when `line.strip()` is empty. */
  lemma BlankIffStripsEmpty(line: string)
    ensures IsBlank(line) <==> Strip(line) == ""
  {
    var l := StripLeft(line);
    StripLeftSkipsSpaces(line);
    StripRightSkipsSpaces(l);
  }

  /**
   * The records of a JSONL file in file order; `decode` stands for
   * `json.loads`, None for the JSONDecodeError it raises.
   */
  function ParseLines<T>(lines: seq<string>, decode: string -> Option<T>): (r: seq<T>)
    ensures |r| <= |lines|
  {
    if lines == [] then []
    else ParseLines(lines[..|lines| - 1], decode) + RecordOf(lines[|lines| - 1], decode)
  }

  /** The record a line holds: none for a blank line or one `decode` rejects. */
  function RecordOf<T>(line: string, decode: string -> Option<T>): (r: seq<T>)
    ensures |r| <= 1
  {
    if !IsBlank(line) && decode(line).Some? then [decode(line).value] else []
  }

  /**
   * A line whose `strip()` is empty and a line `decode` rejects are
   * skipped; any other line is its decoded record.
   */
  lemma RecordOfCases<T>(line: string, decode: string -> Option<T>)
    ensures Strip(line) == "" ==> RecordOf(line, decode) == []
    ensures Strip(line) != "" && decode(line).Some? ==> RecordOf(line, decode) == [decode(line).value]
    ensures Strip(line) != "" && decode(line).None? ==> RecordOf(line, decode) == []
  {
    BlankIffStripsEmpty(line);
  }

  lemma {:induction false} ParseLinesAppend<T>(a: seq<string>, b: seq<string>, decode: string -> Option<T>)
    ensures ParseLines(a + b, decode) == ParseLines(a, decode) + ParseLines(b, decode)
    decreases |b|
  {
    if b == [] {
      assert a + b == a;
    } else {
      assert (a + b)[..|a + b| - 1] == a + b[..|b| - 1];
      ParseLinesAppend(a, b[..|b| - 1], decode);
    }
  }

  /** Reading one more line adds that line's record, if any. */
  lemma ParseLinesNext<T>(lines: seq<string>, i: nat, decode: string -> Option<T>)
    requires i < |lines|
    ensures ParseLines(lines[..i + 1], decode) == ParseLines(lines[..i], decode) + RecordOf(lines[i], decode)
  {
    assert lines[..i + 1][..i] == lines[..i];
  }
}
