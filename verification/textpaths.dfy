/**
 * Names turned into file names and keys: `slugify`, the species key the
 * icon table is indexed by, the icon table's load and save filters, the
 * icon URL, and the validation `save_species_icon` performs before it
 * writes anything.
 */
module TextPaths {
  import opened PyValues

  // ---------------------------------------------------------------- slugify

  predicate IsAlnum(c: char) { IsDigit(c) || IsLower(c) || IsUpper(c) }

  /** The characters a slug is made of. */
  predicate IsSlugChar(c: char) { IsDigit(c) || IsLower(c) || c == '-' }

  predicate NoUpper(s: string) { forall i :: 0 <= i < |s| ==> !IsUpper(s[i]) }

  /** The letters and digits of `s`, in order. */
  function Alnums(s: string): string {
    if s == [] then [] else (if IsAlnum(s[0]) then [s[0]] else []) + Alnums(s[1..])
  }

  lemma {:induction false} AlnumsAppend(a: string, b: string)
    ensures Alnums(a + b) == Alnums(a) + Alnums(b)
  {
    if a == [] {
      assert a + b == b;
    } else {
      var first := if IsAlnum(a[0]) then [a[0]] else [];
      assert (a + b)[0] == a[0];
      calc {
        Alnums(a + b);
        first + Alnums((a + b)[1..]);
        { assert (a + b)[1..] == a[1..] + b; }
        first + Alnums(a[1..] + b);
        { AlnumsAppend(a[1..], b); }
        first + (Alnums(a[1..]) + Alnums(b));
        Alnums(a) + Alnums(b);
      }
    }
  }

  /** Drops a leading run of characters other than letters and digits. */
  function SkipRun(s: string): (r: string)
    ensures |r| <= |s| && r == s[|s| - |r|..]
    ensures r == [] || IsAlnum(r[0])
    ensures s != [] && !IsAlnum(s[0]) ==> |r| < |s|
  {
    if s != [] && !IsAlnum(s[0]) then SkipRun(s[1..]) else s
  }

  lemma {:induction false} SkipRunAlnums(s: string)
    ensures Alnums(SkipRun(s)) == Alnums(s)
  {
    if s != [] && !IsAlnum(s[0]) {
      SkipRunAlnums(s[1..]);
    }
  }

  /**
   * `re.sub(r"[^a-zA-Z0-9]+", "-", s)`: each maximal run of characters
   * other than ASCII letters and digits becomes a single '-'.
   */
  function Dash(s: string): (r: string)
    ensures r != [] && r[0] == '-' ==> s != [] && !IsAlnum(s[0])
    decreases |s|
  {
    if s == [] then []
    else if IsAlnum(s[0]) then [s[0]] + Dash(s[1..])
    else "-" + Dash(SkipRun(s))
  }

  /** Lower-case letters, digits and '-', never two '-' in a row. */
  predicate SlugBody(r: string) {
    && (forall i :: 0 <= i < |r| ==> IsSlugChar(r[i]))
    && (forall i :: 0 <= i < |r| - 1 ==> !(r[i] == '-' && r[i + 1] == '-'))
  }

  /** Dashing a name without capitals leaves only slug characters and single dashes. */
  lemma {:induction false} DashBody(s: string)
    requires NoUpper(s)
    ensures SlugBody(Dash(s))
    decreases |s|
  {
    if s != [] {
      if IsAlnum(s[0]) {
        assert SlugBody(Dash(s)) by {
          DashBody(s[1..]);
          var rest := Dash(s[1..]);
          assert Dash(s) == [s[0]] + rest;
          assert !IsUpper(s[0]);
          ConsBody(s[0], rest);
        }
      } else {
        var t := SkipRun(s);
        assert NoUpper(t) by {
          forall i | 0 <= i < |t|
            ensures !IsUpper(t[i])
          {
            assert t[i] == s[|s| - |t| + i];
          }
        }
        assert SlugBody(Dash(s)) by {
          DashBody(t);
          var rest := Dash(t);
          assert rest == [] || rest[0] != '-';
          assert Dash(s) == ['-'] + rest;
          ConsBody('-', rest);
        }
      }
    }
  }

  /** A slug character before a slug body, other than a '-' before a '-', gives a slug body. */
  lemma ConsBody(c: char, rest: string)
    requires IsSlugChar(c) && SlugBody(rest)
    requires c == '-' ==> rest == [] || rest[0] != '-'
    ensures SlugBody([c] + rest)
  {
    var r := [c] + rest;
    forall i | 0 <= i < |r|
      ensures IsSlugChar(r[i])
    {
      if i > 0 {
        assert r[i] == rest[i - 1];
      }
    }
    forall i | 0 <= i < |r| - 1
      ensures !(r[i] == '-' && r[i + 1] == '-')
    {
      assert r[i + 1] == rest[i];
      if i > 0 {
        assert r[i] == rest[i - 1];
      }
    }
  }

  lemma {:induction false} DashAlnums(s: string)
    ensures Alnums(Dash(s)) == Alnums(s)
    decreases |s|
  {
    if s != [] {
      if IsAlnum(s[0]) {
        DashAlnums(s[1..]);
        assert ([s[0]] + Dash(s[1..]))[1..] == Dash(s[1..]);
      } else {
        DashAlnums(SkipRun(s));
        SkipRunAlnums(s);
        assert ("-" + Dash(SkipRun(s)))[1..] == Dash(SkipRun(s));
      }
    }
  }

  function TrimDashLeft(s: string): (r: string)
    ensures |r| <= |s| && r == s[|s| - |r|..]
    ensures r == [] || r[0] != '-'
  {
    if s != [] && s[0] == '-' then TrimDashLeft(s[1..]) else s
  }

  function TrimDashRight(s: string): (r: string)
    ensures |r| <= |s| && r == s[..|r|]
    ensures r == [] || r[|r| - 1] != '-'
  {
    if s != [] && s[|s| - 1] == '-' then TrimDashRight(s[..|s| - 1]) else s
  }

  lemma DashNotAlnum()
    ensures !IsAlnum('-')
  {
  }

  lemma {:induction false} TrimDashLeftAlnums(s: string)
    ensures Alnums(TrimDashLeft(s)) == Alnums(s)
  {
    if s != [] && s[0] == '-' {
      var rest := s[1..];
      TrimDashLeftAlnums(rest);
      assert TrimDashLeft(s) == TrimDashLeft(rest);
      assert !IsAlnum(s[0]) by {
        DashNotAlnum();
      }
      assert Alnums(s) == Alnums(rest);
    }
  }

  lemma {:induction false} TrimDashRightAlnums(s: string)
    ensures Alnums(TrimDashRight(s)) == Alnums(s)
  {
    if s != [] && s[|s| - 1] == '-' {
      var init := s[..|s| - 1];
      TrimDashRightAlnums(init);
      assert TrimDashRight(s) == TrimDashRight(init);
      assert s == init + ['-'];
      AlnumsAppend(init, ['-']);
      assert Alnums(['-']) == [];
    }
  }

  /** A slice of a slug body is a slug body. */
  lemma SlugBodySlice(d: string, lo: int, hi: int, t: string)
    requires 0 <= lo <= hi <= |d| && SlugBody(d) && t == d[lo..hi]
    ensures SlugBody(t)
  {
    forall i | 0 <= i < |t|
      ensures IsSlugChar(t[i])
    {
      assert t[i] == d[lo + i];
    }
    forall i | 0 <= i < |t| - 1
      ensures !(t[i] == '-' && t[i + 1] == '-')
    {
      assert t[i] == d[lo + i] && t[i + 1] == d[lo + i + 1];
    }
  }

  /** `s.strip("-")` */
  function TrimDashes(s: string): string {
    TrimDashRight(TrimDashLeft(s))
  }

  /** `slugify`: a file-name-safe form of a species name. */
  function Slugify(value: string): string {
    var t := TrimDashes(Dash(Lower(Strip(value))));
    if t == [] then "unknown" else t
  }

  lemma TrimmedSlug(d: string)
    requires SlugBody(d)
    ensures SlugBody(TrimDashRight(TrimDashLeft(d)))
  {
    var l := TrimDashLeft(d);
    var t := TrimDashRight(l);
    TrimmedSlice(d);
    SlugBodySlice(d, |d| - |l|, |d| - |l| + |t|, t);
  }

  /** The trimmed string is the slice of `s` between the dashes cut at either end. */
  lemma TrimmedSlice(s: string)
    ensures var l := TrimDashLeft(s);
      var t := TrimDashRight(l);
      |s| - |l| + |t| <= |s| && t == s[|s| - |l|..|s| - |l| + |t|]
  {
    var l := TrimDashLeft(s);
    var t := TrimDashRight(l);
    SliceOfSuffix(s, |s| - |l|, |t|);
  }

  lemma SliceOfSuffix(s: string, a: nat, k: nat)
    requires a + k <= |s|
    ensures s[a..][..k] == s[a..a + k]
  {
  }

  /** Trimming the dashes off a slug body leaves a slug body that neither starts nor ends with '-'. */
  lemma TrimmedBody(d: string)
    requires SlugBody(d)
    ensures var t := TrimDashes(d);
      SlugBody(t) && (t == [] || (t[0] != '-' && t[|t| - 1] != '-'))
  {
    var l := TrimDashLeft(d);
    var t := TrimDashRight(l);
    TrimmedSlug(d);
    if t != [] {
      assert t[0] != '-' by {
        assert t[0] == l[0];
      }
    }
  }

  /** Lower-casing leaves no capital letter. */
  lemma LowerNoUpper(s: string)
    ensures NoUpper(Lower(s))
  {
    forall i | 0 <= i < |s|
      ensures !IsUpper(Lower(s)[i])
    {
      LowerAt(s, i);
    }
  }

  /**
   * A slug is never empty, is made of lower-case letters, digits and '-',
   * neither starts nor ends with '-', and has no two '-' in a row.
   */
  lemma SlugifyShape(value: string)
    ensures var r := Slugify(value);
      r != [] && SlugBody(r) && r[0] != '-' && r[|r| - 1] != '-'
  {
    var lowered := Lower(Strip(value));
    LowerNoUpper(Strip(value));
    DashBody(lowered);
    TrimmedBody(Dash(lowered));
  }

  /**
   * The slug keeps exactly the letters and digits of the lower-cased
   * name, in order; a name without any becomes "unknown".
   */
  lemma SlugifyKeepsAlnums(value: string)
    ensures var a := Alnums(Lower(Strip(value)));
      a != [] ==> Alnums(Slugify(value)) == a
    ensures Alnums(Lower(Strip(value))) == [] ==> Slugify(value) == "unknown"
  {
    var d := Dash(Lower(Strip(value)));
    var t := TrimDashes(d);
    DashAlnums(Lower(Strip(value)));
    TrimDashLeftAlnums(d);
    TrimDashRightAlnums(TrimDashLeft(d));
    if t != [] {
      assert t[0] != '-' && IsAlnum(t[0]);
      assert Alnums(t) == [t[0]] + Alnums(t[1..]);
    }
  }

  // ---------------------------------------------------------------- icon index

  /** `normalize_species_key` */
  function NormalizeSpeciesKey(v: Value, repr: FloatRepr): string {
    LowerText(v, repr)
  }

  /** A normalised key is its own key. */
  lemma NormalizeSpeciesKeyIdempotent(v: Value, repr: FloatRepr)
    ensures NormalizeSpeciesKey(Str(NormalizeSpeciesKey(v, repr)), repr) == NormalizeSpeciesKey(v, repr)
  {
    LowerTextIdempotent(v, repr);
  }

  /** `str(v or "").strip()` */
  function StripText(v: Value, repr: FloatRepr): string {
    Strip(TextOrEmpty(v, repr))
  }

  /** One pass of the loop in `load_icon_index` over a (species_key, filename) row. */
  function IndexRow(index: map<string, string>, row: (Value, Value), repr: FloatRepr): map<string, string> {
    IndexPut(index, NormalizeSpeciesKey(row.0, repr), StripText(row.1, repr))
  }

  /** `if key and filename: index[key] = filename` */
  function IndexPut(index: map<string, string>, key: string, filename: string): map<string, string> {
    if key != [] && filename != [] then index[key := filename] else index
  }

  /** The icon index the table's rows give, later rows winning. */
  function IconIndexOf(rows: seq<(Value, Value)>, repr: FloatRepr): map<string, string>
    decreases |rows|
  {
    if rows == [] then map[]
    else IndexRow(IconIndexOf(rows[..|rows| - 1], repr), rows[|rows| - 1], repr)
  }

  /** Every key of the index is a non-empty normalised key and every file name is non-empty and stripped. */
  predicate WellFormedIndex(index: map<string, string>, repr: FloatRepr) {
    forall key :: key in index ==>
      && key != [] && NormalizeSpeciesKey(Str(key), repr) == key
      && index[key] != [] && Strip(index[key]) == index[key]
  }

  lemma {:induction false} IconIndexWellFormed(rows: seq<(Value, Value)>, repr: FloatRepr)
    ensures WellFormedIndex(IconIndexOf(rows, repr), repr)
    decreases |rows|
  {
    if rows != [] {
      IconIndexWellFormed(rows[..|rows| - 1], repr);
      IndexRowWellFormed(IconIndexOf(rows[..|rows| - 1], repr), rows[|rows| - 1], repr);
    }
  }

  /** One row keeps the index well formed. */
  lemma IndexRowWellFormed(index: map<string, string>, row: (Value, Value), repr: FloatRepr)
    requires WellFormedIndex(index, repr)
    ensures WellFormedIndex(IndexRow(index, row, repr), repr)
  {
    var key := NormalizeSpeciesKey(row.0, repr);
    var filename := StripText(row.1, repr);
    if key != [] && filename != [] {
      NormalizeSpeciesKeyIdempotent(row.0, repr);
      StripIdempotent(TextOrEmpty(row.1, repr));
      var next := index[key := filename];
      forall k | k in next
        ensures k != [] && NormalizeSpeciesKey(Str(k), repr) == k
        ensures next[k] != [] && Strip(next[k]) == next[k]
      {
        if k != key {
          assert next[k] == index[k];
        }
      }
    }
  }

  /** `load_icon_index` over the rows the table query returned. */
  method LoadIconIndex(rows: seq<(Value, Value)>, repr: FloatRepr) returns (index: map<string, string>)
    ensures index == IconIndexOf(rows, repr)
  {
    index := map[];
    var i := 0;
    while i < |rows|
      invariant 0 <= i <= |rows|
      invariant index == IconIndexOf(rows[..i], repr)
    {
      IconIndexOfNext(rows, i, repr);
      var key := NormalizeSpeciesKey(rows[i].0, repr);
      var filename := StripText(rows[i].1, repr);
      IndexRowOf(index, rows[i], key, filename, repr);
      if key != [] && filename != [] {
        index := index[key := filename];
      }
      i := i + 1;
    }
    assert rows[..i] == rows;
  }

  /** Reading one more row applies that row to the index read so far. */
  lemma IconIndexOfNext(rows: seq<(Value, Value)>, i: nat, repr: FloatRepr)
    requires i < |rows|
    ensures IconIndexOf(rows[..i + 1], repr) == IndexRow(IconIndexOf(rows[..i], repr), rows[i], repr)
  {
    var pre := rows[..i + 1];
    assert pre[..|pre| - 1] == rows[..i];
    assert pre[|pre| - 1] == rows[i];
  }

  /** A row of the `species_icons` table. */
  datatype IconRow = IconRow(speciesKey: string, speciesName: string, filename: string, updatedAt: string)

  /** The row `save_icon_index` writes for one index item, if it keeps it. */
  function SavedRow(item: (Value, Value), stamp: string, repr: FloatRepr): Option<IconRow> {
    var key := NormalizeSpeciesKey(item.0, repr);
    var filename := StripText(item.1, repr);
    if key == [] || filename == [] then None
    else Some(IconRow(key, TextOrEmpty(item.0, repr), filename, stamp))
  }

  /** The rows `save_icon_index` writes for the index items, in order. */
  function SavedRows(items: seq<(Value, Value)>, stamp: string, repr: FloatRepr): seq<IconRow>
    decreases |items|
  {
    if items == [] then []
    else
      var last := SavedRow(items[|items| - 1], stamp, repr);
      SavedRows(items[..|items| - 1], stamp, repr) + (if last.Some? then [last.value] else [])
  }

  /** `save_icon_index` up to the database write: the rows it inserts. */
  method SaveIconIndex(items: seq<(Value, Value)>, stamp: string, repr: FloatRepr) returns (payload: seq<IconRow>)
    ensures payload == SavedRows(items, stamp, repr)
  {
    payload := [];
    var i := 0;
    while i < |items|
      invariant 0 <= i <= |items|
      invariant payload == SavedRows(items[..i], stamp, repr)
    {
      assert items[..i + 1][..i] == items[..i];
      ghost var row := SavedRow(items[i], stamp, repr);
      assert SavedRows(items[..i + 1], stamp, repr) == payload + (if row.Some? then [row.value] else []);
      var speciesKey := NormalizeSpeciesKey(items[i].0, repr);
      var filenameText := StripText(items[i].1, repr);
      if speciesKey != [] && filenameText != [] {
        payload := payload + [IconRow(speciesKey, TextOrEmpty(items[i].0, repr), filenameText, stamp)];
      }
      assert payload == SavedRows(items[..i + 1], stamp, repr);
      i := i + 1;
    }
    assert items[..i] == items;
  }

  /** The (species_key, filename) columns `load_icon_index` reads back. */
  function AsLoaded(rows: seq<IconRow>): (r: seq<(Value, Value)>)
    ensures |r| == |rows|
  {
    if rows == [] then [] else AsLoaded(rows[..|rows| - 1]) + [(Str(rows[|rows| - 1].speciesKey), Str(rows[|rows| - 1].filename))]
  }

  /** One index row, given its key and file name. */
  lemma IndexRowOf(index: map<string, string>, row: (Value, Value), key: string, filename: string, repr: FloatRepr)
    requires NormalizeSpeciesKey(row.0, repr) == key && StripText(row.1, repr) == filename
    ensures IndexRow(index, row, repr) == if key != [] && filename != [] then index[key := filename] else index
  {
    assert IndexRow(index, row, repr) == IndexPut(index, key, filename);
  }

  /** Stripped text read back from a string column is unchanged. */
  lemma StripTextStripped(t: string, repr: FloatRepr)
    requires Strip(t) == t
    ensures StripText(Str(t), repr) == t
  {
    assert TextOrEmpty(Str(t), repr) == t;
  }

  /** A saved row reads back as the item it was written for; a dropped item changes no index. */
  lemma SavedRowLoads(index: map<string, string>, item: (Value, Value), stamp: string, repr: FloatRepr)
    ensures var row := SavedRow(item, stamp, repr);
      if row.Some? then IndexRow(index, (Str(row.value.speciesKey), Str(row.value.filename)), repr) == IndexRow(index, item, repr)
      else IndexRow(index, item, repr) == index
  {
    var key := NormalizeSpeciesKey(item.0, repr);
    var filename := StripText(item.1, repr);
    IndexRowOf(index, item, key, filename, repr);
    if key != [] && filename != [] {
      NormalizeSpeciesKeyIdempotent(item.0, repr);
      StripIdempotent(TextOrEmpty(item.1, repr));
      StripTextStripped(filename, repr);
      IndexRowOf(index, (Str(key), Str(filename)), key, filename, repr);
    }
  }

  /** Saving an index and loading it back gives the index its items describe. */
  lemma {:induction false} SaveLoadRoundTrip(items: seq<(Value, Value)>, stamp: string, repr: FloatRepr)
    ensures IconIndexOf(AsLoaded(SavedRows(items, stamp, repr)), repr) == IconIndexOf(items, repr)
    decreases |items|
  {
    if items != [] {
      var init := items[..|items| - 1];
      var item := items[|items| - 1];
      var before := SavedRows(init, stamp, repr);
      SaveLoadRoundTrip(init, stamp, repr);
      SavedRowLoads(IconIndexOf(init, repr), item, stamp, repr);
      var row := SavedRow(item, stamp, repr);
      if row.Some? {
        var saved := before + [row.value];
        assert SavedRows(items, stamp, repr) == saved;
        assert saved[..|saved| - 1] == before;
        var pair := (Str(row.value.speciesKey), Str(row.value.filename));
        var loaded := AsLoaded(saved);
        assert loaded == AsLoaded(before) + [pair];
        assert loaded[..|loaded| - 1] == AsLoaded(before);
      } else {
        assert SavedRows(items, stamp, repr) == before;
      }
    }
  }

  /**
   * `icon_url_for`: the URL of the species' icon, or "" when the name is
   * blank, the index has no file for it, or the file does not exist.
   */
  function IconUrlFor(species: Value, index: map<string, string>, fileExists: string -> bool, repr: FloatRepr): (url: string)
    ensures var key := NormalizeSpeciesKey(species, repr);
      url != "" <==> key != "" && key in index && index[key] != "" && fileExists(index[key])
    ensures url != "" ==> url == "/data/icons/" + index[NormalizeSpeciesKey(species, repr)]
  {
    var key := NormalizeSpeciesKey(species, repr);
    if key == "" then ""
    else if key !in index || index[key] == "" then ""
    else if !fileExists(index[key]) then ""
    else "/data/icons/" + index[key]
  }

  // ---------------------------------------------------------------- saving an icon

  newtype byte = b: int | 0 <= b < 256

  /** The eight bytes every PNG file starts with. */
  const PngSignature: seq<byte> := [0x89, 0x50, 0x4E, 0x47, 0x0D, 0x0A, 0x1A, 0x0A]

  predicate IsPng(payload: seq<byte>) {
    |PngSignature| <= |payload| && payload[..|PngSignature|] == PngSignature
  }

  /** What `save_species_icon` returns: the icon's URL, or "" and an error message. */
  datatype IconSaved = IconSaved(url: string, error: string)

  /**
   * `save_species_icon`. `written` and `recorded` are the outcomes of the
   * file write and of the table insert; the row it inserts is
   * `IconMapping`.
   */
  function SaveSpeciesIcon(species: Value, payload: seq<byte>, written: bool, recorded: bool, repr: FloatRepr): (r: IconSaved)
    ensures r.url == "" <==> r.error != ""
    ensures StripText(species, repr) == "" ==> r.error == "Species is required"
    ensures StripText(species, repr) != "" && payload == [] ==> r.error == "Icon file missing"
    ensures StripText(species, repr) != "" && payload != [] && !IsPng(payload) ==> r.error == "Icon must be a PNG file"
    ensures r.url != "" ==>
      IsPng(payload) && written && recorded && r.url == "/data/icons/" + Slugify(StripText(species, repr)) + ".png"
  {
    var name := StripText(species, repr);
    if name == "" then IconSaved("", "Species is required")
    else if payload == [] then IconSaved("", "Icon file missing")
    else if !IsPng(payload) then IconSaved("", "Icon must be a PNG file")
    else if !written then IconSaved("", "Unable to save icon")
    else if !recorded then IconSaved("", "Unable to save icon mapping")
    else IconSaved("/data/icons/" + Slugify(name) + ".png", "")
  }

  /** The table row a saved icon gets: the stripped name, its key and the slug file name. */
  function IconMapping(species: Value, stamp: string, repr: FloatRepr): IconRow {
    var name := StripText(species, repr);
    IconRow(NormalizeSpeciesKey(Str(name), repr), name, Slugify(name) + ".png", stamp)
  }

  /** The key of a stripped name is its lower-cased form. */
  lemma StrippedKey(t: string, repr: FloatRepr)
    requires Strip(t) == t
    ensures NormalizeSpeciesKey(Str(t), repr) == Lower(t)
  {
    assert TextOrEmpty(Str(t), repr) == t;
  }

  /** The key a saved icon is filed under is the one `icon_url_for` looks the species up by. */
  lemma IconMappingKey(species: Value, stamp: string, repr: FloatRepr)
    ensures IconMapping(species, stamp, repr).speciesKey == NormalizeSpeciesKey(species, repr)
  {
    var name := StripText(species, repr);
    StripIdempotent(TextOrEmpty(species, repr));
    StrippedKey(name, repr);
    assert IconMapping(species, stamp, repr).speciesKey == NormalizeSpeciesKey(Str(name), repr);
  }

  lemma ConcatAssoc(a: string, b: string, c: string)
    ensures a + b + c == a + (b + c)
  {
  }

  /**
   * A saved icon is shown: once its row is in the index and its file
   * exists, `icon_url_for` returns the URL `save_species_icon` returned.
   */
  lemma SavedIconShown(species: Value, payload: seq<byte>, written: bool, recorded: bool, stamp: string,
                       index: map<string, string>, fileExists: string -> bool, repr: FloatRepr)
    ensures var r := SaveSpeciesIcon(species, payload, written, recorded, repr);
      var row := IconMapping(species, stamp, repr);
      r.url != "" ==>
        && r.url == "/data/icons/" + row.filename
        && (fileExists(row.filename) <==>
              IconUrlFor(species, index[row.speciesKey := row.filename], fileExists, repr) == r.url)
  {
    var r := SaveSpeciesIcon(species, payload, written, recorded, repr);
    var row := IconMapping(species, stamp, repr);
    if r.url != "" {
      var name := StripText(species, repr);
      var file := Slugify(name) + ".png";
      assert row.filename == file;
      assert r.url == "/data/icons/" + Slugify(name) + ".png";
      ConcatAssoc("/data/icons/", Slugify(name), ".png");
      var key := NormalizeSpeciesKey(species, repr);
      assert row.speciesKey == key by {
        IconMappingKey(species, stamp, repr);
      }
      assert key != "" by {
        StripIdempotent(TextOrEmpty(species, repr));
        StrippedKey(name, repr);
        assert row.speciesKey == Lower(name);
      }
      var shown := index[key := row.filename];
      assert key in shown && shown[key] == row.filename && row.filename != "";
      var url := IconUrlFor(species, shown, fileExists, repr);
      assert url != "" <==> fileExists(row.filename);
    }
  }
}
