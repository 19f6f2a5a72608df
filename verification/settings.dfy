/**
 * Runtime settings: the allow-list filter, the per-key casts and clamps,
 * the changed-key set and the capture-restart flag of `update_config`, in
 * the current server (`Current`) and in the older JSONL-based one (`Legacy`).
 */
module Settings {
  import opened PyValues

  datatype Variant = Current | Legacy

  /** The settings `update_config` knows how to cast. */
  datatype Key =
    | HttpPort | InputMode | InputDevice | RtmpUrl | SegmentSeconds
    | MinConfidence | SilenceThresholdDb | SilenceMinSeconds
    | OverlayHoldSeconds | OverlaySticky | BirdnetTemplate | BirdnetWorkdir
    | Location | Latitude | Longitude | Week | AutoWeek
    | WeatherLocation | WeatherUnit

  function Name(k: Key): string {
    match k
    case HttpPort => "http_port"
    case InputMode => "input_mode"
    case InputDevice => "input_device"
    case RtmpUrl => "rtmp_url"
    case SegmentSeconds => "segment_seconds"
    case MinConfidence => "min_confidence"
    case SilenceThresholdDb => "silence_threshold_db"
    case SilenceMinSeconds => "silence_min_seconds"
    case OverlayHoldSeconds => "overlay_hold_seconds"
    case OverlaySticky => "overlay_sticky"
    case BirdnetTemplate => "birdnet_template"
    case BirdnetWorkdir => "birdnet_workdir"
    case Location => "location"
    case Latitude => "latitude"
    case Longitude => "longitude"
    case Week => "week"
    case AutoWeek => "auto_week"
    case WeatherLocation => "weather_location"
    case WeatherUnit => "weather_unit"
  }

  /** The setting a request key names, if it is one of them. */
  function KeyNamed(name: string): (k: Option<Key>)
    ensures k.Some? ==> Name(k.value) == name
  {
    if name == "http_port" then Some(HttpPort)
    else if name == "input_mode" then Some(InputMode)
    else if name == "input_device" then Some(InputDevice)
    else if name == "rtmp_url" then Some(RtmpUrl)
    else if name == "segment_seconds" then Some(SegmentSeconds)
    else if name == "min_confidence" then Some(MinConfidence)
    else if name == "silence_threshold_db" then Some(SilenceThresholdDb)
    else if name == "silence_min_seconds" then Some(SilenceMinSeconds)
    else if name == "overlay_hold_seconds" then Some(OverlayHoldSeconds)
    else if name == "overlay_sticky" then Some(OverlaySticky)
    else if name == "birdnet_template" then Some(BirdnetTemplate)
    else if name == "birdnet_workdir" then Some(BirdnetWorkdir)
    else if name == "location" then Some(Location)
    else if name == "latitude" then Some(Latitude)
    else if name == "longitude" then Some(Longitude)
    else if name == "week" then Some(Week)
    else if name == "auto_week" then Some(AutoWeek)
    else if name == "weather_location" then Some(WeatherLocation)
    else if name == "weather_unit" then Some(WeatherUnit)
    else None
  }

  /** An update of one of these restarts audio capture. */
  predicate RestartField(k: Key) {
    k in {InputMode, InputDevice, RtmpUrl, SegmentSeconds}
  }

  /** The allow-list: the older server has no port and no weather settings. */
  predicate AllowedKey(variant: Variant, k: Key) {
    match variant
    case Current => true
    case Legacy => k !in {HttpPort, WeatherLocation, WeatherUnit}
  }

  /** The request keys `update_config` may store. */
  predicate Allowed(variant: Variant, name: string) {
    KeyNamed(name).Some? && AllowedKey(variant, KeyNamed(name).value)
  }

  /** Request keys whose update restarts capture. */
  const RestartFields: set<string> := {"input_mode", "input_device", "rtmp_url", "segment_seconds"}

  const TruthyWords: set<string> := {"1", "true", "yes", "on"}

  // ---------------------------------------------------------------- normalisers

  /** A string is true when it is one of the words "1", "true", "yes", "on"; anything else by `bool()`. */
  function NormalizeBool(v: Value): bool {
    if v.Str? then Lower(Strip(v.s)) in TruthyWords else Truthy(v)
  }

  /** The spellings that select the local capture device. */
  predicate DeviceAlias(text: string) {
    text in {"avfoundation", "device", "local"}
  }

  /** The spellings of Celsius. */
  predicate CelsiusAlias(text: string) {
    text in {"c", "celsius", "metric"}
  }

  /** The two capture modes; every spelling outside the device aliases means "stream". */
  function NormalizeInputMode(v: Value, repr: FloatRepr): (mode: string)
    ensures mode == "stream" || mode == "avfoundation"
    ensures mode == "avfoundation" <==> DeviceAlias(LowerText(v, repr))
  {
    var text := LowerText(v, repr);
    if text in {"rtmp", "rtsp", "stream"} then "stream"
    else if DeviceAlias(text) then "avfoundation"
    else "stream"
  }

  /** The two weather units; only "c", "celsius" and "metric" mean Celsius. */
  function NormalizeWeatherUnit(v: Value, repr: FloatRepr): (unit: string)
    ensures unit == "celsius" || unit == "fahrenheit"
    ensures unit == "celsius" <==> CelsiusAlias(LowerText(v, repr))
  {
    if CelsiusAlias(LowerText(v, repr)) then "celsius" else "fahrenheit"
  }

  // ---------------------------------------------------------------- casts

  function Max(a: real, b: real): real { if a >= b then a else b }
  function Min(a: real, b: real): real { if a <= b then a else b }

  /** `max(lo, min(hi, x))` */
  function Clamp(lo: real, hi: real, x: real): (r: real)
    requires lo <= hi
    ensures lo <= r <= hi
    ensures lo <= x <= hi ==> r == x
  {
    Max(lo, Min(hi, x))
  }

  function ClampInt(lo: int, hi: int, x: int): (r: int)
    requires lo <= hi
    ensures lo <= r <= hi
    ensures lo <= x <= hi ==> r == x
  {
    if x < lo then lo else if x > hi then hi else x
  }

  function FloatWith(v: Value, parse: FloatParse, f: real -> real): Option<Value> {
    match ToFloat(v, parse)
    case None => None
    case Some(x) => Some(Num(f(x)))
  }

  /** The value a setting is stored as; None when the cast raises. */
  function CastValue(k: Key, v: Value, parse: FloatParse, repr: FloatRepr): (r: Option<Value>)
    ensures r.Some? ==> SettingOk(k, r.value) || k == InputMode
  {
    match k
    case InputMode | InputDevice | RtmpUrl | BirdnetTemplate | BirdnetWorkdir | Location | WeatherLocation =>
      Some(Str(PyStr(v, repr)))
    case AutoWeek | OverlaySticky => Some(Bool(NormalizeBool(v)))
    case SegmentSeconds => FloatWith(v, parse, x => Max(0.1, x))
    case HttpPort => (match ToInt(v) case None => None case Some(p) => Some(Int(ClampInt(1, 65535, p))))
    case MinConfidence => FloatWith(v, parse, x => Clamp(0.0, 1.0, x))
    case SilenceThresholdDb => FloatWith(v, parse, x => Clamp(-120.0, 0.0, x))
    case SilenceMinSeconds => FloatWith(v, parse, x => Max(0.0, x))
    case OverlayHoldSeconds => FloatWith(v, parse, x => Max(1.0, x))
    case Latitude | Longitude => FloatWith(v, parse, x => x)
    case Week => (match ToInt(v) case None => None case Some(w) => Some(Int(w)))
    case WeatherUnit => Some(Str(NormalizeWeatherUnit(v, repr)))
  }

  /**
   * The older server's casts. It has no port, weather-location or
   * weather-unit branch: those keys fall through and keep the raw value.
   */
  function LegacyCastValue(k: Key, v: Value, parse: FloatParse, repr: FloatRepr): Option<Value> {
    match k
    case InputMode | InputDevice | RtmpUrl | BirdnetTemplate | BirdnetWorkdir | Location =>
      Some(Str(PyStr(v, repr)))
    case AutoWeek | OverlaySticky => Some(Bool(NormalizeBool(v)))
    case SegmentSeconds => FloatWith(v, parse, x => Max(0.1, x))
    case MinConfidence => FloatWith(v, parse, x => Clamp(0.0, 1.0, x))
    case SilenceThresholdDb => FloatWith(v, parse, x => Clamp(-120.0, 0.0, x))
    case SilenceMinSeconds => FloatWith(v, parse, x => Max(0.0, x))
    case OverlayHoldSeconds => FloatWith(v, parse, x => Max(1.0, x))
    case Latitude | Longitude => FloatWith(v, parse, x => x)
    case Week => (match ToInt(v) case None => None case Some(w) => Some(Int(w)))
    case HttpPort | WeatherLocation | WeatherUnit => Some(v)
  }

  /** On every key the older server accepts, both servers cast alike. */
  lemma LegacyCastAgrees(k: Key, v: Value, parse: FloatParse, repr: FloatRepr)
    requires AllowedKey(Legacy, k)
    ensures LegacyCastValue(k, v, parse, repr) == CastValue(k, v, parse, repr)
  {
  }

  /** The range a stored setting lies in once `update_config` has written it. */
  predicate SettingOk(k: Key, v: Value) {
    match k
    case HttpPort => v.Int? && 1 <= v.i <= 65535
    case MinConfidence => v.Num? && 0.0 <= v.r <= 1.0
    case InputMode => v == Str("stream") || v == Str("avfoundation")
    case WeatherUnit => v == Str("celsius") || v == Str("fahrenheit")
    case SegmentSeconds => NumericOf(v).Some? && NumericOf(v).value >= 0.1
    case SilenceThresholdDb => NumericOf(v).Some? && -120.0 <= NumericOf(v).value <= 0.0
    case SilenceMinSeconds => NumericOf(v).Some? && NumericOf(v).value >= 0.0
    case OverlayHoldSeconds => NumericOf(v).Some? && NumericOf(v).value >= 1.0
    case OverlaySticky | AutoWeek => v.Bool?
    case _ => true
  }

  /** The BirdNET command line the server starts with. */
  const DefaultTemplate: string :=
    "python3 -m birdnet_analyzer.analyze {input} -o {output} --rtype csv --min_conf {min_conf} --lat {lat} --lon {lon} --week {week}"

  /** `DEFAULT_CONFIG` for the settings `update_config` casts; each lies within its range. */
  function Default(k: Key): (v: Value)
    ensures SettingOk(k, v)
  {
    match k
    case HttpPort => Int(8002)
    case InputMode => Str("stream")
    case InputDevice => Str("")
    case RtmpUrl => Str("")
    case SegmentSeconds => Int(3)
    case MinConfidence => Num(0.25)
    case SilenceThresholdDb => Num(-45.0)
    case SilenceMinSeconds => Num(0.2)
    case OverlayHoldSeconds => Int(60)
    case OverlaySticky => Bool(false)
    case BirdnetTemplate => Str(DefaultTemplate)
    case BirdnetWorkdir => Str("")
    case Location => Str("Stream")
    case Latitude => Int(-1)
    case Longitude => Int(-1)
    case Week => Int(-1)
    case AutoWeek => Bool(false)
    case WeatherLocation => Str("YOUR_ZIP")
    case WeatherUnit => Str("fahrenheit")
  }

  /** The value handed to the cast: "input_mode" is normalised first. */
  function Prepared(k: Key, v: Value, repr: FloatRepr): Value {
    if k == InputMode then Str(NormalizeInputMode(v, repr)) else v
  }

  /**
   * What an update of setting `k` to `v` would store, or None when the key
   * is not allowed or the cast raises. "input_mode" is normalised before
   * the cast.
   */
  function EffectiveKey(variant: Variant, k: Key, v: Value, parse: FloatParse, repr: FloatRepr): (r: Option<Value>)
    ensures !AllowedKey(variant, k) ==> r.None?
    ensures r.Some? ==> SettingOk(k, r.value)
    ensures k == InputMode ==> r == Some(Str(NormalizeInputMode(v, repr)))
    ensures k == WeatherUnit && variant == Current ==> r == Some(Str(NormalizeWeatherUnit(v, repr)))
  {
    if !AllowedKey(variant, k) then None
    else
      var prepared := Prepared(k, v, repr);
      match variant
      case Current => CastValue(k, prepared, parse, repr)
      case Legacy => LegacyCastValue(k, prepared, parse, repr)
  }

  /** The same for a request key: keys that name no setting are ignored. */
  function Effective(variant: Variant, name: string, v: Value, parse: FloatParse, repr: FloatRepr): (r: Option<Value>)
    ensures !Allowed(variant, name) ==> r.None?
    ensures r.Some? ==> SettingOk(KeyNamed(name).value, r.value)
  {
    match KeyNamed(name)
    case None => None
    case Some(k) => EffectiveKey(variant, k, v, parse, repr)
  }

  // ---------------------------------------------------------------- the update

  function Lookup(values: map<string, Value>, key: string): Value {
    if key in values then values[key] else Null
  }

  /** The keys of a dict: pairwise different. */
  predicate KeysDistinct(updates: seq<(string, Value)>) {
    forall i, j :: 0 <= i < j < |updates| ==> updates[i].0 != updates[j].0
  }

  /** The value paired with `key` in the updates, if any. */
  function ValueFor(updates: seq<(string, Value)>, key: string): Option<Value> {
    if updates == [] then None
    else if updates[|updates| - 1].0 == key then Some(updates[|updates| - 1].1)
    else ValueFor(updates[..|updates| - 1], key)
  }

  /** What the updates ask to store under `key`, after filtering and casting. */
  function Wanted(variant: Variant, parse: FloatParse, repr: FloatRepr, updates: seq<(string, Value)>, key: string): Option<Value> {
    match ValueFor(updates, key)
    case None => None
    case Some(v) => Effective(variant, key, v, parse, repr)
  }

  datatype Outcome = Outcome(values: map<string, Value>, changed: set<string>)

  /** One iteration of the loop over `updates.items()`. */
  function Step(variant: Variant, parse: FloatParse, repr: FloatRepr, o: Outcome, kv: (string, Value)): Outcome {
    match Effective(variant, kv.0, kv.1, parse, repr)
    case None => o
    case Some(n) =>
      if PyEq(Lookup(o.values, kv.0), n) then o
      else Outcome(o.values[kv.0 := n], o.changed + {kv.0})
  }

  /** The settings and the changed set after the whole loop. */
  function Apply(variant: Variant, parse: FloatParse, repr: FloatRepr, values: map<string, Value>, updates: seq<(string, Value)>): Outcome
    decreases |updates|
  {
    if updates == [] then Outcome(values, {})
    else Step(variant, parse, repr, Apply(variant, parse, repr, values, updates[..|updates| - 1]), updates[|updates| - 1])
  }

  lemma {:induction false} ValueForAbsent(updates: seq<(string, Value)>, key: string)
    requires forall i :: 0 <= i < |updates| ==> updates[i].0 != key
    ensures ValueFor(updates, key).None?
    decreases |updates|
  {
    if updates != [] {
      ValueForAbsent(updates[..|updates| - 1], key);
    }
  }

  /**
   * Key by key: a key is changed exactly when the updates ask for a value
   * Python's `!=` finds different from the stored one, and then holds that
   * value; every other key keeps its old value.
   */
  lemma {:induction false} ApplyKey(variant: Variant, parse: FloatParse, repr: FloatRepr, values: map<string, Value>, updates: seq<(string, Value)>, key: string)
    requires KeysDistinct(updates)
    ensures var o := Apply(variant, parse, repr, values, updates);
      var w := Wanted(variant, parse, repr, updates, key);
      && (key in o.changed <==> w.Some? && !PyEq(Lookup(values, key), w.value))
      && Lookup(o.values, key) == (if key in o.changed then w.value else Lookup(values, key))
      && (key in o.values <==> key in values || key in o.changed)
    decreases |updates|
  {
    if updates != [] {
      var init := updates[..|updates| - 1];
      var last := updates[|updates| - 1];
      ApplyKey(variant, parse, repr, values, init, key);
      if last.0 == key {
        ValueForAbsent(init, key);
      }
    }
  }

  /** The changed set is exactly the keys whose stored value is now different. */
  lemma ChangedIsDifference(variant: Variant, parse: FloatParse, repr: FloatRepr, values: map<string, Value>, updates: seq<(string, Value)>, key: string)
    requires KeysDistinct(updates)
    ensures var o := Apply(variant, parse, repr, values, updates);
      key in o.changed <==> !PyEq(Lookup(values, key), Lookup(o.values, key))
  {
    ApplyKey(variant, parse, repr, values, updates, key);
    PyEqReflexive(Lookup(values, key));
  }

  /** A key outside the allow-list, or whose cast raises, is never stored or reported. */
  lemma IgnoredKeysUntouched(variant: Variant, parse: FloatParse, repr: FloatRepr, values: map<string, Value>, updates: seq<(string, Value)>, key: string)
    requires KeysDistinct(updates)
    requires Wanted(variant, parse, repr, updates, key).None?
    ensures var o := Apply(variant, parse, repr, values, updates);
      key !in o.changed && Lookup(o.values, key) == Lookup(values, key) && (key in o.values <==> key in values)
  {
    ApplyKey(variant, parse, repr, values, updates, key);
  }

  /** The older server never changes or reports the HTTP port. */
  lemma LegacyKeepsPort(parse: FloatParse, repr: FloatRepr, values: map<string, Value>, updates: seq<(string, Value)>)
    requires KeysDistinct(updates)
    ensures var o := Apply(Legacy, parse, repr, values, updates);
      "http_port" !in o.changed && Lookup(o.values, "http_port") == Lookup(values, "http_port")
  {
    IgnoredKeysUntouched(Legacy, parse, repr, values, updates, "http_port");
  }

  /** Repeating the same update changes nothing and reports nothing. */
  lemma UpdateIdempotent(variant: Variant, parse: FloatParse, repr: FloatRepr, values: map<string, Value>, updates: seq<(string, Value)>)
    requires KeysDistinct(updates)
    ensures var once := Apply(variant, parse, repr, values, updates);
      Apply(variant, parse, repr, once.values, updates) == Outcome(once.values, {})
  {
    var once := Apply(variant, parse, repr, values, updates);
    var twice := Apply(variant, parse, repr, once.values, updates);
    forall key
      ensures key !in twice.changed
      ensures Lookup(twice.values, key) == Lookup(once.values, key)
      ensures key in twice.values <==> key in once.values
    {
      ApplyKey(variant, parse, repr, values, updates, key);
      ApplyKey(variant, parse, repr, once.values, updates, key);
      var w := Wanted(variant, parse, repr, updates, key);
      if w.Some? && key in once.changed {
        PyEqReflexive(w.value);
      }
    }
    assert twice.values == once.values;
  }

  /** Every stored setting that `update_config` can cast is within its range. */
  predicate Normalized(values: map<string, Value>) {
    forall key :: key in values && KeyNamed(key).Some? ==> SettingOk(KeyNamed(key).value, values[key])
  }

  /** An update keeps every stored setting within its range. */
  lemma UpdateKeepsNormalized(variant: Variant, parse: FloatParse, repr: FloatRepr, values: map<string, Value>, updates: seq<(string, Value)>)
    requires KeysDistinct(updates) && Normalized(values)
    ensures Normalized(Apply(variant, parse, repr, values, updates).values)
  {
    var o := Apply(variant, parse, repr, values, updates);
    forall key | key in o.values && KeyNamed(key).Some?
      ensures SettingOk(KeyNamed(key).value, o.values[key])
    {
      ApplyKey(variant, parse, repr, values, updates, key);
    }
  }

  /** The settings object the request handlers share. */
  class Config {
    var values: map<string, Value>
    var restartCapture: bool

    constructor (initial: map<string, Value>)
      ensures values == initial && !restartCapture
    {
      values := initial;
      restartCapture := false;
    }

    method UpdateConfig(updates: seq<(string, Value)>, variant: Variant, parse: FloatParse, repr: FloatRepr) returns (changed: set<string>)
      requires KeysDistinct(updates)
      modifies this
      ensures Outcome(values, changed) == Apply(variant, parse, repr, old(values), updates)
      ensures restartCapture == (old(restartCapture) || changed * RestartFields != {})
      ensures Normalized(old(values)) ==> Normalized(values)
    {
      changed := {};
      var i := 0;
      while i < |updates|
        invariant 0 <= i <= |updates|
        invariant Outcome(values, changed) == Apply(variant, parse, repr, old(values), updates[..i])
        invariant restartCapture == old(restartCapture)
      {
        var (key, value) := updates[i];
        assert updates[..i + 1][..i] == updates[..i];
        var normalized := Effective(variant, key, value, parse, repr);
        if normalized.Some? && !PyEq(Lookup(values, key), normalized.value) {
          values := values[key := normalized.value];
          changed := changed + {key};
        }
        i := i + 1;
      }
      assert updates[..i] == updates;
      if changed * RestartFields != {} {
        restartCapture := true;
      }
      if Normalized(old(values)) {
        UpdateKeepsNormalized(variant, parse, repr, old(values), updates);
      }
    }
  }
}
