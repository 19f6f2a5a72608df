/**
 * Setting up audio capture: the week number handed to BirdNET
 * (`current_week`), the audio devices ffmpeg lists (`list_audio_inputs`),
 * the running ffmpeg processes (`_list_ffmpeg_processes`) and the capture
 * command (`build_ffmpeg_command`).
 *
 * Running ffmpeg, `pgrep` or `ps` is left to the caller: the functions here
 * take the lines those programs print, as `splitlines` gives them. The clock
 * is the day of the year passed in; `urlsplit` is the parameter `split`.
 */
module Capture {
  import opened PyValues
  import StreamUrl

  // ---------------------------------------------------------------- current_week

  /** `int(x / 7)` for an integer x: the quotient truncated toward zero. */
  function TruncDiv7(x: int): int {
    if x >= 0 then x / 7 else -((-x) / 7)
  }

  /** `current_week()` on the day of the year: seven-day weeks, clamped to BirdNET's 48. */
  function CurrentWeek(dayOfYear: int): (week: int)
    ensures 1 <= week <= 48
    ensures 1 <= dayOfYear ==> week == Min(48, (dayOfYear - 1) / 7 + 1)
  {
    Max(1, Min(48, TruncDiv7(dayOfYear - 1) + 1))
  }

  function Min(a: int, b: int): int { if a <= b then a else b }
  function Max(a: int, b: int): int { if a >= b then a else b }

  /** A later day never has an earlier week, and a week spans at most seven days. */
  lemma CurrentWeekMonotone(d: int, e: int)
    requires 1 <= d <= e
    ensures CurrentWeek(d) <= CurrentWeek(e)
    ensures e - d < 7 ==> CurrentWeek(e) - CurrentWeek(d) <= 1
  {
  }

  // ---------------------------------------------------------------- list_audio_inputs

  /** An audio device as the server lists it. */
  datatype Device = Device(id: string, name: string)

  const AudioMarker: string := "AVFoundation audio devices"
  const VideoMarker: string := "AVFoundation video devices"

  predicate IsAudioHeader(line: string) { Contains(line, AudioMarker) }
  predicate IsVideoHeader(line: string) { Contains(line, VideoMarker) }

  /** The number of digits in `s` from position `k` on. */
  function DigitRun(s: string, k: nat): (n: nat)
    requires k <= |s|
    ensures k + n <= |s|
    ensures forall i :: k <= i < k + n ==> IsDigit(s[i])
    ensures k + n == |s| || !IsDigit(s[k + n])
    decreases |s| - k
  {
    if k < |s| && IsDigit(s[k]) then 1 + DigitRun(s, k + 1) else 0
  }

  /**
   * `\[(\d+)\]\s(.+)$` matched at position `k`: a bracketed number, one
   * whitespace character and a non-empty rest of the line. The digits are
   * greedy and a bracket cannot be a digit, so the number is the whole run.
   */
  function MatchAt(line: string, k: nat): (r: Option<Device>)
    requires k <= |line|
    ensures r.Some? ==> r.value.id != [] && forall i :: 0 <= i < |r.value.id| ==> IsDigit(r.value.id[i])
  {
    if k < |line| && line[k] == '[' then
      var n := DigitRun(line, k + 1);
      var close := k + 1 + n;
      if n > 0 && close + 2 < |line| && line[close] == ']' && IsSpace(line[close + 1]) then
        Some(Device(line[k + 1..close], Strip(line[close + 2..])))
      else None
    else None
  }

  /** `re.search`: the leftmost match at or after position `k`. */
  function SearchFrom(line: string, k: nat): (r: Option<Device>)
    requires k <= |line|
    ensures r.Some? ==> exists j :: k <= j <= |line| && MatchAt(line, j) == r
    ensures r.None? ==> forall j :: k <= j <= |line| ==> MatchAt(line, j).None?
    decreases |line| - k
  {
    if MatchAt(line, k).Some? then MatchAt(line, k)
    else if k == |line| then None
    else SearchFrom(line, k + 1)
  }

  /** The device a listing line names, if any. */
  function DeviceOf(line: string): (r: Option<Device>)
    ensures r.Some? ==> r.value.id != [] && forall i :: 0 <= i < |r.value.id| ==> IsDigit(r.value.id[i])
  {
    SearchFrom(line, 0)
  }

  /**
   * One line of the listing: a header switches the audio section on or off;
   * inside the section a line naming a device adds it. The header tests and
   * the device parser are parameters so that what follows holds for any.
   */
  function ScanStep(state: (seq<Device>, bool), line: string, audio: string -> bool, video: string -> bool,
                    device: string -> Option<Device>): (seq<Device>, bool)
  {
    if audio(line) then (state.0, true)
    else if video(line) then (state.0, false)
    else if !state.1 then state
    else (state.0 + OptionSeq(device(line)), true)
  }

  /** The devices found and whether the last header seen was the audio one. */
  function Scan(lines: seq<string>, audio: string -> bool, video: string -> bool, device: string -> Option<Device>)
    : (r: (seq<Device>, bool))
    ensures |r.0| <= |lines|
    decreases |lines|
  {
    if lines == [] then ([], false)
    else ScanStep(Scan(lines[..|lines| - 1], audio, video, device), lines[|lines| - 1], audio, video, device)
  }

  lemma ScanNext(lines: seq<string>, i: nat, audio: string -> bool, video: string -> bool, device: string -> Option<Device>)
    requires i < |lines|
    ensures Scan(lines[..i + 1], audio, video, device) == ScanStep(Scan(lines[..i], audio, video, device), lines[i], audio, video, device)
  {
    assert lines[..i + 1][..i] == lines[..i];
  }

  /** `list_audio_inputs()`, with its `in_audio` loop; `ffmpegFound` says whether ffmpeg was found. */
  method ListAudioInputs(ffmpegFound: bool, output: seq<string>) returns (devices: seq<Device>, error: Option<string>)
    ensures !ffmpegFound ==> devices == [] && error == Some("ffmpeg not found")
    ensures ffmpegFound ==> error.None? && devices == Scan(output, IsAudioHeader, IsVideoHeader, DeviceOf).0
  {
    if !ffmpegFound {
      return [], Some("ffmpeg not found");
    }
    devices := [];
    var inAudio := false;
    var i := 0;
    while i < |output|
      invariant 0 <= i <= |output|
      invariant (devices, inAudio) == Scan(output[..i], IsAudioHeader, IsVideoHeader, DeviceOf)
    {
      ScanNext(output, i, IsAudioHeader, IsVideoHeader, DeviceOf);
      var line := output[i];
      ghost var next := ScanStep((devices, inAudio), line, IsAudioHeader, IsVideoHeader, DeviceOf);
      i := i + 1;
      if IsAudioHeader(line) {
        inAudio := true;
        continue;
      }
      if IsVideoHeader(line) {
        inAudio := false;
        continue;
      }
      if !inAudio {
        continue;
      }
      var found := DeviceOf(line);
      if found.None? {
        assert devices + OptionSeq(found) == devices;
        continue;
      }
      devices := devices + [found.value];
    }
    assert output[..i] == output;
    error := None;
  }

  /** After `lines`, the audio section is open: an audio header came last among the headers. */
  predicate InAudioSection(lines: seq<string>, audio: string -> bool, video: string -> bool) {
    exists i :: 0 <= i < |lines| && audio(lines[i])
      && forall k :: i < k < |lines| ==> !audio(lines[k]) && !video(lines[k])
  }

  /** Whether the section is open after one more line. */
  lemma InAudioSectionSnoc(lines: seq<string>, audio: string -> bool, video: string -> bool)
    requires lines != []
    ensures var n := |lines| - 1;
      InAudioSection(lines, audio, video) <==>
        audio(lines[n]) || (!video(lines[n]) && InAudioSection(lines[..n], audio, video))
  {
    var n := |lines| - 1;
    if audio(lines[n]) {
      assert InAudioSection(lines, audio, video) by {
        assert audio(lines[n]);
      }
    } else {
      if InAudioSection(lines, audio, video) {
        SectionShrinks(lines, audio, video);
      }
      if !video(lines[n]) && InAudioSection(lines[..n], audio, video) {
        SectionExtends(lines, audio, video);
      }
    }
  }

  /** A line that is no header keeps an open section open. */
  lemma SectionExtends(lines: seq<string>, audio: string -> bool, video: string -> bool)
    requires lines != [] && !audio(lines[|lines| - 1]) && !video(lines[|lines| - 1])
    requires InAudioSection(lines[..|lines| - 1], audio, video)
    ensures InAudioSection(lines, audio, video)
  {
    var init := lines[..|lines| - 1];
    var i :| 0 <= i < |init| && audio(init[i]) && forall k :: i < k < |init| ==> !audio(init[k]) && !video(init[k]);
    assert audio(lines[i]);
    forall k | i < k < |lines|
      ensures !audio(lines[k]) && !video(lines[k])
    {
      if k < |init| {
        assert lines[k] == init[k];
      }
    }
  }

  /** A section open after a line that is no audio header was open before it, and that line is no video header. */
  lemma SectionShrinks(lines: seq<string>, audio: string -> bool, video: string -> bool)
    requires lines != [] && !audio(lines[|lines| - 1])
    requires InAudioSection(lines, audio, video)
    ensures !video(lines[|lines| - 1]) && InAudioSection(lines[..|lines| - 1], audio, video)
  {
    var init := lines[..|lines| - 1];
    var i :| 0 <= i < |lines| && audio(lines[i]) && forall k :: i < k < |lines| ==> !audio(lines[k]) && !video(lines[k]);
    assert i < |init|;
    assert audio(init[i]);
    forall k | i < k < |init|
      ensures !audio(init[k]) && !video(init[k])
    {
      assert init[k] == lines[k];
    }
  }

  /** The loop's flag is exactly "the audio section is open". */
  lemma {:induction false} ScanSection(lines: seq<string>, audio: string -> bool, video: string -> bool,
                                       device: string -> Option<Device>)
    ensures Scan(lines, audio, video, device).1 <==> InAudioSection(lines, audio, video)
    decreases |lines|
  {
    if lines != [] {
      ScanSection(lines[..|lines| - 1], audio, video, device);
      InAudioSectionSnoc(lines, audio, video);
    }
  }

  /** Line `i` is inside the audio section and is not a header itself. */
  predicate Listed(lines: seq<string>, i: int, audio: string -> bool, video: string -> bool) {
    0 <= i < |lines| && !audio(lines[i]) && !video(lines[i]) && InAudioSection(lines[..i], audio, video)
  }

  /** Some line inside the audio section names device `d`. */
  predicate Names(lines: seq<string>, audio: string -> bool, video: string -> bool,
                  device: string -> Option<Device>, d: Device) {
    exists i :: 0 <= i < |lines| && Listed(lines, i, audio, video) && device(lines[i]) == Some(d)
  }

  /** A line names `d` in `lines` when it does in all but the last line, or the last line does. */
  lemma NamesSnoc(lines: seq<string>, audio: string -> bool, video: string -> bool,
                  device: string -> Option<Device>, d: Device)
    requires lines != []
    ensures var n := |lines| - 1;
      Names(lines, audio, video, device, d) <==>
        Names(lines[..n], audio, video, device, d) || (Listed(lines, n, audio, video) && device(lines[n]) == Some(d))
  {
    var n := |lines| - 1;
    var init := lines[..n];
    if Names(lines, audio, video, device, d) {
      var i :| 0 <= i < |lines| && Listed(lines, i, audio, video) && device(lines[i]) == Some(d);
      if i < n {
        assert lines[..i] == init[..i];
        assert Listed(init, i, audio, video);
      }
    }
    if Names(init, audio, video, device, d) {
      var i :| 0 <= i < |init| && Listed(init, i, audio, video) && device(init[i]) == Some(d);
      assert lines[..i] == init[..i];
      assert Listed(lines, i, audio, video);
    }
  }

  /** A device is listed exactly when a line inside the audio section names it. */
  lemma {:induction false} ScanDevices(lines: seq<string>, audio: string -> bool, video: string -> bool,
                                       device: string -> Option<Device>, d: Device)
    ensures d in Scan(lines, audio, video, device).0 <==> Names(lines, audio, video, device, d)
    decreases |lines|
  {
    if lines != [] {
      var n := |lines| - 1;
      var init := lines[..n];
      ScanDevices(init, audio, video, device, d);
      ScanSection(init, audio, video, device);
      NamesSnoc(lines, audio, video, device, d);
      assert lines[..n] == init;
    }
  }

  // ---------------------------------------------------------------- _list_ffmpeg_processes

  /** The index of the first whitespace character of `s` from `k` on, `|s|` when there is none. */
  function FirstSpace(s: string, k: nat): (r: nat)
    requires k <= |s|
    ensures k <= r <= |s|
    ensures forall i :: k <= i < r ==> !IsSpace(s[i])
    ensures r < |s| ==> IsSpace(s[r])
    decreases |s| - k
  {
    if k == |s| || IsSpace(s[k]) then k else FirstSpace(s, k + 1)
  }

  /** `s.split(None, 1)`: the first word and, when anything follows, the rest after the whitespace. */
  function SplitOnce(s: string): (parts: seq<string>)
    ensures |parts| <= 2
  {
    var t := StripLeft(s);
    if t == "" then []
    else
      var k := FirstSpace(t, 0);
      var rest := StripLeft(t[k..]);
      if rest == "" then [t[..k]] else [t[..k], rest]
  }

  /** The process a `pgrep -fl` or `ps` line describes, when it is an ffmpeg process. */
  function ProcessOf(line: string): (r: Option<(int, string)>)
    ensures r.Some? ==> Contains(r.value.1, "ffmpeg")
  {
    var parts := SplitOnce(Strip(line));
    if |parts| != 2 then None
    else if !Contains(parts[1], "ffmpeg") then None
    else
      match ParseInt(parts[0])
      case None => None
      case Some(pid) => Some((pid, parts[1]))
  }

  /** `_list_ffmpeg_processes()` on the lines `pgrep` or `ps` printed. */
  method ListFfmpegProcesses(lines: seq<string>) returns (processes: seq<(int, string)>)
    ensures processes == Somes(lines, ProcessOf)
  {
    processes := [];
    var i := 0;
    while i < |lines|
      invariant 0 <= i <= |lines|
      invariant processes == Somes(lines[..i], ProcessOf)
    {
      ghost var before := processes;
      var found := ProcessOf(lines[i]);
      if found.Some? {
        processes := processes + [found.value];
      }
      assert processes == Somes(lines[..i + 1], ProcessOf) by {
        assert processes == before + OptionSeq(found);
        SomesNext(lines, i, ProcessOf);
      }
      i := i + 1;
    }
    assert lines[..i] == lines;
  }

  /** Every process listed runs ffmpeg and comes from one of the lines, and each such line is listed. */
  lemma ProcessesSpec(lines: seq<string>, p: (int, string))
    ensures p in Somes(lines, ProcessOf) <==> exists i :: 0 <= i < |lines| && ProcessOf(lines[i]) == Some(p)
    ensures p in Somes(lines, ProcessOf) ==> Contains(p.1, "ffmpeg")
  {
    SomesSpec(lines, ProcessOf, p);
  }

  /** `pid command` as `ps -o pid=,command=` prints it is read back as that pid and command. */
  lemma ProcessRoundTrip(pid: nat, command: string)
    requires command != [] && !IsSpace(command[0]) && !IsSpace(command[|command| - 1])
    requires Contains(command, "ffmpeg")
    ensures ProcessOf(NatToString(pid) + " " + command) == Some((pid as int, command))
  {
    var digits := NatToString(pid);
    DigitsNotSpace(digits);
    SplitWordAndRest(digits, command);
    ParseIntRoundTrip(pid);
  }

  lemma DigitsNotSpace(digits: string)
    requires forall i :: 0 <= i < |digits| ==> IsDigit(digits[i])
    ensures digits != [] ==> !IsSpace(digits[0])
    ensures forall i :: 0 <= i < |digits| ==> !IsSpace(digits[i])
  {
  }

  /** A word, one space and a stripped rest are stripped already and split into the word and the rest. */
  lemma SplitWordAndRest(word: string, rest: string)
    requires word != [] && forall i :: 0 <= i < |word| ==> !IsSpace(word[i])
    requires rest != [] && !IsSpace(rest[0]) && !IsSpace(rest[|rest| - 1])
    ensures Strip(word + " " + rest) == word + " " + rest
    ensures SplitOnce(word + " " + rest) == [word, rest]
  {
    var line := word + " " + rest;
    assert line[0] == word[0] && line[|line| - 1] == rest[|rest| - 1];
    NoSpaceUnstripped(line);
    assert StripLeft(line) == line;
    FirstSpaceAfterWord(line, |word|);
    assert line[..|word|] == word;
    assert line[|word|..][1..] == rest;
    assert StripLeft(rest) == rest;
  }

  lemma FirstSpaceAfterWord(line: string, n: nat)
    requires n < |line| && IsSpace(line[n])
    requires forall i :: 0 <= i < n ==> !IsSpace(line[i])
    ensures FirstSpace(line, 0) == n
  {
  }

  // ---------------------------------------------------------------- build_ffmpeg_command

  /** `build_ffmpeg_command` either gives the command or says why it cannot. */
  datatype Built = Command(args: seq<string>) | Refused(message: string)

  const InputFlag: string := "-i"
  const NoInputDevice: string := "Audio input not set"
  const NoStreamUrl: string := "Stream URL not set"

  function Get(config: map<string, Value>, key: string, default: Value): Value {
    if key in config then config[key] else default
  }

  /** The capture reads a local audio device rather than a stream. */
  predicate DeviceMode(config: map<string, Value>) {
    Get(config, "input_mode", Str("stream")) == Str("avfoundation")
  }

  /** `str(config.get("input_device", "")).strip()` */
  function DeviceName(config: map<string, Value>, repr: FloatRepr): string {
    Strip(PyStr(Get(config, "input_device", Str("")), repr))
  }

  /** `urlsplit(stream_url).scheme.lower()`, "" when `urlsplit` raises ValueError. */
  function SchemeOf(url: string, split: StreamUrl.Split): string {
    if split(url).Some? then Lower(split(url).value.scheme) else ""
  }

  /** The arguments that read a local audio device. */
  function DeviceInput(device: string): seq<string> {
    ["-f", "avfoundation", InputFlag, ":" + device]
  }

  /** The arguments that read a stream, over TCP for rtsp. */
  function StreamInput(url: string, rtsp: bool): seq<string> {
    (if rtsp then ["-rtsp_transport", "tcp"] else []) + [InputFlag, url, "-map", "0:a:0"]
  }

  /** The arguments that say where the audio comes from. */
  function InputArgs(config: map<string, Value>, repr: FloatRepr, split: StreamUrl.Split): seq<string>
    requires !DeviceMode(config) ==> Get(config, "rtmp_url", Str("")).Str?
  {
    if DeviceMode(config) then DeviceInput(DeviceName(config, repr))
    else
      var url := Get(config, "rtmp_url", Str("")).s;
      StreamInput(url, SchemeOf(url, split) == "rtsp")
  }

  /** The arguments that cut the audio into `seconds`-long segments under `tmpDir`. */
  function SegmentArgs(seconds: string, tmpDir: string): (r: seq<string>)
    ensures |r| == 12
  {
    ["-vn", "-ac", "1", "-ar", "48000", "-f", "segment",
     "-segment_time", seconds, "-reset_timestamps", "1", tmpDir + "/segment_%06d.wav"]
  }

  /** The arguments that say how the audio is cut into segments and where they go. */
  function OutputArgs(config: map<string, Value>, tmpDir: string, repr: FloatRepr): seq<string> {
    SegmentArgs(SegmentSeconds(config, repr), tmpDir)
  }

  /** `str(config.get("segment_seconds", 3))` */
  function SegmentSeconds(config: map<string, Value>, repr: FloatRepr): string {
    PyStr(Get(config, "segment_seconds", Int(3)), repr)
  }

  /** The program, its global options, then the input and the output arguments. */
  function Assemble(ffmpegPath: string, input: seq<string>, output: seq<string>): seq<string> {
    [ffmpegPath, "-loglevel", "warning", "-hide_banner", "-y"] + input + output
  }

  /**
   * `build_ffmpeg_command(config, ffmpeg_path)`. `str(TMP_DIR / name)` is
   * `tmpDir + "/" + name`. The stream URL is a string, as `update_config`
   * stores it; `urlsplit` would raise TypeError on anything else.
   */
  function BuildFfmpegCommand(config: map<string, Value>, ffmpegPath: string, tmpDir: string, repr: FloatRepr,
                              split: StreamUrl.Split): (r: Built)
    requires !DeviceMode(config) ==> Get(config, "rtmp_url", Str("")).Str?
    ensures r.Refused? <==>
      if DeviceMode(config) then DeviceName(config, repr) == "" else Get(config, "rtmp_url", Str("")).s == ""
    ensures r.Refused? ==> r.message == if DeviceMode(config) then NoInputDevice else NoStreamUrl
  {
    if DeviceMode(config) && DeviceName(config, repr) == "" then Refused(NoInputDevice)
    else if !DeviceMode(config) && Get(config, "rtmp_url", Str("")).s == "" then Refused(NoStreamUrl)
    else Command(CommandArgs(config, ffmpegPath, tmpDir, repr, split))
  }

  /** The command `build_ffmpeg_command` gives when it does not refuse. */
  function CommandArgs(config: map<string, Value>, ffmpegPath: string, tmpDir: string, repr: FloatRepr,
                       split: StreamUrl.Split): seq<string>
    requires !DeviceMode(config) ==> Get(config, "rtmp_url", Str("")).Str?
  {
    Assemble(ffmpegPath, InputArgs(config, repr, split), OutputArgs(config, tmpDir, repr))
  }

  /** Where the audio comes from: ":device" for a local device, the URL for a stream. */
  function InputOf(config: map<string, Value>, repr: FloatRepr): string
    requires !DeviceMode(config) ==> Get(config, "rtmp_url", Str("")).Str?
  {
    if DeviceMode(config) then ":" + DeviceName(config, repr) else Get(config, "rtmp_url", Str("")).s
  }

  /** The first "-i" flag after the program name is followed by `input`. */
  predicate ReadsInput(args: seq<string>, input: string) {
    exists k :: 1 <= k < |args| - 1 && args[k] == InputFlag && args[k + 1] == input && InputFlag !in args[1..k]
  }

  /** The shape of a command that reads a device. */
  lemma DeviceCommandShape(ffmpegPath: string, device: string, seconds: string, tmpDir: string)
    ensures var args := Assemble(ffmpegPath, DeviceInput(device), SegmentArgs(seconds, tmpDir));
      && args[0] == ffmpegPath
      && args[|args| - 1] == tmpDir + "/segment_%06d.wav"
      && ReadsInput(args, ":" + device)
      && args[5] != "-rtsp_transport"
  {
    var args := Assemble(ffmpegPath, DeviceInput(device), SegmentArgs(seconds, tmpDir));
    assert args[7] == InputFlag && args[8] == ":" + device;
    assert args[1..7] == ["-loglevel", "warning", "-hide_banner", "-y", "-f", "avfoundation"];
  }

  /** The shape of a command that reads a stream. */
  lemma StreamCommandShape(ffmpegPath: string, url: string, rtsp: bool, seconds: string, tmpDir: string)
    ensures var args := Assemble(ffmpegPath, StreamInput(url, rtsp), SegmentArgs(seconds, tmpDir));
      && args[0] == ffmpegPath
      && args[|args| - 1] == tmpDir + "/segment_%06d.wav"
      && ReadsInput(args, url)
      && (args[5] == "-rtsp_transport" <==> rtsp)
  {
    var args := Assemble(ffmpegPath, StreamInput(url, rtsp), SegmentArgs(seconds, tmpDir));
    if rtsp {
      assert args[7] == InputFlag && args[8] == url;
      assert args[1..7] == ["-loglevel", "warning", "-hide_banner", "-y", "-rtsp_transport", "tcp"];
    } else {
      assert args[5] == InputFlag && args[6] == url;
      assert args[1..5] == ["-loglevel", "warning", "-hide_banner", "-y"];
    }
  }

  /**
   * The command runs the given ffmpeg, reads its input right after the one
   * "-i" flag, asks for TCP transport exactly for an rtsp stream, and ends
   * with the segment file pattern.
   */
  lemma CommandShape(config: map<string, Value>, ffmpegPath: string, tmpDir: string, repr: FloatRepr,
                     split: StreamUrl.Split)
    requires !DeviceMode(config) ==> Get(config, "rtmp_url", Str("")).Str?
    requires BuildFfmpegCommand(config, ffmpegPath, tmpDir, repr, split).Command?
    ensures var args := BuildFfmpegCommand(config, ffmpegPath, tmpDir, repr, split).args;
      && args[0] == ffmpegPath
      && args[|args| - 1] == tmpDir + "/segment_%06d.wav"
      && ReadsInput(args, InputOf(config, repr))
      && (args[5] == "-rtsp_transport" <==>
            !DeviceMode(config) && SchemeOf(Get(config, "rtmp_url", Str("")).s, split) == "rtsp")
  {
    var seconds := SegmentSeconds(config, repr);
    if DeviceMode(config) {
      DeviceCommandShape(ffmpegPath, DeviceName(config, repr), seconds, tmpDir);
    } else {
      var url := Get(config, "rtmp_url", Str("")).s;
      StreamCommandShape(ffmpegPath, url, SchemeOf(url, split) == "rtsp", seconds, tmpDir);
    }
  }

  /** The segment arguments close the command, whatever the input arguments. */
  lemma AssembleEndsWithOutput(ffmpegPath: string, input: seq<string>, output: seq<string>)
    ensures var args := Assemble(ffmpegPath, input, output);
      args[|args| - |output|..] == output
  {
  }

  lemma SameOutputSameTail(ffmpegPath: string, input: seq<string>, otherInput: seq<string>, output: seq<string>)
    ensures var a := Assemble(ffmpegPath, input, output);
      var b := Assemble(ffmpegPath, otherInput, output);
      |a| >= |output| && |b| >= |output| && a[|a| - |output|..] == b[|b| - |output|..]
  {
    AssembleEndsWithOutput(ffmpegPath, input, output);
    AssembleEndsWithOutput(ffmpegPath, otherInput, output);
  }

  /** The output half of the command does not depend on where the audio comes from. */
  lemma OutputIndependentOfInput(config: map<string, Value>, other: map<string, Value>, ffmpegPath: string,
                                 tmpDir: string, repr: FloatRepr, split: StreamUrl.Split)
    requires !DeviceMode(config) ==> Get(config, "rtmp_url", Str("")).Str?
    requires !DeviceMode(other) ==> Get(other, "rtmp_url", Str("")).Str?
    requires Get(config, "segment_seconds", Int(3)) == Get(other, "segment_seconds", Int(3))
    ensures var a := CommandArgs(config, ffmpegPath, tmpDir, repr, split);
      var b := CommandArgs(other, ffmpegPath, tmpDir, repr, split);
      |a| >= 12 && |b| >= 12 && a[|a| - 12..] == b[|b| - 12..]
  {
    var output := SegmentArgs(SegmentSeconds(config, repr), tmpDir);
    var input := InputArgs(config, repr, split);
    var otherInput := InputArgs(other, repr, split);
    assert CommandArgs(config, ffmpegPath, tmpDir, repr, split) == Assemble(ffmpegPath, input, output);
    assert CommandArgs(other, ffmpegPath, tmpDir, repr, split) == Assemble(ffmpegPath, otherInput, output) by {
      assert SegmentSeconds(other, repr) == SegmentSeconds(config, repr);
    }
    SameOutputSameTail(ffmpegPath, input, otherInput, output);
  }
}
