/**
 * The `HandBrakeCLI` wrapper of `riparr.encoder.handbrake`: the encoder name, the encode
 * command, the errors an encode raises, and the preset list filtered from
 * `--preset-list` output. Running the command is a value: `Process` is what it gave back.
 */
module HandBrake {
  import opened Wrappers
  import opened Strings
  import opened Lists

  /** The outcome of starting a command: the executable is missing, or it ran to an exit code. */
  datatype Process = NotFound | Exited(output: seq<string>, returnCode: int)

  /** The encoders HandBrake is asked for by name. */
  const KnownEncoders: set<string> := {"x264", "x265", "nvenc_h264", "nvenc_h265"}

  /** `_get_encoder_name`: a known encoder stands for itself, anything else becomes x265. */
  function EncoderName(codec: string): (r: string)
    ensures r in KnownEncoders
    ensures codec in KnownEncoders <==> r == codec
  {
    if codec in KnownEncoders then codec else "x265"
  }

  /** What `encode` is asked to do; paths are their string forms. */
  datatype EncodeRequest = EncodeRequest(
    input: string,
    output: string,
    preset: string,
    videoCodec: string,
    quality: int,
    audioCodec: string,
    subtitleMode: string)

  /** The fixed head of every encode command. */
  function CommandHead(executable: string, q: EncodeRequest): seq<string>
  {
    [executable, "-i", q.input, "-o", q.output, "--preset", q.preset,
     "--encoder", EncoderName(q.videoCodec), "--quality", IntToString(q.quality),
     "--audio-lang-list", "eng,und", "--first-audio"]
  }

  /** The subtitle flags: the first track, all tracks, or none. */
  function SubtitleFlags(mode: string): (r: seq<string>)
    ensures mode == "first" <==> r == ["--subtitle", "1"]
    ensures mode == "all" <==> r == ["--all-subtitles"]
    ensures mode != "first" && mode != "all" <==> r == []
  {
    if mode == "first" then ["--subtitle", "1"]
    else if mode == "all" then ["--all-subtitles"]
    else []
  }

  /**
   * The encode command: the head, then the audio encoder (`copy` passes through), then
   * the subtitle flags.
   */
  function EncodeCommand(executable: string, q: EncodeRequest): (r: seq<string>)
    ensures |r| == 16 + |SubtitleFlags(q.subtitleMode)|
    ensures r[..14] == CommandHead(executable, q) && r[14..16] == ["--aencoder", q.audioCodec]
    ensures r[16..] == SubtitleFlags(q.subtitleMode)
    ensures r[8] in KnownEncoders && ParseInt(r[10]) == Some(q.quality)
  {
    var head := CommandHead(executable, q);
    var audio := if q.audioCodec == "copy" then ["--aencoder", "copy"] else ["--aencoder", q.audioCodec];
    var r := head + audio + SubtitleFlags(q.subtitleMode);
    assert r[..14] == head && r[14..16] == audio && r[16..] == SubtitleFlags(q.subtitleMode);
    assert r[8] == EncoderName(q.videoCodec);
    assert ParseInt(r[10]) == Some(q.quality) by {
      assert r[10] == IntToString(q.quality);
      IntToStringRoundTrip(q.quality);
    }
    r
  }

  /** What `encode` did: the command it ran, if it got that far, and the output path or the error. */
  datatype EncodeResult = EncodeResult(command: Option<seq<string>>, result: Result<string>)

  /**
   * `encode`: a missing input fails before any command is built; otherwise the command runs
   * and a missing executable, a non-zero exit or a missing output file fails it.
   */
  function Encode(executable: string, q: EncodeRequest, inputExists: bool, run: Process, outputExists: bool): (r: EncodeResult)
    ensures !inputExists <==> r.command.None?
    ensures !inputExists ==> r.result == Err("Input file not found: " + q.input)
    ensures inputExists ==> r.command == Some(EncodeCommand(executable, q))
    ensures r.result.Ok? <==> inputExists && run.Exited? && run.returnCode == 0 && outputExists
    ensures r.result.Ok? ==> r.result.value == q.output
  {
    if !inputExists then EncodeResult(None, Err("Input file not found: " + q.input))
    else
      var cmd := Some(EncodeCommand(executable, q));
      match run
      case NotFound =>
        EncodeResult(cmd, Err("HandBrakeCLI not found at '" + executable + "'. Please install HandBrake and ensure HandBrakeCLI is in PATH."))
      case Exited(_, code) =>
        if code != 0 then EncodeResult(cmd, Err("HandBrake failed with code " + IntToString(code)))
        else if !outputExists then EncodeResult(cmd, Err("Output file not created: " + q.output))
        else EncodeResult(cmd, Ok(q.output))
  }

  /** The failure of a non-zero exit names the exit code. */
  lemma EncodeExitCode(executable: string, q: EncodeRequest, output: seq<string>, code: int, outputExists: bool)
    requires code != 0
    ensures var e := Encode(executable, q, true, Exited(output, code), outputExists).result;
      e.Err? && |e.error| > 27 && e.error[..27] == "HandBrake failed with code " && ParseInt(e.error[27..]) == Some(code)
  {
    var n := IntToString(code);
    IntToStringRoundTrip(code);
    var msg := "HandBrake failed with code " + n;
    assert Encode(executable, q, true, Exited(output, code), outputExists).result == Err(msg);
    assert msg[..27] == "HandBrake failed with code " && msg[27..] == n;
  }

  // ---------------------------------------------------------------------------
  // get_presets
  // ---------------------------------------------------------------------------

  /** A stripped line names a preset unless empty, bracketed, a path or a category header. */
  predicate IsPreset(line: string)
  {
    line != [] && !StartsWith(line, "<") && !(line[|line| - 1] == '>') &&
    '/' !in line && line !in {"General", "Web", "Devices", "Matroska"}
  }

  const IsPresetLine: string -> bool := (line: string) => IsPreset(line)

  /** The preset names of `--preset-list` output, in output order. */
  function PresetsOf(lines: seq<string>): seq<string>
  {
    Filter(StripAll(lines), IsPresetLine)
  }

  /** Every preset is a stripped, non-empty line of the output meeting the filter, in output order. */
  lemma PresetsOfMeaning(lines: seq<string>)
    ensures forall i :: 0 <= i < |PresetsOf(lines)| ==> IsPreset(PresetsOf(lines)[i]) && PresetsOf(lines)[i] in StripAll(lines)
    ensures Subseq(PresetsOf(lines), StripAll(lines))
    ensures forall j :: 0 <= j < |lines| && IsPreset(Strip(lines[j])) ==> Strip(lines[j]) in PresetsOf(lines)
  {
    FilterSubseq(StripAll(lines), IsPresetLine);
    forall j | 0 <= j < |lines| && IsPreset(Strip(lines[j])) ensures Strip(lines[j]) in PresetsOf(lines) {
      assert StripAll(lines)[j] == Strip(lines[j]);
      assert IsPresetLine(Strip(lines[j]));
    }
  }

  /** `get_presets`: the preset lines, or nothing when HandBrakeCLI is missing. */
  method GetPresets(executable: string, run: Process) returns (cmd: seq<string>, presets: seq<string>)
    ensures cmd == [executable, "--preset-list"]
    ensures presets == if run.NotFound? then [] else PresetsOf(run.output)
  {
    cmd := [executable, "--preset-list"];
    presets := [];
    if run.NotFound? {
      return;
    }
    var lines := StripAll(run.output);
    var i := 0;
    while i < |lines|
      invariant 0 <= i <= |lines|
      invariant presets == Filter(lines[..i], IsPresetLine)
    {
      assert lines[..i + 1][..i] == lines[..i];
      if IsPresetLine(lines[i]) {
        presets := presets + [lines[i]];
      }
      i := i + 1;
    }
    assert lines[..i] == lines;
  }
}
