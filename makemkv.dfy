/**
 * The `makemkvcon` wrapper of `riparr.ripper.makemkv`: how a device becomes a MakeMKV
 * source, the commands run, how their robot-mode output is fed to the parser, how exit
 * codes and missing output files become errors, and the drive list read from `DRV` lines.
 * Running a command is a value: `Run` is what the process gave back.
 */
module MakeMkv {
  import opened Wrappers
  import opened Strings
  import opened Lists
  import opened CoreDisc
  import opened Parser

  /** The outcome of starting a command: the executable is missing, or it ran to an exit code. */
  datatype Run = NotFound(reason: string) | Ran(stdout: seq<string>, returnCode: int, stderr: string)

  /** A file of the output directory as listed after the run, with its modification time. */
  datatype FileEntry = FileEntry(name: string, mtime: int)

  /** A record of the drive list. */
  datatype DriveRecord = DriveRecord(index: string, device: string, driveName: string, discName: string, hasDisc: bool)

  function NotFoundMessage(executable: string): string
  {
    "MakeMKV not found at '" + executable + "'. Please install MakeMKV and ensure makemkvcon is in PATH."
  }

  // ---------------------------------------------------------------------------
  // Sources and commands
  // ---------------------------------------------------------------------------

  /** `scan_disc`'s source: `dev:` before a `/dev/` path, a `disc:` index as given, `dev:` before anything else. */
  function ScanSource(device: string): string
  {
    if StartsWith(device, "/dev/") then "dev:" + device
    else if StartsWith(device, "disc:") then device
    else "dev:" + device
  }

  /** `rip_title`'s and `rip_all`'s source: `dev:` before a `/dev/` path, anything else as given. */
  function RipSource(device: string): string
  {
    if StartsWith(device, "/dev/") then "dev:" + device else device
  }

  /** The device a source names: what follows `dev:`, or the source itself. */
  function SourceDevice(source: string): string
  {
    if StartsWith(source, "dev:") then source[4..] else source
  }

  lemma StartsWithMeaning(s: string, p: string)
    ensures StartsWith(s, p) <==> |p| <= |s| && s[..|p|] == p
  {
    OccursAtMeaning(s, p, 0);
  }

  /** The scan source is `dev:` and the device unless the device is a `disc:` index, and names the device back. */
  lemma ScanSourceDevice(device: string)
    ensures ScanSource(device) == if StartsWith(device, "disc:") then device else "dev:" + device
    ensures SourceDevice(ScanSource(device)) == device
  {
    StartsWithMeaning(device, "/dev/");
    StartsWithMeaning(device, "disc:");
    StartsWithMeaning(device, "dev:");
    var s := ScanSource(device);
    StartsWithMeaning(s, "dev:");
    if StartsWith(device, "disc:") {
      assert device[1] == "disc:"[1];
    } else {
      assert s[..4] == "dev:";
    }
  }

  /**
   * A rip source agrees with the scan source on `/dev/` paths and names the device back
   * whenever the device does not itself begin with `dev:`.
   */
  lemma RipSourceDevice(device: string)
    ensures StartsWith(device, "/dev/") ==> RipSource(device) == ScanSource(device)
    ensures !StartsWith(device, "dev:") ==> SourceDevice(RipSource(device)) == device
  {
    StartsWithMeaning(device, "/dev/");
    StartsWithMeaning(device, "dev:");
    var s := RipSource(device);
    StartsWithMeaning(s, "dev:");
    if StartsWith(device, "/dev/") {
      assert s[..4] == "dev:";
    }
  }

  function ScanCommand(executable: string, device: string): (r: seq<string>)
    ensures |r| == 4 && r[0] == executable && r[1..3] == ["-r", "info"]
    ensures SourceDevice(r[3]) == device
  {
    ScanSourceDevice(device);
    [executable, "-r", "info", ScanSource(device)]
  }

  function RipCommand(executable: string, device: string, titleIndex: int, outputDir: string): (r: seq<string>)
    ensures |r| == 6 && r[0] == executable && r[1..3] == ["-r", "mkv"] && r[5] == outputDir
    ensures ParseInt(r[4]) == Some(titleIndex)
  {
    var n := IntToString(titleIndex);
    var r := [executable, "-r", "mkv", RipSource(device), n, outputDir];
    assert r[1..3] == ["-r", "mkv"];
    assert ParseInt(r[4]) == Some(titleIndex) by {
      IntToStringRoundTrip(titleIndex);
    }
    r
  }

  function RipAllCommand(executable: string, device: string, outputDir: string): seq<string>
  {
    [executable, "-r", "mkv", RipSource(device), "all", outputDir]
  }

  // ---------------------------------------------------------------------------
  // Feeding output lines to the parser
  // ---------------------------------------------------------------------------

  /** `parse_line` on every line in turn; the first error ends the run with the state it left. */
  function ParseAll(d: ParseData, lines: seq<string>): Parsed
    decreases |lines|
  {
    if lines == [] then Parsed(d, None)
    else
      var p := ApplyLine(d, lines[0]);
      if p.error.Some? then p else ParseAll(p.data, lines[1..])
  }

  lemma {:induction false} ParseAllWellFormed(d: ParseData, lines: seq<string>)
    requires WellFormed(d)
    ensures WellFormed(ParseAll(d, lines).data)
    decreases |lines|
  {
    if lines != [] {
      ApplyLineWellFormed(d, lines[0]);
      var p := ApplyLine(d, lines[0]);
      if p.error.None? {
        ParseAllWellFormed(p.data, lines[1..]);
      }
    }
  }

  /** Lines that are blank, have no `:` or an unknown prefix do not change what the parser reads. */
  lemma {:induction false} ParseAllSkips(d: ParseData, lines: seq<string>, extra: string)
    requires ApplyLine(d, extra) == Parsed(d, None)
    ensures ParseAll(d, [extra] + lines) == ParseAll(d, lines)
  {
    assert ([extra] + lines)[1..] == lines;
  }

  method FeedLines(state: ParseState, lines: seq<string>) returns (error: Option<string>)
    requires state.Valid()
    modifies state
    ensures Parsed(state.Data(), error) == ParseAll(old(state.Data()), lines)
    ensures state.Valid()
  {
    ghost var d0 := state.Data();
    var i := 0;
    error := None;
    while i < |lines| && error.None?
      invariant 0 <= i <= |lines|
      invariant state.Valid()
      invariant error.None? ==> ParseAll(d0, lines) == ParseAll(state.Data(), lines[i..])
      invariant error.Some? ==> Parsed(state.Data(), error) == ParseAll(d0, lines)
    {
      assert lines[i..][0] == lines[i] && lines[i..][1..] == lines[i + 1..];
      error := ParseLine(lines[i], state);
      i := i + 1;
    }
  }

  // ---------------------------------------------------------------------------
  // scan_disc
  // ---------------------------------------------------------------------------

  /** The parser's starting state, with the disc's device set. */
  function ScanStart(device: string): (r: ParseData)
    ensures WellFormed(r)
  {
    InitialData().(disc := EmptyDisc().(device := device))
  }

  /** What is logged for a failed scan: exit code, hint and messages. */
  datatype ScanFailure = ScanFailure(returnCode: int, hint: string, messages: seq<string>)

  const LicenseHint: string := "(" + "likely: beta key expired or license issue - set RIPARR_MAKEMKV_KEY" + ")"
  const NoDiscHint: string := "(" + "no disc in drive" + ")"

  /** The hint logged for an exit code, stripped of its leading blank: a license problem for 253, no disc for 2. */
  function ScanHint(returnCode: int): (r: string)
    ensures returnCode == 253 ==> r == LicenseHint
    ensures returnCode == 2 ==> r == NoDiscHint
    ensures r != "" <==> returnCode == 253 || returnCode == 2
    ensures r != "" ==> r[0] == '(' && r[|r| - 1] == ')'
  {
    if returnCode == 253 then StripLeadingBlank(LicenseHint); Strip(" " + LicenseHint)
    else if returnCode == 2 then StripLeadingBlank(NoDiscHint); Strip(" " + NoDiscHint)
    else ""
  }

  /** The failure logged for a non-zero exit: the error text, or `Unknown error` without any. */
  function ScanDiagnostics(returnCode: int, stderr: string): (r: Option<ScanFailure>)
    ensures r.None? <==> returnCode == 0
    ensures r.Some? ==> r.value.returnCode == returnCode && |r.value.messages| == 1 && r.value.messages[0] != ""
  {
    if returnCode == 0 then None
    else Some(ScanFailure(returnCode, ScanHint(returnCode), if stderr != "" then [stderr] else ["Unknown error"]))
  }

  /**
   * `scan_disc` as intended: the disc read from the output, whatever the exit code; only
   * a missing executable or an error while parsing a line raises.
   */
  function ScanOutcome(executable: string, device: string, run: Run): (r: Result<Disc>)
    ensures run.NotFound? ==> r == Err(NotFoundMessage(executable))
    ensures r.Ok? ==> run.Ran? && ParseAll(ScanStart(device), run.stdout).error.None?
    ensures run.Ran? && ParseAll(ScanStart(device), run.stdout).error.None? ==>
      (ParseAllWellFormed(ScanStart(device), run.stdout); r == Ok(Finalized(ParseAll(ScanStart(device), run.stdout).data)))
  {
    match run
    case NotFound(_) => Err(NotFoundMessage(executable))
    case Ran(stdout, _, _) =>
      var p := ParseAll(ScanStart(device), stdout);
      ParseAllWellFormed(ScanStart(device), stdout);
      if p.error.Some? then Err("Failed to scan disc: " + p.error.value)
      else Ok(Finalized(p.data))
  }

  /** The attribute error `state.errors` raises, as `scan_disc` reports it. */
  const ScanErrorsAttribute := "Failed to scan disc: 'ParseState' object has no attribute 'errors'"

  /**
   * `scan_disc` as written: a non-zero exit reads `state.errors`, a field the parser
   * state does not have, and the `AttributeError` is re-raised as a scan failure.
   */
  function ScanOutcomeAsWritten(executable: string, device: string, run: Run): (r: Result<Disc>)
  {
    if run.Ran? && run.returnCode != 0 && ParseAll(ScanStart(device), run.stdout).error.None? then
      Err(ScanErrorsAttribute)
    else ScanOutcome(executable, device, run)
  }

  /** As written, every non-zero exit fails the scan, the case the code means to let through. */
  lemma ScanNonZeroExitRaises(executable: string, device: string, stdout: seq<string>, returnCode: int, stderr: string)
    requires returnCode != 0 && ParseAll(ScanStart(device), stdout).error.None?
    ensures ScanOutcomeAsWritten(executable, device, Ran(stdout, returnCode, stderr)) == Err(ScanErrorsAttribute)
    ensures ScanOutcome(executable, device, Ran(stdout, returnCode, stderr)).Ok?
  {
  }

  /** An empty output with exit code 2 (no disc) shows it: an empty disc as intended, an error as written. */
  lemma ScanNoDiscExample(executable: string)
    ensures ScanOutcomeAsWritten(executable, "/dev/sr0", Ran([], 2, "")).Err?
    ensures ScanOutcome(executable, "/dev/sr0", Ran([], 2, "")) == Ok(EmptyDisc().(device := "/dev/sr0"))
  {
    var d := ScanStart("/dev/sr0");
    assert ParseAll(d, []) == Parsed(d, None);
    assert SortedKeys(d) == [];
    assert FinalTitles(d) == [];
    assert Finalized(d) == EmptyDisc().(device := "/dev/sr0");
  }

  /** As intended, the exit code does not change the disc read. */
  lemma ScanIgnoresExitCode(executable: string, device: string, stdout: seq<string>, a: int, b: int, sa: string, sb: string)
    ensures ScanOutcome(executable, device, Ran(stdout, a, sa)) == ScanOutcome(executable, device, Ran(stdout, b, sb))
  {
  }

  /** `scan_disc` (with the exit-code handling the code intends): the command, the disc or error, the logged failure. */
  method ScanDisc(executable: string, device: string, run: Run)
    returns (cmd: seq<string>, r: Result<Disc>, failure: Option<ScanFailure>)
    ensures cmd == ScanCommand(executable, device)
    ensures r == ScanOutcome(executable, device, run)
    ensures failure == if run.Ran? && r.Ok? then ScanDiagnostics(run.returnCode, run.stderr) else None
  {
    cmd := ScanCommand(executable, device);
    failure := None;
    if run.NotFound? {
      return cmd, Err(NotFoundMessage(executable)), None;
    }
    var state := new ParseState();
    state.disc := state.disc.(device := device);
    assert state.Data() == ScanStart(device);
    var error := FeedLines(state, run.stdout);
    if error.Some? {
      return cmd, Err("Failed to scan disc: " + error.value), None;
    }
    failure := ScanDiagnostics(run.returnCode, run.stderr);
    var disc := FinalizeState(state);
    r := Ok(disc);
  }

  // ---------------------------------------------------------------------------
  // rip_title
  // ---------------------------------------------------------------------------

  /** The output file named last, in title order, by a title that names one; `out` when none does. */
  function LastOutputFile(titles: map<int, Title>, order: seq<int>, out: Option<string>): (r: Option<string>)
    ensures r != out ==> exists j :: 0 <= j < |order| && order[j] in titles && Some(titles[order[j]].outputFile) == r
    ensures (forall j :: 0 <= j < |order| && order[j] in titles ==> titles[order[j]].outputFile == "") ==> r == out
    decreases |order|
  {
    if order == [] then out
    else
      var k := order[|order| - 1];
      var init := order[..|order| - 1];
      if k in titles && titles[k].outputFile != "" then Some(titles[k].outputFile)
      else
        var r := LastOutputFile(titles, init, out);
        assert forall j :: 0 <= j < |init| ==> init[j] == order[j];
        r
  }

  /** A `TINFO` line mentioning `,N,` for the ripped title refreshes the captured file name. */
  predicate MentionsTitle(line: string, titleIndex: int)
  {
    Contains(line, "TINFO") && Contains(line, "," + IntToString(titleIndex) + ",")
  }

  /** What reading the rip's output gives: the parser state, the captured file name, an error. */
  datatype RipRead = RipRead(data: ParseData, output: Option<string>, error: Option<string>)

  function ReadRip(d: ParseData, lines: seq<string>, titleIndex: int, out: Option<string>): RipRead
    decreases |lines|
  {
    if lines == [] then RipRead(d, out, None)
    else
      var line := Strip(lines[0]);
      var p := ApplyLine(d, line);
      if p.error.Some? then RipRead(p.data, out, p.error)
      else
        var out' := if MentionsTitle(line, titleIndex) then LastOutputFile(p.data.titles, p.data.titleOrder, out) else out;
        ReadRip(p.data, lines[1..], titleIndex, out')
  }

  /** A captured name is one some title reported. */
  lemma {:induction false} ReadRipNames(d: ParseData, lines: seq<string>, titleIndex: int)
    ensures ReadRip(d, lines, titleIndex, None).output.Some? ==> ReadRip(d, lines, titleIndex, None).output.value != ""
  {
    ReadRipNamesFrom(d, lines, titleIndex, None);
  }

  lemma {:induction false} ReadRipNamesFrom(d: ParseData, lines: seq<string>, titleIndex: int, out: Option<string>)
    requires out.Some? ==> out.value != ""
    ensures ReadRip(d, lines, titleIndex, out).output.Some? ==> ReadRip(d, lines, titleIndex, out).output.value != ""
    decreases |lines|
  {
    if lines != [] {
      var line := Strip(lines[0]);
      var p := ApplyLine(d, line);
      if p.error.None? {
        var out' := if MentionsTitle(line, titleIndex) then LastOutputFile(p.data.titles, p.data.titleOrder, out) else out;
        if out' != out {
          var j :| 0 <= j < |p.data.titleOrder| && p.data.titleOrder[j] in p.data.titles && Some(p.data.titles[p.data.titleOrder[j]].outputFile) == out';
          LastOutputFileNonEmpty(p.data.titles, p.data.titleOrder, out);
        }
        ReadRipNamesFrom(p.data, lines[1..], titleIndex, out');
      }
    }
  }

  lemma {:induction false} LastOutputFileNonEmpty(titles: map<int, Title>, order: seq<int>, out: Option<string>)
    requires out.Some? ==> out.value != ""
    ensures LastOutputFile(titles, order, out).Some? ==> LastOutputFile(titles, order, out).value != ""
    decreases |order|
  {
    if order != [] {
      LastOutputFileNonEmpty(titles, order[..|order| - 1], out);
    }
  }

  predicate EndsWith(s: string, p: string) { |p| <= |s| && s[|s| - |p|..] == p }

  /** The `*_tNN.mkv` name of a title, NN its index padded to two digits. */
  function NumberedSuffix(titleIndex: int): string { "_t" + Pad2(titleIndex) + ".mkv" }

  const MTime: FileEntry -> int := (f: FileEntry) => f.mtime

  function Mkvs(files: seq<FileEntry>): seq<FileEntry>
  {
    Filter(files, (f: FileEntry) => EndsWith(f.name, ".mkv"))
  }

  function Numbered(files: seq<FileEntry>, titleIndex: int): seq<FileEntry>
  {
    Filter(files, (f: FileEntry) => EndsWith(f.name, NumberedSuffix(titleIndex)))
  }

  /**
   * The file `rip_title` settles on: the captured name, else the first `*_tNN.mkv`, else
   * the `.mkv` modified last (the last one among equally recent files in listing order).
   */
  function ChooseOutput(captured: Option<string>, titleIndex: int, files: seq<FileEntry>): (r: Option<string>)
    ensures captured.Some? ==> r == captured
    ensures captured.None? && Numbered(files, titleIndex) != [] ==> r == Some(Numbered(files, titleIndex)[0].name)
    ensures captured.None? && Numbered(files, titleIndex) == [] ==> (r.None? <==> Mkvs(files) == [])
    ensures captured.None? && Numbered(files, titleIndex) == [] && r.Some? ==>
      exists f :: f in files && EndsWith(f.name, ".mkv") && f.name == r.value &&
        forall g :: g in files && EndsWith(g.name, ".mkv") ==> g.mtime <= f.mtime
  {
    if captured.Some? then captured
    else
      var numbered := Numbered(files, titleIndex);
      if numbered != [] then Some(numbered[0].name)
      else
        var sorted := SortBy(Mkvs(files), MTime);
        if |sorted| == 0 then None
        else
          NewestMkv(files, sorted);
          var f := sorted[|sorted| - 1];
          assert f in files && EndsWith(f.name, ".mkv") && f.name == Some(f.name).value;
          Some(f.name)
  }

  /** The last of the `.mkv` files sorted by modification time is one of the newest. */
  lemma NewestMkv(files: seq<FileEntry>, sorted: seq<FileEntry>)
    requires sorted == SortBy(Mkvs(files), MTime) && sorted != []
    ensures var f := sorted[|sorted| - 1];
      f in files && EndsWith(f.name, ".mkv") &&
      forall g :: g in files && EndsWith(g.name, ".mkv") ==> g.mtime <= f.mtime
  {
    var mkvs := Mkvs(files);
    NewestLast(mkvs, sorted);
    var f := sorted[|sorted| - 1];
    assert f in mkvs;
    forall g | g in files && EndsWith(g.name, ".mkv")
      ensures g in mkvs
    {
    }
  }

  lemma NewestLast(mkvs: seq<FileEntry>, sorted: seq<FileEntry>)
    requires sorted == SortBy(mkvs, MTime) && sorted != []
    ensures sorted[|sorted| - 1] in mkvs
    ensures forall g :: g in mkvs ==> g.mtime <= sorted[|sorted| - 1].mtime
  {
    var last := sorted[|sorted| - 1];
    assert last in multiset(sorted);
    forall g | g in mkvs ensures g.mtime <= last.mtime {
      assert g in multiset(mkvs);
      assert g in sorted;
      var i :| 0 <= i < |sorted| && sorted[i] == g;
      if i < |sorted| - 1 {
        assert MTime(sorted[i]) <= MTime(sorted[|sorted| - 1]);
      }
    }
  }

  predicate Listed(files: seq<FileEntry>, name: string)
  {
    exists i :: 0 <= i < |files| && files[i].name == name
  }

  /** `rip_title`: the file the title was ripped to, or the error raised. */
  function RipOutcome(executable: string, titleIndex: int, run: Run, files: seq<FileEntry>): (r: Result<string>)
    ensures r.Ok? ==> run.Ran? && run.returnCode == 0 && Listed(files, r.value)
    ensures run.Ran? && run.returnCode != 0 && ReadRip(InitialData(), run.stdout, titleIndex, None).error.None? ==>
      r == Err("MakeMKV rip failed (code " + IntToString(run.returnCode) + "): " + run.stderr)
    ensures run.Ran? && run.returnCode == 0 && ReadRip(InitialData(), run.stdout, titleIndex, None).error.None? ==>
      var c := ChooseOutput(ReadRip(InitialData(), run.stdout, titleIndex, None).output, titleIndex, files);
      (r.Ok? <==> c.Some? && Listed(files, c.value)) && (r.Ok? ==> Some(r.value) == c)
  {
    match run
    case NotFound(_) => Err(NotFoundMessage(executable))
    case Ran(stdout, returnCode, stderr) =>
      var read := ReadRip(InitialData(), stdout, titleIndex, None);
      if read.error.Some? then Err("Failed to rip title " + IntToString(titleIndex) + ": " + read.error.value)
      else if returnCode != 0 then Err("MakeMKV rip failed (code " + IntToString(returnCode) + "): " + stderr)
      else match ChooseOutput(read.output, titleIndex, files)
        case Some(f) => if Listed(files, f) then Ok(f) else Err(NoOutputMessage(titleIndex))
        case None => Err(NoOutputMessage(titleIndex))
  }

  function NoOutputMessage(titleIndex: int): string
  {
    "No output file found after ripping title " + IntToString(titleIndex)
  }

  /** The first numbered file, when there is one, is a listed file whose name has the title's number. */
  lemma NumberedListed(files: seq<FileEntry>, titleIndex: int, i: int)
    requires 0 <= i < |files| && EndsWith(files[i].name, NumberedSuffix(titleIndex))
    ensures Numbered(files, titleIndex) != [] && Listed(files, Numbered(files, titleIndex)[0].name)
    ensures EndsWith(Numbered(files, titleIndex)[0].name, NumberedSuffix(titleIndex))
  {
    var n := Numbered(files, titleIndex);
    assert files[i] in n;
    var f := n[0];
    assert f in files;
    var j :| 0 <= j < |files| && files[j] == f;
  }

  /** The captured name, refreshed from the titles, as the loop over `state.titles.values()` leaves it. */
  method CaptureOutput(state: ParseState, out: Option<string>) returns (r: Option<string>)
    ensures r == LastOutputFile(state.titles, state.titleOrder, out)
  {
    r := out;
    var i := 0;
    while i < |state.titleOrder|
      invariant 0 <= i <= |state.titleOrder|
      invariant r == LastOutputFile(state.titles, state.titleOrder[..i], out)
    {
      var k := state.titleOrder[i];
      assert state.titleOrder[..i + 1][..i] == state.titleOrder[..i];
      if k in state.titles && state.titles[k].outputFile != "" {
        r := Some(state.titles[k].outputFile);
      }
      i := i + 1;
    }
    assert state.titleOrder[..i] == state.titleOrder;
  }

  method ReadRipLines(state: ParseState, lines: seq<string>, titleIndex: int) returns (out: Option<string>, error: Option<string>)
    requires state.Valid()
    modifies state
    ensures ReadRip(old(state.Data()), lines, titleIndex, None) == RipRead(state.Data(), out, error)
  {
    ghost var d0 := state.Data();
    out := None;
    error := None;
    var i := 0;
    while i < |lines| && error.None?
      invariant 0 <= i <= |lines|
      invariant state.Valid()
      invariant error.None? ==> ReadRip(d0, lines, titleIndex, None) == ReadRip(state.Data(), lines[i..], titleIndex, out)
      invariant error.Some? ==> ReadRip(d0, lines, titleIndex, None) == RipRead(state.Data(), out, error)
    {
      assert lines[i..][0] == lines[i] && lines[i..][1..] == lines[i + 1..];
      var line := Strip(lines[i]);
      error := ParseLine(line, state);
      if error.None? && MentionsTitle(line, titleIndex) {
        out := CaptureOutput(state, out);
      }
      i := i + 1;
    }
  }

  /** `rip_title`: the command, then the ripped file or the error. */
  method RipTitle(executable: string, device: string, titleIndex: int, outputDir: string, run: Run, files: seq<FileEntry>)
    returns (cmd: seq<string>, r: Result<string>)
    ensures cmd == RipCommand(executable, device, titleIndex, outputDir)
    ensures r == RipOutcome(executable, titleIndex, run, files)
  {
    cmd := RipCommand(executable, device, titleIndex, outputDir);
    if run.NotFound? {
      return cmd, Err(NotFoundMessage(executable));
    }
    var state := new ParseState();
    var out, error := ReadRipLines(state, run.stdout, titleIndex);
    if error.Some? {
      return cmd, Err("Failed to rip title " + IntToString(titleIndex) + ": " + error.value);
    }
    if run.returnCode != 0 {
      return cmd, Err("MakeMKV rip failed (code " + IntToString(run.returnCode) + "): " + run.stderr);
    }
    var chosen := ChooseOutput(out, titleIndex, files);
    if chosen.Some? && Listed(files, chosen.value) {
      r := Ok(chosen.value);
    } else {
      r := Err(NoOutputMessage(titleIndex));
    }
  }

  // ---------------------------------------------------------------------------
  // rip_all
  // ---------------------------------------------------------------------------

  /** `rip_all`: every `.mkv` of the listing on a clean exit; every failure is reported as a rip-all failure. */
  function RipAllOutcome(run: Run, files: seq<FileEntry>): (r: Result<seq<string>>)
    ensures r.Ok? ==> run.Ran? && run.returnCode == 0 && |r.value| == |Mkvs(files)|
    ensures r.Ok? ==> forall i :: 0 <= i < |r.value| ==> EndsWith(r.value[i], ".mkv")
    ensures r.Ok? ==> forall i :: 0 <= i < |r.value| ==> r.value[i] == Mkvs(files)[i].name
    ensures run.Ran? && run.returnCode == 0 && ParseAll(InitialData(), StripAll(run.stdout)).error.None? ==> r.Ok?
  {
    match run
    case NotFound(reason) => Err("Failed to rip all titles: " + reason)
    case Ran(stdout, returnCode, stderr) =>
      var p := ParseAll(InitialData(), StripAll(stdout));
      if p.error.Some? then Err("Failed to rip all titles: " + p.error.value)
      else if returnCode != 0 then Err("MakeMKV rip failed (code " + IntToString(returnCode) + "): " + stderr)
      else
        var m := Mkvs(files);
        Ok(seq(|m|, i requires 0 <= i < |m| => m[i].name))
  }

  method RipAll(executable: string, device: string, outputDir: string, run: Run, files: seq<FileEntry>)
    returns (cmd: seq<string>, r: Result<seq<string>>)
    ensures cmd == RipAllCommand(executable, device, outputDir)
    ensures r == RipAllOutcome(run, files)
  {
    cmd := RipAllCommand(executable, device, outputDir);
    if run.NotFound? {
      return cmd, Err("Failed to rip all titles: " + run.reason);
    }
    var state := new ParseState();
    var error := FeedLines(state, StripAll(run.stdout));
    if error.Some? {
      return cmd, Err("Failed to rip all titles: " + error.value);
    }
    if run.returnCode != 0 {
      return cmd, Err("MakeMKV rip failed (code " + IntToString(run.returnCode) + "): " + run.stderr);
    }
    var m := Mkvs(files);
    r := Ok(seq(|m|, i requires 0 <= i < |m| => m[i].name));
  }

  // ---------------------------------------------------------------------------
  // get_drives
  // ---------------------------------------------------------------------------

  /** The record a `DRV:` line gives: six or more fields and the enabled field `1`. */
  function DriveLine(line: string): (r: Option<DriveRecord>)
    ensures r.Some? <==> StartsWith(line, "DRV:") && |Split(line[4..], ',')| >= 6 && Split(line[4..], ',')[2] == "1"
    ensures r.Some? ==> var parts := Split(line[4..], ',');
      r.value.index == parts[0] && r.value.device == "/dev/sr" + parts[0] && (r.value.hasDisc <==> parts[1] == "1")
    ensures r.Some? ==> var parts := Split(line[4..], ',');
      r.value.driveName == StripChars(parts[4], {'"'}) && r.value.discName == StripChars(parts[5], {'"'})
    ensures r.Some? ==> (|r.value.driveName| > 0 ==> r.value.driveName[0] != '"') && (|r.value.discName| > 0 ==> r.value.discName[0] != '"')
  {
    if StartsWith(line, "DRV:") then
      StartsWithMeaning(line, "DRV:");
      var parts := Split(line[4..], ',');
      if |parts| >= 6 && parts[2] == "1" then
        var dn, cn := StripChars(parts[4], {'"'}), StripChars(parts[5], {'"'});
        StripQuotes(parts[4]);
        StripQuotes(parts[5]);
        Some(DriveRecord(parts[0], "/dev/sr" + parts[0], dn, cn, parts[1] == "1"))
      else None
    else None
  }

  lemma StripQuotes(s: string)
    ensures |StripChars(s, {'"'})| > 0 ==> StripChars(s, {'"'})[0] != '"'
  {
    StrippedFirst(s, {'"'});
  }

  lemma StrippedFirst(b: string, cs: set<char>)
    ensures |StripChars(b, cs)| > 0 ==> StripChars(b, cs)[0] !in cs
  {
    var t := TrimLeft(b, cs);
    var c := TrimRight(t, cs);
    if |c| > 0 {
      assert c == t[..|c|];
    }
  }

  /** The values `f` gives for the elements of `s` that give one, in order. */
  function Present<T, U>(s: seq<T>, f: T -> Option<U>): (r: seq<U>)
    ensures |r| <= |s|
    decreases |s|
  {
    if s == [] then []
    else
      var rest := Present(s[..|s| - 1], f);
      match f(s[|s| - 1])
      case Some(d) => rest + [d]
      case None => rest
  }

  /** Every value comes from some element, and there are values exactly when some element gives one. */
  lemma {:induction false} PresentMeaning<T, U>(s: seq<T>, f: T -> Option<U>)
    ensures forall i :: 0 <= i < |Present(s, f)| ==> exists j :: 0 <= j < |s| && f(s[j]) == Some(Present(s, f)[i])
    ensures (forall j :: 0 <= j < |s| ==> f(s[j]).None?) <==> Present(s, f) == []
    decreases |s|
  {
    if s != [] {
      var init := s[..|s| - 1];
      PresentMeaning(init, f);
      assert forall j :: 0 <= j < |init| ==> init[j] == s[j];
      var r := Present(s, f);
      var rest := Present(init, f);
      var last := f(s[|s| - 1]);
      assert r == rest + (if last.Some? then [last.value] else []);
      forall i | 0 <= i < |r| ensures exists j :: 0 <= j < |s| && f(s[j]) == Some(r[i]) {
        if i < |rest| {
          var j :| 0 <= j < |init| && f(init[j]) == Some(rest[i]);
          assert f(s[j]) == Some(r[i]);
        } else {
          assert f(s[|s| - 1]) == Some(r[i]);
        }
      }
    } else {
      assert Present(s, f) == [];
    }
  }

  const DriveOf: string -> Option<DriveRecord> := (line: string) => DriveLine(line)

  /** The drive records of the lines, in line order. */
  function DrivesOf(lines: seq<string>): seq<DriveRecord> { Present(lines, DriveOf) }

  /** `get_drives`: the records of the `DRV:` lines; a missing executable gives none. */
  method GetDrives(executable: string, run: Run) returns (cmd: seq<string>, drives: seq<DriveRecord>)
    ensures cmd == [executable, "-r", "info", "disc:9999"]
    ensures drives == if run.NotFound? then [] else DrivesOf(run.stdout)
  {
    cmd := [executable, "-r", "info", "disc:9999"];
    drives := [];
    if run.NotFound? {
      return;
    }
    var lines := run.stdout;
    var i := 0;
    while i < |lines|
      invariant 0 <= i <= |lines|
      invariant drives == DrivesOf(lines[..i])
    {
      assert lines[..i + 1][..i] == lines[..i];
      var d := DriveOf(lines[i]);
      if d.Some? {
        drives := drives + [d.value];
      }
      i := i + 1;
    }
    assert lines[..i] == lines;
  }
}
