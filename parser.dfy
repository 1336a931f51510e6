/**
 * The parser of MakeMKV's robot-mode output (`riparr.ripper.parser`): one line at a time
 * into a parse state (`parse_line`), the quote-aware field splitter (`_parse_csv`), the
 * duration and disc-type readers, and the final disc (`finalize_state`).
 */
module Parser {
  import opened Wrappers
  import opened Strings
  import opened Lists
  import opened CoreDisc
  import opened CoreTitle

  // ---------------------------------------------------------------------------
  // `_parse_csv`
  // ---------------------------------------------------------------------------

  /** The splitter's variables after some characters: the fields so far, the field being read, the quote flag. */
  datatype CsvScanState = CsvScanState(fields: seq<string>, current: string, inQuotes: bool)

  /** One character of `_parse_csv`: a quote toggles the flag, a comma outside quotes ends the field. */
  function CsvStep(a: CsvScanState, c: char): CsvScanState
  {
    if c == '"' then a.(inQuotes := !a.inQuotes)
    else if c == ',' && !a.inQuotes then CsvScanState(a.fields + [StripChars(a.current, {'"'})], "", a.inQuotes)
    else a.(current := a.current + [c])
  }

  function CsvScan(s: string): CsvScanState
  {
    if s == [] then CsvScanState([], "", false) else CsvStep(CsvScan(s[..|s| - 1]), s[|s| - 1])
  }

  function QuoteCount(s: string): nat
  {
    if s == [] then 0 else QuoteCount(s[..|s| - 1]) + (if s[|s| - 1] == '"' then 1 else 0)
  }

  /** An odd number of quotes: the next character is inside quotes. */
  predicate QuotesOpen(s: string) { QuoteCount(s) % 2 == 1 }

  /** The commas of `s` that are not inside quotes. */
  function UnquotedCommas(s: string): nat
  {
    if s == [] then 0
    else UnquotedCommas(s[..|s| - 1]) + (if s[|s| - 1] == ',' && !QuotesOpen(s[..|s| - 1]) then 1 else 0)
  }

  /** The quote flag tells whether an odd number of quotes was read. */
  lemma {:induction false} CsvScanQuotes(s: string)
    ensures CsvScan(s).inQuotes == QuotesOpen(s)
  {
    if s != [] {
      CsvScanQuotes(s[..|s| - 1]);
    }
  }

  /** One field is closed per unquoted comma. */
  lemma {:induction false} CsvScanCount(s: string)
    ensures |CsvScan(s).fields| == UnquotedCommas(s)
  {
    if s != [] {
      CsvScanCount(s[..|s| - 1]);
      CsvScanQuotes(s[..|s| - 1]);
    }
  }

  /** No quote is ever kept, in a closed field or in the one being read. */
  lemma {:induction false} CsvScanUnquoted(s: string)
    ensures forall i :: 0 <= i < |CsvScan(s).fields| ==> '"' !in CsvScan(s).fields[i]
    ensures '"' !in CsvScan(s).current
  {
    if s != [] {
      var init, c := s[..|s| - 1], s[|s| - 1];
      CsvScanUnquoted(init);
      var a := CsvScan(init);
      if c == '"' {
        assert CsvScan(s) == a.(inQuotes := !a.inQuotes);
      } else if c == ',' && !a.inQuotes {
        StripCharsNoop(a.current, {'"'});
        assert CsvScan(s) == CsvScanState(a.fields + [a.current], "", a.inQuotes);
      } else {
        assert CsvScan(s) == a.(current := a.current + [c]);
      }
    }
  }

  /** The pieces joined with commas are the text read so far without its quotes. */
  lemma {:induction false} CsvScanJoin(s: string)
    ensures Join(CsvScan(s).fields + [CsvScan(s).current], ",") == RemoveChars(s, {'"'})
  {
    if s != [] {
      var init, c := s[..|s| - 1], s[|s| - 1];
      assert s == init + [c];
      CsvScanJoin(init);
      CsvScanUnquoted(init);
      var a := CsvScan(init);
      RemoveCharsSnoc(init, c, {'"'});
      if c == '"' {
      } else if c == ',' && !a.inQuotes {
        StripCharsNoop(a.current, {'"'});
        JoinSnoc(a.fields + [a.current], "", ",");
      } else {
        JoinSnoc(a.fields, a.current, ",");
        JoinSnoc(a.fields, a.current + [c], ",");
      }
    }
  }

  /**
   * The fields `_parse_csv` returns: one more than the unquoted commas, none holding a
   * quote, and, joined with commas, the text without its quotes, so every comma inside
   * quotes is kept in its field.
   */
  function CsvFields(s: string): (r: seq<string>)
    ensures |r| == UnquotedCommas(s) + 1
    ensures forall i :: 0 <= i < |r| ==> '"' !in r[i]
    ensures Join(r, ",") == RemoveChars(s, {'"'})
  {
    CsvScanCount(s);
    CsvScanUnquoted(s);
    CsvScanJoin(s);
    StripCharsNoop(CsvScan(s).current, {'"'});
    CsvScan(s).fields + [StripChars(CsvScan(s).current, {'"'})]
  }

  /** `_parse_csv`: the character loop with the field being read and the quote flag. */
  method ParseCsv(content: string) returns (result: seq<string>)
    ensures result == CsvFields(content)
  {
    result := [];
    var current := "";
    var inQuotes := false;
    for i := 0 to |content|
      invariant CsvScanState(result, current, inQuotes) == CsvScan(content[..i])
    {
      var c := content[i];
      assert content[..i + 1][..i] == content[..i];
      if c == '"' {
        inQuotes := !inQuotes;
      } else if c == ',' && !inQuotes {
        result := result + [StripChars(current, {'"'})];
        current := "";
      } else {
        current := current + [c];
      }
    }
    assert content[..|content|] == content;
    result := result + [StripChars(current, {'"'})];
  }

  // ---------------------------------------------------------------------------
  // `_parse_duration` and `_parse_disc_type`
  // ---------------------------------------------------------------------------

  /**
   * `_parse_duration`: "H:MM:SS" and "M:SS" are read as `parse_duration` reads them (a part
   * that is not an integer raises `ValueError`); any other number of parts gives 0.
   */
  function ParserDuration(text: string): (r: Result<int>)
    ensures |Split(text, ':')| in {2, 3} ==> r == ParseDuration(text)
    ensures |Split(text, ':')| !in {2, 3} ==> r == Ok(0)
  {
    var parts := Split(text, ':');
    if |parts| == 3 || |parts| == 2 then DurationFromParts(parts) else Ok(0)
  }

  /** Every zero-padded "HH:MM:SS" reads back as the seconds it shows. */
  lemma ParserDurationOfClock(text: string, seconds: int)
    requires HmsOf(text, seconds)
    ensures ParserDuration(text) == Ok(seconds)
  {
    ParseHms(text, seconds);
  }

  /** Unlike `parse_duration`, a bare number of seconds is read as 0. */
  lemma ParserDurationBareNumber(text: string)
    requires ':' !in text
    ensures ParserDuration(text) == Ok(0)
  {
    SplitNoSeparator(text, ':');
  }

  /** `_parse_disc_type`: case-insensitive substrings, tried in the order DVD, Blu-ray, UHD. */
  function ParseDiscType(value: string): (r: DiscType)
    ensures r == Dvd <==> Contains(Lower(value), "dvd")
    ensures r == BluRay <==>
      (!Contains(Lower(value), "dvd") && (Contains(Lower(value), "blu-ray") || Contains(Lower(value), "bluray")))
    ensures r == Uhd <==>
      (!Contains(Lower(value), "dvd") && !Contains(Lower(value), "blu-ray") && !Contains(Lower(value), "bluray") &&
       (Contains(Lower(value), "uhd") || Contains(Lower(value), "4k")))
  {
    var v := Lower(value);
    if Contains(v, "dvd") then Dvd
    else if Contains(v, "blu-ray") || Contains(v, "bluray") then BluRay
    else if Contains(v, "uhd") || Contains(v, "4k") then Uhd
    else UnknownDisc
  }

  /** The disc type does not depend on letter case. */
  lemma ParseDiscTypeIgnoresCase(value: string)
    ensures ParseDiscType(Upper(value)) == ParseDiscType(value)
  {
    LowerUpper(value);
  }

  // ---------------------------------------------------------------------------
  // The parse state
  // ---------------------------------------------------------------------------

  // MakeMKV attribute codes the parser reads.
  const AttrType := 1
  const AttrName := 2
  const AttrLangCode := 3
  const AttrCodecShort := 6
  const AttrCodecLong := 7
  const AttrChapterCount := 8
  const AttrDuration := 9
  const AttrDiskSizeBytes := 11
  const AttrSegmentCount := 12
  const AttrSegmentMap := 13
  const AttrOutputFileName := 14
  const AttrVolumeName := 19
  const AttrVideoSize := 21
  const AttrVideoFrameRate := 23
  const AttrAudioChannelsCount := 25
  const AttrSourceFileName := 33

  type StreamKey = (int, int)

  /**
   * The value of a `ParseState`. The two track dictionaries are kept as maps together
   * with their keys in insertion order, which is the order `finalize_state` visits them in.
   */
  datatype ParseData = ParseData(
    disc: Disc,
    currentTitleIdx: int,
    currentStreamIdx: int,
    titles: map<int, Title>,
    titleOrder: seq<int>,
    audioTracks: map<StreamKey, AudioTrack>,
    audioOrder: seq<StreamKey>,
    subtitleTracks: map<StreamKey, SubtitleTrack>,
    subtitleOrder: seq<StreamKey>,
    progressCurrent: int,
    progressTotal: int,
    progressMax: int)

  /** The state after a line: what changed before the end or before an exception, and the exception. */
  datatype Parsed = Parsed(data: ParseData, error: Option<string>)

  function InitialData(): ParseData
  {
    ParseData(EmptyDisc(), -1, -1, map[], [], map[], [], map[], [], 0, 0, 0)
  }

  /**
   * What parsing keeps true: each title is stored under its own index, the key orders
   * list each track key once, and each track carries its stream number.
   */
  ghost predicate WellFormed(d: ParseData)
  {
    TitlesIndexed(d.titles) && Registered(d.titles, d.titleOrder) &&
    Registered(d.audioTracks, d.audioOrder) && AudioIndexed(d.audioTracks) &&
    Registered(d.subtitleTracks, d.subtitleOrder) && SubtitlesIndexed(d.subtitleTracks)
  }

  ghost predicate TitlesIndexed(titles: map<int, Title>)
  {
    forall k :: k in titles ==> titles[k].index == k
  }

  /** `order` lists the keys of `m`, each once. */
  ghost predicate Registered<K(!new), V>(m: map<K, V>, order: seq<K>)
  {
    (forall i, j :: 0 <= i < j < |order| ==> order[i] != order[j]) &&
    (forall k :: k in m <==> k in order)
  }

  ghost predicate AudioIndexed(m: map<StreamKey, AudioTrack>)
  {
    forall k :: k in m ==> m[k].index == k.1
  }

  ghost predicate SubtitlesIndexed(m: map<StreamKey, SubtitleTrack>)
  {
    forall k :: k in m ==> m[k].index == k.1
  }

  /** Adding a new key at the end of the order keeps it listing the keys once each. */
  lemma Register<K(!new), V>(m: map<K, V>, order: seq<K>, k: K, v: V)
    requires Registered(m, order) && k !in m
    ensures Registered(m[k := v], order + [k])
  {
    var o := order + [k];
    forall i, j | 0 <= i < j < |o| ensures o[i] != o[j] {
      if j == |order| {
        assert o[i] in order;
      } else {
        assert o[i] == order[i] && o[j] == order[j];
      }
    }
  }

  /** `int(value) if value else default`. */
  function IntOr(value: string, default: int): Option<int>
  {
    if value == "" then Some(default) else ParseInt(value)
  }

  function SetTitle(d: ParseData, i: int, t: Title): ParseData
  {
    d.(titles := d.titles[i := t])
  }

  /** `state.titles[i] = Title(index=i)` for a title not stored yet. */
  function NewTitle(d: ParseData, i: int): ParseData
  {
    d.(titles := d.titles[i := DefaultTitle(i)], titleOrder := d.titleOrder + [i])
  }

  /** `_parse_progress`: the first three comma-separated numbers, stored one after the other. */
  function Progress(d: ParseData, content: string): Parsed
  {
    ProgressFields(d, Split(content, ','))
  }

  function ProgressFields(d: ParseData, parts: seq<string>): Parsed
  {
    if |parts| < 3 then Parsed(d, None)
    else
      var a := ParseInt(parts[0]);
      if a.None? then Parsed(d, Some(NotAnInteger))
      else
        var d1 := d.(progressCurrent := a.value);
        var b := ParseInt(parts[1]);
        if b.None? then Parsed(d1, Some(NotAnInteger))
        else
          var d2 := d1.(progressTotal := b.value);
          var c := ParseInt(parts[2]);
          if c.None? then Parsed(d2, Some(NotAnInteger))
          else Parsed(d2.(progressMax := c.value), None)
  }

  /** `_parse_disc_info`: the disc's name, type or volume label. */
  function DiscInfo(d: ParseData, content: string): Parsed
  {
    DiscFields(d, CsvFields(content))
  }

  function DiscFields(d: ParseData, parts: seq<string>): Parsed
  {
    if |parts| < 3 then Parsed(d, None)
    else
      var attr := ParseInt(parts[0]);
      if attr.None? then Parsed(d, Some(NotAnInteger))
      else
        var value := parts[2];
        if attr.value == AttrName then Parsed(d.(disc := d.disc.(name := value)), None)
        else if attr.value == AttrType then Parsed(d.(disc := d.disc.(discType := ParseDiscType(value))), None)
        else if attr.value == AttrVolumeName then Parsed(d.(disc := d.disc.(volumeLabel := Some(value))), None)
        else Parsed(d, None)
  }

  /** `_parse_title_info`: the title is created on first mention, then one attribute is set. */
  function TitleInfo(d: ParseData, content: string): Parsed
  {
    TitleFields(d, CsvFields(content))
  }

  function TitleFields(d: ParseData, parts: seq<string>): Parsed
  {
    if |parts| < 4 then Parsed(d, None)
    else
      var idx, attr := ParseInt(parts[0]), ParseInt(parts[1]);
      if idx.None? || attr.None? then Parsed(d, Some(NotAnInteger))
      else
        var i := idx.value;
        var d1 := if i in d.titles then d else NewTitle(d, i);
        match TitleAttribute(d1.titles[i], attr.value, parts[3])
        case Err(e) => Parsed(d1, Some(e))
        case Ok(t) => Parsed(SetTitle(d1, i, t), None)
  }

  /** One `TINFO` attribute applied to its title, or the exception reading its value raises. */
  function TitleAttribute(t: Title, a: int, value: string): (r: Result<Title>)
    ensures r.Ok? ==> r.value.index == t.index
    ensures r.Err? ==> a in {AttrDuration, AttrChapterCount, AttrDiskSizeBytes, AttrSegmentCount}
  {
    if a == AttrDuration then
      match ParserDuration(value)
      case Err(e) => Err(e)
      case Ok(v) => Ok(t.(duration := v))
    else if a == AttrChapterCount then
      match IntOr(value, 0)
      case None => Err(NotAnInteger)
      case Some(v) => Ok(t.(chapters := v))
    else if a == AttrDiskSizeBytes then
      match IntOr(value, 0)
      case None => Err(NotAnInteger)
      case Some(v) => Ok(t.(sizeBytes := v))
    else if a == AttrSegmentCount then
      match IntOr(value, 1)
      case None => Err(NotAnInteger)
      case Some(v) => Ok(t.(segmentCount := v))
    else if a == AttrSegmentMap then Ok(t.(segmentMap := value))
    else if a == AttrOutputFileName then Ok(t.(outputFile := value))
    else if a == AttrSourceFileName then Ok(t.(sourceFile := value))
    else Ok(t)
  }

  function SetAudio(d: ParseData, k: StreamKey, a: AudioTrack): ParseData
  {
    d.(audioTracks := d.audioTracks[k := a])
  }

  function SetSubtitle(d: ParseData, k: StreamKey, s: SubtitleTrack): ParseData
  {
    d.(subtitleTracks := d.subtitleTracks[k := s])
  }

  /** A `TYPE` attribute: an audio or subtitle stream gets its track on first mention. */
  function StreamType(d: ParseData, k: StreamKey, value: string): ParseData
  {
    var t := Lower(value);
    if Contains(t, "video") then d
    else if Contains(t, "audio") then
      if k in d.audioTracks then d
      else d.(audioTracks := d.audioTracks[k := DefaultAudioTrack(k.1)], audioOrder := d.audioOrder + [k])
    else if Contains(t, "subtitle") then
      if k in d.subtitleTracks then d
      else d.(subtitleTracks := d.subtitleTracks[k := DefaultSubtitleTrack(k.1)], subtitleOrder := d.subtitleOrder + [k])
    else d
  }

  /** `_parse_stream_info` (the frame rate is not part of this model). */
  function StreamInfo(d: ParseData, content: string): Parsed
  {
    StreamFields(d, CsvFields(content))
  }

  function StreamFields(d: ParseData, parts: seq<string>): Parsed
  {
    if |parts| < 5 then Parsed(d, None)
    else
      var ti, si, attr := ParseInt(parts[0]), ParseInt(parts[1]), ParseInt(parts[2]);
      if ti.None? || si.None? || attr.None? then Parsed(d, Some(NotAnInteger))
      else StreamAttribute(d, (ti.value, si.value), attr.value, parts[4])
  }

  const AudioAttributes := {AttrCodecShort, AttrLangCode, AttrName, AttrAudioChannelsCount}
  const SubtitleAttributes := {AttrCodecShort, AttrLangCode, AttrName}

  /**
   * One `SINFO` attribute of stream `k`: a known audio track takes the codec, language,
   * name and channel count; otherwise a known subtitle track takes the first three; what
   * is left may go to the title (its video codec and resolution).
   */
  function StreamAttribute(d: ParseData, k: StreamKey, a: int, value: string): Parsed
  {
    if a == AttrType then Parsed(StreamType(d, k, value), None)
    else if k in d.audioTracks && a in AudioAttributes then
      match AudioAttribute(d.audioTracks[k], a, value)
      case None => Parsed(d, Some(NotAnInteger))
      case Some(track) => Parsed(SetAudio(d, k, track), None)
    else if k in d.subtitleTracks && a in SubtitleAttributes then
      Parsed(SetSubtitle(d, k, SubtitleAttribute(d.subtitleTracks[k], a, value)), None)
    else if k.0 in d.titles && (a == AttrCodecShort || a == AttrVideoSize ||
                                (a == AttrCodecLong && k !in d.audioTracks && d.titles[k.0].videoCodec == "")) then
      Parsed(SetTitle(d, k.0, VideoAttribute(d.titles[k.0], a, value)), None)
    else Parsed(d, None)
  }

  function AudioAttribute(track: AudioTrack, a: int, value: string): (r: Option<AudioTrack>)
    ensures r.Some? ==> r.value.index == track.index
    ensures r.None? <==> a == AttrAudioChannelsCount && IntOr(value, 2).None?
  {
    if a == AttrCodecShort then Some(track.(codec := value))
    else if a == AttrLangCode then Some(track.(language := value))
    else if a == AttrName then Some(track.(name := value))
    else if a == AttrAudioChannelsCount then
      match IntOr(value, 2)
      case None => None
      case Some(n) => Some(track.(channels := n))
    else Some(track)
  }

  function SubtitleAttribute(track: SubtitleTrack, a: int, value: string): (r: SubtitleTrack)
    ensures r.index == track.index
  {
    if a == AttrCodecShort then track.(codec := value)
    else if a == AttrLangCode then track.(language := value)
    else if a == AttrName then track.(name := value)
    else track
  }

  function VideoAttribute(t: Title, a: int, value: string): (r: Title)
    ensures r.index == t.index
  {
    if a == AttrVideoSize then t.(resolution := value) else t.(videoCodec := value)
  }

  /** `_parse_drive_info`: the drive's disc name, only when the disc has none yet. */
  function DriveInfo(d: ParseData, content: string): Parsed
  {
    DriveFields(d, CsvFields(content))
  }

  function DriveFields(d: ParseData, parts: seq<string>): Parsed
  {
    if |parts| >= 6 && parts[5] != "" && d.disc.name == "" then Parsed(d.(disc := d.disc.(name := parts[5])), None)
    else Parsed(d, None)
  }

  /** The handler `parse_line` picks for a message type; `MSG` and unknown types do nothing. */
  function Dispatch(d: ParseData, msgType: string, content: string): Parsed
  {
    if msgType == "PRGV" then Progress(d, content)
    else if msgType == "CINFO" then DiscInfo(d, content)
    else if msgType == "TINFO" then TitleInfo(d, content)
    else if msgType == "SINFO" then StreamInfo(d, content)
    else if msgType == "DRV" then DriveInfo(d, content)
    else Parsed(d, None)
  }

  /** `parse_line`: the stripped line, split at its first colon into type and content. */
  function ApplyLine(d: ParseData, line: string): Parsed
  {
    var l := Strip(line);
    if l == [] then Parsed(d, None)
    else match IndexOf(l, ':')
      case None => Parsed(d, None)
      case Some(k) => Dispatch(d, l[..k], l[k + 1..])
  }

  // ---------------------------------------------------------------------------
  // What a line does
  // ---------------------------------------------------------------------------

  /** A line is read as its type up to the first colon and the content after it. */
  lemma LineSplit(d: ParseData, line: string, msgType: string, content: string)
    requires Strip(line) == msgType + ":" + content && ':' !in msgType
    ensures ApplyLine(d, line) == Dispatch(d, msgType, content)
  {
    var l := Strip(line);
    var k := IndexOf(l, ':');
    assert l[|msgType|] == ':';
    assert k.Some?;
    assert k.value == |msgType|;
    assert l[..k.value] == msgType && l[k.value + 1..] == content;
  }

  /** Blank lines, lines without a colon and lines of an unknown type change nothing. */
  lemma IgnoredLines(d: ParseData, line: string)
    ensures Strip(line) == [] ==> ApplyLine(d, line) == Parsed(d, None)
    ensures ':' !in Strip(line) ==> ApplyLine(d, line) == Parsed(d, None)
    ensures forall msgType, content ::
      (Strip(line) == msgType + ":" + content && ':' !in msgType && msgType !in {"PRGV", "CINFO", "TINFO", "SINFO", "DRV"})
      ==> ApplyLine(d, line) == Parsed(d, None)
  {
    forall msgType, content | Strip(line) == msgType + ":" + content && ':' !in msgType &&
      msgType !in {"PRGV", "CINFO", "TINFO", "SINFO", "DRV"}
      ensures ApplyLine(d, line) == Parsed(d, None)
    {
      LineSplit(d, line, msgType, content);
    }
  }

  /** A `TINFO` line with a numeric title and attribute creates the title on first mention, also when its value then fails. */
  lemma TitleInfoCreates(d: ParseData, parts: seq<string>)
    requires |parts| >= 4 && ParseInt(parts[0]).Some? && ParseInt(parts[1]).Some?
    ensures var i := ParseInt(parts[0]).value;
      var r := TitleFields(d, parts).data;
      && r.titles.Keys == d.titles.Keys + {i}
      && r.titleOrder == (if i in d.titles then d.titleOrder else d.titleOrder + [i])
      && (forall j :: j in d.titles && j != i ==> r.titles[j] == d.titles[j])
      && r == d.(titles := r.titles, titleOrder := r.titleOrder)
      && (TitleFields(d, parts).error.Some? ==> r.titles[i] == (if i in d.titles then d.titles[i] else DefaultTitle(i)))
  {
    var i := ParseInt(parts[0]).value;
    var d1 := if i in d.titles then d else NewTitle(d, i);
    var res := TitleAttribute(d1.titles[i], ParseInt(parts[1]).value, parts[3]);
    if res.Ok? {
      assert TitleFields(d, parts) == Parsed(SetTitle(d1, i, res.value), None);
      SetTitleKeeps(d1, i, res.value);
    } else {
      assert TitleFields(d, parts) == Parsed(d1, Some(res.error));
    }
  }

  /** Storing a title under a key it already has changes no other key and nothing but the titles. */
  lemma SetTitleKeeps(d: ParseData, i: int, t: Title)
    requires i in d.titles
    ensures var r := SetTitle(d, i, t);
      r.titles.Keys == d.titles.Keys && r.titleOrder == d.titleOrder &&
      (forall j :: j in d.titles && j != i ==> r.titles[j] == d.titles[j]) &&
      r == d.(titles := r.titles)
  {
  }

  /** Each title attribute goes to its own field, an empty count becoming 0, 0 or 1. */
  lemma TitleAttributeRoutes(t: Title, a: int, value: string)
    ensures a == AttrDuration && ParserDuration(value).Ok? ==> TitleAttribute(t, a, value) == Ok(t.(duration := ParserDuration(value).value))
    ensures a == AttrChapterCount && value == "" ==> TitleAttribute(t, a, value) == Ok(t.(chapters := 0))
    ensures a == AttrDiskSizeBytes && value == "" ==> TitleAttribute(t, a, value) == Ok(t.(sizeBytes := 0))
    ensures a == AttrSegmentCount && value == "" ==> TitleAttribute(t, a, value) == Ok(t.(segmentCount := 1))
    ensures a == AttrSegmentMap ==> TitleAttribute(t, a, value) == Ok(t.(segmentMap := value))
    ensures a == AttrOutputFileName ==> TitleAttribute(t, a, value) == Ok(t.(outputFile := value))
    ensures a == AttrSourceFileName ==> TitleAttribute(t, a, value) == Ok(t.(sourceFile := value))
    ensures (a !in {AttrDuration, AttrChapterCount, AttrDiskSizeBytes, AttrSegmentCount, AttrSegmentMap,
                    AttrOutputFileName, AttrSourceFileName}) ==> TitleAttribute(t, a, value) == Ok(t)
  {
  }

  /**
   * A `TYPE` line of an audio stream creates one track for its (title, stream) key, with
   * the stream's number and the default fields, and a repeated one changes nothing.
   */
  lemma AudioTrackOnce(d: ParseData, k: StreamKey, value: string)
    requires !Contains(Lower(value), "video") && Contains(Lower(value), "audio")
    ensures var r := StreamType(d, k, value);
      && k in r.audioTracks
      && (k in d.audioTracks ==> r == d)
      && (k !in d.audioTracks ==> r.audioTracks[k] == DefaultAudioTrack(k.1) && r.audioOrder == d.audioOrder + [k])
  {
  }

  /** An empty channel count is read as stereo; a stream without any track is left alone. */
  lemma ChannelsDefault(d: ParseData, k: StreamKey)
    ensures k in d.audioTracks ==>
      StreamAttribute(d, k, AttrAudioChannelsCount, "") == Parsed(SetAudio(d, k, d.audioTracks[k].(channels := 2)), None)
    ensures k !in d.audioTracks && k !in d.subtitleTracks ==>
      StreamAttribute(d, k, AttrAudioChannelsCount, "") == Parsed(d, None)
  {
  }

  /** `DRV` names the disc only when it has no name yet and the drive reports one. */
  lemma DriveInfoNamesOnce(d: ParseData, parts: seq<string>)
    ensures var r := DriveFields(d, parts).data;
      (d.disc.name != "" ==> r == d) &&
      (d.disc.name == "" && |parts| >= 6 && parts[5] != "" ==> r.disc.name == parts[5] && r == d.(disc := r.disc)) &&
      (|parts| < 6 || parts[5] == "" ==> r == d)
  {
  }

  /** Three numbers separated by commas become the progress counters. */
  lemma ProgressCounters(d: ParseData, parts: seq<string>, a: int, b: int, c: int)
    requires |parts| >= 3 && ParseInt(parts[0]) == Some(a) && ParseInt(parts[1]) == Some(b) && ParseInt(parts[2]) == Some(c)
    ensures ProgressFields(d, parts) == Parsed(d.(progressCurrent := a, progressTotal := b, progressMax := c), None)
  {
  }

  lemma StreamTypeWellFormed(d: ParseData, k: StreamKey, value: string)
    requires WellFormed(d)
    ensures WellFormed(StreamType(d, k, value))
  {
    if k !in d.audioTracks {
      Register(d.audioTracks, d.audioOrder, k, DefaultAudioTrack(k.1));
    }
    if k !in d.subtitleTracks {
      Register(d.subtitleTracks, d.subtitleOrder, k, DefaultSubtitleTrack(k.1));
    }
  }

  lemma StreamAttributeWellFormed(d: ParseData, k: StreamKey, a: int, value: string)
    requires WellFormed(d)
    ensures WellFormed(StreamAttribute(d, k, a, value).data)
  {
    if a == AttrType {
      StreamTypeWellFormed(d, k, value);
    }
  }

  lemma TitleFieldsWellFormed(d: ParseData, parts: seq<string>)
    requires WellFormed(d)
    ensures WellFormed(TitleFields(d, parts).data)
  {
    if |parts| >= 4 && ParseInt(parts[0]).Some? && ParseInt(parts[1]).Some? {
      var i := ParseInt(parts[0]).value;
      var d1 := if i in d.titles then d else NewTitle(d, i);
      if i !in d.titles {
        NewTitleWellFormed(d, i);
      }
      var r := TitleAttribute(d1.titles[i], ParseInt(parts[1]).value, parts[3]);
      if r.Ok? {
        SetTitleWellFormed(d1, i, r.value);
      }
    }
  }

  lemma NewTitleWellFormed(d: ParseData, i: int)
    requires WellFormed(d) && i !in d.titles
    ensures WellFormed(NewTitle(d, i))
  {
    Register(d.titles, d.titleOrder, i, DefaultTitle(i));
  }

  lemma SetTitleWellFormed(d: ParseData, i: int, t: Title)
    requires WellFormed(d) && i in d.titles && t.index == i
    ensures WellFormed(SetTitle(d, i, t))
  {
  }

  lemma StreamFieldsWellFormed(d: ParseData, parts: seq<string>)
    requires WellFormed(d)
    ensures WellFormed(StreamFields(d, parts).data)
  {
    if |parts| >= 5 && ParseInt(parts[0]).Some? && ParseInt(parts[1]).Some? && ParseInt(parts[2]).Some? {
      StreamAttributeWellFormed(d, (ParseInt(parts[0]).value, ParseInt(parts[1]).value), ParseInt(parts[2]).value, parts[4]);
    }
  }

  /** Lines of `PRGV`, `CINFO` and `DRV` touch neither titles nor tracks. */
  predicate SameTracks(r: ParseData, d: ParseData)
  {
    r.titles == d.titles && r.titleOrder == d.titleOrder && r.audioTracks == d.audioTracks && r.audioOrder == d.audioOrder &&
    r.subtitleTracks == d.subtitleTracks && r.subtitleOrder == d.subtitleOrder
  }

  lemma ProgressKeepsTracks(d: ParseData, parts: seq<string>)
    ensures SameTracks(ProgressFields(d, parts).data, d)
  {
    if |parts| >= 3 && ParseInt(parts[0]).Some? {
      var d1 := d.(progressCurrent := ParseInt(parts[0]).value);
      assert SameTracks(d1, d);
      if ParseInt(parts[1]).Some? {
        var d2 := d1.(progressTotal := ParseInt(parts[1]).value);
        assert SameTracks(d2, d);
      }
    }
  }

  lemma DiscInfoKeepsTracks(d: ParseData, parts: seq<string>)
    ensures SameTracks(DiscFields(d, parts).data, d)
  {
    var r := DiscFields(d, parts).data;
    assert r == d || r == d.(disc := r.disc);
  }

  lemma DriveInfoKeepsTracks(d: ParseData, parts: seq<string>)
    ensures SameTracks(DriveFields(d, parts).data, d)
  {
  }

  lemma DispatchWellFormed(d: ParseData, msgType: string, content: string)
    requires WellFormed(d)
    ensures WellFormed(Dispatch(d, msgType, content).data)
  {
    if msgType == "PRGV" {
      ProgressKeepsTracks(d, Split(content, ','));
    } else if msgType == "CINFO" {
      DiscInfoKeepsTracks(d, CsvFields(content));
    } else if msgType == "DRV" {
      DriveInfoKeepsTracks(d, CsvFields(content));
    } else if msgType == "TINFO" {
      TitleFieldsWellFormed(d, CsvFields(content));
    } else if msgType == "SINFO" {
      StreamFieldsWellFormed(d, CsvFields(content));
    }
  }

  /** Parsing a line, whatever its outcome, keeps the parse state well formed. */
  lemma ApplyLineWellFormed(d: ParseData, line: string)
    requires WellFormed(d)
    ensures WellFormed(ApplyLine(d, line).data)
  {
    var l := Strip(line);
    if l != [] && IndexOf(l, ':').Some? {
      var k := IndexOf(l, ':').value;
      DispatchWellFormed(d, l[..k], l[k + 1..]);
    }
  }

  // ---------------------------------------------------------------------------
  // Finalizing: titles in index order, each with its tracks
  // ---------------------------------------------------------------------------

  const AudioIndex: AudioTrack -> int := (a: AudioTrack) => a.index
  const SubtitleIndex: SubtitleTrack -> int := (s: SubtitleTrack) => s.index
  const TitleKey: int -> int := (i: int) => i

  /** The values of the keys of title `i`, in the order the keys were first stored. */
  function TracksOf<V>(m: map<StreamKey, V>, order: seq<StreamKey>, i: int): (r: seq<V>)
    ensures |r| <= |order|
  {
    if order == [] then []
    else
      var k := order[|order| - 1];
      TracksOf(m, order[..|order| - 1], i) + (if k.0 == i && k in m then [m[k]] else [])
  }

  /** What `TracksOf` collects: exactly the stored values whose key belongs to title `i`. */
  lemma {:induction false} TracksOfMeaning<V>(m: map<StreamKey, V>, order: seq<StreamKey>, i: int)
    ensures forall v :: v in TracksOf(m, order, i) ==> exists k :: k in order && k in m && k.0 == i && m[k] == v
    ensures forall k :: k in order && k in m && k.0 == i ==> m[k] in TracksOf(m, order, i)
  {
    if order != [] {
      var init, k := order[..|order| - 1], order[|order| - 1];
      TracksOfMeaning(m, init, i);
      assert order == init + [k];
      assert forall k' :: k' in order ==> k' in init || k' == k;
    }
  }

  /**
   * A title as `finalize_state` leaves it: its own tracks plus those of the parse state
   * that belong to it, each list sorted by stream number; nothing else changes.
   */
  function Attach(d: ParseData, i: int): (r: Title)
    requires i in d.titles
    ensures var t := d.titles[i];
      && r == t.(audioTracks := r.audioTracks, subtitleTracks := r.subtitleTracks)
      && SortedBy(r.audioTracks, AudioIndex)
      && multiset(r.audioTracks) == multiset(t.audioTracks) + multiset(TracksOf(d.audioTracks, d.audioOrder, i))
      && SortedBy(r.subtitleTracks, SubtitleIndex)
      && multiset(r.subtitleTracks) == multiset(t.subtitleTracks) + multiset(TracksOf(d.subtitleTracks, d.subtitleOrder, i))
  {
    var t := d.titles[i];
    t.(audioTracks := SortBy(t.audioTracks + TracksOf(d.audioTracks, d.audioOrder, i), AudioIndex),
       subtitleTracks := SortBy(t.subtitleTracks + TracksOf(d.subtitleTracks, d.subtitleOrder, i), SubtitleIndex))
  }

  /** `sorted(state.titles.keys())`. */
  function SortedKeys(d: ParseData): (r: seq<int>)
    requires Registered(d.titles, d.titleOrder)
    ensures forall j :: 0 <= j < |r| ==> r[j] in d.titles
  {
    var r := SortBy(d.titleOrder, TitleKey);
    SameMembers(r, d.titleOrder);
    r
  }

  /** The titles `finalize_state` appends to the disc, in ascending index order. */
  function FinalTitles(d: ParseData): (r: seq<Title>)
    requires Registered(d.titles, d.titleOrder)
    ensures |r| == |d.titleOrder|
  {
    var ks := SortedKeys(d);
    seq(|ks|, j requires 0 <= j < |ks| => Attach(d, ks[j]))
  }

  /** `finalize_state`: the disc with the finalized titles appended to the ones it had. */
  function Finalized(d: ParseData): (r: Disc)
    requires Registered(d.titles, d.titleOrder)
    ensures r == d.disc.(titles := d.disc.titles + FinalTitles(d))
  {
    d.disc.(titles := d.disc.titles + FinalTitles(d))
  }

  /** The sorted keys are the title indexes, each once, strictly ascending. */
  lemma SortedKeysOrder(d: ParseData)
    requires Registered(d.titles, d.titleOrder)
    ensures var ks := SortedKeys(d);
      && (forall j, j' :: 0 <= j < j' < |ks| ==> ks[j] < ks[j'])
      && (forall i :: i in d.titles <==> i in ks)
  {
    var ks := SortedKeys(d);
    SameMembers(ks, d.titleOrder);
    assert DistinctBy(d.titleOrder, TitleKey);
    DistinctBySub(ks, d.titleOrder, TitleKey);
    assert SortedBy(ks, TitleKey);
  }

  /** Every title appears once, in strictly ascending index order, with its tracks attached. */
  lemma FinalTitlesOrder(d: ParseData)
    requires TitlesIndexed(d.titles) && Registered(d.titles, d.titleOrder)
    ensures var r := FinalTitles(d);
      && (forall j, j' :: 0 <= j < j' < |r| ==> r[j].index < r[j'].index)
      && (forall j :: 0 <= j < |r| ==> r[j].index in d.titles && r[j] == Attach(d, r[j].index))
      && (forall i :: i in d.titles ==> exists j :: 0 <= j < |r| && r[j].index == i)
  {
    var ks := SortedKeys(d);
    var r := FinalTitles(d);
    SortedKeysOrder(d);
    forall j | 0 <= j < |r| ensures r[j].index == ks[j] && r[j] == Attach(d, ks[j]) {
      AttachIndex(d, ks[j]);
    }
    forall i | i in d.titles ensures exists j :: 0 <= j < |r| && r[j].index == i {
      var j :| 0 <= j < |ks| && ks[j] == i;
      assert r[j].index == i;
    }
  }

  /** Attaching tracks keeps the title's index. */
  lemma AttachIndex(d: ParseData, i: int)
    requires TitlesIndexed(d.titles) && i in d.titles
    ensures Attach(d, i).index == i
  {
  }

  /** Each audio track the parse state holds for a known title ends up on that title. */
  lemma AudioTrackAttached(d: ParseData, k: StreamKey)
    requires Registered(d.audioTracks, d.audioOrder)
    requires k in d.audioTracks && k.0 in d.titles
    ensures d.audioTracks[k] in Attach(d, k.0).audioTracks
  {
    TracksOfMeaning(d.audioTracks, d.audioOrder, k.0);
    assert d.audioTracks[k] in multiset(Attach(d, k.0).audioTracks);
  }

  /** Each subtitle track the parse state holds for a known title ends up on that title. */
  lemma SubtitleTrackAttached(d: ParseData, k: StreamKey)
    requires Registered(d.subtitleTracks, d.subtitleOrder)
    requires k in d.subtitleTracks && k.0 in d.titles
    ensures d.subtitleTracks[k] in Attach(d, k.0).subtitleTracks
  {
    TracksOfMeaning(d.subtitleTracks, d.subtitleOrder, k.0);
    assert d.subtitleTracks[k] in multiset(Attach(d, k.0).subtitleTracks);
  }

  /** A title only receives tracks whose key names it. */
  lemma AttachedTracksBelong(d: ParseData, i: int, a: AudioTrack)
    requires i in d.titles && a in Attach(d, i).audioTracks && a !in d.titles[i].audioTracks
    ensures exists k :: k in d.audioTracks && k.0 == i && d.audioTracks[k] == a
  {
    var tracks := TracksOf(d.audioTracks, d.audioOrder, i);
    assert a in multiset(Attach(d, i).audioTracks);
    assert a !in multiset(d.titles[i].audioTracks);
    assert a in multiset(tracks);
    assert a in tracks;
    TracksOfMeaning(d.audioTracks, d.audioOrder, i);
  }

  // ---------------------------------------------------------------------------
  // The mutable parse state and the parsing procedures
  // ---------------------------------------------------------------------------

  /** `ParseState`: what the lines read so far have told about the disc. */
  class ParseState {
    var disc: Disc
    var currentTitleIdx: int
    var currentStreamIdx: int
    var titles: map<int, Title>
    var titleOrder: seq<int>
    var audioTracks: map<StreamKey, AudioTrack>
    var audioOrder: seq<StreamKey>
    var subtitleTracks: map<StreamKey, SubtitleTrack>
    var subtitleOrder: seq<StreamKey>
    var progressCurrent: int
    var progressTotal: int
    var progressMax: int

    function Data(): ParseData
      reads this
    {
      ParseData(disc, currentTitleIdx, currentStreamIdx, titles, titleOrder, audioTracks, audioOrder,
                subtitleTracks, subtitleOrder, progressCurrent, progressTotal, progressMax)
    }

    ghost predicate Valid()
      reads this
    {
      WellFormed(Data())
    }

    constructor()
      ensures Data() == InitialData() && Valid()
    {
      disc := EmptyDisc();
      currentTitleIdx := -1;
      currentStreamIdx := -1;
      titles := map[];
      titleOrder := [];
      audioTracks := map[];
      audioOrder := [];
      subtitleTracks := map[];
      subtitleOrder := [];
      progressCurrent := 0;
      progressTotal := 0;
      progressMax := 0;
    }
  }

  /** `parse_line`; the error is the exception the line raises, after the changes made before it. */
  method ParseLine(line: string, state: ParseState) returns (error: Option<string>)
    modifies state
    ensures Parsed(state.Data(), error) == ApplyLine(old(state.Data()), line)
    ensures old(state.Valid()) ==> state.Valid()
  {
    ghost var d0 := state.Data();
    if state.Valid() {
      ApplyLineWellFormed(d0, line);
    }
    var l := Strip(line);
    if l == [] {
      return None;
    }
    var colon := IndexOf(l, ':');
    if colon.None? {
      return None;
    }
    var msgType, content := l[..colon.value], l[colon.value + 1..];
    if msgType == "PRGV" {
      error := ParseProgress(content, state);
    } else if msgType == "CINFO" {
      error := ParseDiscInfo(content, state);
    } else if msgType == "TINFO" {
      error := ParseTitleInfo(content, state);
    } else if msgType == "SINFO" {
      error := ParseStreamInfo(content, state);
    } else if msgType == "DRV" {
      error := ParseDriveInfo(content, state);
    } else {
      error := None;
    }
  }

  /** `_parse_progress`. */
  method ParseProgress(content: string, state: ParseState) returns (error: Option<string>)
    modifies state
    ensures Parsed(state.Data(), error) == Progress(old(state.Data()), content)
  {
    var parts := Split(content, ',');
    if |parts| < 3 {
      return None;
    }
    var a := ParseInt(parts[0]);
    if a.None? {
      return Some(NotAnInteger);
    }
    state.progressCurrent := a.value;
    var b := ParseInt(parts[1]);
    if b.None? {
      return Some(NotAnInteger);
    }
    state.progressTotal := b.value;
    var c := ParseInt(parts[2]);
    if c.None? {
      return Some(NotAnInteger);
    }
    state.progressMax := c.value;
    return None;
  }

  /** `_parse_disc_info`. */
  method ParseDiscInfo(content: string, state: ParseState) returns (error: Option<string>)
    modifies state
    ensures Parsed(state.Data(), error) == DiscInfo(old(state.Data()), content)
  {
    var parts := ParseCsv(content);
    if |parts| < 3 {
      return None;
    }
    var attr := ParseInt(parts[0]);
    if attr.None? {
      return Some(NotAnInteger);
    }
    var value := parts[2];
    if attr.value == AttrName {
      state.disc := state.disc.(name := value);
    } else if attr.value == AttrType {
      state.disc := state.disc.(discType := ParseDiscType(value));
    } else if attr.value == AttrVolumeName {
      state.disc := state.disc.(volumeLabel := Some(value));
    }
    return None;
  }

  /** `_parse_title_info`. */
  method ParseTitleInfo(content: string, state: ParseState) returns (error: Option<string>)
    modifies state
    ensures Parsed(state.Data(), error) == TitleInfo(old(state.Data()), content)
  {
    var parts := ParseCsv(content);
    if |parts| < 4 {
      return None;
    }
    var idx, attr := ParseInt(parts[0]), ParseInt(parts[1]);
    if idx.None? || attr.None? {
      return Some(NotAnInteger);
    }
    var i := idx.value;
    if i !in state.titles {
      state.titles := state.titles[i := DefaultTitle(i)];
      state.titleOrder := state.titleOrder + [i];
    }
    match TitleAttribute(state.titles[i], attr.value, parts[3]) {
      case Err(e) =>
        return Some(e);
      case Ok(t) =>
        state.titles := state.titles[i := t];
        return None;
    }
  }

  /** `_parse_stream_info`. */
  method ParseStreamInfo(content: string, state: ParseState) returns (error: Option<string>)
    modifies state
    ensures Parsed(state.Data(), error) == StreamInfo(old(state.Data()), content)
  {
    var parts := ParseCsv(content);
    if |parts| < 5 {
      return None;
    }
    var ti, si, attr := ParseInt(parts[0]), ParseInt(parts[1]), ParseInt(parts[2]);
    if ti.None? || si.None? || attr.None? {
      return Some(NotAnInteger);
    }
    error := SetStreamAttribute((ti.value, si.value), attr.value, parts[4], state);
  }

  /** The attribute dispatch of `_parse_stream_info`, for stream `key`. */
  method SetStreamAttribute(key: StreamKey, a: int, value: string, state: ParseState) returns (error: Option<string>)
    modifies state
    ensures Parsed(state.Data(), error) == StreamAttribute(old(state.Data()), key, a, value)
  {
    var i := key.0;
    error := None;
    if a == AttrType {
      SetStreamType(key, value, state);
    } else if a == AttrCodecShort {
      if key in state.audioTracks {
        state.audioTracks := state.audioTracks[key := state.audioTracks[key].(codec := value)];
      } else if key in state.subtitleTracks {
        state.subtitleTracks := state.subtitleTracks[key := state.subtitleTracks[key].(codec := value)];
      } else if i in state.titles {
        state.titles := state.titles[i := state.titles[i].(videoCodec := value)];
      }
    } else if a == AttrCodecLong {
      if i in state.titles && key !in state.audioTracks && state.titles[i].videoCodec == "" {
        state.titles := state.titles[i := state.titles[i].(videoCodec := value)];
      }
    } else if a == AttrLangCode || a == AttrName {
      SetTrackText(key, a, value, state);
    } else if a == AttrAudioChannelsCount {
      if key in state.audioTracks {
        var n := IntOr(value, 2);
        if n.None? {
          return Some(NotAnInteger);
        }
        state.audioTracks := state.audioTracks[key := state.audioTracks[key].(channels := n.value)];
      }
    } else if a == AttrVideoSize {
      if i in state.titles {
        state.titles := state.titles[i := state.titles[i].(resolution := value)];
      }
    }
  }

  /** The `TYPE` branch of `_parse_stream_info`. */
  method SetStreamType(key: StreamKey, value: string, state: ParseState)
    modifies state
    ensures state.Data() == StreamType(old(state.Data()), key, value)
  {
    var t := Lower(value);
    if Contains(t, "video") {
    } else if Contains(t, "audio") {
      if key !in state.audioTracks {
        state.audioTracks := state.audioTracks[key := DefaultAudioTrack(key.1)];
        state.audioOrder := state.audioOrder + [key];
      }
    } else if Contains(t, "subtitle") {
      if key !in state.subtitleTracks {
        state.subtitleTracks := state.subtitleTracks[key := DefaultSubtitleTrack(key.1)];
        state.subtitleOrder := state.subtitleOrder + [key];
      }
    }
  }

  /** The language and name branches of `_parse_stream_info`. */
  method SetTrackText(key: StreamKey, a: int, value: string, state: ParseState)
    requires a == AttrLangCode || a == AttrName
    modifies state
    ensures Parsed(state.Data(), None) == StreamAttribute(old(state.Data()), key, a, value)
  {
    if key in state.audioTracks {
      var track := state.audioTracks[key];
      state.audioTracks := state.audioTracks[key := if a == AttrLangCode then track.(language := value) else track.(name := value)];
    } else if key in state.subtitleTracks {
      var track := state.subtitleTracks[key];
      state.subtitleTracks := state.subtitleTracks[key := if a == AttrLangCode then track.(language := value) else track.(name := value)];
    }
  }

  /** `_parse_drive_info`. */
  method ParseDriveInfo(content: string, state: ParseState) returns (error: Option<string>)
    modifies state
    ensures Parsed(state.Data(), error) == DriveInfo(old(state.Data()), content)
  {
    var parts := ParseCsv(content);
    if |parts| >= 6 {
      var discName := parts[5];
      if discName != "" && state.disc.name == "" {
        state.disc := state.disc.(name := discName);
      }
    }
    return None;
  }

  /** The loop of `finalize_state` over one track dictionary. */
  method CollectTracks<V>(m: map<StreamKey, V>, order: seq<StreamKey>, i: int) returns (tracks: seq<V>)
    ensures tracks == TracksOf(m, order, i)
  {
    tracks := [];
    var n := 0;
    while n < |order|
      invariant 0 <= n <= |order|
      invariant tracks == TracksOf(m, order[..n], i)
    {
      var k := order[n];
      assert order[..n + 1][..n] == order[..n];
      if k.0 == i && k in m {
        tracks := tracks + [m[k]];
      }
      n := n + 1;
    }
    assert order[..n] == order;
  }

  /** The body of the loop of `finalize_state` for title `idx`. */
  method AttachTracks(state: ParseState, idx: int) returns (title: Title)
    requires idx in state.titles
    ensures title == Attach(state.Data(), idx)
  {
    title := state.titles[idx];
    var audio := CollectTracks(state.audioTracks, state.audioOrder, idx);
    title := title.(audioTracks := SortBy(title.audioTracks + audio, AudioIndex));
    var subtitles := CollectTracks(state.subtitleTracks, state.subtitleOrder, idx);
    title := title.(subtitleTracks := SortBy(title.subtitleTracks + subtitles, SubtitleIndex));
  }

  /** The loop of `finalize_state`: the titles with their tracks, by key and in key order. */
  method AttachAll(state: ParseState, keys: seq<int>) returns (titles: map<int, Title>, attached: seq<Title>)
    requires forall j :: 0 <= j < |keys| ==> keys[j] in state.titles
    requires forall j, j' :: 0 <= j < j' < |keys| ==> keys[j] != keys[j']
    ensures |attached| == |keys|
    ensures forall j :: 0 <= j < |keys| ==> attached[j] == Attach(state.Data(), keys[j])
    ensures titles.Keys == state.titles.Keys
    ensures forall i :: i in titles ==> titles[i] == if i in keys then Attach(state.Data(), i) else state.titles[i]
  {
    titles, attached := state.titles, [];
    var n := 0;
    while n < |keys|
      invariant 0 <= n <= |keys|
      invariant |attached| == n
      invariant forall j :: 0 <= j < n ==> attached[j] == Attach(state.Data(), keys[j])
      invariant titles.Keys == state.titles.Keys
      invariant forall i :: i in titles ==> titles[i] == if i in keys[..n] then Attach(state.Data(), i) else state.titles[i]
    {
      var idx := keys[n];
      var title := AttachTracks(state, idx);
      assert forall i :: i in keys[..n + 1] <==> i in keys[..n] || i == idx;
      titles := titles[idx := title];
      attached := attached + [title];
      n := n + 1;
    }
    assert keys[..n] == keys;
  }

  /**
   * `finalize_state`: every title, in index order, gets its tracks sorted by stream
   * number, is stored back and is appended to the disc, which is returned.
   */
  method FinalizeState(state: ParseState) returns (disc: Disc)
    requires state.Valid()
    modifies state
    ensures disc == Finalized(old(state.Data())) && state.disc == disc
    ensures state.titles.Keys == old(state.titles.Keys)
    ensures forall i :: i in state.titles ==> state.titles[i] == Attach(old(state.Data()), i)
    ensures state.Data() == old(state.Data()).(disc := disc, titles := state.titles)
  {
    var keys := SortedKeys(state.Data());
    SortedKeysOrder(state.Data());
    var titles, attached := AttachAll(state, keys);
    assert attached == FinalTitles(state.Data());
    state.titles := titles;
    state.disc := state.disc.(titles := state.disc.titles + attached);
    disc := state.disc;
  }
}
