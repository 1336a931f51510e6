/**
 * The file report of `riparr.metadata.mediainfo`: the streams of an encoded file and the
 * strings computed from them (duration, resolution, HDR flag, codec string for file names).
 * Reading the file itself is not part of this model; a report is a value.
 */
module MediaInfo {
  import opened Wrappers
  import opened Strings
  import Naming

  /** A video stream; the frame rate is not part of this model. */
  datatype VideoInfo = VideoInfo(
    codec: string,
    width: int,
    height: int,
    bitDepth: int,
    hdrFormat: Option<string>,
    durationMs: int)

  datatype AudioInfo = AudioInfo(codec: string, channels: int, sampleRate: int, language: string, title: string)

  datatype SubtitleInfo = SubtitleInfo(codec: string, language: string, forced: bool, title: string)

  /** A missing track list is the empty list, as `__post_init__` makes it. */
  datatype Report = Report(
    durationMs: int,
    sizeBytes: int,
    container: string,
    video: Option<VideoInfo>,
    audioTracks: seq<AudioInfo>,
    subtitleTracks: seq<SubtitleInfo>)

  /**
   * `duration_str`: the whole seconds (`duration_ms // 1000`, a floor) as HH:MM:SS, so the
   * time read back from the string lies within the last second before the duration.
   */
  function DurationStr(m: Report): (r: string)
    ensures HmsOf(r, m.durationMs / 1000)
    ensures var f := Split(r, ':');
      var seconds := ParseInt(f[0]).value * 3600 + ParseInt(f[1]).value * 60 + ParseInt(f[2]).value;
      seconds * 1000 <= m.durationMs < seconds * 1000 + 1000
  {
    HmsMeaning(m.durationMs / 1000);
    Hms(m.durationMs / 1000)
  }

  /** `resolution`: `WxH` with a video stream, else `Unknown`. */
  function Resolution(m: Report): (r: string)
    ensures m.video.None? <==> r == "Unknown"
  {
    if m.video.Some? then
      var w := IntToString(m.video.value.width);
      var r := w + "x" + IntToString(m.video.value.height);
      assert r[|w|] == 'x' && 'x' !in "Unknown";
      r
    else "Unknown"
  }

  /** The resolution splits at `x` into the two numbers, which read back as width and height. */
  lemma ResolutionFields(m: Report)
    requires m.video.Some?
    ensures var f := Split(Resolution(m), 'x');
      |f| == 2 && ParseInt(f[0]) == Some(m.video.value.width) && ParseInt(f[1]) == Some(m.video.value.height)
  {
    var w, h := IntToString(m.video.value.width), IntToString(m.video.value.height);
    assert 'x' !in w && 'x' !in h by {
      assert forall i :: 0 <= i < |w| ==> w[i] != 'x';
      assert forall i :: 0 <= i < |h| ==> h[i] != 'x';
    }
    SplitAfterPiece(w, 'x', h);
    SplitNoSeparator(h, 'x');
    IntToStringRoundTrip(m.video.value.width);
    IntToStringRoundTrip(m.video.value.height);
  }

  /** `is_hdr`: a video stream with an HDR format, even an empty one. */
  predicate IsHdr(m: Report)
  {
    m.video.Some? && m.video.value.hdrFormat.Some?
  }

  /** `str.split()[0]`: the first run of non-blank characters, if there is one. */
  function FirstWord(s: string): (r: Option<string>)
    ensures r.None? <==> forall i :: 0 <= i < |s| ==> IsSpace(s[i])
    ensures r.Some? ==> |r.value| > 0 && forall i :: 0 <= i < |r.value| ==> !IsSpace(r.value[i])
    ensures r.Some? ==> LeadingWord(s, r.value)
  {
    var t := TrimLeft(s, Whitespace);
    if t == [] then
      TrimLeftEmpty(s);
      None
    else
      TrimLeftFirst(s);
      WordAt(s, |s| - |t|);
      assert LeadingWord(s, Word(t));
      Some(Word(t))
  }

  /** `w` is the piece of `s` after its leading white space, up to the next blank or the end. */
  predicate LeadingWord(s: string, w: string)
  {
    WordFrom(s, |s| - |TrimLeft(s, Whitespace)|, w)
  }

  /** `w` starts at `k`, after `k` blank characters, and runs up to the next blank or the end of `s`. */
  predicate WordFrom(s: string, k: nat, w: string)
  {
    && (forall i :: 0 <= i < k && i < |s| ==> IsSpace(s[i]))
    && k + |w| <= |s| && w == s[k..k + |w|]
    && (k + |w| == |s| || IsSpace(s[k + |w|]))
  }

  /** After blanks only, the word starting at `k` is the leading word. */
  lemma WordAt(s: string, k: nat)
    requires k <= |s| && forall i :: 0 <= i < k ==> IsSpace(s[i])
    ensures WordFrom(s, k, Word(s[k..]))
  {
    WordSpan(s, k);
  }

  /** The word starting at `k` runs up to the next blank or the end of `s`. */
  lemma WordSpan(s: string, k: nat)
    requires k <= |s|
    ensures var e := k + |Word(s[k..])|;
      e <= |s| && Word(s[k..]) == s[k..e] && (e == |s| || IsSpace(s[e]))
  {
    var t, w := s[k..], Word(s[k..]);
    assert s[k..k + |w|] == t[..|w|];
    assert k + |w| < |s| ==> s[k + |w|] == t[|w|];
  }

  lemma {:induction false} TrimLeftEmpty(s: string)
    requires TrimLeft(s, Whitespace) == []
    ensures forall i :: 0 <= i < |s| ==> IsSpace(s[i])
  {
    if s != [] && s[0] in Whitespace {
      TrimLeftEmpty(s[1..]);
      assert forall i :: 1 <= i < |s| ==> s[i] == s[1..][i - 1];
    }
  }

  lemma {:induction false} TrimLeftFirst(s: string)
    requires TrimLeft(s, Whitespace) != []
    ensures !IsSpace(TrimLeft(s, Whitespace)[0])
    ensures exists i :: 0 <= i < |s| && !IsSpace(s[i])
  {
    if s[0] in Whitespace {
      TrimLeftFirst(s[1..]);
      var i :| 0 <= i < |s[1..]| && !IsSpace(s[1..][i]);
      assert s[i + 1] == s[1..][i];
    } else {
      assert !IsSpace(s[0]);
    }
  }

  /** The leading run of non-blank characters. */
  function Word(t: string): (r: string)
    ensures |r| <= |t| && r == t[..|r|]
    ensures forall i :: 0 <= i < |r| ==> !IsSpace(r[i])
    ensures |r| < |t| ==> IsSpace(t[|r|])
    ensures |t| > 0 && !IsSpace(t[0]) ==> |r| > 0
  {
    if t == [] || IsSpace(t[0]) then [] else [t[0]] + Word(t[1..])
  }

  /** The video part: HEVC/H.265, else AVC/H.264, else the first word; `None` is the `IndexError` of a blank codec. */
  function VideoPart(codec: string): (r: Option<string>)
    ensures var u := Upper(codec);
      (Contains(u, "HEVC") || Contains(u, "H.265") ==> r == Some("H265")) &&
      (!(Contains(u, "HEVC") || Contains(u, "H.265")) && (Contains(u, "AVC") || Contains(u, "H.264")) ==> r == Some("H264"))
    ensures r.None? <==>
      (!Contains(Upper(codec), "HEVC") && !Contains(Upper(codec), "H.265") &&
       !Contains(Upper(codec), "AVC") && !Contains(Upper(codec), "H.264") &&
       forall i :: 0 <= i < |codec| ==> IsSpace(codec[i]))
    ensures var u := Upper(codec);
      !Contains(u, "HEVC") && !Contains(u, "H.265") && !Contains(u, "AVC") && !Contains(u, "H.264") ==>
      r == FirstWord(u)
  {
    var u := Upper(codec);
    if Contains(u, "HEVC") || Contains(u, "H.265") then Some("H265")
    else if Contains(u, "AVC") || Contains(u, "H.264") then Some("H264")
    else
      BlankUpper(codec);
      FirstWord(u)
  }

  /** Upper-casing keeps blank characters blank and the others not. */
  lemma BlankUpper(s: string)
    ensures (forall i :: 0 <= i < |s| ==> IsSpace(s[i])) <==> (forall i :: 0 <= i < |Upper(s)| ==> IsSpace(Upper(s)[i]))
  {
    assert forall i :: 0 <= i < |s| ==> (IsSpace(s[i]) <==> IsSpace(Upper(s)[i]));
  }

  /** The HDR tag, for a non-empty HDR format: Dolby Vision, then HDR10+, then HDR. */
  function HdrPart(hdr: Option<string>): (r: Option<string>)
    ensures r.Some? ==> IsGiven(hdr) && r.value in {"DV", "HDR10+", "HDR"}
    ensures IsGiven(hdr) && Contains(hdr.value, "Dolby Vision") ==> r == Some("DV")
    ensures IsGiven(hdr) && !Contains(hdr.value, "Dolby Vision") && Contains(hdr.value, "HDR") ==>
      r == Some(if Contains(hdr.value, "HDR10+") then "HDR10+" else "HDR")
    ensures IsGiven(hdr) && !Contains(hdr.value, "Dolby Vision") && !Contains(hdr.value, "HDR") ==> r.None?
  {
    if !IsGiven(hdr) then None
    else if Contains(hdr.value, "Dolby Vision") then Some("DV")
    else if Contains(hdr.value, "HDR10+") then
      HdrPlusHasHdr(hdr.value);
      Some("HDR10+")
    else if Contains(hdr.value, "HDR") then Some("HDR")
    else None
  }

  predicate IsGiven(o: Option<string>) { Naming.Given(o) }

  lemma HdrPlusHasHdr(s: string)
    requires Contains(s, "HDR10+")
    ensures Contains(s, "HDR")
  {
    ContainsFromMeaning(s, "HDR10+", 0);
    var k: nat :| (k <= |s| || k == 0) && OccursAt(s, "HDR10+", k);
    OccursAtMeaning(s, "HDR10+", k);
    OccursAtMeaning(s, "HDR", k);
    assert s[k..k + 3] == s[k..k + 6][..3];
    ContainsFromMeaning(s, "HDR", 0);
  }

  /** The first rung of the audio ladder: the codec names TrueHD, upper-cased or as written. */
  predicate TrueHdTrack(a: AudioInfo)
  {
    Contains(Upper(a.codec), "TRUEHD") || Contains(a.codec, "TrueHD")
  }

  /** The audio part of the first track: TrueHD (Atmos by the track title), DTS-HD/DTS:X, DTS, AC3/AC-3, AAC. */
  function AudioPart(a: AudioInfo): (r: Option<string>)
    ensures r.Some? ==> r.value in {"Atmos", "TrueHD", "DTS-HD", "DTS", "DD", "AAC"}
    ensures TrueHdTrack(a) ==> r == Some(if Contains(a.title, "Atmos") then "Atmos" else "TrueHD")
    ensures var u := Upper(a.codec);
      !TrueHdTrack(a) && (Contains(u, "DTS-HD") || Contains(u, "DTS:X")) ==> r == Some("DTS-HD")
    ensures var u := Upper(a.codec);
      !TrueHdTrack(a) && !Contains(u, "DTS-HD") && !Contains(u, "DTS:X") && Contains(u, "DTS") ==>
      r == Some("DTS")
    ensures var u := Upper(a.codec);
      !TrueHdTrack(a) && !Contains(u, "DTS") && (Contains(u, "AC3") || Contains(u, "AC-3")) ==>
      r == Some("DD")
    ensures var u := Upper(a.codec);
      (!TrueHdTrack(a) && !Contains(u, "DTS") && !Contains(u, "AC3") && !Contains(u, "AC-3") &&
       Contains(u, "AAC")) ==> r == Some("AAC")
    ensures var u := Upper(a.codec);
      r.None? <==> (!TrueHdTrack(a) && !Contains(u, "DTS") && !Contains(u, "AC3") && !Contains(u, "AC-3") &&
                    !Contains(u, "AAC"))
  {
    var u := Upper(a.codec);
    Naming.DtsHdHasDts(u);
    if TrueHdTrack(a) then Some(if Contains(a.title, "Atmos") then "Atmos" else "TrueHD")
    else if Contains(u, "DTS-HD") || Contains(u, "DTS:X") then Some("DTS-HD")
    else if Contains(u, "DTS") then Some("DTS")
    else if Contains(u, "AC3") || Contains(u, "AC-3") then Some("DD")
    else if Contains(u, "AAC") then Some("AAC")
    else None
  }

  /**
   * The audio ladder is the one the file namer uses: the same tag for the same codec,
   * whenever the track title says Atmos exactly when the codec does.
   */
  lemma AudioPartLikeNamer(a: AudioInfo)
    requires Contains(a.title, "Atmos") <==> Contains(Upper(a.codec), "ATMOS")
    ensures AudioPart(a) == Naming.AudioTag(a.codec)
  {
    if Contains(a.codec, "TrueHD") {
      ContainsUpper(a.codec, "TrueHD");
      assert Upper("TrueHD") == "TRUEHD";
    }
  }

  /** The audio tag of the first track, as a list of zero or one part. */
  function AudioParts(m: Report): (r: seq<string>)
    ensures |r| <= 1
    ensures r != [] <==> |m.audioTracks| > 0 && AudioPart(m.audioTracks[0]).Some?
    ensures r != [] ==> Some(r[0]) == AudioPart(m.audioTracks[0])
  {
    if |m.audioTracks| > 0 then (match AudioPart(m.audioTracks[0]) case Some(t) => [t] case None => []) else []
  }

  /**
   * The parts of `codec_string`, or `None` where the video part raises: the video part,
   * the HDR tag, the audio tag, each only when there is one, in that order.
   */
  function CodecParts(m: Report): (r: Option<seq<string>>)
    ensures r.None? <==> m.video.Some? && VideoPart(m.video.value.codec).None?
    ensures r.Some? ==>
      |r.value| == (if m.video.Some? then 1 + (if HdrPart(m.video.value.hdrFormat).Some? then 1 else 0) else 0) + |AudioParts(m)|
    ensures r.Some? && m.video.Some? ==> Some(r.value[0]) == VideoPart(m.video.value.codec)
    ensures r.Some? && m.video.Some? && HdrPart(m.video.value.hdrFormat).Some? ==>
      Some(r.value[1]) == HdrPart(m.video.value.hdrFormat)
    ensures r.Some? && AudioParts(m) != [] ==> r.value[|r.value| - 1] == AudioParts(m)[0]
    ensures r.Some? ==> forall i :: 0 <= i < |r.value| ==> r.value[i] != "" && ' ' !in r.value[i]
  {
    var audio := AudioParts(m);
    AudioPartPlain(m);
    match m.video
    case None => Some(audio)
    case Some(v) =>
      match VideoPart(v.codec)
      case None => None
      case Some(vt) =>
        assert vt != "" && ' ' !in vt by {
          VideoPartPlain(v.codec);
        }
        var h: seq<string> := match HdrPart(v.hdrFormat) case Some(t) => [t] case None => [];
        Some([vt] + h + audio)
  }

  lemma AudioPartPlain(m: Report)
    ensures forall i :: 0 <= i < |AudioParts(m)| ==> AudioParts(m)[i] != "" && ' ' !in AudioParts(m)[i]
  {
    if AudioParts(m) != [] {
      var t := AudioParts(m)[0];
      assert t in {"Atmos", "TrueHD", "DTS-HD", "DTS", "DD", "AAC"};
    }
  }

  lemma VideoPartPlain(codec: string)
    requires VideoPart(codec).Some?
    ensures VideoPart(codec).value != "" && ' ' !in VideoPart(codec).value
  {
    var w := VideoPart(codec).value;
    assert forall i :: 0 <= i < |w| ==> w[i] != ' ';
  }

  /** `codec_string`: the parts joined by blanks, or `Unknown` when there are none. */
  function CodecString(m: Report): (r: Option<string>)
    ensures r.None? <==> CodecParts(m).None?
    ensures r.Some? && CodecParts(m).value == [] ==> r.value == "Unknown"
    ensures r.Some? && CodecParts(m).value != [] ==> Split(r.value, ' ') == CodecParts(m).value
  {
    match CodecParts(m)
    case None => None
    case Some(parts) =>
      if parts == [] then Some("Unknown")
      else
        SplitJoin(parts, ' ');
        Some(Join(parts, " "))
  }
}
