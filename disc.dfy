/**
 * The disc and title records of riparr (`riparr.core.disc`) and their computed
 * properties: channel layout names, the HH:MM:SS duration, the HDR check on the video
 * codec, totals over a disc's titles and the disc built from a volume label.
 */
module CoreDisc {
  import opened Wrappers
  import opened Strings

  datatype DiscType = Dvd | BluRay | Uhd | UnknownDisc

  datatype MediaType = Movie | Tv | UnknownMedia

  datatype AudioTrack = AudioTrack(
    index: int,
    codec: string,
    channels: int,
    language: string,
    name: string,
    isDefault: bool)

  datatype SubtitleTrack = SubtitleTrack(
    index: int,
    codec: string,
    language: string,
    name: string,
    forced: bool,
    isDefault: bool)

  /** A title as MakeMKV reports it; the frame rate is not part of this model. */
  datatype Title = Title(
    index: int,
    duration: int,
    chapters: int,
    sizeBytes: int,
    videoCodec: string,
    resolution: string,
    audioTracks: seq<AudioTrack>,
    subtitleTracks: seq<SubtitleTrack>,
    segmentCount: int,
    segmentMap: string,
    sourceFile: string,
    outputFile: string)

  datatype DiscMetadata = DiscMetadata(
    title: string,
    year: Option<int>,
    mediaType: MediaType,
    imdbId: Option<string>,
    tmdbId: Option<int>,
    posterUrl: Option<string>,
    overview: Option<string>,
    season: Option<int>,
    episodeCount: Option<int>)

  datatype Disc = Disc(
    name: string,
    device: string,
    discType: DiscType,
    dvdId: Option<string>,
    volumeLabel: Option<string>,
    titles: seq<Title>,
    metadata: Option<DiscMetadata>)

  function DefaultAudioTrack(index: int): AudioTrack { AudioTrack(index, "", 2, "und", "", false) }

  function DefaultSubtitleTrack(index: int): SubtitleTrack { SubtitleTrack(index, "", "und", "", false, false) }

  function DefaultTitle(index: int): Title { Title(index, 0, 0, 0, "", "", [], [], 1, "", "", "") }

  /** `Disc()` with every field at its default. */
  function EmptyDisc(): Disc { Disc("", "", UnknownDisc, None, None, [], None) }

  function Durations(ts: seq<Title>): seq<int> { seq(|ts|, i requires 0 <= i < |ts| => ts[i].duration) }

  /** `AudioTrack.channel_layout`. */
  function ChannelLayout(channels: int): (r: string)
    ensures channels == 1 ==> r == "Mono"
    ensures channels == 2 ==> r == "Stereo"
    ensures channels == 6 ==> r == "5.1"
    ensures channels == 8 ==> r == "7.1"
    ensures channels !in {1, 2, 6, 8} ==> r == IntToString(channels) + "ch"
  {
    if channels == 1 then "Mono"
    else if channels == 2 then "Stereo"
    else if channels == 6 then "5.1"
    else if channels == 8 then "7.1"
    else IntToString(channels) + "ch"
  }

  /** Only the generic "<n>ch" names end in `h`. */
  lemma ChannelLayoutSuffix(n: int)
    ensures var r := ChannelLayout(n); |r| > 0 && (r[|r| - 1] == 'h' <==> n !in {1, 2, 6, 8})
  {
  }

  /** Different channel counts never share a layout name. */
  lemma ChannelLayoutInjective(a: int, b: int)
    requires ChannelLayout(a) == ChannelLayout(b)
    ensures a == b
  {
    ChannelLayoutSuffix(a);
    ChannelLayoutSuffix(b);
    var ra, rb := ChannelLayout(a), ChannelLayout(b);
    if a !in {1, 2, 6, 8} && b !in {1, 2, 6, 8} {
      var sa, sb := IntToString(a), IntToString(b);
      assert ra == sa + "ch" && rb == sb + "ch";
      assert |sa| == |sb|;
      assert sa == ra[..|sa|] && sb == rb[..|sb|];
      IntToStringRoundTrip(a);
      IntToStringRoundTrip(b);
    }
  }

  /** `Title.duration_str`: the duration as zero-padded hours, minutes and seconds. */
  function DurationStr(t: Title): (r: string)
    ensures HmsOf(r, t.duration)
  {
    HmsMeaning(t.duration);
    Hms(t.duration)
  }

  const HdrIndicators: seq<string> := ["HDR", "HDR10", "Dolby Vision", "DV", "HLG"]

  /** `Title.is_hdr`: the video codec names one of the HDR indicators. */
  predicate IsHdr(t: Title)
  {
    exists k :: 0 <= k < |HdrIndicators| && Contains(t.videoCodec, HdrIndicators[k])
  }

  /** "HDR10" adds nothing to the indicator list, since every codec naming it also names "HDR". */
  lemma IsHdrWithoutHdr10(t: Title)
    ensures IsHdr(t) <==>
      Contains(t.videoCodec, "HDR") || Contains(t.videoCodec, "Dolby Vision") ||
      Contains(t.videoCodec, "DV") || Contains(t.videoCodec, "HLG")
  {
    var c := t.videoCodec;
    if Contains(c, "HDR10") {
      ContainsFromMeaning(c, "HDR10", 0);
      var k: nat :| k <= |c| && OccursAt(c, "HDR10", k);
      OccursAtMeaning(c, "HDR10", k);
      OccursAtMeaning(c, "HDR", k);
      assert c[k..k + 3] == c[k..k + 5][..3];
      ContainsFromMeaning(c, "HDR", 0);
    }
    assert HdrIndicators[0] == "HDR" && HdrIndicators[2] == "Dolby Vision";
    assert HdrIndicators[3] == "DV" && HdrIndicators[4] == "HLG";
  }

  function SumDurations(ts: seq<Title>): int
  {
    if ts == [] then 0 else SumDurations(ts[..|ts| - 1]) + ts[|ts| - 1].duration
  }

  function SumSizes(ts: seq<Title>): int
  {
    if ts == [] then 0 else SumSizes(ts[..|ts| - 1]) + ts[|ts| - 1].sizeBytes
  }

  /** `Disc.total_duration`. */
  function TotalDuration(d: Disc): (r: int)
    ensures d.titles == [] ==> r == 0
    ensures r == SumDurations(d.titles)
    ensures (forall i :: 0 <= i < |d.titles| ==> d.titles[i].duration >= 0) ==> r >= 0
  {
    SumDurationsNonNegative(d.titles);
    SumDurations(d.titles)
  }

  /** `Disc.total_size`. */
  function TotalSize(d: Disc): (r: int)
    ensures d.titles == [] ==> r == 0
    ensures r == SumSizes(d.titles)
  {
    SumSizes(d.titles)
  }

  lemma {:induction false} SumDurationsNonNegative(ts: seq<Title>)
    ensures (forall i :: 0 <= i < |ts| ==> ts[i].duration >= 0) ==> SumDurations(ts) >= 0
  {
    if ts != [] {
      SumDurationsNonNegative(ts[..|ts| - 1]);
    }
  }

  /** Totals add up over a disc whose titles are split in two. */
  lemma {:induction false} SumsSplit(a: seq<Title>, b: seq<Title>)
    ensures SumDurations(a + b) == SumDurations(a) + SumDurations(b)
    ensures SumSizes(a + b) == SumSizes(a) + SumSizes(b)
    decreases |b|
  {
    if b == [] {
      assert a + b == a;
    } else {
      var b0 := b[..|b| - 1];
      assert (a + b)[..|a + b| - 1] == a + b0;
      SumsSplit(a, b0);
    }
  }

  /**
   * The disc totals are additive: splitting a disc's titles in two splits its total
   * duration and total size the same way, and a disc of one title totals that title.
   */
  lemma TotalsSplit(d: Disc, a: seq<Title>, b: seq<Title>)
    requires d.titles == a + b
    ensures TotalDuration(d) == TotalDuration(d.(titles := a)) + TotalDuration(d.(titles := b))
    ensures TotalSize(d) == TotalSize(d.(titles := a)) + TotalSize(d.(titles := b))
  {
    SumsSplit(a, b);
  }

  lemma TotalsOfOne(d: Disc, t: Title)
    requires d.titles == [t]
    ensures TotalDuration(d) == t.duration && TotalSize(d) == t.sizeBytes
  {
    assert d.titles[..|d.titles| - 1] == [];
    assert SumDurations(d.titles) == SumDurations([]) + t.duration;
    assert SumSizes(d.titles) == SumSizes([]) + t.sizeBytes;
  }

  /** `Disc.from_label(label, device)`, the label given as `volume`. */
  function FromLabel(volume: string, device: string): (r: Disc)
    ensures r.name == volume && r.volumeLabel == Some(volume) && r.device == device
    ensures r == EmptyDisc().(name := volume, volumeLabel := Some(volume), device := device)
  {
    Disc(volume, device, UnknownDisc, None, Some(volume), [], None)
  }
}
