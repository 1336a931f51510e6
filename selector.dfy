/**
 * Title selection (`riparr.ripper.selector.TitleSelector`): the classification of a disc
 * as a movie, a TV disc, mixed or unknown; the titles worth ripping; the main feature of
 * a movie disc; and the episodes of a TV disc.
 */
module Selector {
  import opened Wrappers
  import opened Lists
  import opened CoreDisc
  import opened CoreTitle

  datatype Classification = MovieDisc | TvSeries | TvSeason | Mixed | UnknownClass

  /** The three settings the selector reads. `max_titles` has no bound in the settings. */
  datatype SelectorSettings = SelectorSettings(minMovieDuration: int, minTvDuration: int, maxTitles: int)

  predicate IsTv(c: Classification) { c == TvSeries || c == TvSeason }

  // The tests and keys below are constants holding lambdas, so that they can be handed to
  // `Filter` and `SortBy` as values.
  const IsMeaningful: Title -> bool := (t: Title) => t.duration >= 300
  const IsLong: Title -> bool := (t: Title) => t.duration >= 3600
  const IsMedium: Title -> bool := (t: Title) => 1200 <= t.duration < 3600
  const IsShort: Title -> bool := (t: Title) => 300 <= t.duration < 1200

  const Index: Title -> int := (t: Title) => t.index
  const NegDuration: Title -> int := (t: Title) => -t.duration

  /** The counts `classify_disc` bases its decision on. */
  datatype Profile = Profile(
    meaningful: nat,      // titles of five minutes or more
    singleLong: bool,     // exactly one of them, and it lasts an hour or more
    long: nat,            // an hour or more
    medium: nat,          // twenty minutes to an hour
    short: nat,           // five to twenty minutes
    mediumGroup: nat,     // the largest group of medium titles within five minutes
    shortGroup: nat)      // the largest group of short titles within three minutes

  /** `meaningful`: the titles of five minutes or more; banding them is banding all titles. */
  function Meaningful(titles: seq<Title>): (r: seq<Title>)
    ensures r == [] <==> forall i :: 0 <= i < |titles| ==> titles[i].duration < 300
    ensures Filter(r, IsLong) == Filter(titles, IsLong)
    ensures Filter(r, IsMedium) == Filter(titles, IsMedium)
    ensures Filter(r, IsShort) == Filter(titles, IsShort)
  {
    FilterEmpty(titles, IsMeaningful);
    FilterNarrow(titles, IsMeaningful, IsLong);
    FilterNarrow(titles, IsMeaningful, IsMedium);
    FilterNarrow(titles, IsMeaningful, IsShort);
    Filter(titles, IsMeaningful)
  }

  /** The counts over the titles of five minutes or more, as `classify_disc` takes them. */
  function ProfileOf(titles: seq<Title>): (p: Profile)
    ensures p.meaningful == 0 <==> forall i :: 0 <= i < |titles| ==> titles[i].duration < 300
    ensures p.singleLong ==> p.long >= 1
    ensures p.long == |Filter(titles, IsLong)| && p.medium == |Filter(titles, IsMedium)| && p.short == |Filter(titles, IsShort)|
    ensures p.mediumGroup <= p.medium && p.shortGroup <= p.short
  {
    var meaningful := Meaningful(titles);
    SingleLongCounted(meaningful);
    Counts(meaningful, Filter(titles, IsLong), Filter(titles, IsMedium), Filter(titles, IsShort))
  }

  /** The profile of the titles of five minutes or more, given their long, medium and short ones. */
  function Counts(meaningful: seq<Title>, long: seq<Title>, medium: seq<Title>, short: seq<Title>): (p: Profile)
    ensures p.meaningful == |meaningful| && p.long == |long| && p.medium == |medium| && p.short == |short|
    ensures p.singleLong <==> |meaningful| == 1 && meaningful[0].duration >= 3600
    ensures p.mediumGroup <= p.medium && p.shortGroup <= p.short
  {
    var singleLong := |meaningful| == 1 && meaningful[0].duration >= 3600;
    Profile(|meaningful|, singleLong, |long|, |medium|, |short|, LargestGroup(medium, 300), LargestGroup(short, 180))
  }

  /** A lone title of an hour or more is a long one. */
  lemma SingleLongCounted(ts: seq<Title>)
    ensures |ts| == 1 && ts[0].duration >= 3600 ==> |Filter(ts, IsLong)| == 1
  {
    if |ts| == 1 {
      assert ts == [ts[0]];
      FilterSingle(ts[0], IsLong);
    }
  }

  /** `len(max(group_by_duration(ts, tol), key=len))`, taken as 0 when there are no groups. */
  function LargestGroup(ts: seq<Title>, tol: int): (r: nat)
    ensures r <= |ts|
  {
    LargestGroupAtMost(ts, tol);
    LargestGroupSize(Grouping(ts, tol))
  }

  /** `classify_disc`: the ladder of duration heuristics, first match wins. */
  function ClassifyDisc(titles: seq<Title>): Classification
  {
    if titles == [] then UnknownClass else Ladder(ProfileOf(titles))
  }

  function Ladder(p: Profile): Classification
  {
    if p.meaningful == 0 then UnknownClass
    else if p.singleLong then MovieDisc
    else if p.long >= 1 && p.medium <= 2 then MovieDisc
    else if p.medium >= 3 && p.mediumGroup >= 4 then TvSeason
    else if p.medium >= 3 && p.mediumGroup >= 2 then TvSeries
    else if p.short >= 4 && p.shortGroup >= 4 then TvSeries
    else if p.long > 0 && p.medium > 0 then Mixed
    else UnknownClass
  }

  /**
   * What each classification says about the disc: nothing of five minutes or more makes it
   * unknown; a movie disc has a title of an hour or more, and such a title with at most
   * two of twenty minutes to an hour always makes one; a season disc has at least four
   * titles of twenty minutes to an hour; a series disc three of them or four of five to
   * twenty minutes; a mixed disc has a title of an hour or more and at least three of
   * twenty minutes to an hour.
   */
  lemma ClassifyDiscProperties(titles: seq<Title>)
    ensures (forall i :: 0 <= i < |titles| ==> titles[i].duration < 300) ==> ClassifyDisc(titles) == UnknownClass
    ensures ClassifyDisc(titles) == MovieDisc ==> |Filter(titles, IsLong)| >= 1
    ensures |Filter(titles, IsLong)| >= 1 && |Filter(titles, IsMedium)| <= 2 ==> ClassifyDisc(titles) == MovieDisc
    ensures ClassifyDisc(titles) == TvSeason ==> |Filter(titles, IsMedium)| >= 4
    ensures ClassifyDisc(titles) == TvSeries ==> |Filter(titles, IsMedium)| >= 3 || |Filter(titles, IsShort)| >= 4
    ensures ClassifyDisc(titles) == Mixed ==> |Filter(titles, IsLong)| >= 1 && |Filter(titles, IsMedium)| >= 3
  {
    if titles != [] {
      var p := ProfileOf(titles);
      LadderFacts(p);
      if |Filter(titles, IsLong)| >= 1 {
        assert Filter(titles, IsLong)[0] in titles;
      }
    }
  }

  /** The ladder's conclusions in terms of the counts, with the facts `ProfileOf` guarantees. */
  lemma LadderFacts(p: Profile)
    requires p.singleLong ==> p.long >= 1
    requires p.mediumGroup <= p.medium
    ensures p.meaningful == 0 ==> Ladder(p) == UnknownClass
    ensures Ladder(p) == MovieDisc ==> p.long >= 1
    ensures p.meaningful > 0 && p.long >= 1 && p.medium <= 2 ==> Ladder(p) == MovieDisc
    ensures Ladder(p) == TvSeason ==> p.medium >= 4
    ensures Ladder(p) == TvSeries ==> p.medium >= 3 || p.short >= 4
    ensures Ladder(p) == Mixed ==> p.long >= 1 && p.medium >= 3
  {
  }

  /** Two titles of twenty minutes to an hour, and nothing else, do not make a TV disc. */
  lemma TwoMediumTitlesUnknown(titles: seq<Title>)
    requires |titles| == 2 && IsMedium(titles[0]) && IsMedium(titles[1])
    ensures ClassifyDisc(titles) == UnknownClass
  {
    FilterAll(titles, IsMedium);
    FilterEmpty(titles, IsLong);
    FilterEmpty(titles, IsShort);
    LadderTwoMedium(ProfileOf(titles));
  }

  lemma LadderTwoMedium(p: Profile)
    requires p.singleLong ==> p.long >= 1
    requires p.long == 0 && p.medium == 2 && p.short == 0
    ensures Ladder(p) == UnknownClass
  {
  }

  /** The duration threshold `select_titles` applies: the override, else the TV or the movie minimum. */
  function MinimumDuration(s: SelectorSettings, c: Classification, minDuration: Option<int>): int
  {
    if minDuration.Some? then minDuration.value
    else if IsTv(c) then s.minTvDuration
    else s.minMovieDuration
  }

  function LastingAtLeast(titles: seq<Title>, min: int): (r: seq<Title>)
    ensures forall t :: t in r <==> t in titles && t.duration >= min
    ensures multiset(r) <= multiset(titles)
  {
    Filter(titles, (t: Title) => t.duration >= min)
  }

  /** `[t for t in titles if t.index != title.index]`. */
  function OthersOf(t: Title, titles: seq<Title>): seq<Title>
  {
    Filter(titles, (o: Title) => o.index != t.index)
  }

  /** The titles of `titles` that are not a play-all of the others, in their order. */
  function WithoutPlayAll(titles: seq<Title>): (r: seq<Title>)
    ensures Subseq(r, titles)
    ensures forall t :: t in r <==> t in titles && !IsLikelyPlayAll(t, OthersOf(t, titles))
  {
    FilterSubseq(titles, NotPlayAllOf(titles));
    Filter(titles, NotPlayAllOf(titles))
  }

  /** The test `_filter_play_all` applies to each title of `titles`. */
  function NotPlayAllOf(titles: seq<Title>): Title -> bool
  {
    (t: Title) => !IsLikelyPlayAll(t, OthersOf(t, titles))
  }

  /** `_filter_play_all`: one pass that keeps each title the others do not make a play-all. */
  method FilterPlayAll(titles: seq<Title>) returns (result: seq<Title>)
    ensures result == WithoutPlayAll(titles)
  {
    var p := NotPlayAllOf(titles);
    result := [];
    for i := 0 to |titles|
      invariant result == Filter(titles[..i], p)
    {
      var title := titles[i];
      var others := OthersOf(title, titles);
      FilterStep(titles, i, p);
      assert p(title) == !IsLikelyPlayAll(title, others);
      if !IsLikelyPlayAll(title, others) {
        result := result + [title];
      }
    }
    assert titles[..|titles|] == titles;
  }

  // ---------------------------------------------------------------------------
  // Duplicates
  // ---------------------------------------------------------------------------

  /** Titles with the same duration and size count as duplicates. */
  const DedupKey: Title -> (int, int) := (t: Title) => (t.duration, t.sizeBytes)

  /** `_filter_duplicates`: one pass with the set of keys already seen. */
  method FilterDuplicates(titles: seq<Title>) returns (result: seq<Title>)
    ensures result == Dedup(titles, DedupKey)
  {
    var seen: set<(int, int)> := {};
    result := [];
    for i := 0 to |titles|
      invariant result == Dedup(titles[..i], DedupKey)
      invariant seen == KeysOf(titles[..i], DedupKey)
    {
      var t := titles[i];
      assert titles[..i + 1][..i] == titles[..i];
      if DedupKey(t) !in seen {
        seen := seen + {DedupKey(t)};
        result := result + [t];
      }
    }
    assert titles[..|titles|] == titles;
  }

  /**
   * `_filter_duplicates` keeps the titles in their order, leaves no two with the same key,
   * loses no key, and keeps exactly the first title of each key.
   */
  lemma DedupProperties(s: seq<Title>)
    ensures Subseq(Dedup(s, DedupKey), s)
    ensures DistinctBy(Dedup(s, DedupKey), DedupKey)
    ensures KeysOf(Dedup(s, DedupKey), DedupKey) == KeysOf(s, DedupKey)
    ensures forall i :: 0 <= i < |s| && DedupKey(s[i]) !in KeysOf(s[..i], DedupKey) ==> s[i] in Dedup(s, DedupKey)
    ensures forall t :: t in Dedup(s, DedupKey) ==>
      exists i :: 0 <= i < |s| && s[i] == t && DedupKey(t) !in KeysOf(s[..i], DedupKey)
  {
    DedupSubseq(s, DedupKey);
    DedupDistinct(s, DedupKey);
    DedupKeys(s, DedupKey);
    forall i | 0 <= i < |s| && DedupKey(s[i]) !in KeysOf(s[..i], DedupKey)
      ensures s[i] in Dedup(s, DedupKey)
    {
      DedupKeepsFirst(s, DedupKey, i);
    }
    forall t | t in Dedup(s, DedupKey)
      ensures exists i :: 0 <= i < |s| && s[i] == t && DedupKey(t) !in KeysOf(s[..i], DedupKey)
    {
      DedupOnlyFirst(s, DedupKey, t);
    }
  }

  // ---------------------------------------------------------------------------
  // Selection
  // ---------------------------------------------------------------------------

  /**
   * The titles left after removing the play-all titles (on a TV disc) and the duplicates:
   * a sub-multiset of `eligible` with no two sharing duration and size.
   */
  function Screened(eligible: seq<Title>, tv: bool): (r: seq<Title>)
    ensures Subseq(r, eligible) && multiset(r) <= multiset(eligible)
    ensures DistinctBy(r, DedupKey)
    ensures tv ==> forall t :: t in r ==> !IsLikelyPlayAll(t, OthersOf(t, eligible))
    ensures !tv ==> r == Dedup(eligible, DedupKey)
  {
    ScreenedOrder(eligible, tv);
    ScreenedNoPlayAll(eligible, tv);
    DedupDistinct(if tv then WithoutPlayAll(eligible) else eligible, DedupKey);
    Dedup(if tv then WithoutPlayAll(eligible) else eligible, DedupKey)
  }

  lemma ScreenedOrder(eligible: seq<Title>, tv: bool)
    ensures var r := Dedup(if tv then WithoutPlayAll(eligible) else eligible, DedupKey);
      Subseq(r, eligible) && multiset(r) <= multiset(eligible)
  {
    var screened := if tv then WithoutPlayAll(eligible) else eligible;
    var r := Dedup(screened, DedupKey);
    DedupSubseq(screened, DedupKey);
    SubseqRefl(eligible);
    SubseqTrans(r, screened, eligible);
    SubseqMultiset(r, eligible);
  }

  lemma ScreenedNoPlayAll(eligible: seq<Title>, tv: bool)
    ensures var r := Dedup(if tv then WithoutPlayAll(eligible) else eligible, DedupKey);
      tv ==> forall t :: t in r ==> !IsLikelyPlayAll(t, OthersOf(t, eligible))
  {
    var screened := WithoutPlayAll(eligible);
    var r := Dedup(screened, DedupKey);
    DedupSubseq(screened, DedupKey);
    SubseqMultiset(r, screened);
    Members(r, screened);
  }

  /** The candidates left before the title limit: long enough, no play-all on a TV disc, no duplicates. */
  function Candidates(s: SelectorSettings, titles: seq<Title>, minDuration: Option<int>): (r: seq<Title>)
    ensures multiset(r) <= multiset(titles)
    ensures forall t :: t in r ==> t in titles && t.duration >= MinimumDuration(s, ClassifyDisc(titles), minDuration)
    ensures DistinctBy(r, DedupKey)
    ensures IsTv(ClassifyDisc(titles)) ==> forall t :: t in r ==>
      !IsLikelyPlayAll(t, OthersOf(t, LastingAtLeast(titles, MinimumDuration(s, ClassifyDisc(titles), minDuration))))
  {
    var c := ClassifyDisc(titles);
    var eligible := LastingAtLeast(titles, MinimumDuration(s, c, minDuration));
    var r := Screened(eligible, IsTv(c));
    Members(r, eligible);
    r
  }

  /**
   * Everything `select_titles` promises of its result `r`, as one predicate for the callers
   * that keep it: nothing from no titles; index order; drawn from the candidates without
   * repeating a duration and size; at most `max_titles`; all candidates when they fit,
   * otherwise the first `max_titles` of them, or on a movie disc the longest.
   */
  predicate Selection(s: SelectorSettings, titles: seq<Title>, minDuration: Option<int>, r: seq<Title>)
  {
    var d := Candidates(s, titles, minDuration);
    && (titles == [] ==> r == [])
    && SortedBy(r, Index)
    && multiset(r) <= multiset(d)
    && DistinctBy(r, DedupKey)
    && (s.maxTitles >= 0 ==> |r| <= s.maxTitles)
    && (|d| <= s.maxTitles ==> multiset(r) == multiset(d))
    && (|d| > s.maxTitles && ClassifyDisc(titles) != MovieDisc ==> multiset(r) == multiset(PyTake(d, s.maxTitles)))
    && (|d| > s.maxTitles && ClassifyDisc(titles) == MovieDisc ==>
          multiset(r) == multiset(PyTake(SortBy(d, NegDuration), s.maxTitles)))
  }

  /** With candidates left and room for at least one title, the selection is never empty. */
  lemma SelectionNonEmpty(s: SelectorSettings, titles: seq<Title>, minDuration: Option<int>, r: seq<Title>)
    requires Selection(s, titles, minDuration, r)
    requires Candidates(s, titles, minDuration) != [] && s.maxTitles >= 1
    ensures r != []
  {
    var d := Candidates(s, titles, minDuration);
    if |d| <= s.maxTitles {
      assert |multiset(r)| == |multiset(d)|;
    } else {
      var t := if ClassifyDisc(titles) == MovieDisc then PyTake(SortBy(d, NegDuration), s.maxTitles) else PyTake(d, s.maxTitles);
      assert |t| >= 1;
      assert |multiset(r)| == |multiset(t)|;
    }
  }

  /**
   * `select_titles`, with `min_duration` given as `minDuration`: in index order, the
   * candidates, cut down to `max_titles` when there are more: the longest ones on a movie
   * disc and the first ones otherwise.
   */
  method SelectTitles(s: SelectorSettings, titles: seq<Title>, minDuration: Option<int>) returns (r: seq<Title>)
    ensures titles == [] ==> r == []
    ensures SortedBy(r, Index)
    ensures multiset(r) <= multiset(Candidates(s, titles, minDuration))
    ensures DistinctBy(r, DedupKey)
    ensures s.maxTitles >= 0 ==> |r| <= s.maxTitles
    ensures var d := Candidates(s, titles, minDuration);
      |d| <= s.maxTitles ==> multiset(r) == multiset(d)
    ensures var d := Candidates(s, titles, minDuration);
      |d| > s.maxTitles && ClassifyDisc(titles) != MovieDisc ==> multiset(r) == multiset(PyTake(d, s.maxTitles))
    ensures var d := Candidates(s, titles, minDuration);
      |d| > s.maxTitles && ClassifyDisc(titles) == MovieDisc ==>
      multiset(r) == multiset(PyTake(SortBy(d, NegDuration), s.maxTitles))
    ensures Selection(s, titles, minDuration, r)
  {
    if titles == [] {
      return [];
    }
    var c := ClassifyDisc(titles);
    var minDur := MinimumDuration(s, c, minDuration);
    var candidates := LastingAtLeast(titles, minDur);
    if candidates == [] {
      return [];
    }
    if IsTv(c) {
      candidates := FilterPlayAll(candidates);
    }
    candidates := FilterDuplicates(candidates);
    ghost var d := candidates;
    assert d == Candidates(s, titles, minDuration);
    if |candidates| > s.maxTitles {
      if c == MovieDisc {
        candidates := SortBy(candidates, NegDuration);
      }
      candidates := PyTake(candidates, s.maxTitles);
    }
    r := SortBy(candidates, Index);
    Truncated(d, c == MovieDisc, s.maxTitles);
    DistinctBySub(r, d, DedupKey);
  }

  /** What cutting the candidates down leaves: a part of them, of at most `n` titles when `n >= 0`. */
  lemma Truncated(d: seq<Title>, movie: bool, n: int)
    ensures var kept := PyTake(if movie then SortBy(d, NegDuration) else d, n);
      multiset(kept) <= multiset(d) && (n >= 0 ==> |kept| <= n)
  {
    if movie {
      TakeSorted(d, NegDuration, n);
    } else {
      TakeSub(d, n);
    }
  }

  /** On a movie disc, the titles kept when cutting down are at least as long as those dropped. */
  lemma LongestKept(d: seq<Title>, n: int)
    ensures var kept := PyTake(SortBy(d, NegDuration), n);
      forall x, y :: x in kept && y in multiset(d) - multiset(kept) ==> y.duration <= x.duration
  {
    TakeSorted(d, NegDuration, n);
    var kept := PyTake(SortBy(d, NegDuration), n);
    forall x, y | x in kept && y in multiset(d) - multiset(kept)
      ensures y.duration <= x.duration
    {
      assert NegDuration(x) <= NegDuration(y);
    }
  }

  // ---------------------------------------------------------------------------
  // Main feature and episodes
  // ---------------------------------------------------------------------------

  /**
   * `get_main_feature`: nothing when no title reaches the movie minimum; otherwise the
   * longest such title with more than one audio track, or the longest one when none has.
   */
  method GetMainFeature(s: SelectorSettings, titles: seq<Title>) returns (r: Option<Title>)
    ensures r.None? <==> forall i :: 0 <= i < |titles| ==> titles[i].duration < s.minMovieDuration
    ensures r.Some? ==> r.value in titles && r.value.duration >= s.minMovieDuration
    ensures r.Some? && |r.value.audioTracks| > 1 ==>
      forall i :: 0 <= i < |titles| && titles[i].duration >= s.minMovieDuration && |titles[i].audioTracks| > 1 ==>
        titles[i].duration <= r.value.duration
    ensures r.Some? && |r.value.audioTracks| <= 1 ==>
      forall i :: 0 <= i < |titles| && titles[i].duration >= s.minMovieDuration ==>
        |titles[i].audioTracks| <= 1 && titles[i].duration <= r.value.duration
  {
    if titles == [] {
      return None;
    }
    var meaningful := LastingAtLeast(titles, s.minMovieDuration);
    if meaningful == [] {
      NoneLasting(titles, s.minMovieDuration);
      return None;
    }
    var candidates := SortBy(meaningful, NegDuration);
    SameMembers(candidates, meaningful);
    var k := FirstWithSeveralAudioTracks(candidates);
    MainFeaturePick(titles, s.minMovieDuration, candidates, k);
    return Some(candidates[k]);
  }

  /**
   * The loop of `get_main_feature` over the sorted candidates: the first one with more
   * than one audio track, else the first of all.
   */
  method FirstWithSeveralAudioTracks(cs: seq<Title>) returns (k: nat)
    requires cs != []
    ensures k < |cs|
    ensures forall j :: 0 <= j < k ==> |cs[j].audioTracks| <= 1
    ensures |cs[k].audioTracks| > 1 || (k == 0 && forall j :: 0 <= j < |cs| ==> |cs[j].audioTracks| <= 1)
  {
    for i := 0 to |cs|
      invariant forall j :: 0 <= j < i ==> |cs[j].audioTracks| <= 1
    {
      if |cs[i].audioTracks| > 1 {
        return i;
      }
    }
    return 0;
  }

  lemma NoneLasting(titles: seq<Title>, min: int)
    requires LastingAtLeast(titles, min) == []
    ensures forall i :: 0 <= i < |titles| ==> titles[i].duration < min
  {
    forall i | 0 <= i < |titles| ensures titles[i].duration < min {
      assert titles[i] !in LastingAtLeast(titles, min);
    }
  }

  /**
   * The candidate `get_main_feature` returns, at `k` in the titles of the minimum sorted
   * longest first: the first with several audio tracks, or the first of all when none has.
   */
  lemma MainFeaturePick(titles: seq<Title>, min: int, cs: seq<Title>, k: nat)
    requires SortedBy(cs, NegDuration) && k < |cs|
    requires forall t :: t in cs <==> t in titles && t.duration >= min
    requires forall j :: 0 <= j < k ==> |cs[j].audioTracks| <= 1
    requires |cs[k].audioTracks| > 1 || (k == 0 && forall j :: 0 <= j < |cs| ==> |cs[j].audioTracks| <= 1)
    ensures !forall i :: 0 <= i < |titles| ==> titles[i].duration < min
    ensures cs[k] in titles && cs[k].duration >= min
    ensures |cs[k].audioTracks| > 1 ==>
      forall i :: 0 <= i < |titles| && titles[i].duration >= min && |titles[i].audioTracks| > 1 ==>
        titles[i].duration <= cs[k].duration
    ensures |cs[k].audioTracks| <= 1 ==>
      forall i :: 0 <= i < |titles| && titles[i].duration >= min ==>
        |titles[i].audioTracks| <= 1 && titles[i].duration <= cs[k].duration
  {
    assert cs[k] in titles;
    forall i | 0 <= i < |titles| && titles[i].duration >= min
      ensures |titles[i].audioTracks| <= 1 || titles[i].duration <= cs[k].duration
      ensures |cs[k].audioTracks| <= 1 ==> |titles[i].audioTracks| <= 1 && titles[i].duration <= cs[k].duration
    {
      assert titles[i] in cs;
      var j :| 0 <= j < |cs| && cs[j] == titles[i];
      if k < j {
        assert NegDuration(cs[k]) <= NegDuration(cs[j]);
      }
    }
  }

  function EpisodeLength(titles: seq<Title>, minTv: int): (r: seq<Title>)
    ensures forall t :: t in r <==> t in titles && minTv <= t.duration < 3600
    ensures multiset(r) <= multiset(titles)
  {
    Filter(titles, (t: Title) => minTv <= t.duration < 3600)
  }

  /**
   * `get_episodes`: nothing unless the disc is a TV disc; otherwise, in index order, the
   * titles from the TV minimum up to an hour with play-all titles and duplicates removed.
   */
  method GetEpisodes(s: SelectorSettings, titles: seq<Title>) returns (r: seq<Title>)
    ensures !IsTv(ClassifyDisc(titles)) ==> r == []
    ensures IsTv(ClassifyDisc(titles)) ==> multiset(r) == multiset(Screened(EpisodeLength(titles, s.minTvDuration), true))
    ensures SortedBy(r, Index)
    ensures DistinctBy(r, DedupKey)
    ensures forall t :: t in r ==> t in titles && s.minTvDuration <= t.duration < 3600
    ensures forall t :: t in r ==> !IsLikelyPlayAll(t, OthersOf(t, EpisodeLength(titles, s.minTvDuration)))
  {
    var c := ClassifyDisc(titles);
    if !IsTv(c) {
      return [];
    }
    var episodes := EpisodeLength(titles, s.minTvDuration);
    ghost var lengthy := episodes;
    episodes := FilterPlayAll(episodes);
    episodes := FilterDuplicates(episodes);
    assert episodes == Screened(lengthy, true);
    r := SortBy(episodes, Index);
    Members(r, episodes);
    Members(episodes, lengthy);
    DistinctBySub(r, episodes, DedupKey);
  }
}
