/**
 * Title utilities (`riparr.core.title`): duration text in both directions, the two
 * heuristics that recognise a main feature and a "play all" concatenation, and the
 * grouping of titles of similar length.
 */
module CoreTitle {
  import opened Wrappers
  import opened Strings
  import opened Lists
  import opened CoreDisc

  // ---------------------------------------------------------------------------
  // Durations as text
  // ---------------------------------------------------------------------------

  /**
   * `parse_duration`: three `:`-separated parts are hours, minutes and seconds, two are
   * minutes and seconds, and otherwise only the first part is read. A part that is not an
   * integer raises `ValueError`.
   */
  function ParseDuration(text: string): Result<int>
  {
    DurationFromParts(Split(text, ':'))
  }

  function DurationFromParts(parts: seq<string>): Result<int>
    requires |parts| >= 1
  {
    if |parts| == 3 then
      var h, m, s := ParseInt(parts[0]), ParseInt(parts[1]), ParseInt(parts[2]);
      if h.None? || m.None? || s.None? then Err(NotAnInteger) else Ok(h.value * 3600 + m.value * 60 + s.value)
    else if |parts| == 2 then
      var m, s := ParseInt(parts[0]), ParseInt(parts[1]);
      if m.None? || s.None? then Err(NotAnInteger) else Ok(m.value * 60 + s.value)
    else
      var v := ParseInt(parts[0]);
      if v.None? then Err(NotAnInteger) else Ok(v.value)
  }

  const NotAnInteger := "ValueError: invalid literal for int()"

  /** `format_duration`: zero-padded hours, minutes below 60 and seconds below 60. */
  function FormatDuration(seconds: int): (r: string)
    ensures HmsOf(r, seconds)
  {
    HmsMeaning(seconds);
    Hms(seconds)
  }

  /** Formatting and parsing back a duration gives the same number of seconds, negative or not. */
  lemma ParseFormatRoundTrip(seconds: int)
    ensures ParseDuration(FormatDuration(seconds)) == Ok(seconds)
  {
    ParseHms(FormatDuration(seconds), seconds);
  }

  lemma ParseHms(r: string, seconds: int)
    requires HmsValue(r, seconds)
    ensures ParseDuration(r) == Ok(seconds)
  {
    var f := Split(r, ':');
    ParseThreeParts(f, ParseInt(f[0]).value, ParseInt(f[1]).value, ParseInt(f[2]).value);
  }

  lemma ParseThreeParts(parts: seq<string>, h: int, m: int, s: int)
    requires |parts| == 3 && ParseInt(parts[0]) == Some(h) && ParseInt(parts[1]) == Some(m)
    requires ParseInt(parts[2]) == Some(s)
    ensures DurationFromParts(parts) == Ok(h * 3600 + m * 60 + s)
  {
  }

  /** Two parts read as minutes and seconds: "M:SS" of `m` minutes and `s < 60` seconds. */
  lemma ParseMinutesSeconds(m: nat, s: nat)
    requires s < 60
    ensures ParseDuration(NatToString(m) + ":" + Pad2(s)) == Ok(m * 60 + s)
  {
    var parts := [NatToString(m), Pad2(s)];
    MinutesSecondsFields(m, s);
    ParseTwoParts(parts, m, s);
  }

  lemma MinutesSecondsFields(m: nat, s: nat)
    ensures Split(NatToString(m) + ":" + Pad2(s), ':') == [NatToString(m), Pad2(s)]
    ensures ParseInt(NatToString(m)) == Some(m) && ParseInt(Pad2(s)) == Some(s)
  {
    var ms, ss := NatToString(m), Pad2(s);
    IntToStringRoundTrip(m);
    assert ':' !in ms by {
      assert AllDigits(ms);
    }
    SplitTwo(ms, ss, ':');
  }

  lemma ParseTwoParts(parts: seq<string>, m: int, s: int)
    requires |parts| == 2 && ParseInt(parts[0]) == Some(m) && ParseInt(parts[1]) == Some(s)
    ensures DurationFromParts(parts) == Ok(m * 60 + s)
  {
  }

  // ---------------------------------------------------------------------------
  // Heuristics
  // ---------------------------------------------------------------------------

  /** `max(t.duration for t in ts)`. */
  function MaxDuration(ts: seq<Title>): (r: int)
    requires |ts| > 0
    ensures forall i :: 0 <= i < |ts| ==> ts[i].duration <= r
    ensures exists i :: 0 <= i < |ts| && ts[i].duration == r
  {
    if |ts| == 1 then ts[0].duration
    else
      var m := MaxDuration(ts[1..]);
      assert forall i :: 1 <= i < |ts| ==> ts[i] == ts[1..][i - 1];
      if ts[0].duration >= m then ts[0].duration else m
  }

  /**
   * `is_likely_main_feature`: the longest title qualifies, and so does one reaching 90% of
   * the longest that has more than one audio track or at least ten chapters. The 90%
   * comparison is stated exactly, as `10 * d >= 9 * max`.
   */
  predicate IsLikelyMainFeature(t: Title, all: seq<Title>)
  {
    |all| > 0 &&
    var longest := MaxDuration(all);
    t.duration == longest ||
    (10 * t.duration >= 9 * longest && (|t.audioTracks| > 1 || t.chapters >= 10))
  }

  /** A longest title always qualifies; one below 90% of the longest never does. */
  lemma MainFeatureBounds(t: Title, all: seq<Title>)
    requires |all| > 0
    ensures t.duration == MaxDuration(all) ==> IsLikelyMainFeature(t, all)
    ensures 0 <= MaxDuration(all) && 10 * t.duration < 9 * MaxDuration(all) ==> !IsLikelyMainFeature(t, all)
    ensures exists i :: 0 <= i < |all| && IsLikelyMainFeature(all[i], all)
  {
    var i :| 0 <= i < |all| && all[i].duration == MaxDuration(all);
    assert IsLikelyMainFeature(all[i], all);
  }

  /** The other titles strictly shorter than `t`, not counting one with `t`'s own index. */
  function Shorter(t: Title, others: seq<Title>): (r: seq<Title>)
    ensures forall i :: 0 <= i < |r| ==> r[i].duration < t.duration && r[i].index != t.index && r[i] in others
  {
    Filter(others, (o: Title) => o.duration < t.duration && o.index != t.index)
  }

  function Abs(x: int): nat { if x < 0 then -x else x }

  /**
   * `is_likely_play_all`: at least two shorter titles, and either the duration is within 5%
   * of their sum (stated exactly, as `20 * |d - sum| <= sum`) or the segment count, above
   * one, equals their number.
   */
  predicate IsLikelyPlayAll(t: Title, others: seq<Title>)
  {
    |others| > 0 &&
    var shorter := Shorter(t, others);
    |shorter| >= 2 &&
    var total := SumDurations(shorter);
    (20 * Abs(t.duration - total) <= total || (t.segmentCount > 1 && t.segmentCount == |shorter|))
  }

  /**
   * The play-all test needs two strictly shorter titles, and it accepts a title that lasts
   * exactly as long as all the shorter ones together when their total is not negative.
   */
  lemma PlayAllBounds(t: Title, others: seq<Title>)
    ensures IsLikelyPlayAll(t, others) ==> |Shorter(t, others)| >= 2
    ensures |Shorter(t, others)| >= 2 && t.duration == SumDurations(Shorter(t, others)) >= 0 ==>
      IsLikelyPlayAll(t, others)
    ensures (forall i :: 0 <= i < |others| ==> others[i].duration >= t.duration) ==> !IsLikelyPlayAll(t, others)
  {
  }

  // ---------------------------------------------------------------------------
  // Grouping by duration
  // ---------------------------------------------------------------------------

  function Duration(t: Title): int { t.duration }

  /**
   * The grouping of an already sorted run: `cur` is the group being built, and a title
   * joins it while it is within `tol` of the group's first title.
   */
  function GroupsFrom(cur: seq<Title>, rest: seq<Title>, tol: int): (r: seq<seq<Title>>)
    requires |cur| > 0
    ensures |r| > 0
    decreases |rest|
  {
    if rest == [] then [cur]
    else if rest[0].duration - cur[0].duration <= tol then GroupsFrom(cur + [rest[0]], rest[1..], tol)
    else [cur] + GroupsFrom([rest[0]], rest[1..], tol)
  }

  /** What `group_by_duration(titles, tol)` returns. */
  function Grouping(titles: seq<Title>, tol: int): seq<seq<Title>>
  {
    if titles == [] then []
    else
      var sorted := SortBy(titles, Duration);
      GroupsFrom([sorted[0]], sorted[1..], tol)
  }

  /** `group_by_duration`: sorts by duration, then starts a new group whenever a title is more than `tol` past the current group's first. */
  method GroupByDuration(titles: seq<Title>, tol: int) returns (groups: seq<seq<Title>>)
    ensures groups == Grouping(titles, tol)
  {
    if titles == [] {
      return [];
    }
    var sorted := SortBy(titles, Duration);
    groups := [];
    var current := [sorted[0]];
    for i := 1 to |sorted|
      invariant |current| > 0
      invariant groups + GroupsFrom(current, sorted[i..], tol) == GroupsFrom([sorted[0]], sorted[1..], tol)
    {
      var t := sorted[i];
      GroupsFromStep(current, sorted, i, tol);
      if t.duration - current[0].duration <= tol {
        current := current + [t];
      } else {
        AppendAssoc(groups, [current], GroupsFrom([t], sorted[i + 1..], tol));
        groups := groups + [current];
        current := [t];
      }
    }
    assert sorted[|sorted|..] == [];
    groups := groups + [current];
  }

  /** One title further into the sorted run: it joins the group, or closes it and starts the next. */
  lemma GroupsFromStep(cur: seq<Title>, sorted: seq<Title>, i: nat, tol: int)
    requires |cur| > 0 && 0 < i < |sorted|
    ensures sorted[i].duration - cur[0].duration <= tol ==>
      GroupsFrom(cur, sorted[i..], tol) == GroupsFrom(cur + [sorted[i]], sorted[i + 1..], tol)
    ensures sorted[i].duration - cur[0].duration > tol ==>
      GroupsFrom(cur, sorted[i..], tol) == [cur] + GroupsFrom([sorted[i]], sorted[i + 1..], tol)
  {
    assert sorted[i..][1..] == sorted[i + 1..];
  }

  function Flatten(gs: seq<seq<Title>>): seq<Title>
  {
    if gs == [] then [] else gs[0] + Flatten(gs[1..])
  }

  /** The invariant of a group under construction, given the run still to come. */
  predicate GroupState(cur: seq<Title>, rest: seq<Title>, tol: int)
  {
    |cur| > 0 &&
    SortedBy(cur + rest, Duration) &&
    forall i :: 0 < i < |cur| ==> cur[i].duration - cur[0].duration <= tol
  }

  /** A group is non-empty, no title in it precedes its first, and the later ones are within `tol` of it. */
  predicate WellFormedGroup(g: seq<Title>, tol: int)
  {
    |g| > 0 &&
    forall i :: 0 <= i < |g| ==> 0 <= g[i].duration - g[0].duration && (i > 0 ==> g[i].duration - g[0].duration <= tol)
  }

  predicate WellGrouped(gs: seq<seq<Title>>, tol: int)
  {
    forall k :: 0 <= k < |gs| ==> WellFormedGroup(gs[k], tol)
  }

  /** Group `k + 1` starts more than `tol` after group `k`. */
  predicate StartsApart(gs: seq<seq<Title>>, k: int, tol: int)
    requires 0 <= k < |gs| - 1
  {
    |gs[k]| > 0 && |gs[k + 1]| > 0 && gs[k + 1][0].duration - gs[k][0].duration > tol
  }

  /** Consecutive groups start more than `tol` apart. */
  predicate Separated(gs: seq<seq<Title>>, tol: int)
  {
    forall k :: 0 <= k < |gs| - 1 ==> StartsApart(gs, k, tol)
  }

  lemma {:induction false} GroupsFromFlatten(cur: seq<Title>, rest: seq<Title>, tol: int)
    requires |cur| > 0
    ensures Flatten(GroupsFrom(cur, rest, tol)) == cur + rest
    decreases |rest|
  {
    if rest != [] {
      if rest[0].duration - cur[0].duration <= tol {
        GroupsFromFlatten(cur + [rest[0]], rest[1..], tol);
        assert cur + [rest[0]] + rest[1..] == cur + rest;
      } else {
        var tail := GroupsFrom([rest[0]], rest[1..], tol);
        GroupsFromFlatten([rest[0]], rest[1..], tol);
        assert ([cur] + tail)[1..] == tail;
        assert [rest[0]] + rest[1..] == rest;
      }
    } else {
      assert Flatten([cur]) == cur + Flatten([]);
    }
  }

  lemma {:induction false} GroupsFromFirst(cur: seq<Title>, rest: seq<Title>, tol: int)
    requires |cur| > 0
    ensures |GroupsFrom(cur, rest, tol)[0]| > 0 && GroupsFrom(cur, rest, tol)[0][0] == cur[0]
    decreases |rest|
  {
    if rest != [] && rest[0].duration - cur[0].duration <= tol {
      GroupsFromFirst(cur + [rest[0]], rest[1..], tol);
    }
  }

  lemma {:induction false} GroupsFromSeparated(cur: seq<Title>, rest: seq<Title>, tol: int)
    requires |cur| > 0
    ensures Separated(GroupsFrom(cur, rest, tol), tol)
    decreases |rest|
  {
    if rest != [] {
      var x := rest[0];
      if x.duration - cur[0].duration <= tol {
        GroupsFromSeparated(cur + [x], rest[1..], tol);
      } else {
        var tail: seq<seq<Title>> := GroupsFrom([x], rest[1..], tol);
        GroupsFromSeparated([x], rest[1..], tol);
        GroupsFromFirst([x], rest[1..], tol);
        var r: seq<seq<Title>> := [cur] + tail;
        forall k | 0 <= k < |r| - 1
          ensures StartsApart(r, k, tol)
        {
          if k > 0 {
            assert r[k] == tail[k - 1] && r[k + 1] == tail[k];
            assert StartsApart(tail, k - 1, tol);
          }
        }
      }
    }
  }

  /** The group just closed is well formed: sortedness gives the lower bound, the join test the upper one. */
  lemma ClosedGroup(cur: seq<Title>, rest: seq<Title>, tol: int)
    requires GroupState(cur, rest, tol)
    ensures WellFormedGroup(cur, tol)
  {
    forall i | 0 <= i < |cur|
      ensures 0 <= cur[i].duration - cur[0].duration
    {
      var whole := cur + rest;
      assert whole[0] == cur[0] && whole[i] == cur[i];
      if i > 0 {
        assert Duration(whole[0]) <= Duration(whole[i]);
      }
    }
  }

  lemma NextGroupState(cur: seq<Title>, rest: seq<Title>, tol: int)
    requires GroupState(cur, rest, tol) && |rest| > 0
    ensures rest[0].duration - cur[0].duration <= tol ==> GroupState(cur + [rest[0]], rest[1..], tol)
    ensures GroupState([rest[0]], rest[1..], tol)
  {
    var whole := cur + rest;
    assert (cur + [rest[0]]) + rest[1..] == whole;
    assert [rest[0]] + rest[1..] == rest;
    forall i, j | 0 <= i < j < |rest|
      ensures Duration(rest[i]) <= Duration(rest[j])
    {
      assert rest[i] == whole[|cur| + i] && rest[j] == whole[|cur| + j];
    }
  }

  lemma {:induction false} GroupsFromWellGrouped(cur: seq<Title>, rest: seq<Title>, tol: int)
    requires GroupState(cur, rest, tol)
    ensures WellGrouped(GroupsFrom(cur, rest, tol), tol)
    decreases |rest|
  {
    ClosedGroup(cur, rest, tol);
    if rest != [] {
      var x := rest[0];
      NextGroupState(cur, rest, tol);
      if x.duration - cur[0].duration <= tol {
        GroupsFromWellGrouped(cur + [x], rest[1..], tol);
      } else {
        GroupsFromWellGrouped([x], rest[1..], tol);
        var tail: seq<seq<Title>> := GroupsFrom([x], rest[1..], tol);
        var r: seq<seq<Title>> := [cur] + tail;
        forall k | 0 <= k < |r|
          ensures WellFormedGroup(r[k], tol)
        {
          if k > 0 {
            assert r[k] == tail[k - 1];
          }
        }
      }
    }
  }

  /**
   * The groups of `group_by_duration`, put back together, are the titles sorted by
   * duration; each group is non-empty, none of its titles is shorter than its first, and
   * the later ones are within `tol` of it; and consecutive groups start more than `tol`
   * apart. There are no groups exactly when there are no titles.
   */
  lemma GroupingProperties(titles: seq<Title>, tol: int)
    ensures Flatten(Grouping(titles, tol)) == SortBy(titles, Duration)
    ensures WellGrouped(Grouping(titles, tol), tol)
    ensures Separated(Grouping(titles, tol), tol)
    ensures Grouping(titles, tol) == [] <==> titles == []
  {
    if titles != [] {
      var sorted := SortBy(titles, Duration);
      assert [sorted[0]] + sorted[1..] == sorted;
      GroupsFromFlatten([sorted[0]], sorted[1..], tol);
      GroupsFromWellGrouped([sorted[0]], sorted[1..], tol);
      GroupsFromSeparated([sorted[0]], sorted[1..], tol);
    }
  }

  /** Flattening keeps the total number of titles. */
  lemma {:induction false} FlattenLength(gs: seq<seq<Title>>)
    ensures |Flatten(gs)| == SumLengths(gs)
    ensures forall g :: g in gs ==> |g| <= |Flatten(gs)|
  {
    if gs != [] {
      FlattenLength(gs[1..]);
      forall g | g in gs ensures |g| <= |Flatten(gs)| {
        if g != gs[0] {
          assert g in gs[1..];
        }
      }
    }
  }

  function SumLengths(gs: seq<seq<Title>>): nat
  {
    if gs == [] then 0 else |gs[0]| + SumLengths(gs[1..])
  }

  /** `len(max(groups, key=len))`, the size of a largest group (0 when there are none). */
  function LargestGroupSize(gs: seq<seq<Title>>): (r: nat)
    ensures forall g :: g in gs ==> |g| <= r
    ensures gs != [] ==> exists g :: g in gs && |g| == r
  {
    if gs == [] then 0
    else
      var m := LargestGroupSize(gs[1..]);
      assert forall g :: g in gs[1..] ==> g in gs;
      assert forall g :: g in gs ==> g == gs[0] || g in gs[1..];
      if |gs[0]| >= m then |gs[0]| else m
  }

  /** No group of a grouping is larger than the number of titles grouped. */
  lemma LargestGroupAtMost(titles: seq<Title>, tol: int)
    ensures LargestGroupSize(Grouping(titles, tol)) <= |titles|
  {
    var gs := Grouping(titles, tol);
    GroupingProperties(titles, tol);
    FlattenLength(gs);
    if gs != [] {
      var g :| g in gs && |g| == LargestGroupSize(gs);
    }
  }
}
