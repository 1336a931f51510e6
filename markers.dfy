/**
 * The marker-file store of `riparr.queue.markers`: beside each raw `.mkv` under the base
 * directory sit up to four marker files, `<file>.ready`, `.transcoding`, `.failed` and
 * `.complete`, whose JSON body records the status, the creation time, the media path and
 * optional metadata and error. The directory is a value: the `.mkv` files in the order a
 * recursive listing finds them, their sizes, and a map from (media path, status) to the
 * marker file in that slot. Creating a marker first removes all four, so at most one slot
 * is filled, and that is proved rather than assumed.
 */
module Markers {
  import opened Wrappers
  import opened Lists

  datatype MarkerStatus = Ready | Transcoding | Failed | Complete

  /** The order `get_status` and `remove_markers` visit the slots in. */
  const Order: seq<MarkerStatus> := [Ready, Transcoding, Failed, Complete]

  lemma OrderComplete(s: MarkerStatus)
    ensures s in Order
  {
  }

  function StatusName(s: MarkerStatus): string
  {
    match s
    case Ready => "ready"
    case Transcoding => "transcoding"
    case Failed => "failed"
    case Complete => "complete"
  }

  /** The marker file's suffix, appended to the media file's own name. */
  function Suffix(s: MarkerStatus): string
  {
    "." + StatusName(s)
  }

  /** The marker path of a slot. */
  function MarkerPath(f: string, s: MarkerStatus): string
  {
    f + Suffix(s)
  }

  /** Different slots of one file are different files: the suffix spells the status. */
  lemma MarkerPathsDistinct(f: string, s: MarkerStatus, t: MarkerStatus)
    requires s != t
    ensures MarkerPath(f, s) != MarkerPath(f, t)
  {
  }

  /** A metadata value: a string, an integer or null. */
  datatype MetaValue = Text(text: string) | Number(n: int) | Null

  type Metadata = map<string, MetaValue>

  /**
   * The JSON body of a marker. `createdAt` is None when the stored `created_at` is missing
   * or not an ISO timestamp.
   */
  datatype MarkerData = MarkerData(
    status: string,
    createdAt: Option<int>,
    mkvPath: string,
    metadata: Option<Metadata>,
    error: Option<string>)

  /** A marker file: its modification time and its body, None when it is not valid JSON. */
  datatype MarkerFile = MarkerFile(mtime: int, data: Option<MarkerData>)

  type Slots = map<(string, MarkerStatus), MarkerFile>

  // ---------------------------------------------------------------------------
  // Slots of one file
  // ---------------------------------------------------------------------------

  /** `get_status`: the first filled slot in `Order`, or None. */
  function StatusOf(m: Slots, f: string): (r: Option<MarkerStatus>)
    ensures r.None? <==> forall s :: (f, s) !in m
    ensures r.Some? ==> (f, r.value) in m
    ensures r == Some(Transcoding) ==> (f, Ready) !in m
    ensures r == Some(Failed) ==> (f, Ready) !in m && (f, Transcoding) !in m
    ensures r == Some(Complete) ==> (f, Ready) !in m && (f, Transcoding) !in m && (f, Failed) !in m
  {
    if (f, Ready) in m then Some(Ready)
    else if (f, Transcoding) in m then Some(Transcoding)
    else if (f, Failed) in m then Some(Failed)
    else if (f, Complete) in m then Some(Complete)
    else
      assert forall s :: (f, s) !in m by {
        forall s ensures (f, s) !in m {
          OrderComplete(s);
        }
      }
      None
  }

  /** At most one slot of `f` is filled. */
  predicate Exclusive(m: Slots, f: string)
  {
    forall s, t :: (f, s) in m && (f, t) in m ==> s == t
  }

  /** When one slot is filled, `get_status` names it. */
  lemma ExclusiveStatus(m: Slots, f: string, s: MarkerStatus)
    requires Exclusive(m, f) && (f, s) in m
    ensures StatusOf(m, f) == Some(s)
  {
  }

  /** Every other file keeps exactly its slots. */
  predicate OthersUnchanged(m: Slots, m': Slots, f: string)
  {
    (forall k :: k in m' && k.0 != f ==> k in m && m'[k] == m[k]) &&
    (forall k :: k in m && k.0 != f ==> k in m')
  }

  /** `remove_markers` on the slots: every marker of `f` gone. */
  function Without(m: Slots, f: string): (r: Slots)
    ensures forall s :: (f, s) !in r
    ensures OthersUnchanged(m, r, f)
    ensures StatusOf(r, f).None?
  {
    map k | k in m && k.0 != f :: m[k]
  }

  /** Removing twice is removing once. */
  lemma WithoutIdempotent(m: Slots, f: string)
    ensures Without(Without(m, f), f) == Without(m, f)
  {
    var once := Without(m, f);
    assert forall k :: k in once ==> k.0 != f;
  }

  /** The stored metadata: written only when it is a non-empty map. */
  function StoredMetadata(metadata: Option<Metadata>): (r: Option<Metadata>)
    ensures r.Some? ==> r == metadata && r.value != map[]
    ensures metadata.Some? && metadata.value != map[] ==> r == metadata
  {
    if metadata.Some? && metadata.value != map[] then metadata else None
  }

  /** The stored error: written only when it is a non-empty string. */
  function StoredError(error: Option<string>): (r: Option<string>)
    ensures r.Some? ==> r == error && r.value != ""
    ensures error.Some? && error.value != "" ==> r == error
  {
    if error.Some? && error.value != "" then error else None
  }

  /** The body `create_marker` writes. */
  function NewMarker(f: string, s: MarkerStatus, metadata: Option<Metadata>, error: Option<string>, now: int): MarkerFile
  {
    MarkerFile(now, Some(MarkerData(StatusName(s), Some(now), f, StoredMetadata(metadata), StoredError(error))))
  }

  /** `create_marker` on the slots. */
  function Created(m: Slots, f: string, s: MarkerStatus, metadata: Option<Metadata>, error: Option<string>, now: int): Slots
  {
    Without(m, f)[(f, s) := NewMarker(f, s, metadata, error, now)]
  }

  /** After `create_marker(f, s)` the slot of `s` is the only one of `f`, and other files are untouched. */
  lemma CreatedMeaning(m: Slots, f: string, s: MarkerStatus, metadata: Option<Metadata>, error: Option<string>, now: int)
    ensures var c := Created(m, f, s, metadata, error, now);
      (forall t :: (f, t) in c <==> t == s) && Exclusive(c, f) && StatusOf(c, f) == Some(s) &&
      OthersUnchanged(m, c, f)
  {
    var c := Created(m, f, s, metadata, error, now);
    assert (f, s) in c;
    ExclusiveStatus(c, f, s);
  }

  /** The metadata a marker file yields when read back. */
  function MetadataOf(file: MarkerFile): Option<Metadata>
  {
    if file.data.Some? then file.data.value.metadata else None
  }

  /** `update_status` on the slots: nothing without a marker, else a new marker keeping the metadata. */
  function Updated(m: Slots, f: string, s: MarkerStatus, error: Option<string>, now: int): Slots
  {
    match StatusOf(m, f)
    case None => m
    case Some(cur) => Created(m, f, s, MetadataOf(m[(f, cur)]), error, now)
  }

  /**
   * `update_status(f, s)`: on a file without a marker nothing changes; otherwise `s` is the
   * status afterwards, the metadata read from the current marker is carried over and the
   * error is only the new argument.
   */
  lemma UpdatedMeaning(m: Slots, f: string, s: MarkerStatus, error: Option<string>, now: int)
    ensures StatusOf(m, f).None? ==> Updated(m, f, s, error, now) == m
    ensures StatusOf(m, f).Some? ==>
      var u := Updated(m, f, s, error, now);
      StatusOf(u, f) == Some(s) && Exclusive(u, f) && OthersUnchanged(m, u, f) &&
      MetadataOf(u[(f, s)]) == StoredMetadata(MetadataOf(m[(f, StatusOf(m, f).value)])) &&
      u[(f, s)].data.value.error == StoredError(error)
  {
    if StatusOf(m, f).Some? {
      CreatedMeaning(m, f, s, MetadataOf(m[(f, StatusOf(m, f).value)]), error, now);
    }
  }

  /** Metadata written by `create_marker` survives any number of status updates unchanged. */
  lemma UpdateAfterCreate(m: Slots, f: string, s: MarkerStatus, t: MarkerStatus, metadata: Option<Metadata>,
                          e1: Option<string>, e2: Option<string>, now1: int, now2: int)
    ensures var u := Updated(Created(m, f, s, metadata, e1, now1), f, t, e2, now2);
      StatusOf(u, f) == Some(t) && MetadataOf(u[(f, t)]) == StoredMetadata(metadata)
  {
    var c := Created(m, f, s, metadata, e1, now1);
    CreatedMeaning(m, f, s, metadata, e1, now1);
    UpdatedMeaning(c, f, t, e2, now2);
  }

  /** Every file has at most one marker. */
  predicate AllExclusive(m: Slots)
  {
    forall k, s :: k in m && (k.0, s) in m ==> k.1 == s
  }

  lemma CreatedKeepsAllExclusive(m: Slots, f: string, s: MarkerStatus, metadata: Option<Metadata>, error: Option<string>, now: int)
    requires AllExclusive(m)
    ensures AllExclusive(Created(m, f, s, metadata, error, now))
  {
    var c := Created(m, f, s, metadata, error, now);
    CreatedMeaning(m, f, s, metadata, error, now);
    forall k, t | k in c && (k.0, t) in c ensures k.1 == t {
      if k.0 != f {
        assert k in m && (k.0, t) in m;
      }
    }
  }

  lemma UpdatedKeepsAllExclusive(m: Slots, f: string, s: MarkerStatus, error: Option<string>, now: int)
    requires AllExclusive(m)
    ensures AllExclusive(Updated(m, f, s, error, now))
  {
    if StatusOf(m, f).Some? {
      CreatedKeepsAllExclusive(m, f, s, MetadataOf(m[(f, StatusOf(m, f).value)]), error, now);
    }
  }

  // ---------------------------------------------------------------------------
  // Listing
  // ---------------------------------------------------------------------------

  /** What `list_jobs` reports of one media file. */
  datatype JobInfo = JobInfo(
    name: string,
    path: string,
    status: MarkerStatus,
    sizeBytes: nat,
    createdAt: int,
    error: Option<string>,
    metadata: Option<Metadata>)

  /** The last component of a path. */
  function BaseName(p: string): (r: string)
    ensures '/' !in r
    decreases |p|
  {
    if p == [] then []
    else if p[|p| - 1] == '/' then []
    else BaseName(p[..|p| - 1]) + [p[|p| - 1]]
  }

  /** The index of the last `.` of a name, if any. */
  function LastDot(name: string): (r: Option<nat>)
    ensures r.Some? ==> r.value < |name| && name[r.value] == '.'
    ensures r.Some? ==> forall i :: r.value < i < |name| ==> name[i] != '.'
    ensures r.None? ==> '.' !in name
    decreases |name|
  {
    if name == [] then None
    else if name[|name| - 1] == '.' then Some(|name| - 1)
    else LastDot(name[..|name| - 1])
  }

  /** `Path.stem`: the name without its last suffix; a leading or trailing dot is not a suffix. */
  function Stem(p: string): (r: string)
    ensures '/' !in r
    ensures |r| <= |BaseName(p)| && r == BaseName(p)[..|r|]
  {
    var name := BaseName(p);
    match LastDot(name)
    case Some(i) => if 0 < i < |name| - 1 then name[..i] else name
    case None => name
  }

  lemma StemOfMkv(dir: string, stem: string)
    requires stem != [] && '/' !in stem
    ensures Stem(dir + "/" + stem + ".mkv") == stem
  {
    var p := dir + "/" + stem + ".mkv";
    BaseNameAfterSlash(dir, stem + ".mkv");
    assert p == dir + "/" + (stem + ".mkv");
    var name := stem + ".mkv";
    assert LastDot(name) == LastDot(stem + ".mk") by {
      assert name[|name| - 1] == 'v' && name[..|name| - 1] == stem + ".mk";
    }
    assert LastDot(stem + ".mk") == LastDot(stem + ".m") by {
      assert (stem + ".mk")[|stem| + 2] == 'k' && (stem + ".mk")[..|stem| + 2] == stem + ".m";
    }
    assert LastDot(stem + ".m") == LastDot(stem + ".") by {
      assert (stem + ".m")[|stem| + 1] == 'm' && (stem + ".m")[..|stem| + 1] == stem + ".";
    }
    assert (stem + ".")[|stem|] == '.';
  }

  lemma {:induction false} BaseNameAfterSlash(dir: string, tail: string)
    requires '/' !in tail
    ensures BaseName(dir + "/" + tail) == tail
    decreases |tail|
  {
    var p := dir + "/" + tail;
    if tail == [] {
      assert p[|p| - 1] == '/';
    } else {
      assert p[..|p| - 1] == dir + "/" + tail[..|tail| - 1];
      BaseNameAfterSlash(dir, tail[..|tail| - 1]);
      assert tail == tail[..|tail| - 1] + [tail[|tail| - 1]];
    }
  }

  /** `status_filter`: none, or the empty string, lets every status through. */
  predicate Matches(filter: Option<string>, s: MarkerStatus)
  {
    filter.None? || filter.value == "" || filter.value == StatusName(s)
  }

  /** The size of a media file; a file that vanished counts as 0 bytes. */
  function SizeOf(sizes: map<string, nat>, f: string): nat
  {
    if f in sizes then sizes[f] else 0
  }

  /**
   * One listed job. A marker that is not valid JSON, or whose `created_at` does not parse,
   * is dated by its modification time and yields neither error nor metadata.
   */
  function ReadInfo(f: string, s: MarkerStatus, file: MarkerFile, size: nat): (r: JobInfo)
    ensures r.path == f && r.status == s && r.sizeBytes == size && r.name == Stem(f)
  {
    match file.data
    case Some(d) =>
      if d.createdAt.Some? then JobInfo(Stem(f), f, s, size, d.createdAt.value, d.error, d.metadata)
      else JobInfo(Stem(f), f, s, size, file.mtime, None, None)
    case None => JobInfo(Stem(f), f, s, size, file.mtime, None, None)
  }

  /** A media file `list_jobs` reports under the filter: it has a marker whose status passes. */
  predicate Listable(m: Slots, filter: Option<string>, f: string)
  {
    StatusOf(m, f).Some? && Matches(filter, StatusOf(m, f).value)
  }

  function Entry(m: Slots, sizes: map<string, nat>, f: string): JobInfo
    requires StatusOf(m, f).Some?
  {
    var s := StatusOf(m, f).value;
    ReadInfo(f, s, m[(f, s)], SizeOf(sizes, f))
  }

  /** The jobs in listing order, before sorting. */
  function Collected(media: seq<string>, m: Slots, sizes: map<string, nat>, filter: Option<string>): (r: seq<JobInfo>)
    ensures |r| <= |media|
    ensures forall i :: 0 <= i < |r| ==> r[i].path in media && Listable(m, filter, r[i].path) && r[i] == Entry(m, sizes, r[i].path)
    ensures forall f :: f in media && Listable(m, filter, f) ==> Entry(m, sizes, f) in r
    decreases |media|
  {
    if media == [] then []
    else
      var init := media[..|media| - 1];
      var f := media[|media| - 1];
      assert media == init + [f];
      Collected(init, m, sizes, filter) + (if Listable(m, filter, f) then [Entry(m, sizes, f)] else [])
  }

  const ByCreated: JobInfo -> int := (j: JobInfo) => j.createdAt

  /** `list_jobs`: the collected jobs, sorted by creation time (stably). */
  function Listing(media: seq<string>, m: Slots, sizes: map<string, nat>, filter: Option<string>): seq<JobInfo>
  {
    SortBy(Collected(media, m, sizes, filter), ByCreated)
  }

  /**
   * The listing holds exactly the media files with a marker whose status passes the filter,
   * each with what its marker says, oldest first.
   */
  lemma ListingMeaning(media: seq<string>, m: Slots, sizes: map<string, nat>, filter: Option<string>)
    ensures var r := Listing(media, m, sizes, filter);
      SortedBy(r, ByCreated) && |r| <= |media| &&
      (forall x :: x in r ==> x.path in media && Listable(m, filter, x.path) && x == Entry(m, sizes, x.path)) &&
      (forall f :: f in media && Listable(m, filter, f) ==> Entry(m, sizes, f) in r)
  {
    var c := Collected(media, m, sizes, filter);
    SameMembers(Listing(media, m, sizes, filter), c);
    forall x | x in c ensures x.path in media && Listable(m, filter, x.path) && x == Entry(m, sizes, x.path) {
      var i :| 0 <= i < |c| && c[i] == x;
    }
  }

  /** The paths of a listing, in its order. */
  function Paths(jobs: seq<JobInfo>): (r: seq<string>)
    ensures |r| == |jobs| && forall i :: 0 <= i < |jobs| ==> r[i] == jobs[i].path
  {
    seq(|jobs|, i requires 0 <= i < |jobs| => jobs[i].path)
  }

  /** The index of the first job with the name. */
  function FirstNamed(jobs: seq<JobInfo>, name: string): (r: Option<nat>)
    ensures r.None? <==> forall i :: 0 <= i < |jobs| ==> jobs[i].name != name
    ensures r.Some? ==> r.value < |jobs| && jobs[r.value].name == name
    ensures r.Some? ==> forall k :: 0 <= k < r.value ==> jobs[k].name != name
    decreases |jobs|
  {
    if jobs == [] then None
    else if jobs[0].name == name then Some(0)
    else
      match FirstNamed(jobs[1..], name)
      case None => None
      case Some(k) => Some(k + 1)
  }

  /** Updating each path in turn. */
  function UpdatedAll(m: Slots, ps: seq<string>, s: MarkerStatus, now: int): Slots
    decreases |ps|
  {
    if ps == [] then m else Updated(UpdatedAll(m, ps[..|ps| - 1], s, now), ps[|ps| - 1], s, None, now)
  }

  lemma UpdatedAllSnoc(m: Slots, ps: seq<string>, s: MarkerStatus, now: int, i: int)
    requires 0 <= i < |ps|
    ensures UpdatedAll(m, ps[..i + 1], s, now) == Updated(UpdatedAll(m, ps[..i], s, now), ps[i], s, None, now)
  {
    assert ps[..i + 1][..i] == ps[..i];
  }

  /** Each path with a marker ends with status `s`; every other file keeps its status. */
  lemma {:induction false} UpdatedAllStatus(m: Slots, ps: seq<string>, s: MarkerStatus, now: int, f: string)
    ensures StatusOf(UpdatedAll(m, ps, s, now), f) == if f in ps && StatusOf(m, f).Some? then Some(s) else StatusOf(m, f)
    decreases |ps|
  {
    if ps != [] {
      var init, g := ps[..|ps| - 1], ps[|ps| - 1];
      UpdatedAllStatus(m, init, s, now, f);
      var before := UpdatedAll(m, init, s, now);
      UpdatedMeaning(before, g, s, None, now);
      assert ps == init + [g];
      if g != f {
        var after := UpdatedAll(m, ps, s, now);
        assert forall t :: (f, t) in after <==> (f, t) in before;
      }
    }
  }

  /** Removing the markers of each path in turn. */
  function ClearedAll(m: Slots, ps: seq<string>): Slots
    decreases |ps|
  {
    if ps == [] then m else Without(ClearedAll(m, ps[..|ps| - 1]), ps[|ps| - 1])
  }

  lemma ClearedAllSnoc(m: Slots, ps: seq<string>, i: int)
    requires 0 <= i < |ps|
    ensures ClearedAll(m, ps[..i + 1]) == Without(ClearedAll(m, ps[..i]), ps[i])
  {
    assert ps[..i + 1][..i] == ps[..i];
  }

  /** The cleared paths keep no marker; every other file keeps its slots. */
  lemma {:induction false} ClearedAllMeaning(m: Slots, ps: seq<string>, f: string)
    ensures f in ps ==> forall s :: (f, s) !in ClearedAll(m, ps)
    ensures f !in ps ==> forall s :: ((f, s) in ClearedAll(m, ps) <==> (f, s) in m)
    decreases |ps|
  {
    if ps != [] {
      var init := ps[..|ps| - 1];
      ClearedAllMeaning(m, init, f);
      assert ps == init + [ps[|ps| - 1]];
    }
  }

  /**
   * After moving every job listed with status `from` to status `to`, the store lists none
   * with `from`: `retry_all_failed` (failed to ready) and the manager's recovery of
   * interrupted encodes (transcoding to ready) are both this.
   */
  lemma MovedAllLeavesNone(media: seq<string>, m: Slots, sizes: map<string, nat>, from: MarkerStatus, to: MarkerStatus, now: int)
    requires from != to
    ensures var after := UpdatedAll(m, Paths(Listing(media, m, sizes, Some(StatusName(from)))), to, now);
      Listing(media, after, sizes, Some(StatusName(from))) == []
  {
    var filter := Some(StatusName(from));
    var ps := Paths(Listing(media, m, sizes, filter));
    var after := UpdatedAll(m, ps, to, now);
    ListingMeaning(media, m, sizes, filter);
    ListingMeaning(media, after, sizes, filter);
    var r := Listing(media, after, sizes, filter);
    if r != [] {
      var f := r[0].path;
      assert r[0] in r;
      UpdatedAllStatus(m, ps, to, now, f);
    }
  }

  // ---------------------------------------------------------------------------
  // The store
  // ---------------------------------------------------------------------------

  class MarkerManager {
    /** The `.mkv` files under the base directory, in the order the recursive listing finds them. */
    var media: seq<string>
    var sizes: map<string, nat>
    var slots: Slots

    constructor(media: seq<string>, sizes: map<string, nat>, slots: Slots)
      ensures this.media == media && this.sizes == sizes && this.slots == slots
    {
      this.media := media;
      this.sizes := sizes;
      this.slots := slots;
    }

    /** `remove_markers`: every existing marker of `f` is deleted, the media files never. */
    method RemoveMarkers(f: string)
      modifies this
      ensures slots == Without(old(slots), f)
      ensures media == old(media) && sizes == old(sizes)
    {
      var i := 0;
      while i < |Order|
        invariant 0 <= i <= |Order|
        invariant slots == map k | k in old(slots) && !(k.0 == f && k.1 in Order[..i]) :: old(slots)[k]
        invariant media == old(media) && sizes == old(sizes)
      {
        assert Order[..i + 1] == Order[..i] + [Order[i]];
        if (f, Order[i]) in slots {
          slots := slots - {(f, Order[i])};
        }
        i := i + 1;
      }
      assert forall s :: s in Order[..i] by {
        forall s ensures s in Order[..i] {
          OrderComplete(s);
        }
      }
    }

    /** `create_marker`: all markers of `f` removed, then the one for `s` written. */
    method CreateMarker(f: string, s: MarkerStatus, metadata: Option<Metadata>, error: Option<string>, now: int)
      returns (path: string)
      modifies this
      ensures path == MarkerPath(f, s)
      ensures slots == Created(old(slots), f, s, metadata, error, now)
      ensures media == old(media) && sizes == old(sizes)
    {
      RemoveMarkers(f);
      path := MarkerPath(f, s);
      slots := slots[(f, s) := NewMarker(f, s, metadata, error, now)];
    }

    /** `get_status`: the first marker found in `Order`. */
    method GetStatus(f: string) returns (r: Option<MarkerStatus>)
      ensures r == StatusOf(slots, f)
    {
      assert Order[0] == Ready && Order[1] == Transcoding && Order[2] == Failed && Order[3] == Complete;
      var i := 0;
      while i < |Order|
        invariant 0 <= i <= |Order|
        invariant forall k :: 0 <= k < i ==> (f, Order[k]) !in slots
      {
        if (f, Order[i]) in slots {
          return Some(Order[i]);
        }
        i := i + 1;
      }
      forall s ensures (f, s) !in slots {
        OrderComplete(s);
      }
      return None;
    }

    /** `update_status`: None and no change without a marker; otherwise the new marker's path. */
    method UpdateStatus(f: string, s: MarkerStatus, error: Option<string>, now: int) returns (path: Option<string>)
      modifies this
      ensures path == if StatusOf(old(slots), f).None? then None else Some(MarkerPath(f, s))
      ensures slots == Updated(old(slots), f, s, error, now)
      ensures media == old(media) && sizes == old(sizes)
    {
      var current := GetStatus(f);
      if current.None? {
        return None;
      }
      var metadata := MetadataOf(slots[(f, current.value)]);
      var p := CreateMarker(f, s, metadata, error, now);
      path := Some(p);
    }

    /** `list_jobs`: the media files with a marker passing the filter, oldest first. */
    method ListJobs(filter: Option<string>) returns (jobs: seq<JobInfo>)
      ensures jobs == Listing(media, slots, sizes, filter)
    {
      jobs := [];
      var i := 0;
      while i < |media|
        invariant 0 <= i <= |media|
        invariant jobs == Collected(media[..i], slots, sizes, filter)
      {
        assert media[..i + 1][..i] == media[..i];
        var f := media[i];
        var status := GetStatus(f);
        if status.Some? && Matches(filter, status.value) {
          jobs := jobs + [ReadInfo(f, status.value, slots[(f, status.value)], SizeOf(sizes, f))];
        }
        i := i + 1;
      }
      assert media[..i] == media;
      jobs := SortBy(jobs, ByCreated);
    }

    /** `get_next_ready`: the oldest ready job, if any. */
    method GetNextReady() returns (r: Option<JobInfo>)
      ensures var ready := Listing(media, slots, sizes, Some("ready"));
        r == if ready == [] then None else Some(ready[0])
    {
      var ready := ListJobs(Some("ready"));
      r := if ready == [] then None else Some(ready[0]);
    }

    /** `retry_job`: the first failed job with the name goes back to ready. */
    method RetryJob(name: string, now: int) returns (found: bool)
      modifies this
      ensures var failed := old(Listing(media, slots, sizes, Some("failed")));
        found == FirstNamed(failed, name).Some? &&
        slots == if found then Updated(old(slots), failed[FirstNamed(failed, name).value].path, Ready, None, now) else old(slots)
      ensures media == old(media) && sizes == old(sizes)
    {
      var failed := ListJobs(Some("failed"));
      var i := 0;
      while i < |failed|
        invariant 0 <= i <= |failed|
        invariant forall k :: 0 <= k < i ==> failed[k].name != name
        invariant slots == old(slots) && media == old(media) && sizes == old(sizes)
      {
        if failed[i].name == name {
          var _ := UpdateStatus(failed[i].path, Ready, None, now);
          return true;
        }
        i := i + 1;
      }
      return false;
    }

    /** `retry_all_failed`: every failed job goes back to ready; the count is returned. */
    method RetryAllFailed(now: int) returns (count: nat)
      modifies this
      ensures var failed := old(Listing(media, slots, sizes, Some("failed")));
        count == |failed| && slots == UpdatedAll(old(slots), Paths(failed), Ready, now)
      ensures media == old(media) && sizes == old(sizes)
    {
      var failed := ListJobs(Some("failed"));
      SetEach(Paths(failed), Ready, now);
      count := |failed|;
    }

    /** The loop of `retry_all_failed`: each path in turn has its status set. */
    method SetEach(ps: seq<string>, s: MarkerStatus, now: int)
      modifies this
      ensures slots == UpdatedAll(old(slots), ps, s, now)
      ensures media == old(media) && sizes == old(sizes)
    {
      var i := 0;
      while i < |ps|
        invariant i <= |ps|
        invariant slots == UpdatedAll(old(slots), ps[..i], s, now)
        invariant media == old(media) && sizes == old(sizes)
      {
        UpdatedAllSnoc(old(slots), ps, s, now, i);
        var _ := UpdateStatus(ps[i], s, None, now);
        i := i + 1;
      }
      assert ps[..i] == ps;
    }

    /** `clear_jobs`: every job passing the filter loses its markers; the count is returned. */
    method ClearJobs(filter: Option<string>) returns (count: nat)
      modifies this
      ensures var listed := old(Listing(media, slots, sizes, filter));
        count == |listed| && slots == ClearedAll(old(slots), Paths(listed))
      ensures media == old(media) && sizes == old(sizes)
    {
      var listed := ListJobs(filter);
      ghost var ps := Paths(listed);
      ghost var slots0 := slots;
      count := 0;
      while count < |listed|
        invariant count <= |listed|
        invariant slots == ClearedAll(slots0, ps[..count])
        invariant media == old(media) && sizes == old(sizes)
      {
        ClearedAllSnoc(slots0, ps, count);
        RemoveMarkers(listed[count].path);
        count := count + 1;
      }
      assert ps[..count] == ps;
    }
  }
}
