/**
 * The pipeline of `riparr.queue.manager`: `process_disc` scans a disc, looks up its
 * metadata, picks and names its raw folder, skips a disc already processed, rips the
 * selected titles and leaves one "ready" marker per ripped file; one step of the queue
 * processor encodes the oldest ready file; `recover_interrupted` puts interrupted encodes
 * back in the queue.
 *
 * The raw directory is the marker store of the `Markers` module: ripping a title adds its
 * file to the store's media, and cleaning up after an encode deletes it. Everything the
 * pipeline asks of the outside world (the scan, the DVD id, the two metadata services, the
 * Movies folders, each rip and each encode) is a parameter.
 */
module Manager {
  import opened Wrappers
  import opened Strings
  import opened Lists
  import opened CoreDisc
  import opened Markers
  import Naming
  import Selector
  import J = JobModel

  /** The settings the pipeline reads. */
  datatype Settings = Settings(
    rawDir: string,
    outputDir: Naming.Path,
    selector: Selector.SelectorSettings,
    ejectAfterRip: bool,
    encodeEnabled: bool,
    deleteRawAfterEncode: bool)

  /** `dir / name`; an empty name leaves the directory as it is. */
  function JoinPath(dir: string, name: string): string
  {
    if name == "" then dir else dir + "/" + name
  }

  // ---------------------------------------------------------------------------
  // Paths
  // ---------------------------------------------------------------------------

  /** The index of the last `c` in `s`. */
  function LastIndex(s: string, c: char): (r: Option<nat>)
    ensures r.Some? ==> r.value < |s| && s[r.value] == c
    ensures r.Some? ==> forall i :: r.value < i < |s| ==> s[i] != c
    ensures r.None? ==> c !in s
    decreases |s|
  {
    if s == [] then None
    else if s[|s| - 1] == c then Some(|s| - 1)
    else LastIndex(s[..|s| - 1], c)
  }

  /** `Path.parent`: everything before the last `/`, or `.` for a bare name. */
  function Parent(f: string): string
  {
    match LastIndex(f, '/')
    case Some(i) => f[..i]
    case None => "."
  }

  /** A file named directly inside a directory has that directory as its parent. */
  lemma ParentOfJoin(dir: string, name: string)
    requires name != "" && '/' !in name
    ensures Parent(JoinPath(dir, name)) == dir
  {
    var p := dir + "/" + name;
    assert p[|dir|] == '/';
    assert forall i :: |dir| < i < |p| ==> p[i] == name[i - |dir| - 1];
    var r := LastIndex(p, '/');
    assert r.Some?;
    assert r.value == |dir|;
    assert p[..|dir|] == dir;
  }

  // ---------------------------------------------------------------------------
  // _get_disc_output_dir
  // ---------------------------------------------------------------------------

  /** The temporary folder of a device: `disc_` and the device path with `/` turned into `_`. */
  function TempDirName(device: string): (r: string)
    ensures '/' !in r && |r| == 5 + |device| && r[..5] == "disc_"
  {
    var r := "disc_" + ReplaceChars(device, {'/'}, '_');
    assert forall i :: 5 <= i < |r| ==> r[i] == ReplaceChars(device, {'/'}, '_')[i - 5];
    r
  }

  /** White space at neither end of a string. */
  predicate Unpadded(r: string)
  {
    |r| > 0 ==> !IsSpace(r[0]) && !IsSpace(r[|r| - 1])
  }

  /** Its only white space is single blanks. */
  predicate SingleSpaced(r: string)
  {
    (forall i :: 0 <= i < |r| && IsSpace(r[i]) ==> r[i] == ' ') &&
    (forall i :: 0 <= i < |r| - 1 && r[i] == ' ' ==> r[i + 1] != ' ')
  }

  /** `strip()` keeps a slice, so every fact about single characters and neighbours survives. */
  lemma StripKeeps(s: string, cs: set<char>)
    requires forall i :: 0 <= i < |s| ==> s[i] !in cs
    ensures var r := Strip(s); (forall i :: 0 <= i < |r| ==> r[i] !in cs) && Unpadded(r)
    ensures SingleSpaced(s) ==> SingleSpaced(Strip(s))
  {
    Naming.StripPiece(s, Whitespace);
    SliceKeeps(s, Strip(s), Naming.Lead(s, Whitespace), cs);
    StripUnpadded(s);
  }

  /** A slice keeps every fact about single characters and neighbours. */
  lemma SliceKeeps(s: string, t: string, a: nat, cs: set<char>)
    requires a + |t| <= |s| && t == s[a..a + |t|]
    ensures (forall i :: 0 <= i < |s| ==> s[i] !in cs) ==> forall i :: 0 <= i < |t| ==> t[i] !in cs
    ensures SingleSpaced(s) ==> SingleSpaced(t)
  {
    assert forall i :: 0 <= i < |t| ==> t[i] == s[a + i];
  }

  /** `strip()` leaves no white space at either end. */
  lemma StripUnpadded(s: string)
    ensures Unpadded(Strip(s))
  {
    var l := TrimLeft(s, Whitespace);
    var r := TrimRight(l, Whitespace);
    if |r| > 0 {
      assert r[0] == l[0];
    }
  }

  /** The title as the folder name uses it: no invalid characters, white space collapsed, stripped. */
  function CleanTitle(title: string): (r: string)
    ensures forall i :: 0 <= i < |r| ==> r[i] !in Naming.InvalidChars
    ensures Unpadded(r) && SingleSpaced(r)
  {
    var a := RemoveChars(title, Naming.InvalidChars);
    CollapseSpacesKeeps(a, Naming.InvalidChars);
    var c := CollapseSpaces(a);
    StripKeeps(c, Naming.InvalidChars);
    Strip(c)
  }

  predicate HasYear(m: DiscMetadata) { m.year.Some? && m.year.value != 0 }

  /** ` (Y)` for a known year other than 0. */
  function YearPart(m: DiscMetadata): (r: string)
    ensures HasYear(m) ==> |r| > 0 && r[|r| - 1] == ')'
    ensures !HasYear(m) ==> r == ""
    ensures '/' !in r && '}' !in r
  {
    if HasYear(m) then
      var y := IntToString(m.year.value);
      var r := " (" + y + ")";
      assert forall i :: 2 <= i < |r| - 1 ==> r[i] == y[i - 2];
      r
    else ""
  }

  /** ` {imdb-I}` for a known IMDb id. */
  function ImdbPart(m: DiscMetadata): (r: string)
    ensures Naming.Given(m.imdbId) ==> |r| > 0 && r[|r| - 1] == '}'
    ensures !Naming.Given(m.imdbId) ==> r == ""
    ensures Naming.Given(m.imdbId) && '/' !in m.imdbId.value ==> '/' !in r
  {
    if Naming.Given(m.imdbId) then " {imdb-" + m.imdbId.value + "}" else ""
  }

  /**
   * The four folder forms `T (Y) {imdb-I}`, `T (Y)`, `T {imdb-I}` and `T`, each part only
   * when known.
   */
  function Folder(t: string, m: DiscMetadata): string
  {
    t + YearPart(m) + ImdbPart(m)
  }

  /**
   * The folder name of a disc with metadata: the cleaned title, then the year and the IMDb
   * id when known; a known IMDb id always shows as the closing brace.
   */
  function FolderName(m: DiscMetadata): (r: string)
    ensures var t := CleanTitle(m.title); |r| >= |t| && r[..|t|] == t
    ensures Naming.Given(m.imdbId) ==> |r| > 0 && r[|r| - 1] == '}'
    ensures HasYear(m) && !Naming.Given(m.imdbId) ==> |r| > 0 && r[|r| - 1] == ')'
    ensures !HasYear(m) && !Naming.Given(m.imdbId) ==> r == CleanTitle(m.title)
  {
    var t := CleanTitle(m.title);
    var y, i := YearPart(m), ImdbPart(m);
    var r := t + y + i;
    assert r[..|t|] == t;
    assert |i| > 0 ==> r[|r| - 1] == i[|i| - 1];
    assert i == "" ==> r == t + y;
    assert y == "" && i == "" ==> r == t;
    r
  }

  /** A disc name as the folder name uses it: invalid characters dropped, `.` and `_` as blanks. */
  function CleanDiscName(name: string): (r: string)
    ensures forall i :: 0 <= i < |r| ==> r[i] !in Naming.InvalidChars && r[i] != '.' && r[i] != '_'
    ensures Unpadded(r) && SingleSpaced(r)
  {
    var a := RemoveChars(name, Naming.InvalidChars);
    var b := ReplaceChars(a, {'.', '_'}, ' ');
    var cs := Naming.InvalidChars + {'.', '_'};
    assert forall i :: 0 <= i < |b| ==> b[i] !in cs by {
      forall i | 0 <= i < |b| ensures b[i] !in cs {
        assert a[i] !in Naming.InvalidChars;
      }
    }
    CollapseSpacesKeeps(b, cs);
    var c := CollapseSpaces(b);
    StripKeeps(c, cs);
    var r := Strip(c);
    assert forall i :: 0 <= i < |r| ==> r[i] !in cs;
    r
  }

  /** The raw folder's name: from the metadata, else from the disc name, else from the device. */
  function DiscFolder(disc: Disc, device: string): string
  {
    if disc.metadata.Some? then FolderName(disc.metadata.value)
    else if disc.name != "" then CleanDiscName(disc.name)
    else TempDirName(device)
  }

  /** `_get_disc_output_dir`. */
  function DiscOutputDir(rawDir: string, disc: Disc, device: string): string
  {
    JoinPath(rawDir, DiscFolder(disc, device))
  }

  /** The temporary directory `process_disc` starts with. */
  function TempDir(rawDir: string, device: string): string
  {
    JoinPath(rawDir, TempDirName(device))
  }

  /** A disc with neither metadata nor name keeps the temporary directory. */
  lemma FallbackIsTempDir(rawDir: string, disc: Disc, device: string)
    requires disc.metadata.None? && disc.name == ""
    ensures DiscOutputDir(rawDir, disc, device) == TempDir(rawDir, device)
  {
  }

  /**
   * The raw folder is a single path component directly under the raw directory, as long as
   * an IMDb id holds no `/`.
   */
  lemma DiscFolderOneComponent(disc: Disc, device: string)
    requires disc.metadata.Some? && disc.metadata.value.imdbId.Some? ==> '/' !in disc.metadata.value.imdbId.value
    ensures '/' !in DiscFolder(disc, device)
  {
    if disc.metadata.Some? {
      var m := disc.metadata.value;
      var t := CleanTitle(m.title);
      assert '/' !in t by {
        assert forall i :: 0 <= i < |t| ==> t[i] != '/';
      }
      assert FolderName(m) == t + YearPart(m) + ImdbPart(m);
    } else if disc.name != "" {
      var c := CleanDiscName(disc.name);
      assert forall i :: 0 <= i < |c| ==> c[i] != '/';
    }
  }

  // ---------------------------------------------------------------------------
  // _is_already_processed
  // ---------------------------------------------------------------------------

  /**
   * The folder names `_is_already_processed` looks for: the title with invalid characters
   * dropped and stripped (white space is not collapsed), with year and IMDb id, with year,
   * and bare.
   */
  function Candidates(m: DiscMetadata): (r: seq<string>)
    ensures |r| >= 1 && r[|r| - 1] == Strip(RemoveChars(m.title, Naming.InvalidChars))
    ensures |r| == 1 + (if HasYear(m) then 1 else 0) + (if HasYear(m) && Naming.Given(m.imdbId) then 1 else 0)
  {
    var t := Strip(RemoveChars(m.title, Naming.InvalidChars));
    var both := if HasYear(m) && Naming.Given(m.imdbId) then [Folder(t, m)] else [];
    var year := if HasYear(m) then [t + YearPart(m)] else [];
    both + year + [t]
  }

  /** Some media file of the store sits directly in `dir`. */
  predicate HasMkvIn(media: seq<string>, dir: string)
  {
    exists k :: 0 <= k < |media| && Parent(media[k]) == dir
  }

  /**
   * A disc counts as processed when it has metadata and some candidate folder, under the
   * raw directory or under the Movies folder of the output directory, holds an `.mkv`.
   */
  predicate AlreadyProcessed(s: Settings, disc: Disc, media: seq<string>, inMovies: Naming.Path -> bool)
  {
    disc.metadata.Some? &&
    (InRawDir(media, s.rawDir, Candidates(disc.metadata.value)) ||
     InMovies(s.outputDir, Candidates(disc.metadata.value), inMovies))
  }

  /** Some candidate folder under the raw directory holds a media file. */
  predicate InRawDir(media: seq<string>, rawDir: string, ps: seq<string>)
  {
    exists k :: 0 <= k < |ps| && HasMkvIn(media, JoinPath(rawDir, ps[k]))
  }

  /** Some candidate folder under Movies holds an `.mkv`. */
  predicate InMovies(outputDir: Naming.Path, ps: seq<string>, inMovies: Naming.Path -> bool)
  {
    exists k :: 0 <= k < |ps| && inMovies(outputDir + ["Movies", ps[k]])
  }

  /** The first loop of `_is_already_processed`: the candidates under the raw directory, in order. */
  method SearchRawDir(media: seq<string>, rawDir: string, ps: seq<string>) returns (found: bool)
    ensures found == InRawDir(media, rawDir, ps)
  {
    var i := 0;
    while i < |ps|
      invariant 0 <= i <= |ps|
      invariant forall j :: 0 <= j < i ==> !HasMkvIn(media, JoinPath(rawDir, ps[j]))
    {
      if HasMkvIn(media, JoinPath(rawDir, ps[i])) {
        return true;
      }
      i := i + 1;
    }
    return false;
  }

  /** The second loop of `_is_already_processed`: the candidates under Movies, in order. */
  method SearchMovies(outputDir: Naming.Path, ps: seq<string>, inMovies: Naming.Path -> bool) returns (found: bool)
    ensures found == InMovies(outputDir, ps, inMovies)
  {
    var i := 0;
    while i < |ps|
      invariant 0 <= i <= |ps|
      invariant forall j :: 0 <= j < i ==> !inMovies(outputDir + ["Movies", ps[j]])
    {
      if inMovies(outputDir + ["Movies", ps[i]]) {
        return true;
      }
      i := i + 1;
    }
    return false;
  }

  /**
   * When the title has no white space runs and the folder is not the IMDb-only form, the
   * raw folder `process_disc` names is one of the candidates, so a second run finds it.
   */
  lemma FolderIsCandidate(m: DiscMetadata)
    requires SingleSpaced(RemoveChars(m.title, Naming.InvalidChars))
    requires HasYear(m) || !Naming.Given(m.imdbId)
    ensures FolderName(m) in Candidates(m)
  {
    var a := RemoveChars(m.title, Naming.InvalidChars);
    CollapseSpacesNoop(a);
    assert CleanTitle(m.title) == Strip(a);
    assert FolderName(m) == Folder(Strip(a), m);
    FolderAmongCandidates(m);
  }

  /** The candidates hold the full folder form whenever it is not the IMDb-only one. */
  lemma FolderAmongCandidates(m: DiscMetadata)
    requires HasYear(m) || !Naming.Given(m.imdbId)
    ensures Folder(Strip(RemoveChars(m.title, Naming.InvalidChars)), m) in Candidates(m)
  {
    var t := Strip(RemoveChars(m.title, Naming.InvalidChars));
    var ps := Candidates(m);
    if HasYear(m) {
      if Naming.Given(m.imdbId) {
        assert ps[0] == Folder(t, m);
      } else {
        AppendEmpty(t + YearPart(m));
        assert ps[|ps| - 2] == t + YearPart(m);
      }
    } else {
      AppendEmpty(t);
      AppendEmpty(t + YearPart(m));
      assert ps[|ps| - 1] == t;
    }
  }

  /** `re.sub` that drops characters brings none in. */
  lemma {:induction false} RemoveCharsFrom(s: string, cs: set<char>, c: char)
    requires c in RemoveChars(s, cs)
    ensures c in s
    decreases |s|
  {
    if s != [] {
      var head := if s[0] in cs then [] else [s[0]];
      if c !in head {
        assert c in RemoveChars(s[1..], cs);
        RemoveCharsFrom(s[1..], cs, c);
      }
    }
  }

  /**
   * The IMDb-only folder `T {imdb-I}` is never a candidate: a disc with an IMDb id but no
   * year is ripped again on every run.
   */
  lemma ImdbOnlyFolderMissed(m: DiscMetadata)
    requires !HasYear(m) && Naming.Given(m.imdbId)
    requires '}' !in m.title
    ensures FolderName(m) !in Candidates(m)
  {
    var a := RemoveChars(m.title, Naming.InvalidChars);
    var t := Strip(a);
    var f := FolderName(m);
    assert Candidates(m) == [t];
    assert f[|f| - 1] == '}';
    if f == t {
      Naming.StripPiece(a, Whitespace);
      var l := Naming.Lead(a, Whitespace);
      assert t[|t| - 1] == a[l + |t| - 1];
      RemoveCharsFrom(m.title, Naming.InvalidChars, '}');
    }
  }

  // ---------------------------------------------------------------------------
  // _lookup_metadata
  // ---------------------------------------------------------------------------

  /** A metadata service: it raises, finds nothing, or finds the metadata. */
  type Service = string -> Result<Option<DiscMetadata>>

  /** What the lookup did: the disc afterwards and the query each service was asked, if any. */
  datatype Lookup = Lookup(disc: Disc, armQuery: Option<string>, tmdbQuery: Option<string>)

  /** The TMDB query of a disc name: `_` as blanks, stripped. */
  function SearchTitle(name: string): (r: string)
    ensures '_' !in r && Unpadded(r) && |r| <= |name|
  {
    var b := ReplaceChars(name, {'_'}, ' ');
    StripKeeps(b, {'_'});
    Naming.StripPiece(b, Whitespace);
    Strip(b)
  }

  predicate Found(r: Result<Option<DiscMetadata>>) { r.Ok? && r.value.Some? }

  /** The ARM database knows the disc's DVD id. */
  predicate ArmHit(dvdId: Result<string>, arm: Service)
  {
    dvdId.Ok? && Found(arm(dvdId.value))
  }

  /**
   * `_lookup_metadata`: the DVD id, once computed, is kept on the disc and asked of the ARM
   * database; an ARM result ends the lookup. Otherwise a disc with a name is searched on
   * TMDB. Every failure is swallowed.
   */
  function LookupMetadata(disc: Disc, dvdId: Result<string>, arm: Service, tmdb: Service): (r: Lookup)
    ensures r.disc == disc.(dvdId := r.disc.dvdId, metadata := r.disc.metadata)
    ensures r.disc.dvdId == if dvdId.Ok? then Some(dvdId.value) else disc.dvdId
    ensures r.armQuery == if dvdId.Ok? then Some(dvdId.value) else None
    ensures ArmHit(dvdId, arm) ==> r.disc.metadata == arm(dvdId.value).value && r.tmdbQuery.None?
    ensures !ArmHit(dvdId, arm) ==> (r.tmdbQuery.Some? <==> disc.name != "")
    ensures r.tmdbQuery.Some? ==> r.tmdbQuery.value == SearchTitle(disc.name)
    ensures !ArmHit(dvdId, arm) && r.tmdbQuery.Some? && Found(tmdb(r.tmdbQuery.value)) ==>
      r.disc.metadata == tmdb(r.tmdbQuery.value).value
    ensures !ArmHit(dvdId, arm) && !(r.tmdbQuery.Some? && Found(tmdb(r.tmdbQuery.value))) ==>
      r.disc.metadata == disc.metadata
  {
    var d := if dvdId.Ok? then disc.(dvdId := Some(dvdId.value)) else disc;
    var armQuery := if dvdId.Ok? then Some(dvdId.value) else None;
    if ArmHit(dvdId, arm) then Lookup(d.(metadata := arm(dvdId.value).value), armQuery, None)
    else if disc.name == "" then Lookup(d, armQuery, None)
    else
      var q := SearchTitle(disc.name);
      match tmdb(q)
      case Ok(Some(m)) => Lookup(d.(metadata := Some(m)), armQuery, Some(q))
      case _ => Lookup(d, armQuery, Some(q))
  }

  /** When ARM finds the disc, TMDB plays no part in the result. */
  lemma ArmFirst(disc: Disc, dvdId: Result<string>, arm: Service, tmdb1: Service, tmdb2: Service)
    requires ArmHit(dvdId, arm)
    ensures LookupMetadata(disc, dvdId, arm, tmdb1) == LookupMetadata(disc, dvdId, arm, tmdb2)
  {
  }

  /** When no service finds anything (each raising or answering nothing), the metadata is as it was. */
  lemma LookupFailuresSwallowed(disc: Disc, dvdId: Result<string>, arm: Service, tmdb: Service)
    requires forall q :: !Found(arm(q)) && !Found(tmdb(q))
    ensures LookupMetadata(disc, dvdId, arm, tmdb).disc.metadata == disc.metadata
  {
  }

  // ---------------------------------------------------------------------------
  // _rip_titles
  // ---------------------------------------------------------------------------

  /** One `rip_title` call: it raises, or writes a file of some size. */
  datatype RipResult = RipFailed(error: string) | Ripped(path: string, size: nat)

  /** The arguments of one `rip_title` call and the job's progress when it was made. */
  datatype RipCall = RipCall(device: string, titleIndex: int, outputDir: string, progress: real)

  /** The progress before the `k`-th of `n` titles (counting from 0), in per cent. */
  function Progress(k: nat, n: nat): real
    requires n > 0
  {
    (k as real / n as real) * 100.0
  }

  /** Before each title the progress lies in [0, 100) and grows with each title. */
  lemma ProgressBounds(k: nat, n: nat)
    requires k < n
    ensures 0.0 <= Progress(k, n) < 100.0
    ensures k + 1 < n ==> Progress(k, n) < Progress(k + 1, n)
    ensures k == 0 ==> Progress(k, n) == 0.0
  {
    var x := n as real;
    assert k as real / x < 1.0 by {
      assert (k as real / x) * x == k as real;
    }
    if k + 1 < n {
      assert k as real / x < (k + 1) as real / x;
    }
  }

  /** The files the first `n` calls wrote, in call order. */
  function RippedPaths(rip: nat -> RipResult, n: nat): seq<string>
  {
    if n == 0 then []
    else RippedPaths(rip, n - 1) + (if rip(n - 1).Ripped? then [rip(n - 1).path] else [])
  }

  /**
   * `_rip_titles` returns at most one file per title, every file some call wrote and every
   * file written, in call order; none exactly when every call failed.
   */
  lemma {:induction false} RippedPathsMeaning(rip: nat -> RipResult, n: nat)
    ensures var r := RippedPaths(rip, n);
      |r| <= n &&
      (r == [] <==> forall k :: 0 <= k < n ==> rip(k).RipFailed?) &&
      (forall f :: f in r ==> exists k :: 0 <= k < n && rip(k).Ripped? && rip(k).path == f) &&
      (forall k :: 0 <= k < n && rip(k).Ripped? ==> rip(k).path in r)
  {
    if n > 0 {
      RippedPathsMeaning(rip, n - 1);
    }
  }

  /** The store as the raw directory holds it. */
  datatype Store = Store(media: seq<string>, sizes: map<string, nat>, slots: Slots)

  function Snapshot(m: MarkerManager): Store
    reads m
  {
    Store(m.media, m.sizes, m.slots)
  }

  /** A file written into the raw directory: listed once, with its size. */
  function WithFile(st: Store, f: string, size: nat): (r: Store)
    ensures f in r.media && r.sizes == st.sizes[f := size] && r.slots == st.slots
    ensures forall g :: g in st.media ==> g in r.media
  {
    st.(media := if f in st.media then st.media else st.media + [f], sizes := st.sizes[f := size])
  }

  /** The store after the first `n` calls. */
  function RippedStore(st: Store, rip: nat -> RipResult, n: nat): Store
  {
    if n == 0 then st
    else
      var s := RippedStore(st, rip, n - 1);
      if rip(n - 1).Ripped? then WithFile(s, rip(n - 1).path, rip(n - 1).size) else s
  }

  /** Every ripped file is in the store afterwards, with nothing lost and no marker touched. */
  lemma {:induction false} RippedStoreMeaning(st: Store, rip: nat -> RipResult, n: nat)
    ensures var r := RippedStore(st, rip, n);
      r.slots == st.slots &&
      (forall f :: f in RippedPaths(rip, n) ==> f in r.media) &&
      (forall g :: g in st.media ==> g in r.media)
    ensures RippedPaths(rip, n) == [] ==> RippedStore(st, rip, n) == st
  {
    if n > 0 {
      RippedStoreMeaning(st, rip, n - 1);
    }
  }

  // ---------------------------------------------------------------------------
  // Ready markers
  // ---------------------------------------------------------------------------

  function TextOrNull(o: Option<string>): MetaValue
  {
    if o.Some? then Text(o.value) else Null
  }

  /** The metadata `process_disc` writes into each ready marker. */
  function ReadyMetadata(disc: Disc): (r: Metadata)
    ensures r.Keys == {"disc_name", "dvd_id", "title", "year", "imdb_id"}
    ensures r["disc_name"] == Text(disc.name) && r["dvd_id"] == TextOrNull(disc.dvdId)
  {
    var m := disc.metadata;
    map["disc_name" := Text(disc.name),
        "dvd_id" := TextOrNull(disc.dvdId),
        "title" := if m.Some? then Text(m.value.title) else Null,
        "year" := if m.Some? && m.value.year.Some? then Number(m.value.year.value) else Null,
        "imdb_id" := if m.Some? then TextOrNull(m.value.imdbId) else Null]
  }

  /** Writing a ready marker for each file in turn. */
  function CreatedAll(m: Slots, fs: seq<string>, md: Metadata, now: int): Slots
    decreases |fs|
  {
    if fs == [] then m else Created(CreatedAll(m, fs[..|fs| - 1], md, now), fs[|fs| - 1], Ready, Some(md), None, now)
  }

  lemma CreatedAllSnoc(m: Slots, fs: seq<string>, md: Metadata, now: int, i: int)
    requires 0 <= i < |fs|
    ensures CreatedAll(m, fs[..i + 1], md, now) == Created(CreatedAll(m, fs[..i], md, now), fs[i], Ready, Some(md), None, now)
  {
    assert fs[..i + 1][..i] == fs[..i];
  }

  /** Each file's only marker is the new ready marker; every other file keeps its markers. */
  lemma {:induction false} CreatedAllMeaning(m: Slots, fs: seq<string>, md: Metadata, now: int, f: string)
    ensures var r := CreatedAll(m, fs, md, now);
      f in fs ==> (forall t :: (f, t) in r <==> t == Ready) && r[(f, Ready)] == NewMarker(f, Ready, Some(md), None, now)
    ensures var r := CreatedAll(m, fs, md, now);
      f !in fs ==> forall t :: ((f, t) in r <==> (f, t) in m) && ((f, t) in m ==> r[(f, t)] == m[(f, t)])
    decreases |fs|
  {
    if fs != [] {
      var init, g := fs[..|fs| - 1], fs[|fs| - 1];
      assert fs == init + [g];
      CreatedAllMeaning(m, init, md, now, f);
      CreatedMeaning(CreatedAll(m, init, md, now), g, Ready, Some(md), None, now);
    }
  }

  // ---------------------------------------------------------------------------
  // Encoding and clean-up
  // ---------------------------------------------------------------------------

  function NotPath(f: string): string -> bool
  {
    (g: string) => g != f
  }

  /** `_cleanup_raw_file` on the store: the file unlinked, its markers removed. */
  function Cleaned(st: Store, f: string): (r: Store)
    ensures f !in r.media && f !in r.sizes && r.slots == Without(st.slots, f)
  {
    Store(Filter(st.media, NotPath(f)), st.sizes - {f}, Without(st.slots, f))
  }

  /** The parent directory is removed when nothing is left in it. */
  predicate DirEmpty(st: Store, dir: string, otherEntries: bool)
  {
    !otherEntries &&
    (forall k :: 0 <= k < |st.media| ==> Parent(st.media[k]) != dir) &&
    (forall key :: key in st.slots ==> Parent(key.0) != dir)
  }

  /**
   * One encode of a file: transcoding, then complete (and cleaned up when raw files are
   * deleted), or failed with the error.
   */
  function AfterEncode(st: Store, f: string, outcome: Result<string>, deleteRaw: bool, now: int): Store
  {
    var s1 := st.(slots := Updated(st.slots, f, Transcoding, None, now));
    match outcome
    case Ok(_) =>
      var s2 := s1.(slots := Updated(s1.slots, f, Complete, None, now));
      if deleteRaw then Cleaned(s2, f) else s2
    case Err(e) => s1.(slots := Updated(s1.slots, f, Failed, Some(e), now))
  }

  /**
   * An encoded file with a marker ends complete, keeping its metadata, or is gone with all
   * its markers when raw files are deleted; a failed one ends failed with the error. Other
   * files keep their markers.
   */
  lemma AfterEncodeMeaning(st: Store, f: string, outcome: Result<string>, deleteRaw: bool, now: int)
    requires StatusOf(st.slots, f).Some?
    ensures var r := AfterEncode(st, f, outcome, deleteRaw, now);
      OthersUnchanged(st.slots, r.slots, f) &&
      (outcome.Ok? && !deleteRaw ==>
         StatusOf(r.slots, f) == Some(Complete) && r.media == st.media &&
         MetadataOf(r.slots[(f, Complete)]) == StoredMetadata(MetadataOf(st.slots[(f, StatusOf(st.slots, f).value)]))) &&
      (outcome.Ok? && deleteRaw ==> StatusOf(r.slots, f).None? && f !in r.media) &&
      (outcome.Err? ==>
         StatusOf(r.slots, f) == Some(Failed) && r.media == st.media &&
         r.slots[(f, Failed)].data.value.error == StoredError(Some(outcome.error)))
  {
    var m0 := st.slots;
    var m1 := Updated(m0, f, Transcoding, None, now);
    UpdatedMeaning(m0, f, Transcoding, None, now);
    var md := MetadataOf(m0[(f, StatusOf(m0, f).value)]);
    assert MetadataOf(m1[(f, Transcoding)]) == StoredMetadata(md);
    match outcome {
      case Ok(_) =>
        var m2 := Updated(m1, f, Complete, None, now);
        UpdatedMeaning(m1, f, Complete, None, now);
        assert MetadataOf(m2[(f, Complete)]) == StoredMetadata(StoredMetadata(md));
        if deleteRaw {
          assert OthersUnchanged(m0, Without(m2, f), f);
        }
      case Err(e) =>
        UpdatedMeaning(m1, f, Failed, Some(e), now);
    }
  }

  /** `_encode_files` on the store: each listed file still present, in turn. */
  function EncodedAll(st: Store, fs: seq<string>, outcome: string -> Result<string>, deleteRaw: bool, now: int): Store
    decreases |fs|
  {
    if fs == [] then st
    else
      var s := EncodedAll(st, fs[..|fs| - 1], outcome, deleteRaw, now);
      var f := fs[|fs| - 1];
      if f in s.media then AfterEncode(s, f, outcome(f), deleteRaw, now) else s
  }

  lemma EncodedAllSnoc(st: Store, fs: seq<string>, outcome: string -> Result<string>, deleteRaw: bool, now: int, i: int)
    requires 0 <= i < |fs|
    ensures var s := EncodedAll(st, fs[..i], outcome, deleteRaw, now);
      EncodedAll(st, fs[..i + 1], outcome, deleteRaw, now) ==
        if fs[i] in s.media then AfterEncode(s, fs[i], outcome(fs[i]), deleteRaw, now) else s
  {
    assert fs[..i + 1][..i] == fs[..i];
  }

  /**
   * Inline encoding right after the ready markers are written: every ripped file, listed
   * once, ends complete (or gone) or failed, as its encode went.
   */
  lemma EncodeOneRipped(st: Store, f: string, md: Metadata, outcome: Result<string>, deleteRaw: bool, now: int)
    requires f in st.media && StatusOf(st.slots, f) == Some(Ready)
    ensures var r := AfterEncode(st, f, outcome, deleteRaw, now);
      (outcome.Ok? ==> (if deleteRaw then StatusOf(r.slots, f).None? else StatusOf(r.slots, f) == Some(Complete))) &&
      (outcome.Err? ==> StatusOf(r.slots, f) == Some(Failed))
  {
    AfterEncodeMeaning(st, f, outcome, deleteRaw, now);
  }

  // ---------------------------------------------------------------------------
  // The HandBrake call both encode paths make
  // ---------------------------------------------------------------------------

  /** The parameters `HandBrake.encode` declares. */
  const EncodeParameters: set<string> :=
    {"input_path", "output_path", "preset", "video_codec", "quality", "audio_codec", "subtitle_mode", "progress_callback"}

  /** The keyword arguments `_encode_files` and `process_queue` pass, in order. */
  const PassedKeywords: seq<string> :=
    ["preset", "video_codec", "quality", "encoder_preset", "deinterlace", "subtitle_scan", "progress_callback"]

  /** The keyword arguments that bind: the settings `HandBrake.encode` declares. */
  const IntendedKeywords: seq<string> := ["preset", "video_codec", "quality", "progress_callback"]

  /** The first of `keywords[i..]` that `HandBrake.encode` does not declare, if any. */
  function Unbound(keywords: seq<string>, i: nat): (r: Option<string>)
    requires i <= |keywords|
    ensures r.None? <==> forall k :: k in keywords[i..] ==> k in EncodeParameters
    ensures r.Some? ==> r.value in keywords[i..] && r.value !in EncodeParameters
    decreases |keywords| - i
  {
    if i == |keywords| then None
    else if keywords[i] !in EncodeParameters then Some(keywords[i])
    else
      assert forall k :: k in keywords[i..] ==> k == keywords[i] || k in keywords[i + 1..];
      Unbound(keywords, i + 1)
  }

  /**
   * Calling `HandBrake.encode` with `keywords`: a keyword it does not declare raises
   * `TypeError` before anything runs; when all bind, the call goes as the encode `run` goes.
   */
  function EncodeCall(keywords: seq<string>, run: Result<string>): (r: Result<string>)
    ensures (forall k :: k in keywords ==> k in EncodeParameters) ==> r == run
    ensures (exists k :: k in keywords && k !in EncodeParameters) ==> r.Err?
  {
    assert keywords[0..] == keywords;
    match Unbound(keywords, 0)
    case None => run
    case Some(k) => Err(UnexpectedKeyword(k))
  }

  /** The message of the `TypeError` a keyword the callee does not declare raises. */
  function UnexpectedKeyword(k: string): string
  {
    "HandBrake.encode() got an unexpected keyword argument '" + k + "'"
  }

  /**
   * As written, every encode raises: `encoder_preset` is not a parameter of
   * `HandBrake.encode`, so a file with a marker ends failed with that error whatever
   * HandBrake would have done.
   */
  lemma EncodeFailsAsWritten(st: Store, f: string, run: Result<string>, deleteRaw: bool, now: int)
    requires StatusOf(st.slots, f).Some?
    ensures EncodeCall(PassedKeywords, run) ==
      Err(UnexpectedKeyword("encoder_preset"))
    ensures var r := AfterEncode(st, f, EncodeCall(PassedKeywords, run), deleteRaw, now);
      StatusOf(r.slots, f) == Some(Failed) && r.media == st.media
  {
    PassedKeywordsRaise(run);
    AfterEncodeMeaning(st, f, EncodeCall(PassedKeywords, run), deleteRaw, now);
  }

  /** The three declared keywords bind; the fourth, `encoder_preset`, raises. */
  lemma PassedKeywordsRaise(run: Result<string>)
    ensures EncodeCall(PassedKeywords, run) ==
      Err(UnexpectedKeyword("encoder_preset"))
  {
    FirstUnboundPassed();
  }

  /** `encoder_preset` is the first keyword passed that does not bind. */
  lemma FirstUnboundPassed()
    ensures Unbound(PassedKeywords, 0) == Some("encoder_preset")
  {
    var ks := PassedKeywords;
    assert "preset" in EncodeParameters && "video_codec" in EncodeParameters && "quality" in EncodeParameters;
    assert Unbound(ks, 0) == Unbound(ks, 1) == Unbound(ks, 2) == Unbound(ks, 3);
    assert "encoder_preset" !in EncodeParameters;
  }

  /**
   * With only the declared keywords the call binds, and the file's marker follows
   * HandBrake's own outcome: complete (or cleaned up) on success, failed on error.
   */
  lemma EncodeFollowsRunAsIntended(st: Store, f: string, run: Result<string>, deleteRaw: bool, now: int)
    requires StatusOf(st.slots, f).Some?
    ensures EncodeCall(IntendedKeywords, run) == run
    ensures var r := AfterEncode(st, f, EncodeCall(IntendedKeywords, run), deleteRaw, now);
      (run.Ok? ==> if deleteRaw then StatusOf(r.slots, f).None? else StatusOf(r.slots, f) == Some(Complete)) &&
      (run.Err? ==> StatusOf(r.slots, f) == Some(Failed))
  {
    assert forall k :: k in IntendedKeywords ==> k in EncodeParameters;
    AfterEncodeMeaning(st, f, run, deleteRaw, now);
  }

  // ---------------------------------------------------------------------------
  // One step of process_queue
  // ---------------------------------------------------------------------------

  /** The DVD id a queued file's metadata carries, if it is a string. */
  function StoredDvdId(metadata: Option<Metadata>): Option<string>
  {
    if metadata.Some? && metadata.value != map[] && "dvd_id" in metadata.value && metadata.value["dvd_id"].Text?
    then Some(metadata.value["dvd_id"].text)
    else None
  }

  /** The disc the queue processor rebuilds from a ready job: its name and stored DVD id only. */
  function RebuiltDisc(info: JobInfo): Disc
  {
    EmptyDisc().(name := info.name, dvdId := StoredDvdId(info.metadata))
  }

  /** The DVD id written into a ready marker is the one the queue processor reads back. */
  lemma ReadyMetadataDvdId(disc: Disc)
    ensures StoredDvdId(StoredMetadata(Some(ReadyMetadata(disc)))) == disc.dvdId
  {
    assert "disc_name" in ReadyMetadata(disc);
  }

  /** Where the queue processor writes an encode. */
  function DrainTarget(outputDir: Naming.Path, info: JobInfo): Naming.Path
  {
    Naming.OutputPath(outputDir, RebuiltDisc(info), info.name, None, None)
  }

  /**
   * The rebuilt disc has no metadata, so every queued encode goes to the disc-name layout
   * under `Unknown`, whatever title and year its marker stores.
   */
  lemma DrainTargetUnknown(outputDir: Naming.Path, info: JobInfo)
    ensures var r := DrainTarget(outputDir, info);
      |r| >= |outputDir| + 2 && r[..|outputDir|] == outputDir && r[|outputDir|] == "Unknown" &&
      r[|r| - 1] == info.name + ".mkv"
  {
  }

  /** What one step of the queue processor did. */
  datatype Drain =
    | NothingReady
    | Encoded(info: JobInfo, target: Naming.Path, removedParent: bool)
    | EncodeFailed(info: JobInfo, target: Naming.Path, error: string)

  /**
   * `recover_interrupted`, on the store: every listed transcoding file goes back to ready and
   * every other file keeps its status.
   */
  lemma RecoverMeaning(media: seq<string>, m: Slots, sizes: map<string, nat>, now: int, f: string)
    ensures var after := UpdatedAll(m, Paths(Listing(media, m, sizes, Some("transcoding"))), Ready, now);
      StatusOf(after, f) == if f in media && StatusOf(m, f) == Some(Transcoding) then Some(Ready) else StatusOf(m, f)
  {
    var ps := Paths(Listing(media, m, sizes, Some("transcoding")));
    ListedPaths(media, m, sizes, Some("transcoding"), f);
    UpdatedAllStatus(m, ps, Ready, now, f);
    if StatusOf(m, f).Some? {
      TranscodingFilter(StatusOf(m, f).value);
    }
  }

  /** The filter "transcoding" passes exactly the transcoding status. */
  lemma TranscodingFilter(s: MarkerStatus)
    ensures Matches(Some("transcoding"), s) <==> s == Transcoding
  {
    match s
    case Ready => assert "transcoding"[0] != "ready"[0];
    case Transcoding =>
    case Failed => assert "transcoding"[0] != "failed"[0];
    case Complete => assert "transcoding"[0] != "complete"[0];
  }

  /** A file is among the listed paths exactly when it is a media file whose status passes. */
  lemma ListedPaths(media: seq<string>, m: Slots, sizes: map<string, nat>, filter: Option<string>, f: string)
    ensures f in Paths(Listing(media, m, sizes, filter)) <==> f in media && Listable(m, filter, f)
  {
    var listed := Listing(media, m, sizes, filter);
    var ps := Paths(listed);
    ListingMeaning(media, m, sizes, filter);
    if f in media && Listable(m, filter, f) {
      var i :| 0 <= i < |listed| && listed[i] == Entry(m, sizes, f);
      assert ps[i] == f;
    }
    if f in ps {
      var i :| 0 <= i < |ps| && ps[i] == f;
      assert listed[i] in listed;
    }
  }

  /** After recovery no file is listed as transcoding. */
  lemma RecoverLeavesNoneTranscoding(media: seq<string>, m: Slots, sizes: map<string, nat>, now: int)
    ensures var after := UpdatedAll(m, Paths(Listing(media, m, sizes, Some("transcoding"))), Ready, now);
      Listing(media, after, sizes, Some("transcoding")) == []
  {
    MovedAllLeavesNone(media, m, sizes, Transcoding, Ready, now);
  }

  /**
   * The store after a disc whose `n` selected titles were ripped: the files written, each
   * with a ready marker, then encoded inline when asked for and enabled.
   */
  function FinalStore(s: Settings, st: Store, disc: Disc, rip: nat -> RipResult, n: nat, inline: bool,
                      outcome: string -> Result<string>, now: int): Store
  {
    Delivered(s, RippedStore(st, rip, n), RippedPaths(rip, n), disc, inline, outcome, now)
  }

  /** The ripped files get ready markers, then are encoded inline when asked for and enabled. */
  function Delivered(s: Settings, st: Store, files: seq<string>, disc: Disc, inline: bool,
                     outcome: string -> Result<string>, now: int): Store
  {
    var st2 := st.(slots := CreatedAll(st.slots, files, ReadyMetadata(disc), now));
    if inline then EncodedAll(st2, files, outcome, s.deleteRawAfterEncode, now) else st2
  }

  /**
   * Without inline encoding, every ripped file is in the raw directory with a ready marker
   * as its only marker, carrying the five metadata keys; no other file's markers change.
   */
  lemma FinalStoreReady(s: Settings, st: Store, disc: Disc, rip: nat -> RipResult, n: nat,
                        outcome: string -> Result<string>, now: int, f: string)
    ensures var r := FinalStore(s, st, disc, rip, n, false, outcome, now);
      f in RippedPaths(rip, n) ==>
        f in r.media && StatusOf(r.slots, f) == Some(Ready) && Exclusive(r.slots, f) &&
        MetadataOf(r.slots[(f, Ready)]) == Some(ReadyMetadata(disc))
    ensures var r := FinalStore(s, st, disc, rip, n, false, outcome, now);
      f !in RippedPaths(rip, n) ==> forall t :: (f, t) in r.slots <==> (f, t) in st.slots
  {
    var files := RippedPaths(rip, n);
    var st1 := RippedStore(st, rip, n);
    RippedStoreMeaning(st, rip, n);
    CreatedAllMeaning(st1.slots, files, ReadyMetadata(disc), now, f);
    var r := CreatedAll(st1.slots, files, ReadyMetadata(disc), now);
    if f in files {
      assert (f, Ready) in r;
      assert ReadyMetadata(disc) != map[] by {
        assert "disc_name" in ReadyMetadata(disc);
      }
    }
  }

  // ---------------------------------------------------------------------------
  // The manager
  // ---------------------------------------------------------------------------

  /** What `process_disc` asks of the outside world. */
  datatype Env = Env(
    scan: Result<Disc>,
    dvdId: Result<string>,
    arm: Service,
    tmdb: Service,
    inMovies: Naming.Path -> bool,
    rip: nat -> RipResult,
    encodeOutcome: string -> Result<string>,
    otherEntries: string -> bool)

  class QueueManager {
    const settings: Settings
    const markers: MarkerManager
    var running: bool

    constructor(settings: Settings, markers: MarkerManager)
      ensures this.settings == settings && this.markers == markers && !running
    {
      this.settings := settings;
      this.markers := markers;
      running := false;
    }

    /** `stop`: the queue processor's flag is cleared. */
    method Stop()
      modifies this
      ensures !running
    {
      running := false;
    }

    /**
     * `process_disc`: the job it returns records how far it got. A scan that raises fails
     * it at stage "processing"; a disc already processed completes it at once; no title
     * selected fails it at "selection" and no file ripped at "ripping"; otherwise the ripped
     * files get ready markers, the disc is ejected if so configured, the files are encoded
     * inline when asked for and enabled, and the job completes.
     */
    method ProcessDisc(device: string, encode: bool, id: string, now: int, env: Env) returns (job: J.Job, ejected: bool)
      modifies markers
      ensures fresh(job) && job.id == id && job.createdAt == now && job.startedAt == Some(now)
      ensures env.scan.Err? ==>
        job.status == J.JobStatus.Failed && job.errors == [J.JobError(env.scan.error, "processing", now, None)] &&
        job.disc == EmptyDisc().(device := device) && job.outputDir == TempDir(settings.rawDir, device) &&
        job.selectedTitles == [] && !ejected && Snapshot(markers) == old(Snapshot(markers))
      ensures env.scan.Ok? ==>
        job.disc == LookupMetadata(env.scan.value, env.dvdId, env.arm, env.tmdb).disc &&
        job.outputDir == DiscOutputDir(settings.rawDir, job.disc, device)
      ensures env.scan.Ok? && AlreadyProcessed(settings, job.disc, old(markers.media), env.inMovies) ==>
        job.status == J.JobStatus.Complete && job.completedAt == Some(now) && job.errors == [] &&
        job.selectedTitles == [] && !ejected && Snapshot(markers) == old(Snapshot(markers))
      ensures env.scan.Ok? && !AlreadyProcessed(settings, job.disc, old(markers.media), env.inMovies) ==>
        Selector.Selection(settings.selector, job.disc.titles, None, job.selectedTitles)
      ensures env.scan.Ok? && !AlreadyProcessed(settings, job.disc, old(markers.media), env.inMovies) &&
        Selector.Candidates(settings.selector, job.disc.titles, None) != [] && settings.selector.maxTitles >= 1
        ==> job.selectedTitles != []
      ensures env.scan.Ok? && !AlreadyProcessed(settings, job.disc, old(markers.media), env.inMovies) && job.selectedTitles == [] ==>
        job.status == J.JobStatus.Failed && job.errors == [J.JobError("No titles selected", "selection", now, None)] &&
        !ejected && Snapshot(markers) == old(Snapshot(markers))
      ensures env.scan.Ok? && !AlreadyProcessed(settings, job.disc, old(markers.media), env.inMovies) && job.selectedTitles != [] ==>
        RipStageDone(settings, job, old(Snapshot(markers)), Snapshot(markers), [], encode, now, env, ejected)
    {
      job := new J.Job(id, EmptyDisc().(device := device), TempDir(settings.rawDir, device), now);
      ejected := false;
      job.Start(now);
      if env.scan.Err? {
        job.Fail(env.scan.error, "processing", None, now);
        return;
      }
      ejected := Proceed(job, env.scan.value, device, encode, now, env);
    }

    /** `process_disc` after a scan that returned a disc: identify it, then go on from there. */
    method Proceed(job: J.Job, scanned: Disc, device: string, encode: bool, now: int, env: Env) returns (ejected: bool)
      requires job.errors == []
      modifies job, markers
      ensures job.id == old(job.id) && job.createdAt == old(job.createdAt) && job.startedAt == old(job.startedAt)
      ensures job.disc == LookupMetadata(scanned, env.dvdId, env.arm, env.tmdb).disc
      ensures job.outputDir == DiscOutputDir(settings.rawDir, job.disc, device)
      ensures AlreadyProcessed(settings, job.disc, old(markers.media), env.inMovies) ==>
        job.status == J.JobStatus.Complete && job.completedAt == Some(now) && job.errors == [] &&
        job.selectedTitles == old(job.selectedTitles) && !ejected && Snapshot(markers) == old(Snapshot(markers))
      ensures !AlreadyProcessed(settings, job.disc, old(markers.media), env.inMovies) ==>
        Selector.Selection(settings.selector, job.disc.titles, None, job.selectedTitles)
      ensures !AlreadyProcessed(settings, job.disc, old(markers.media), env.inMovies) &&
        Selector.Candidates(settings.selector, job.disc.titles, None) != [] && settings.selector.maxTitles >= 1
        ==> job.selectedTitles != []
      ensures !AlreadyProcessed(settings, job.disc, old(markers.media), env.inMovies) && job.selectedTitles == [] ==>
        job.status == J.JobStatus.Failed && job.errors == [J.JobError("No titles selected", "selection", now, None)] &&
        !ejected && Snapshot(markers) == old(Snapshot(markers))
      ensures !AlreadyProcessed(settings, job.disc, old(markers.media), env.inMovies) && job.selectedTitles != [] ==>
        RipStageDone(settings, job, old(Snapshot(markers)), Snapshot(markers), [], encode, now, env, ejected)
    {
      ghost var media0, store0 := markers.media, Snapshot(markers);
      Identify(job, scanned, device, env);
      assert markers.media == media0 && Snapshot(markers) == store0 && job.errors == [];
      ejected := Scanned(job, encode, now, env);
    }

    /** The metadata lookup of `process_disc` and the output directory it names. */
    method Identify(job: J.Job, scanned: Disc, device: string, env: Env)
      modifies job`disc, job`outputDir
      ensures job.disc == LookupMetadata(scanned, env.dvdId, env.arm, env.tmdb).disc
      ensures job.outputDir == DiscOutputDir(settings.rawDir, job.disc, device)
    {
      var disc := LookupMetadata(scanned, env.dvdId, env.arm, env.tmdb).disc;
      job.disc := disc;
      job.outputDir := DiscOutputDir(settings.rawDir, disc, device);
    }

    /** `process_disc` once the disc and its output directory are known. */
    method Scanned(job: J.Job, encode: bool, now: int, env: Env) returns (ejected: bool)
      modifies job, markers
      ensures job.id == old(job.id) && job.createdAt == old(job.createdAt) && job.startedAt == old(job.startedAt)
      ensures job.disc == old(job.disc) && job.outputDir == old(job.outputDir)
      ensures AlreadyProcessed(settings, job.disc, old(markers.media), env.inMovies) ==>
        job.status == J.JobStatus.Complete && job.completedAt == Some(now) && job.errors == old(job.errors) &&
        job.selectedTitles == old(job.selectedTitles) && !ejected && Snapshot(markers) == old(Snapshot(markers))
      ensures !AlreadyProcessed(settings, job.disc, old(markers.media), env.inMovies) ==>
        Selector.Selection(settings.selector, job.disc.titles, None, job.selectedTitles)
      ensures !AlreadyProcessed(settings, job.disc, old(markers.media), env.inMovies) &&
        Selector.Candidates(settings.selector, job.disc.titles, None) != [] && settings.selector.maxTitles >= 1
        ==> job.selectedTitles != []
      ensures !AlreadyProcessed(settings, job.disc, old(markers.media), env.inMovies) && job.selectedTitles == [] ==>
        job.status == J.JobStatus.Failed && job.errors == old(job.errors) + [J.JobError("No titles selected", "selection", now, None)] &&
        !ejected && Snapshot(markers) == old(Snapshot(markers))
      ensures !AlreadyProcessed(settings, job.disc, old(markers.media), env.inMovies) && job.selectedTitles != [] ==>
        RipStageDone(settings, job, old(Snapshot(markers)), Snapshot(markers), old(job.errors), encode, now, env, ejected)
    {
      var processed := IsAlreadyProcessed(job.disc, env.inMovies);
      if processed {
        job.Complete(now);
        return false;
      }
      ejected := SelectStage(job, encode, now, env);
    }

    /** The titles `process_disc` rips: the selector's choice among the disc's candidates. */
    method ChooseTitles(titles: seq<Title>) returns (r: seq<Title>)
      ensures Selector.Selection(settings.selector, titles, None, r)
    {
      r := Selector.SelectTitles(settings.selector, titles, None);
    }

    /** `process_disc` from title selection on. */
    method SelectStage(job: J.Job, encode: bool, now: int, env: Env) returns (ejected: bool)
      modifies job, markers
      ensures job.id == old(job.id) && job.createdAt == old(job.createdAt) && job.startedAt == old(job.startedAt)
      ensures job.disc == old(job.disc) && job.outputDir == old(job.outputDir)
      ensures Selector.Selection(settings.selector, job.disc.titles, None, job.selectedTitles)
      ensures Selector.Candidates(settings.selector, job.disc.titles, None) != [] && settings.selector.maxTitles >= 1 ==> job.selectedTitles != []
      ensures job.selectedTitles == [] ==>
        job.status == J.JobStatus.Failed && job.errors == old(job.errors) + [J.JobError("No titles selected", "selection", now, None)] &&
        !ejected && Snapshot(markers) == old(Snapshot(markers))
      ensures job.selectedTitles != [] ==>
        RipStageDone(settings, job, old(Snapshot(markers)), Snapshot(markers), old(job.errors), encode, now, env, ejected)
    {
      var disc := job.disc;
      var selected := ChooseTitles(disc.titles);
      if Selector.Candidates(settings.selector, disc.titles, None) != [] && settings.selector.maxTitles >= 1 {
        Selector.SelectionNonEmpty(settings.selector, disc.titles, None, selected);
      }
      ejected := RipSelected(job, selected, encode, now, env);
    }

    /** `process_disc` once titles are selected: an empty selection fails at "selection", else the titles are ripped. */
    method RipSelected(job: J.Job, selected: seq<Title>, encode: bool, now: int, env: Env) returns (ejected: bool)
      modifies job, markers
      ensures job.id == old(job.id) && job.createdAt == old(job.createdAt) && job.startedAt == old(job.startedAt)
      ensures job.disc == old(job.disc) && job.outputDir == old(job.outputDir) && job.selectedTitles == selected
      ensures job.selectedTitles == [] ==>
        job.status == J.JobStatus.Failed && job.errors == old(job.errors) + [J.JobError("No titles selected", "selection", now, None)] &&
        !ejected && Snapshot(markers) == old(Snapshot(markers))
      ensures job.selectedTitles != [] ==>
        RipStageDone(settings, job, old(Snapshot(markers)), Snapshot(markers), old(job.errors), encode, now, env, ejected)
    {
      job.selectedTitles := selected;
      if selected == [] {
        job.Fail("No titles selected", "selection", None, now);
        return false;
      }
      ejected := RipStage(job, encode, now, env);
    }

    /** What ripping the selected titles leaves: failed at "ripping" with nothing ripped, else complete. */
    ghost predicate RipStageDone(s: Settings, job: J.Job, before: Store, after: Store, errors0: seq<J.JobError>,
                                 encode: bool, now: int, env: Env, ejected: bool)
      reads job
      requires job.selectedTitles != []
    {
      var n := |job.selectedTitles|;
      job.currentTitle == Some(job.selectedTitles[n - 1].index) &&
      (RippedPaths(env.rip, n) == [] ==>
         job.status == J.JobStatus.Failed && job.errors == errors0 + [J.JobError("No files ripped", "ripping", now, None)] &&
         job.progress == Progress(n - 1, n) && !ejected && after == before) &&
      (RippedPaths(env.rip, n) != [] ==>
         job.status == J.JobStatus.Complete && job.completedAt == Some(now) && job.errors == errors0 &&
         job.outputFiles == RippedPaths(env.rip, n) && ejected == s.ejectAfterRip &&
         after == FinalStore(s, before, job.disc, env.rip, n, encode && s.encodeEnabled, env.encodeOutcome, now))
    }

    /** `process_disc` from the selected titles on. */
    method RipStage(job: J.Job, encode: bool, now: int, env: Env) returns (ejected: bool)
      requires job.selectedTitles != []
      modifies job, markers
      ensures job.id == old(job.id) && job.createdAt == old(job.createdAt) && job.startedAt == old(job.startedAt)
      ensures job.disc == old(job.disc) && job.outputDir == old(job.outputDir) && job.selectedTitles == old(job.selectedTitles)
      ensures RipStageDone(settings, job, old(Snapshot(markers)), Snapshot(markers), old(job.errors), encode, now, env, ejected)
    {
      job.status := J.JobStatus.Ripping;
      ghost var st0 := Snapshot(markers);
      var files, _ := RipTitles(job, env.rip);
      if files == [] {
        RippedStoreMeaning(st0, env.rip, |job.selectedTitles|);
        job.Fail("No files ripped", "ripping", None, now);
        return false;
      }
      ejected := Deliver(job, files, encode, now, env);
    }

    /** The rest of `process_disc` once files were ripped: ready markers, eject, inline encode, complete. */
    method Deliver(job: J.Job, files: seq<string>, encode: bool, now: int, env: Env) returns (ejected: bool)
      modifies job, markers
      ensures job.id == old(job.id) && job.createdAt == old(job.createdAt) && job.startedAt == old(job.startedAt)
      ensures job.disc == old(job.disc) && job.outputDir == old(job.outputDir) && job.selectedTitles == old(job.selectedTitles)
      ensures job.currentTitle == old(job.currentTitle) && job.errors == old(job.errors)
      ensures job.status == J.JobStatus.Complete && job.completedAt == Some(now) && job.outputFiles == files
      ensures ejected == settings.ejectAfterRip
      ensures Snapshot(markers) ==
        Delivered(settings, old(Snapshot(markers)), files, job.disc, encode && settings.encodeEnabled, env.encodeOutcome, now)
    {
      job.status := J.JobStatus.Ripped;
      job.outputFiles := files;
      MarkReady(files, ReadyMetadata(job.disc), now);
      ejected := settings.ejectAfterRip;
      if encode && settings.encodeEnabled {
        job.status := J.JobStatus.Encoding;
        EncodeFiles(files, env.encodeOutcome, env.otherEntries, now);
      }
      job.Complete(now);
    }

    /** `_is_already_processed`: the candidates under the raw directory first, then under Movies. */
    method IsAlreadyProcessed(disc: Disc, inMovies: Naming.Path -> bool) returns (r: bool)
      ensures r == AlreadyProcessed(settings, disc, markers.media, inMovies)
    {
      if disc.metadata.None? {
        return false;
      }
      var ps := Candidates(disc.metadata.value);
      r := SearchRawDir(markers.media, settings.rawDir, ps);
      if !r {
        r := SearchMovies(settings.outputDir, ps, inMovies);
      }
    }

    /**
     * `_rip_titles`: one call per selected title, in selection order, each preceded by
     * setting the current title and the progress; failed titles are skipped.
     */
    method RipTitles(job: J.Job, rip: nat -> RipResult) returns (files: seq<string>, calls: seq<RipCall>)
      modifies job, markers
      ensures var n := |job.selectedTitles|;
        files == RippedPaths(rip, n) && |calls| == n &&
        (forall k :: 0 <= k < n ==> calls[k] == RipCall(job.disc.device, job.selectedTitles[k].index, job.outputDir, Progress(k, n))) &&
        (n > 0 ==> job.currentTitle == Some(job.selectedTitles[n - 1].index) && job.progress == Progress(n - 1, n)) &&
        (n == 0 ==> job.currentTitle == old(job.currentTitle) && job.progress == old(job.progress))
      ensures Snapshot(markers) == RippedStore(old(Snapshot(markers)), rip, |job.selectedTitles|)
      ensures job.id == old(job.id) && job.disc == old(job.disc) && job.selectedTitles == old(job.selectedTitles)
      ensures job.outputDir == old(job.outputDir) && job.status == old(job.status) && job.createdAt == old(job.createdAt)
      ensures job.startedAt == old(job.startedAt) && job.completedAt == old(job.completedAt)
      ensures job.errors == old(job.errors) && job.outputFiles == old(job.outputFiles)
    {
      var n := |job.selectedTitles|;
      ghost var st0 := Snapshot(markers);
      files := [];
      calls := [];
      var k := 0;
      while k < n
        invariant 0 <= k <= n && job.selectedTitles == old(job.selectedTitles) && n == |job.selectedTitles|
        invariant files == RippedPaths(rip, k)
        invariant Snapshot(markers) == RippedStore(st0, rip, k)
        invariant |calls| == k
        invariant forall j :: 0 <= j < k ==> calls[j] == RipCall(job.disc.device, job.selectedTitles[j].index, job.outputDir, Progress(j, n))
        invariant k > 0 ==> job.currentTitle == Some(job.selectedTitles[k - 1].index) && job.progress == Progress(k - 1, n)
        invariant k == 0 ==> job.currentTitle == old(job.currentTitle) && job.progress == old(job.progress)
        invariant job.id == old(job.id) && job.disc == old(job.disc) && job.selectedTitles == old(job.selectedTitles)
        invariant job.outputDir == old(job.outputDir) && job.status == old(job.status) && job.createdAt == old(job.createdAt)
        invariant job.startedAt == old(job.startedAt) && job.completedAt == old(job.completedAt)
        invariant job.errors == old(job.errors) && job.outputFiles == old(job.outputFiles)
      {
        var title := job.selectedTitles[k];
        job.currentTitle := Some(title.index);
        job.progress := Progress(k, n);
        calls := calls + [RipCall(job.disc.device, title.index, job.outputDir, job.progress)];
        match rip(k) {
          case Ripped(p, size) =>
            files := files + [p];
            if p !in markers.media {
              markers.media := markers.media + [p];
            }
            markers.sizes := markers.sizes[p := size];
          case RipFailed(_) =>
        }
        k := k + 1;
      }
    }

    /** The ready markers of `process_disc`, one per ripped file, each with the disc's metadata. */
    method MarkReady(files: seq<string>, md: Metadata, now: int)
      modifies markers
      ensures markers.slots == CreatedAll(old(markers.slots), files, md, now)
      ensures markers.media == old(markers.media) && markers.sizes == old(markers.sizes)
    {
      ghost var slots0 := markers.slots;
      var i := 0;
      while i < |files|
        invariant 0 <= i <= |files|
        invariant markers.slots == CreatedAll(slots0, files[..i], md, now)
        invariant markers.media == old(markers.media) && markers.sizes == old(markers.sizes)
      {
        CreatedAllSnoc(slots0, files, md, now, i);
        var _ := markers.CreateMarker(files[i], Ready, Some(md), None, now);
        i := i + 1;
      }
      assert files[..i] == files;
    }

    /**
     * `_cleanup_raw_file`: the raw file unlinked and its markers removed; the parent
     * directory is removed when nothing is left in it.
     */
    method CleanupRawFile(f: string, otherEntries: bool) returns (removedParent: bool)
      modifies markers
      ensures Snapshot(markers) == Cleaned(old(Snapshot(markers)), f)
      ensures removedParent == DirEmpty(Snapshot(markers), Parent(f), otherEntries)
    {
      ghost var st0 := Snapshot(markers);
      markers.media := Filter(markers.media, NotPath(f));
      markers.sizes := markers.sizes - {f};
      markers.RemoveMarkers(f);
      assert Snapshot(markers) == Cleaned(st0, f);
      removedParent := DirEmpty(Snapshot(markers), Parent(f), otherEntries);
    }

    /** One encode of a file with its marker updates. */
    method EncodeOne(f: string, outcome: Result<string>, otherEntries: bool, now: int) returns (removedParent: bool)
      modifies markers
      ensures Snapshot(markers) == AfterEncode(old(Snapshot(markers)), f, outcome, settings.deleteRawAfterEncode, now)
      ensures removedParent == (outcome.Ok? && settings.deleteRawAfterEncode &&
        DirEmpty(Snapshot(markers), Parent(f), otherEntries))
    {
      var _ := markers.UpdateStatus(f, Transcoding, None, now);
      removedParent := false;
      match outcome {
        case Ok(_) =>
          var _ := markers.UpdateStatus(f, Complete, None, now);
          if settings.deleteRawAfterEncode {
            removedParent := CleanupRawFile(f, otherEntries);
          }
        case Err(e) =>
          var _ := markers.UpdateStatus(f, Failed, Some(e), now);
      }
    }

    /** `_encode_files`: each output file still present is encoded in turn. */
    method EncodeFiles(files: seq<string>, outcome: string -> Result<string>, otherEntries: string -> bool, now: int)
      modifies markers
      ensures Snapshot(markers) == EncodedAll(old(Snapshot(markers)), files, outcome, settings.deleteRawAfterEncode, now)
    {
      ghost var st0 := Snapshot(markers);
      var i := 0;
      while i < |files|
        invariant 0 <= i <= |files|
        invariant Snapshot(markers) == EncodedAll(st0, files[..i], outcome, settings.deleteRawAfterEncode, now)
      {
        EncodedAllSnoc(st0, files, outcome, settings.deleteRawAfterEncode, now, i);
        var f := files[i];
        if f in markers.media {
          var _ := EncodeOne(f, outcome(f), otherEntries(Parent(f)), now);
        }
        i := i + 1;
      }
      assert files[..i] == files;
    }

    /**
     * One step of `process_queue`: the oldest ready file is set transcoding and encoded to
     * the disc-name layout; it then ends complete (and is cleaned up when raw files are
     * deleted) or failed with the error.
     */
    method DrainStep(outcome: Result<string>, otherEntries: bool, now: int) returns (d: Drain)
      modifies markers
      ensures var ready := old(Listing(markers.media, markers.slots, markers.sizes, Some("ready")));
        (ready == [] <==> d.NothingReady?) &&
        (ready == [] ==> Snapshot(markers) == old(Snapshot(markers)))
      ensures var ready := old(Listing(markers.media, markers.slots, markers.sizes, Some("ready")));
        ready != [] ==>
          d.info == ready[0] && d.target == DrainTarget(settings.outputDir, ready[0]) &&
          Snapshot(markers) == AfterEncode(old(Snapshot(markers)), ready[0].path, outcome, settings.deleteRawAfterEncode, now) &&
          (d.EncodeFailed? <==> outcome.Err?) &&
          (d.EncodeFailed? ==> d.error == outcome.error) &&
          (d.Encoded? ==>
             d.removedParent == (settings.deleteRawAfterEncode && DirEmpty(Snapshot(markers), Parent(ready[0].path), otherEntries)))
    {
      var next := markers.GetNextReady();
      if next.None? {
        return NothingReady;
      }
      var info := next.value;
      var target := Naming.OutputPath(settings.outputDir, RebuiltDisc(info), info.name, None, None);
      var removed := EncodeOne(info.path, outcome, otherEntries, now);
      if outcome.Ok? {
        d := Encoded(info, target, removed);
      } else {
        d := EncodeFailed(info, target, outcome.error);
      }
    }

    /** `recover_interrupted`: every transcoding file goes back to ready; the count is returned. */
    method RecoverInterrupted(now: int) returns (count: nat)
      modifies markers
      ensures var t := old(Listing(markers.media, markers.slots, markers.sizes, Some("transcoding")));
        count == |t| && markers.slots == UpdatedAll(old(markers.slots), Paths(t), Ready, now)
      ensures markers.media == old(markers.media) && markers.sizes == old(markers.sizes)
    {
      var interrupted := markers.ListJobs(Some("transcoding"));
      ghost var ps := Paths(interrupted);
      ghost var slots0 := markers.slots;
      count := 0;
      while count < |interrupted|
        invariant count <= |interrupted|
        invariant markers.slots == UpdatedAll(slots0, ps[..count], Ready, now)
        invariant markers.media == old(markers.media) && markers.sizes == old(markers.sizes)
      {
        UpdatedAllSnoc(slots0, ps, Ready, now, count);
        assert ps[count] == interrupted[count].path;
        var _ := markers.UpdateStatus(interrupted[count].path, Ready, None, now);
        count := count + 1;
      }
      assert ps[..count] == ps;
    }
  }
}
