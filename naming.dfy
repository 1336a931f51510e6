/**
 * Plex/Jellyfin-style output paths (`riparr.output.naming`): the movie, TV and
 * no-metadata layouts, the file-name sanitizer, the year and episode-number searches
 * and the codec string put into file names. A path is its list of components, the
 * output directory's first; the source file enters only through its stem.
 */
module Naming {
  import opened Wrappers
  import opened Strings
  import opened CoreDisc

  type Path = seq<string>

  /** Python truthiness of an optional string. */
  predicate Given(o: Option<string>) { o.Some? && o.value != "" }

  // ---------------------------------------------------------------------------
  // _sanitize_filename
  // ---------------------------------------------------------------------------

  const InvalidChars: set<char> := {'<', '>', ':', '"', '/', '\\', '|', '?', '*'}
  const MaxNameLength := 200

  /** The character-level facts `_sanitize_filename` establishes, which every prefix keeps. */
  predicate CleanChars(r: string)
  {
    && (forall i :: 0 <= i < |r| ==> r[i] !in InvalidChars)
    && (forall i :: 0 <= i < |r| && IsSpace(r[i]) ==> r[i] == ' ')
    && (forall i :: 0 <= i < |r| - 1 && r[i] == ' ' ==> r[i + 1] != ' ')
    && (|r| > 0 ==> r[0] != ' ' && r[0] != '.')
  }

  /** A name as `_sanitize_filename` leaves it. */
  predicate CleanName(r: string)
  {
    |r| <= MaxNameLength && CleanChars(r)
  }

  /**
   * `_sanitize_filename`: drop the invalid characters, collapse white space, strip
   * blanks and dots at both ends, cut to 200 characters.
   */
  function Sanitize(name: string): (r: string)
    ensures CleanName(r)
  {
    var a := RemoveChars(name, InvalidChars);
    CollapseSpacesKeeps(a, InvalidChars);
    var c := StripChars(CollapseSpaces(a), {' ', '.'});
    StrippedClean(CollapseSpaces(a));
    if |c| > MaxNameLength then
      PrefixClean(c, MaxNameLength);
      c[..MaxNameLength]
    else c
  }

  /** How many characters `strip` removes at the front. */
  function Lead(b: string, cs: set<char>): nat
  {
    |b| - |TrimLeft(b, cs)|
  }

  /** What `strip` keeps is a piece of its input. */
  lemma StripPiece(b: string, cs: set<char>)
    ensures Lead(b, cs) + |StripChars(b, cs)| <= |b|
    ensures StripChars(b, cs) == b[Lead(b, cs)..Lead(b, cs) + |StripChars(b, cs)|]
  {
    var t := TrimLeft(b, cs);
    var c := TrimRight(t, cs);
    var k := |b| - |t|;
    assert t == b[k..];
    assert c == t[..|c|];
  }

  /** Stripping blanks and dots from collapsed, valid text gives a clean name. */
  lemma StrippedClean(b: string)
    requires forall i :: 0 <= i < |b| ==> b[i] !in InvalidChars
    requires forall i :: 0 <= i < |b| && IsSpace(b[i]) ==> b[i] == ' '
    requires forall i :: 0 <= i < |b| - 1 && b[i] == ' ' ==> b[i + 1] != ' '
    ensures CleanChars(StripChars(b, {' ', '.'}))
  {
    var c := StripChars(b, {' ', '.'});
    StripPiece(b, {' ', '.'});
    var k := Lead(b, {' ', '.'});
    assert forall i :: 0 <= i < |c| ==> c[i] == b[k + i];
  }

  lemma PrefixClean(c: string, n: nat)
    requires CleanChars(c) && n <= |c|
    ensures CleanChars(c[..n])
  {
    assert forall i :: 0 <= i < n ==> c[..n][i] == c[i];
  }

  /** A name that is already clean, and does not end in a blank or dot, is kept as it is. */
  lemma SanitizeClean(name: string)
    requires CleanName(name)
    requires |name| > 0 ==> name[|name| - 1] != ' ' && name[|name| - 1] != '.'
    ensures Sanitize(name) == name
  {
    CollapseSpacesNoop(name);
    StripCharsNoop(name, {' ', '.'});
  }

  /** Sanitizing twice changes nothing more, unless the first pass had to cut the name. */
  lemma SanitizeTwice(name: string)
    requires |Sanitize(name)| < MaxNameLength
    ensures Sanitize(Sanitize(name)) == Sanitize(name)
  {
    var b := CollapseSpaces(RemoveChars(name, InvalidChars));
    var c := StripChars(b, {' ', '.'});
    assert Sanitize(name) == c;
    assert |c| > 0 ==> c[|c| - 1] !in {' ', '.'};
    SanitizeClean(c);
  }

  // ---------------------------------------------------------------------------
  // _path_from_disc_name
  // ---------------------------------------------------------------------------

  const YearSeparators: set<char> := Whitespace + {'.', '_'}

  /** `[\._\s](\d{4})` matches at `i`. */
  predicate YearAt(s: string, i: int)
  {
    0 <= i && i + 5 <= |s| && s[i] in YearSeparators && AllDigits(s[i + 1..i + 5])
  }

  /** `re.search(r"[\._\s](\d{4})[\._\s]?", s)` from `from`: where the leftmost match starts. */
  function FindYear(s: string, from: nat): (r: Option<nat>)
    ensures r.Some? ==> from <= r.value && YearAt(s, r.value)
    ensures r.Some? ==> forall j :: from <= j < r.value ==> !YearAt(s, j)
    ensures r.None? ==> forall j :: from <= j ==> !YearAt(s, j)
    decreases |s| - from
  {
    if from + 5 > |s| then None
    else if YearAt(s, from) then Some(from)
    else FindYear(s, from + 1)
  }

  /** The year a disc name shows: four digits after a dot, underscore or blank. */
  function YearIn(name: string): (r: Option<string>)
    ensures r.Some? ==> |r.value| == 4 && AllDigits(r.value)
    ensures r.None? <==> forall j :: !YearAt(name, j)
  {
    match FindYear(name, 0)
    case None => None
    case Some(i) => Some(name[i + 1..i + 5])
  }

  /** No dot, no underscore, no two blanks in a row and no white space at either end. */
  predicate Tidied(r: string)
  {
    && (forall i :: 0 <= i < |r| ==> r[i] != '.' && r[i] != '_')
    && (forall i :: 0 <= i < |r| - 1 && r[i] == ' ' ==> r[i + 1] != ' ')
    && (|r| > 0 ==> !IsSpace(r[0]) && !IsSpace(r[|r| - 1]))
  }

  /** `re.sub(r"[\._]", " ", name)`, then white space collapsed and stripped. */
  function Tidy(name: string): (r: string)
    ensures Tidied(r)
  {
    var a := ReplaceChars(name, {'.', '_'}, ' ');
    var b := CollapseSpaces(a);
    assert forall i :: 0 <= i < |b| ==> b[i] != '.' && b[i] != '_' by {
      CollapseSpacesKeeps(a, {'.', '_'});
    }
    StripInner(b);
    Strip(b)
  }

  /** Stripping keeps what holds of every character and of every neighbouring pair. */
  lemma StripInner(b: string)
    requires forall i :: 0 <= i < |b| ==> b[i] != '.' && b[i] != '_'
    requires forall i :: 0 <= i < |b| - 1 && b[i] == ' ' ==> b[i + 1] != ' '
    ensures Tidied(Strip(b))
  {
    var r := Strip(b);
    StripPiece(b, Whitespace);
    var k := Lead(b, Whitespace);
    assert r == b[k..k + |r|];
    assert forall i :: 0 <= i < |r| ==> r[i] == b[k + i];
  }

  /** `name.ext` when no codec string is given, `name [codec].ext` when one is. */
  function WithCodec(name: string, codec: Option<string>): string
  {
    if Given(codec) then name + " [" + codec.value + "].mkv" else name + ".mkv"
  }

  /**
   * The components `p / c` adds: `c` itself, except that pathlib drops an empty part
   * (`Path("out") / ""` is `Path("out")`). Only a folder named after a title can be empty
   * here; every other component is a fixed word or a file name ending in ".mkv".
   */
  function Component(c: string): (r: seq<string>)
    ensures r == [] <==> c == ""
    ensures c != "" ==> r == [c]
  {
    if c == "" then [] else [c]
  }

  /**
   * `dir / top / folder / rest…`: the folder is dropped when it is empty; `top` and the
   * parts in `rest` are never empty.
   */
  function Under(dir: Path, top: string, folder: string, rest: seq<string>): (r: Path)
    ensures |r| == |dir| + 1 + |Component(folder)| + |rest|
    ensures r[..|dir|] == dir && r[|dir|] == top && r[|r| - |rest|..] == rest
    ensures folder != "" ==> r[|dir| + 1] == folder
  {
    var parts := [top] + Component(folder) + rest;
    var r := dir + parts;
    assert r[..|dir|] == dir && r[|dir|] == parts[0];
    assert r[|r| - |rest|..] == rest;
    assert folder != "" ==> r[|dir| + 1] == parts[1];
    r
  }

  /** `disc.name or disc.label or source_file.stem`. */
  function NameSource(disc: Disc, stem: string): string
  {
    if disc.name != "" then disc.name else if Given(disc.volumeLabel) then disc.volumeLabel.value else stem
  }

  /**
   * The folder `_path_from_disc_name` names: the tidied name, then " (YYYY)" when the
   * name shows a year. Like the tidied name, it holds no dot, no underscore and no two
   * blanks in a row.
   */
  function UnknownFolder(clean: string, year: Option<string>): (r: string)
    requires Tidied(clean)
    requires year.Some? ==> AllDigits(year.value)
    ensures forall i :: 0 <= i < |r| ==> r[i] != '.' && r[i] != '_'
    ensures forall i :: 0 <= i < |r| - 1 && r[i] == ' ' ==> r[i + 1] != ' '
    ensures |r| >= |clean| && r[..|clean|] == clean
    ensures year.None? ==> r == clean
    ensures year.Some? ==> r[|clean|..] == " (" + year.value + ")"
  {
    match year
    case None => clean
    case Some(y) =>
      YearSuffixClean(clean, y);
      clean + " (" + y + ")"
  }

  /** The folder of a disc without metadata. */
  function DiscFolder(disc: Disc, stem: string): string
  {
    var name := Sanitize(NameSource(disc, stem));
    UnknownFolder(Tidy(name), YearIn(name))
  }

  lemma YearSuffixClean(clean: string, y: string)
    requires forall i :: 0 <= i < |clean| ==> clean[i] != '.' && clean[i] != '_'
    requires forall i :: 0 <= i < |clean| - 1 && clean[i] == ' ' ==> clean[i + 1] != ' '
    requires |clean| > 0 ==> clean[|clean| - 1] != ' '
    requires AllDigits(y)
    ensures var r := clean + " (" + y + ")";
      && (forall i :: 0 <= i < |r| ==> r[i] != '.' && r[i] != '_')
      && (forall i :: 0 <= i < |r| - 1 && r[i] == ' ' ==> r[i + 1] != ' ')
      && r[..|clean|] == clean && r[|clean|..] == " (" + y + ")"
  {
    var t := " (" + y + ")";
    var r := clean + t;
    assert r == clean + " (" + y + ")";
    forall i | 0 <= i < |t|
      ensures t[i] != '.' && t[i] != '_' && (i > 0 ==> t[i] != ' ')
    {
      if 2 <= i < |t| - 1 {
        assert t[i] == y[i - 2];
      }
    }
    forall i | 0 <= i < |r|
      ensures r[i] != '.' && r[i] != '_'
    {
      if i >= |clean| {
        assert r[i] == t[i - |clean|];
      }
    }
    assert |clean| > 0 ==> r[|clean| - 1] == clean[|clean| - 1];
    forall i | 0 <= i < |r| - 1 && r[i] == ' '
      ensures r[i + 1] != ' '
    {
      if i + 1 > |clean| {
        assert r[i + 1] == t[i + 1 - |clean|];
      } else if i + 1 < |clean| {
        assert r[i] == clean[i] && r[i + 1] == clean[i + 1];
      }
    }
  }

  /**
   * `_path_from_disc_name`: under `Unknown`, a folder named after the disc's name, else
   * its label, else the source file, and in it the source file with the codec string. A
   * name that cleans up to nothing leaves no folder: the file goes straight into `Unknown`.
   */
  function DiscNamePath(outputDir: Path, disc: Disc, stem: string, codec: Option<string>): (r: Path)
    ensures |r| >= |outputDir| + 2 && r[..|outputDir|] == outputDir && r[|outputDir|] == "Unknown"
    ensures r[|r| - 1] == WithCodec(stem, codec)
    ensures var folder := DiscFolder(disc, stem);
      && (folder != "" ==> |r| == |outputDir| + 3 && r[|outputDir| + 1] == folder)
      && (folder == "" ==> |r| == |outputDir| + 2)
  {
    var r := Under(outputDir, "Unknown", DiscFolder(disc, stem), [WithCodec(stem, codec)]);
    assert r[|r| - 1] == r[|r| - 1..][0];
    r
  }

  /** A disc with a name is placed by its name alone: its label makes no difference. */
  lemma DiscNameBeforeLabel(outputDir: Path, disc: Disc, stem: string, codec: Option<string>)
    requires disc.name != ""
    ensures DiscNamePath(outputDir, disc, stem, codec) == DiscNamePath(outputDir, disc.(volumeLabel := None), stem, codec)
  {
  }

  /** A disc without a name but with a label is placed as if it were named after the label. */
  lemma DiscNameFromLabel(outputDir: Path, disc: Disc, stem: string, codec: Option<string>)
    requires disc.name == "" && Given(disc.volumeLabel)
    ensures DiscNamePath(outputDir, disc, stem, codec) == DiscNamePath(outputDir, disc.(name := disc.volumeLabel.value), stem, codec)
  {
  }

  /** A disc with neither name nor label is placed as if it were named after the source file. */
  lemma DiscNameFallsBackToStem(outputDir: Path, disc: Disc, stem: string, codec: Option<string>)
    requires disc.name == "" && !Given(disc.volumeLabel)
    ensures DiscNamePath(outputDir, disc, stem, codec) == DiscNamePath(outputDir, disc.(name := stem), stem, codec)
  {
  }

  /** A disc named "???" sanitizes to nothing: its file goes straight into `Unknown`. */
  lemma UnknownWithoutFolder(outputDir: Path, disc: Disc, stem: string)
    requires disc.name == "???"
    ensures DiscNamePath(outputDir, disc, stem, None) == outputDir + ["Unknown", stem + ".mkv"]
  {
    assert RemoveChars("???", InvalidChars) == "";
    assert Sanitize("???") == "";
    assert Tidy("") == "";
    assert YearIn("").None?;
  }

  // ---------------------------------------------------------------------------
  // _movie_path and _tv_path
  // ---------------------------------------------------------------------------

  /** ` {imdb-I}` when an IMDb id is known. */
  function ImdbSuffix(m: DiscMetadata): string
  {
    if Given(m.imdbId) then " {imdb-" + m.imdbId.value + "}" else ""
  }

  /** `T (Y)` when a year other than 0 is known, else `T`. */
  function TitleYear(title: string, year: Option<int>): string
  {
    if year.Some? && year.value != 0 then title + " (" + IntToString(year.value) + ")" else title
  }

  /** `_movie_path`: `Movies/T (Y) {imdb-I}/T (Y) [codec].mkv`, each part only when known. */
  function MoviePath(outputDir: Path, m: DiscMetadata, codec: Option<string>): (r: Path)
    ensures |r| >= |outputDir| + 2 && r[..|outputDir|] == outputDir && r[|outputDir|] == "Movies"
    ensures var ty := TitleYear(Sanitize(m.title), m.year);
      && r[|r| - 1] == WithCodec(ty, codec)
      && (ty + ImdbSuffix(m) != "" ==> |r| == |outputDir| + 3 && r[|outputDir| + 1] == ty + ImdbSuffix(m))
      && (ty + ImdbSuffix(m) == "" ==> |r| == |outputDir| + 2)
  {
    var title := Sanitize(m.title);
    var hasYear := m.year.Some? && m.year.value != 0;
    var folder := (if hasYear then title + " (" + IntToString(m.year.value) + ")" else title) + ImdbSuffix(m);
    var filename :=
      if Given(codec) then
        (if hasYear then title + " (" + IntToString(m.year.value) + ") [" + codec.value + "].mkv"
         else title + " [" + codec.value + "].mkv")
      else if hasYear then title + " (" + IntToString(m.year.value) + ").mkv"
      else title + ".mkv";
    MovieFileNames(title, m.year, codec);
    var r := Under(outputDir, "Movies", folder, [filename]);
    assert r[|r| - 1] == r[|r| - 1..][0];
    r
  }

  /** The file names `_movie_path` spells out are the folder's `T (Y)` with the codec added. */
  lemma MovieFileNames(title: string, year: Option<int>, codec: Option<string>)
    ensures var hasYear := year.Some? && year.value != 0;
      && (Given(codec) && hasYear ==>
            title + " (" + IntToString(year.value) + ") [" + codec.value + "].mkv" == WithCodec(TitleYear(title, year), codec))
      && (Given(codec) && !hasYear ==> title + " [" + codec.value + "].mkv" == WithCodec(TitleYear(title, year), codec))
      && (!Given(codec) && hasYear ==> title + " (" + IntToString(year.value) + ").mkv" == WithCodec(TitleYear(title, year), codec))
      && (!Given(codec) && !hasYear ==> title + ".mkv" == WithCodec(TitleYear(title, year), codec))
  {
    if year.Some? && year.value != 0 {
      var y := IntToString(year.value);
      var ty := title + " (" + y + ")";
      assert TitleYear(title, year) == ty;
      if Given(codec) {
        var c := codec.value;
        assert ") [" == ")" + " [";
        calc {
          title + " (" + y + ") [" + c + "].mkv";
          title + " (" + y + (")" + " [") + c + "].mkv";
          ty + " [" + c + "].mkv";
        }
      } else {
        assert ").mkv" == ")" + ".mkv";
        calc {
          title + " (" + y + ").mkv";
          title + " (" + y + (")" + ".mkv");
          ty + ".mkv";
        }
      }
    }
  }

  /** `metadata.season or 1`. */
  function SeasonOf(m: DiscMetadata): (r: int)
    ensures r != 0
    ensures m.season.Some? && m.season.value != 0 ==> r == m.season.value
  {
    if m.season.Some? && m.season.value != 0 then m.season.value else 1
  }

  /** `_tv_path`: `TV/T {imdb-I}/Season SS/T - SxxEyy [codec].mkv`. */
  function TvPath(outputDir: Path, m: DiscMetadata, stem: string, titleNum: Option<int>, codec: Option<string>): (r: Path)
    ensures |r| >= |outputDir| + 3 && r[..|outputDir|] == outputDir && r[|outputDir|] == "TV"
    ensures var folder := Sanitize(m.title) + ImdbSuffix(m);
      && (folder != "" ==> |r| == |outputDir| + 4 && r[|outputDir| + 1] == folder)
      && (folder == "" ==> |r| == |outputDir| + 3)
    ensures r[|r| - 2] == "Season " + Pad2(SeasonOf(m))
    ensures r[|r| - 1] == WithCodec(Sanitize(m.title) + " - " + TvCode(SeasonOf(m), EpisodeNumber(stem, titleNum)), codec)
  {
    var title := Sanitize(m.title);
    var season := SeasonOf(m);
    var episode := EpisodeNumber(stem, titleNum);
    var code := TvCode(season, episode);
    var rest := ["Season " + Pad2(season), WithCodec(title + " - " + code, codec)];
    var r := Under(outputDir, "TV", title + ImdbSuffix(m), rest);
    assert r[|r| - 2] == r[|r| - 2..][0] && r[|r| - 1] == r[|r| - 2..][1];
    r
  }

  /** `SxxEyy`. */
  function TvCode(season: int, episode: int): string
  {
    "S" + Pad2(season) + "E" + Pad2(episode)
  }

  /** Reading an episode code back: the numbers between `S` and `E` and after `E`. */
  function ParseTvCode(code: string): Option<(int, int)>
  {
    if |code| == 0 || code[0] != 'S' then None
    else
      var rest := code[1..];
      match IndexOf(rest, 'E')
      case None => None
      case Some(k) =>
        var s, e := ParseInt(rest[..k]), ParseInt(rest[k + 1..]);
        if s.Some? && e.Some? then Some((s.value, e.value)) else None
  }

  /** The episode code of a TV path reads back as its season and episode. */
  lemma TvCodeRoundTrip(season: int, episode: int)
    ensures ParseTvCode(TvCode(season, episode)) == Some((season, episode))
  {
    Pad2Chars(season);
    CodeRoundTrip(Pad2(season), Pad2(episode), season, episode);
  }

  lemma CodeRoundTrip(a: string, b: string, season: int, episode: int)
    requires 'E' !in a
    requires ParseInt(a) == Some(season) && ParseInt(b) == Some(episode)
    ensures ParseTvCode("S" + a + "E" + b) == Some((season, episode))
  {
    var code := "S" + a + "E" + b;
    var rest := a + "E" + b;
    assert code[0] == 'S' && code[1..] == rest by {
      assert code == "S" + rest;
    }
    assert IndexOf(rest, 'E') == Some(|a|) by {
      IndexOfAfter(a, 'E', b);
    }
    assert rest[..|a|] == a && rest[|a| + 1..] == b by {
      PiecesAround(a, 'E', b);
    }
    ParseTvCodeOf(code, |a|, season, episode);
  }

  lemma ParseTvCodeOf(code: string, k: nat, season: int, episode: int)
    requires |code| > 0 && code[0] == 'S' && IndexOf(code[1..], 'E') == Some(k)
    requires ParseInt(code[1..][..k]) == Some(season) && ParseInt(code[1..][k + 1..]) == Some(episode)
    ensures ParseTvCode(code) == Some((season, episode))
  {
  }

  /** The pieces on either side of the separator in `a + [c] + b`. */
  lemma PiecesAround(a: string, c: char, b: string)
    ensures (a + [c] + b)[..|a|] == a && (a + [c] + b)[|a| + 1..] == b
  {
  }

  /** The first `c` in `a + [c] + b` is the one after `a`, when `a` has none. */
  lemma IndexOfAfter(a: string, c: char, b: string)
    requires c !in a
    ensures IndexOf(a + [c] + b, c) == Some(|a|)
  {
    var s := a + [c] + b;
    assert s[|a|] == c;
    var r := IndexOf(s, c);
    assert s[..|a|] == a;
  }

  /** The season folder reads back as the season, which is never 0. */
  lemma SeasonFolderNumber(m: DiscMetadata)
    ensures var f := "Season " + Pad2(SeasonOf(m)); f[..7] == "Season " && ParseInt(f[7..]) == Some(SeasonOf(m))
  {
    var f := "Season " + Pad2(SeasonOf(m));
    assert f[7..] == Pad2(SeasonOf(m));
  }

  /**
   * `get_output_path`: no metadata gives the disc-name layout, a TV disc the TV layout,
   * and every other media type the movie layout.
   */
  function OutputPath(outputDir: Path, disc: Disc, stem: string, titleNum: Option<int>, codec: Option<string>): (r: Path)
    ensures disc.metadata.None? ==> r == DiscNamePath(outputDir, disc, stem, codec)
    ensures disc.metadata.Some? && disc.metadata.value.mediaType == Tv ==>
      r == TvPath(outputDir, disc.metadata.value, stem, titleNum, codec)
    ensures disc.metadata.Some? && disc.metadata.value.mediaType != Tv ==>
      r == MoviePath(outputDir, disc.metadata.value, codec)
    ensures |r| > |outputDir| && r[..|outputDir|] == outputDir
  {
    match disc.metadata
    case None => DiscNamePath(outputDir, disc, stem, codec)
    case Some(m) =>
      if m.mediaType == Tv then TvPath(outputDir, m, stem, titleNum, codec) else MoviePath(outputDir, m, codec)
  }

  /**
   * The folders a movie path adds are single components: none holds a '/', as long as
   * the IMDb id and codec string do not.
   */
  lemma MoviePathComponents(outputDir: Path, m: DiscMetadata, codec: Option<string>)
    requires m.imdbId.Some? ==> '/' !in m.imdbId.value
    requires codec.Some? ==> '/' !in codec.value
    ensures var r := MoviePath(outputDir, m, codec);
      forall i :: |outputDir| <= i < |r| ==> '/' !in r[i] && r[i] != ""
  {
    var ty := TitleYear(Sanitize(m.title), m.year);
    TitleYearNoSlash(m.title, m.year);
    var r := MoviePath(outputDir, m, codec);
    ImdbNoSlash(m);
    CodecNoSlash(ty, codec);
    var f := ty + ImdbSuffix(m);
    assert '/' !in f;
    forall i | |outputDir| <= i < |r|
      ensures '/' !in r[i] && r[i] != ""
    {
      if i == |r| - 1 {
        assert r[i] == WithCodec(ty, codec);
      } else if i > |outputDir| {
        assert f != "" && r[i] == f;
      }
    }
  }

  lemma ImdbNoSlash(m: DiscMetadata)
    requires m.imdbId.Some? ==> '/' !in m.imdbId.value
    ensures '/' !in ImdbSuffix(m)
  {
  }

  lemma CodecNoSlash(name: string, codec: Option<string>)
    requires '/' !in name
    requires codec.Some? ==> '/' !in codec.value
    ensures '/' !in WithCodec(name, codec)
  {
  }

  lemma SanitizeNoSlash(name: string)
    ensures '/' !in Sanitize(name)
  {
    var t := Sanitize(name);
    assert forall i :: 0 <= i < |t| ==> t[i] != '/';
  }

  lemma TitleYearNoSlash(name: string, year: Option<int>)
    ensures '/' !in TitleYear(Sanitize(name), year)
  {
    SanitizeNoSlash(name);
    if year.Some? && year.value != 0 {
      var y := IntToString(year.value);
      assert forall i :: 0 <= i < |y| ==> y[i] != '/';
    }
  }

  // ---------------------------------------------------------------------------
  // _extract_episode_number
  // ---------------------------------------------------------------------------

  /** The five episode patterns, tried in this order. */
  datatype EpisodePattern =
    | LetterE      // [Ee](\d{1,2})
    | LetterX      // [Xx](\d{1,2})
    | Underscored  // _(\d{1,2})(?:_|\.)
    | LetterT      // [Tt](\d{1,2})
    | OfTotal      // (\d{1,2})(?:of|OF)\d+

  const EpisodePatterns: seq<EpisodePattern> := [LetterE, LetterX, Underscored, LetterT, OfTotal]

  function DigitValue(c: char): nat
    requires IsDigit(c)
  {
    c as int - '0' as int
  }

  /** `\d{1,2}` at `i`, greedy: two digits when there are two, else one. */
  function Digits12(s: string, i: nat): (r: nat)
    requires i < |s| && IsDigit(s[i])
    ensures r < 100
  {
    if i + 1 < |s| && IsDigit(s[i + 1]) then 10 * DigitValue(s[i]) + DigitValue(s[i + 1]) else DigitValue(s[i])
  }

  /** `(?:of|OF)\d+` at `i`. */
  predicate OfAt(s: string, i: nat)
  {
    i + 3 <= |s| && (s[i..i + 2] == "of" || s[i..i + 2] == "OF") && IsDigit(s[i + 2])
  }

  /** The number `p` captures when its match starts at `i`, if it matches there. */
  function MatchAt(p: EpisodePattern, s: string, i: nat): (r: Option<nat>)
    ensures r.Some? ==> r.value < 100
  {
    if i >= |s| then None
    else match p
      case LetterE =>
        if s[i] in {'E', 'e'} && i + 1 < |s| && IsDigit(s[i + 1]) then Some(Digits12(s, i + 1)) else None
      case LetterX =>
        if s[i] in {'X', 'x'} && i + 1 < |s| && IsDigit(s[i + 1]) then Some(Digits12(s, i + 1)) else None
      case LetterT =>
        if s[i] in {'T', 't'} && i + 1 < |s| && IsDigit(s[i + 1]) then Some(Digits12(s, i + 1)) else None
      case Underscored =>
        if s[i] == '_' && i + 1 < |s| && IsDigit(s[i + 1]) then
          if i + 3 < |s| && IsDigit(s[i + 2]) && s[i + 3] in {'_', '.'} then Some(Digits12(s, i + 1))
          else if i + 2 < |s| && s[i + 2] in {'_', '.'} then Some(DigitValue(s[i + 1]))
          else None
        else None
      case OfTotal =>
        if IsDigit(s[i]) then
          if i + 1 < |s| && IsDigit(s[i + 1]) && OfAt(s, i + 2) then Some(Digits12(s, i))
          else if OfAt(s, i + 1) then Some(DigitValue(s[i]))
          else None
        else None
  }

  /** `re.search`: the leftmost position from `from` where `p` matches. */
  function Search(p: EpisodePattern, s: string, from: nat): (r: Option<nat>)
    ensures r.Some? ==> from <= r.value < |s| && MatchAt(p, s, r.value).Some?
    ensures r.Some? ==> forall j :: from <= j < r.value ==> MatchAt(p, s, j).None?
    ensures r.None? ==> forall j :: from <= j ==> MatchAt(p, s, j).None?
    decreases |s| - from
  {
    if from >= |s| then None
    else if MatchAt(p, s, from).Some? then Some(from)
    else Search(p, s, from + 1)
  }

  /** The number the first pattern (in the given order) that matches anywhere captures. */
  function FirstCapture(patterns: seq<EpisodePattern>, s: string): (r: Option<nat>)
    ensures r.Some? ==> r.value < 100
    ensures r.None? <==> forall k, j :: 0 <= k < |patterns| ==> MatchAt(patterns[k], s, j).None?
  {
    if patterns == [] then None
    else match Search(patterns[0], s, 0)
      case Some(j) => MatchAt(patterns[0], s, j)
      case None =>
        var rest := FirstCapture(patterns[1..], s);
        assert forall k :: 1 <= k < |patterns| ==> patterns[k] == patterns[1..][k - 1];
        rest
  }

  /** `_extract_episode_number`: a pattern's capture, else the title number, else 1. */
  function EpisodeNumber(stem: string, titleNum: Option<int>): (r: int)
    ensures FirstCapture(EpisodePatterns, stem).Some? ==> 0 <= r < 100 && r == FirstCapture(EpisodePatterns, stem).value
    ensures FirstCapture(EpisodePatterns, stem).None? && titleNum.Some? ==> r == titleNum.value
    ensures FirstCapture(EpisodePatterns, stem).None? && titleNum.None? ==> r == 1
  {
    match FirstCapture(EpisodePatterns, stem)
    case Some(n) => n
    case None => if titleNum.Some? then titleNum.value else 1
  }

  /** An "E" number wins over every later pattern, wherever those match. */
  lemma EpisodeLetterFirst(stem: string, titleNum: Option<int>, j: nat)
    requires MatchAt(LetterE, stem, j).Some?
    ensures EpisodeNumber(stem, titleNum) == MatchAt(LetterE, stem, Search(LetterE, stem, 0).value).value
  {
    assert EpisodePatterns[0] == LetterE;
  }

  /** A stem no pattern matches falls back to the title number, and to 1 without one. */
  lemma EpisodeFallback(stem: string, titleNum: Option<int>)
    requires forall j :: 0 <= j < |stem| ==> !IsDigit(stem[j])
    ensures EpisodeNumber(stem, titleNum) == if titleNum.Some? then titleNum.value else 1
  {
    forall k, j | 0 <= k < |EpisodePatterns| ensures MatchAt(EpisodePatterns[k], stem, j).None? {
    }
  }

  // ---------------------------------------------------------------------------
  // generate_codec_string
  // ---------------------------------------------------------------------------

  /** The video part: H265, H264, or the first six characters upper-cased. */
  function VideoTag(video: string): (r: string)
    ensures (Contains(video, "265") || Contains(Lower(video), "hevc")) ==> r == "H265"
    ensures (!(Contains(video, "265") || Contains(Lower(video), "hevc")) &&
             (Contains(video, "264") || Contains(Lower(video), "avc"))) ==> r == "H264"
    ensures (!(Contains(video, "265") || Contains(Lower(video), "hevc")) &&
             !(Contains(video, "264") || Contains(Lower(video), "avc"))) ==>
      |r| == (if |video| < 6 then |video| else 6) && r == Upper(video)[..|r|]
  {
    if Contains(video, "265") || Contains(Lower(video), "hevc") then "H265"
    else if Contains(video, "264") || Contains(Lower(video), "avc") then "H264"
    else
      var u := Upper(video);
      if |u| < 6 then u else u[..6]
  }

  /** The audio part, by the first of TrueHD (Atmos), DTS-HD/DTS:X, DTS, AC3/AC-3, AAC found. */
  function AudioTag(audio: string): (r: Option<string>)
    ensures r.Some? ==> r.value in {"Atmos", "TrueHD", "DTS-HD", "DTS", "DD", "AAC"}
    ensures Contains(Upper(audio), "TRUEHD") ==>
      r == Some(if Contains(Upper(audio), "ATMOS") then "Atmos" else "TrueHD")
    ensures (!Contains(Upper(audio), "TRUEHD") && (Contains(Upper(audio), "DTS-HD") || Contains(Upper(audio), "DTS:X"))) ==>
      r == Some("DTS-HD")
    ensures var u := Upper(audio);
      !Contains(u, "TRUEHD") && !Contains(u, "DTS-HD") && !Contains(u, "DTS:X") && Contains(u, "DTS") ==>
      r == Some("DTS")
    ensures var u := Upper(audio);
      !Contains(u, "TRUEHD") && !Contains(u, "DTS") && (Contains(u, "AC3") || Contains(u, "AC-3")) ==>
      r == Some("DD")
    ensures var u := Upper(audio);
      (!Contains(u, "TRUEHD") && !Contains(u, "DTS") && !Contains(u, "AC3") && !Contains(u, "AC-3") &&
       Contains(u, "AAC")) ==> r == Some("AAC")
    ensures r.None? <==>
      (!Contains(Upper(audio), "TRUEHD") && !Contains(Upper(audio), "DTS") &&
       !Contains(Upper(audio), "AC3") && !Contains(Upper(audio), "AC-3") && !Contains(Upper(audio), "AAC"))
  {
    var u := Upper(audio);
    DtsHdHasDts(u);
    if Contains(u, "TRUEHD") then Some(if Contains(u, "ATMOS") then "Atmos" else "TrueHD")
    else if Contains(u, "DTS-HD") || Contains(u, "DTS:X") then
      Some("DTS-HD")
    else if Contains(u, "DTS") then Some("DTS")
    else if Contains(u, "AC3") || Contains(u, "AC-3") then Some("DD")
    else if Contains(u, "AAC") then Some("AAC")
    else None
  }

  /** Text naming DTS-HD or DTS:X also names DTS. */
  lemma DtsHdHasDts(u: string)
    ensures Contains(u, "DTS-HD") || Contains(u, "DTS:X") ==> Contains(u, "DTS")
  {
    if Contains(u, "DTS-HD") || Contains(u, "DTS:X") {
      var sub := if Contains(u, "DTS-HD") then "DTS-HD" else "DTS:X";
      ContainsFromMeaning(u, sub, 0);
      var k: nat :| k <= |u| && OccursAt(u, sub, k);
      OccursAtMeaning(u, sub, k);
      OccursAtMeaning(u, "DTS", k);
      assert u[k..k + 3] == u[k..k + |sub|][..3];
      ContainsFromMeaning(u, "DTS", 0);
    }
  }

  /** The parts of the codec string, in order: video, "HDR" when asked for, audio when recognised. */
  function CodecParts(video: string, audio: string, hdr: bool): (r: seq<string>)
    ensures |r| >= 1 && r[0] == VideoTag(video)
    ensures "HDR" in r[1..] <==> hdr
    ensures hdr ==> r[1] == "HDR"
    ensures AudioTag(audio).Some? ==> r[|r| - 1] == AudioTag(audio).value
    ensures |r| == 1 + (if hdr then 1 else 0) + (if AudioTag(audio).Some? then 1 else 0)
  {
    var h: seq<string> := if hdr then ["HDR"] else [];
    var t: seq<string> := match AudioTag(audio) case Some(a) => [a] case None => [];
    assert "HDR" !in t;
    var r := [VideoTag(video)] + h + t;
    assert r[1..] == h + t;
    r
  }

  /** `generate_codec_string`: the video tag, then " HDR" when asked for, then the audio tag after a blank. */
  function CodecString(video: string, audio: string, hdr: bool): (r: string)
    ensures r == VideoTag(video) + (if hdr then " HDR" else "") +
                 (if AudioTag(audio).Some? then " " + AudioTag(audio).value else "")
  {
    CodecJoin(video, audio, hdr);
    Join(CodecParts(video, audio, hdr), " ")
  }

  /** Joining the codec parts with blanks spells out video, " HDR" and " <audio>" in that order. */
  lemma CodecJoin(video: string, audio: string, hdr: bool)
    ensures Join(CodecParts(video, audio, hdr), " ") == VideoTag(video) + (if hdr then " HDR" else "") +
              (if AudioTag(audio).Some? then " " + AudioTag(audio).value else "")
  {
    var parts := CodecParts(video, audio, hdr);
    var front := [VideoTag(video)] + (if hdr then ["HDR"] else []);
    assert Join(front, " ") == VideoTag(video) + (if hdr then " HDR" else "") by {
      JoinSnoc([VideoTag(video)], "HDR", " ");
    }
    if AudioTag(audio).Some? {
      assert parts == front + [AudioTag(audio).value];
      JoinSnoc(front, AudioTag(audio).value, " ");
    } else {
      assert parts == front;
    }
  }

  /** Splitting the codec string at blanks gives the parts back, when the video part has no blank. */
  lemma CodecStringParts(video: string, audio: string, hdr: bool)
    requires ' ' !in VideoTag(video)
    ensures Split(CodecString(video, audio, hdr), ' ') == CodecParts(video, audio, hdr)
  {
    var parts := CodecParts(video, audio, hdr);
    assert forall i :: 1 <= i < |parts| ==> ' ' !in parts[i];
    SplitJoin(parts, ' ');
  }

  /** The audio part does not depend on letter case. */
  lemma AudioTagIgnoresCase(audio: string)
    ensures AudioTag(Lower(audio)) == AudioTag(audio)
  {
    UpperLower(audio);
  }
}
