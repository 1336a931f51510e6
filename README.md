# riparr, modelled in Dafny

riparr watches optical drives, rips the discs put into them with MakeMKV, names the
results the way Plex and Jellyfin expect, and queues them for encoding with HandBrake.
It keeps its queue as marker files beside the ripped `.mkv` files. This project models
the logic of that system and proves what it promises:

- **Detection.** The polling and udev backends turn probe results and device events into
  insert and remove callbacks. The watcher picks the drives and the backend.
- **MakeMKV.** The robot-mode line parser and the command wrappers built around it.
- **Titles.** Duration parsing, formatting and grouping. Disc classification and title
  selection.
- **Naming and codecs.** Output path naming, and the codec strings built from titles and
  from media information.
- **HandBrake.** Command construction and the preset filter.
- **Queue.** The marker store, the job record and job queue, and the queue manager's disc
  pipeline and drain step.
- **Status.** The status tracker behind the dashboard.

Each source file is one Dafny module:

| module | file | source |
|---|---|---|
| `CoreDisc` | disc.dfy | src/riparr/core/disc.py |
| `CoreTitle` | title.dfy | src/riparr/core/title.py |
| `Selector` | selector.dfy | src/riparr/ripper/selector.py |
| `Parser` | parser.dfy | src/riparr/ripper/parser.py |
| `MakeMkv` | makemkv.dfy | src/riparr/ripper/makemkv.py |
| `Naming` | naming.dfy | src/riparr/output/naming.py |
| `HandBrake` | handbrake.dfy | src/riparr/encoder/handbrake.py |
| `MediaInfo` | mediainfo.dfy | src/riparr/metadata/mediainfo.py |
| `Status` | status.dfy | src/riparr/tui/status.py |
| `JobModel` | job.dfy | src/riparr/core/job.py |
| `Markers` | markers.dfy | src/riparr/queue/markers.py |
| `Manager` | manager.dfy | src/riparr/queue/manager.py |
| `Poller` | poller.dfy | src/riparr/detection/poller.py |
| `Udev` | udev.dfy | src/riparr/detection/udev.py |
| `Watcher` | watcher.dfy | src/riparr/detection/watcher.py |

Four helper modules support them:

- `Wrappers` holds `Option` and `Result`.
- `Strings` holds ASCII string operations: `in`, `upper`, `strip`, `split`, `int()` and
  `str()`, with the round trip between the last two.
- `Lists` holds comprehension filters, Python's slice bounds and `sorted`. `sorted` is a
  stable insertion sort by key.
- `DiscEvents` holds the insert and remove callbacks of both detection backends.

The state that the source updates in place is a Dafny `class`. This covers the marker
store, the job, the job queue, the queue manager, the status tracker, the poller, the
udev monitor and the watcher. The loops of the source are methods. Each loop is proved
against a function that specifies it, and the properties are proved about those
functions. The pure parts of the source are functions and lemmas.

Everything outside the process is an input value:

- the MakeMKV and HandBrake runs;
- the metadata services;
- the files and directories on disk;
- the block devices and their probes;
- the udev event stream;
- the clock.

Timestamps are integers, ordered and otherwise opaque.

## Model

| member | source | states |
|---|---|---|
| CoreDisc.ChannelLayout | src/riparr/core/disc.py:37-47 | 1, 2, 6 and 8 channels are "Mono", "Stereo", "5.1" and "7.1". Any other count n is "<n>ch". |
| CoreDisc.ChannelLayoutSuffix | src/riparr/core/disc.py:41-47 | A layout name ends in "h" exactly when the count is not one of the four named ones. |
| CoreDisc.ChannelLayoutInjective | src/riparr/core/disc.py:41-47 | Two channel counts with the same layout name are equal. |
| CoreDisc.DurationStr | src/riparr/core/disc.py:78-85 | The string splits at ':' into three integers. The hours field is printed as `{:02d}` prints: decimal digits zero-padded to two, or a minus sign and digits without a leading zero; no plus sign, no blanks. Minutes and seconds are exactly two decimal digits and below 60. Together they are worth the duration in seconds. |
| CoreDisc.IsHdr | src/riparr/core/disc.py:101-105 | Some HDR indicator of the list occurs in the video codec. |
| CoreDisc.IsHdrWithoutHdr10 | src/riparr/core/disc.py:100-105 | `is_hdr` holds iff the codec contains "HDR", "Dolby Vision", "DV" or "HLG". "HDR10" adds nothing, since it contains "HDR". |
| CoreDisc.TotalDuration | src/riparr/core/disc.py:133-137 | The sum of the titles' durations. It is 0 for a disc without titles, and not negative when no title's duration is. |
| CoreDisc.TotalSize | src/riparr/core/disc.py:139-143 | The sum of the titles' sizes, 0 for a disc without titles. |
| CoreDisc.SumDurationsNonNegative | src/riparr/core/disc.py:135-137 | Durations that are not negative have a sum that is not negative. |
| CoreDisc.SumsSplit | src/riparr/core/disc.py:133-143 | The total duration and size of two lists of titles joined is the sum of their totals. |
| CoreDisc.TotalsSplit | src/riparr/core/disc.py:134-143 | Splitting a disc's titles in two splits its total duration and its total size the same way. |
| CoreDisc.TotalsOfOne | src/riparr/core/disc.py:134-143 | A disc with one title has that title's duration and size as its totals. |
| CoreDisc.FromLabel | src/riparr/core/disc.py:145-148 | The name and the label are the given label, the device is the given device, and every other field has its default. |
| CoreTitle.ParseDuration | src/riparr/core/title.py:6-23 | Three ':' fields are hours, minutes and seconds. Two are minutes and seconds. Otherwise only the first field is read. A field that is not an integer is a `ValueError`. |
| CoreTitle.FormatDuration | src/riparr/core/title.py:26-30 | The string splits at ':' into hours, minutes and seconds. Hours are decimal digits zero-padded to two (no other leading zero), or for a negative input a minus sign and digits; no plus sign, no blanks. Minutes and seconds are exactly two decimal digits and below 60. Together they are worth the input. |
| CoreTitle.ParseFormatRoundTrip | src/riparr/core/title.py:6-30 | `parse_duration(format_duration(s)) == s` for every integer s. Python's floor `divmod` keeps this true for negative s too. |
| CoreTitle.ParseHms | src/riparr/core/title.py:15-18 | Three fields that parse as integers h, m and s give h·3600 + m·60 + s. |
| CoreTitle.ParseMinutesSeconds | src/riparr/core/title.py:19-21 | "M:SS" parses to M·60 + S. |
| CoreTitle.ParseTwoParts | src/riparr/core/title.py:19-21 | Two fields that parse as m and s give m·60 + s. |
| CoreTitle.MaxDuration | src/riparr/core/title.py:51 | The largest duration: no title is longer, and some title has it. |
| CoreTitle.IsLikelyMainFeature | src/riparr/core/title.py:33-62 | The longest title qualifies. So does one reaching 90% of the longest with more than one audio track or at least ten chapters. |
| CoreTitle.MainFeatureBounds | src/riparr/core/title.py:33-62 | A title of maximal duration is a main feature. One below 90% of the maximum is not. Every non-empty list has a main feature. |
| CoreTitle.Shorter | src/riparr/core/title.py:81 | Every title kept is strictly shorter than the title, has another index, and comes from the list. |
| CoreTitle.IsLikelyPlayAll | src/riparr/core/title.py:65-98 | At least two strictly shorter titles. Either the duration is within 5% of their sum, or the segment count, above one, equals their number. |
| CoreTitle.PlayAllBounds | src/riparr/core/title.py:65-98 | Play-all needs at least two strictly shorter titles. A title exactly as long as the shorter ones together is play-all. A title no longer than all the others is not. |
| CoreTitle.GroupByDuration | src/riparr/core/title.py:101-128 | The loop builds exactly `Grouping`: titles sorted by duration, with a new group started when a title is more than the tolerance past the current group's first. |
| CoreTitle.GroupingProperties | src/riparr/core/title.py:101-128 | The groups joined are the titles sorted by duration. Each group is non-empty. Each member is within the tolerance of its group's first and not before it. Each group's first is more than the tolerance past the previous group's first. The result is empty iff the input is. |
| CoreTitle.LargestGroupSize | src/riparr/ripper/selector.py:78 | The size of the largest group: no group is larger, and some group has it. |
| CoreTitle.LargestGroupAtMost | src/riparr/ripper/selector.py:77-78 | The largest group has at most as many titles as were grouped. |
| Selector.Meaningful | src/riparr/ripper/selector.py:54-58 | The five-minute filter is empty exactly when every title is shorter than 300 seconds. It drops no long, medium or short title. |
| Selector.ProfileOf | src/riparr/ripper/selector.py:54-88 | The counts `classify_disc` reads: the long, medium and short titles in its three ranges, a single long title only when one is counted, and largest groups no bigger than their ranges. |
| Selector.Counts | src/riparr/ripper/selector.py:61-67 | The counts are the sizes of the three ranges. A single long title is flagged iff it is the only meaningful title and lasts an hour or more. Largest groups are no bigger than their ranges. |
| Selector.ClassifyDisc | src/riparr/ripper/selector.py:37-96 | No titles is UNKNOWN. Otherwise the ladder over the counts of long, medium and short titles decides, and the first rung that matches wins. |
| Selector.ClassifyDiscProperties | src/riparr/ripper/selector.py:51-96 | No title of five minutes or more gives UNKNOWN. Any long title with at most two medium ones gives MOVIE, and MOVIE needs a long title. TV_SEASON needs four medium titles. TV_SERIES needs three medium or four short ones. MIXED needs a long title and three medium ones. |
| Selector.LadderFacts | src/riparr/ripper/selector.py:57-96 | The same facts about the branch ladder, stated over the counts alone. |
| Selector.LadderTwoMedium | src/riparr/ripper/selector.py:70-96 | Two medium titles and nothing else fall through every branch to UNKNOWN. |
| Selector.TwoMediumTitlesUnknown | src/riparr/ripper/selector.py:75-96 | Two titles of twenty minutes to an hour are too few for TV and give UNKNOWN. |
| Selector.LastingAtLeast | src/riparr/ripper/selector.py:127 | The candidates are exactly the titles lasting at least the minimum, each kept no more often than it occurs. |
| Selector.WithoutPlayAll | src/riparr/ripper/selector.py:163-181 | An order-keeping subsequence holding exactly the titles that are not play-all among the others with another index. |
| Selector.FilterPlayAll | src/riparr/ripper/selector.py:163-181 | The loop computes `WithoutPlayAll`. |
| Selector.FilterDuplicates | src/riparr/ripper/selector.py:183-209 | The loop computes the first-occurrence deduplication by (duration, size). |
| Selector.DedupProperties | src/riparr/ripper/selector.py:194-201 | The result is an order-keeping subsequence with no two titles sharing a key, and it covers every key of the input. A title is kept iff its key did not occur before it. |
| Selector.Screened | src/riparr/ripper/selector.py:133-138 | Play-all removal (for TV only), then deduplication, keep an order-keeping subsequence with distinct keys and no play-all title. |
| Selector.ScreenedOrder | src/riparr/ripper/selector.py:133-138 | The screened titles are a subsequence, and a sub-multiset, of the eligible ones. |
| Selector.ScreenedNoPlayAll | src/riparr/ripper/selector.py:133-135 | For TV, no screened title is play-all among the eligible ones. |
| Selector.Candidates | src/riparr/ripper/selector.py:118-138 | Every candidate is a title of the disc that lasts at least the minimum the classification picks. Candidates have distinct keys, and for TV none is play-all. |
| Selector.SelectTitles | src/riparr/ripper/selector.py:98-161 | No titles give none. The result is sorted by index, has distinct keys and respects `max_titles`. Below the limit it is the candidates. Above it, it is the first `max_titles` candidates, or for a movie the longest ones. All of this is bundled as `Selection`. |
| Selector.SelectionNonEmpty | src/riparr/ripper/selector.py:98-161 | A selection from at least one candidate with `max_titles` >= 1 is never empty. |
| Selector.Truncated | src/riparr/ripper/selector.py:141-150 | The truncation keeps a sub-multiset of at most `max_titles` titles. |
| Selector.LongestKept | src/riparr/ripper/selector.py:148-150 | For a movie, no dropped title is longer than a kept one. |
| Selector.GetMainFeature | src/riparr/ripper/selector.py:211-238 | None iff no title lasts `min_movie_duration`. Otherwise the pick is such a title. If it has several audio tracks, it is the longest of those that do. If not, no eligible title has several, and it is the longest. Which of several equally long titles is picked is not stated (see Left out). |
| Selector.FirstWithSeveralAudioTracks | src/riparr/ripper/selector.py:232-238 | The index of the first candidate with several audio tracks, or 0 when there is none. |
| Selector.MainFeaturePick | src/riparr/ripper/selector.py:229-238 | Taking that index from the candidates sorted longest first gives the main feature's guarantees. |
| Selector.NoneLasting | src/riparr/ripper/selector.py:224-227 | An empty filter means every title is shorter than the minimum. |
| Selector.EpisodeLength | src/riparr/ripper/selector.py:255 | Exactly the titles from `min_tv_duration` up to, but not including, an hour. |
| Selector.GetEpisodes | src/riparr/ripper/selector.py:240-266 | Nothing for a disc that is not TV. For TV, the screened episode-length titles sorted by index: distinct keys, in range and none play-all. |
| Parser.CsvScanQuotes | src/riparr/ripper/parser.py:117-119 | After any prefix, the quote flag is set iff an odd number of quotes has been read. |
| Parser.CsvScanCount | src/riparr/ripper/parser.py:120-122 | One field is closed per comma outside quotes. |
| Parser.CsvScanUnquoted | src/riparr/ripper/parser.py:117-126 | No quote character ends up in a field. |
| Parser.CsvScanJoin | src/riparr/ripper/parser.py:111-127 | The fields joined with commas give back the text without its quotes, so a comma inside quotes stays in its field. |
| Parser.CsvFields | src/riparr/ripper/parser.py:111-127 | There is one field more than there are unquoted commas. No field holds a quote. Joined with commas, the fields are the text without its quotes. |
| Parser.ParseCsv | src/riparr/ripper/parser.py:111-127 | The character loop returns `CsvFields`. |
| Parser.ParserDuration | src/riparr/ripper/parser.py:288-298 | With two or three ':' fields it agrees with `parse_duration` of `riparr.core.title`. Any other shape gives 0. |
| Parser.ParserDurationOfClock | src/riparr/ripper/parser.py:291-294 | An "H:MM:SS" string parses back to its seconds. |
| Parser.ParserDurationBareNumber | src/riparr/ripper/parser.py:298 | Text without a ':' gives 0, even when it is a number. |
| Parser.ParseDiscType | src/riparr/ripper/parser.py:276-285 | DVD iff the lower-cased value contains "dvd". BLURAY iff, failing that, it contains "blu-ray" or "bluray". UHD iff, failing those, it contains "uhd" or "4k". UNKNOWN otherwise. |
| Parser.ParseDiscTypeIgnoresCase | src/riparr/ripper/parser.py:278 | Upper-casing the value does not change the disc type. |
| Parser.TitleAttribute | src/riparr/ripper/parser.py:180-193 | Setting an attribute keeps the title's index. Only the four numeric attributes can raise `ValueError`. |
| Parser.TitleAttributeRoutes | src/riparr/ripper/parser.py:180-193 | Each TINFO attribute code sets its own field, and empty text sets the defaults 0, 0 and 1. Any other code leaves the title unchanged. |
| Parser.AudioAttribute | src/riparr/ripper/parser.py:223-252 | Keeps the track's index. Fails only for a channel count that is neither empty nor an integer. |
| Parser.SubtitleAttribute | src/riparr/ripper/parser.py:223-248 | Keeps the track's index. |
| Parser.VideoAttribute | src/riparr/ripper/parser.py:228-263 | Keeps the title's index. |
| Parser.ApplyLine | src/riparr/ripper/parser.py:80-108 | A blank line, or one without ':', changes nothing. Otherwise the stripped line is dispatched on its type before the first ':'. |
| Parser.LineSplit | src/riparr/ripper/parser.py:87-108 | A stripped line is split at its first ':' and dispatched on the part before it. |
| Parser.IgnoredLines | src/riparr/ripper/parser.py:87-108 | An empty line, a line without ':', a MSG line and a line of unknown type leave the state unchanged. |
| Parser.TitleInfoCreates | src/riparr/ripper/parser.py:163-178 | A TINFO line creates the title when it is missing, recorded in arrival order, and changes no other title and nothing else. When its value fails to parse, the title is left as found or created. |
| Parser.AudioTrackOnce | src/riparr/ripper/parser.py:211-218 | An audio TYPE creates the track once, with its defaults, and a repeat changes nothing. |
| Parser.ChannelsDefault | src/riparr/ripper/parser.py:250-252 | An empty channel count gives 2 for a known audio track and is ignored for an unknown stream. |
| Parser.DriveInfoNamesOnce | src/riparr/ripper/parser.py:266-273 | DRV sets the disc name from field 6 only when the name is still empty and the field is not. |
| Parser.ProgressCounters | src/riparr/ripper/parser.py:136-142 | PRGV sets the three progress counters from the first three fields. |
| Parser.ApplyLineWellFormed | src/riparr/ripper/parser.py:80-108 | No line breaks the parse state's invariant. Every title is stored under its own index and every track under its own stream index, each registered once. |
| Parser.DispatchWellFormed | src/riparr/ripper/parser.py:97-108 | Each line type keeps that invariant. |
| Parser.StreamTypeWellFormed | src/riparr/ripper/parser.py:211-221 | Creating a track keeps the invariant. |
| Parser.StreamAttributeWellFormed | src/riparr/ripper/parser.py:223-263 | Setting a stream attribute keeps the invariant. |
| Parser.TitleFieldsWellFormed | src/riparr/ripper/parser.py:163-193 | A TINFO line keeps the invariant. |
| Parser.StreamFieldsWellFormed | src/riparr/ripper/parser.py:196-209 | An SINFO line keeps the invariant. |
| Parser.ProgressKeepsTracks | src/riparr/ripper/parser.py:136-142 | PRGV leaves titles and tracks alone. |
| Parser.DiscInfoKeepsTracks | src/riparr/ripper/parser.py:145-160 | CINFO leaves titles and tracks alone. |
| Parser.DriveInfoKeepsTracks | src/riparr/ripper/parser.py:266-273 | DRV leaves titles and tracks alone. |
| Parser.TracksOfMeaning | src/riparr/ripper/parser.py:311-321 | The tracks gathered for a title are exactly the stored tracks whose key names that title. |
| Parser.Attach | src/riparr/ripper/parser.py:310-324 | Only the track lists change. Each is sorted by index and holds the old tracks plus the title's stored ones. |
| Parser.Finalized | src/riparr/ripper/parser.py:301-328 | The disc with the finished titles appended to its list. |
| Parser.SortedKeysOrder | src/riparr/ripper/parser.py:307 | The title indices are strictly increasing and are exactly the stored ones. |
| Parser.FinalTitlesOrder | src/riparr/ripper/parser.py:307-326 | The titles come out in strictly increasing index order, each stored title once, each with its tracks attached. |
| Parser.AudioTrackAttached | src/riparr/ripper/parser.py:311-313 | Every audio track of a known title ends up in that title. |
| Parser.SubtitleTrackAttached | src/riparr/ripper/parser.py:319-321 | Every subtitle track of a known title ends up in that title. |
| Parser.AttachedTracksBelong | src/riparr/ripper/parser.py:311-313 | Every audio track added to a title was stored under that title. |
| Parser.ParseState.constructor | src/riparr/ripper/parser.py:65-77 | An empty disc, indices -1, no titles or tracks, and zero progress. The invariant holds. |
| Parser.ParseLine | src/riparr/ripper/parser.py:80-108 | The state is updated as `ApplyLine` says, and the invariant is kept. `int()` failures come back as the error. |
| Parser.ParseProgress | src/riparr/ripper/parser.py:136-142 | Updates the state as `Progress` says. |
| Parser.ParseDiscInfo | src/riparr/ripper/parser.py:145-160 | Updates the state as `DiscInfo` says. |
| Parser.ParseTitleInfo | src/riparr/ripper/parser.py:163-193 | Updates the state as `TitleInfo` says. |
| Parser.ParseStreamInfo | src/riparr/ripper/parser.py:196-263 | Updates the state as `StreamInfo` says. |
| Parser.ParseDriveInfo | src/riparr/ripper/parser.py:266-273 | Updates the state as `DriveInfo` says. |
| Parser.CollectTracks | src/riparr/ripper/parser.py:311-313 | The loop over the stored tracks returns `TracksOf`. |
| Parser.AttachAll | src/riparr/ripper/parser.py:307-326 | Each listed title gets its tracks attached, and no other title changes. |
| Parser.FinalizeState | src/riparr/ripper/parser.py:301-328 | Returns `Finalized` of the old state. Every title in the state has its tracks attached, and the rest of the state is unchanged. |
| MakeMkv.ScanSourceDevice | src/riparr/ripper/makemkv.py:76-81 | A "disc:" source is passed through, and anything else gets "dev:" in front. The device can always be read back from the source. |
| MakeMkv.RipSourceDevice | src/riparr/ripper/makemkv.py:164-167 | For "/dev/" paths the rip source is the scan source. For anything else that does not start with "dev:", the device can be read back from the source. |
| MakeMkv.ScanCommand | src/riparr/ripper/makemkv.py:83 | `[executable, "-r", "info", source]`, whose source names the device. |
| MakeMkv.RipCommand | src/riparr/ripper/makemkv.py:169-176 | `[executable, "-r", "mkv", source, str(title), output_dir]`. The title field parses back to the title index. |
| MakeMkv.ParseAll | src/riparr/ripper/makemkv.py:98-99 | `parse_line` on each line in turn. The first error ends the run with the state it left. |
| MakeMkv.ParseAllWellFormed | src/riparr/ripper/makemkv.py:98-99 | Feeding any lines to the parser keeps its state invariant. |
| MakeMkv.ParseAllSkips | src/riparr/ripper/makemkv.py:98-99 | A line the parser ignores does not change what the rest of the output gives. |
| MakeMkv.FeedLines | src/riparr/ripper/makemkv.py:98-99 | The per-line loop updates the state as `ParseAll` says and keeps the invariant. |
| MakeMkv.ScanStart | src/riparr/ripper/makemkv.py:86-87 | The fresh state with the disc's device set satisfies the invariant. |
| MakeMkv.ScanHint | src/riparr/ripper/makemkv.py:107-116 | Exit code 253 gives "(likely: beta key expired or license issue - set RIPARR_MAKEMKV_KEY)". Exit code 2 gives "(no disc in drive)". Any other code gives no hint. Each hint is the source's text with its leading blank stripped, so it keeps its parentheses. |
| MakeMkv.ScanDiagnostics | src/riparr/ripper/makemkv.py:101-118 | Something is logged exactly for a non-zero exit: its code and one non-empty message, either the error text or "Unknown error". |
| MakeMkv.ScanOutcome | src/riparr/ripper/makemkv.py:63-137 | A missing executable raises the not-found error. A disc comes back only from a run whose output parsed. Every run whose output parses gives the finalized disc, whatever the exit code. |
| MakeMkv.ScanIgnoresExitCode | src/riparr/ripper/makemkv.py:119-122 | The disc does not depend on the exit code or the error text. |
| MakeMkv.ScanNoDiscExample | src/riparr/ripper/makemkv.py:101-111 | A run with no output and exit code 2 fails as written, but gives the empty disc of the device as intended. |
| MakeMkv.ScanOutcomeAsWritten | src/riparr/ripper/makemkv.py:101-104 | As written, a run that exits non-zero after its output parsed fails with the `AttributeError` on `state.errors`. Every other run ends as the intended scan does. |
| MakeMkv.ScanNonZeroExitRaises | src/riparr/ripper/makemkv.py:101-104 | As written, every non-zero exit whose output parsed raises the attribute error. The intended outcome is a disc. |
| MakeMkv.ScanDisc | src/riparr/ripper/makemkv.py:63-137 | Runs the scan command. The result is `ScanOutcome`. The failure logged is `ScanDiagnostics` of a run that produced a disc. |
| MakeMkv.LastOutputFile | src/riparr/ripper/makemkv.py:209-211 | A new name comes from some title's non-empty `output_file`. When no title has one, the previous capture is kept. |
| MakeMkv.LastOutputFileNonEmpty | src/riparr/ripper/makemkv.py:209-211 | A captured name is never empty. |
| MakeMkv.ReadRipNames | src/riparr/ripper/makemkv.py:197-211 | The name captured while reading a rip's output is never empty. |
| MakeMkv.ChooseOutput | src/riparr/ripper/makemkv.py:221-230 | A captured name wins. Otherwise the first file named `*_tNN.mkv` wins. Otherwise the newest `.mkv` is used, and there is none only when the directory holds no `.mkv`. |
| MakeMkv.NewestMkv | src/riparr/ripper/makemkv.py:228-230 | The last file of the listing sorted by mtime is a `.mkv` at least as new as every other `.mkv`. |
| MakeMkv.NumberedListed | src/riparr/ripper/makemkv.py:223-225 | When some file has the title's number, the first such file is listed and carries the number. |
| MakeMkv.RipOutcome | src/riparr/ripper/makemkv.py:139-246 | Success needs a clean exit and a file that exists. A non-zero exit raises "MakeMKV rip failed (code N): stderr". A clean parsed run succeeds exactly when `ChooseOutput` picks a file and the listing has it. The file returned is that pick. |
| MakeMkv.NewestLast | src/riparr/ripper/makemkv.py:227-230 | The fallback file is one of the `.mkv` files, and none is newer. |
| MakeMkv.CaptureOutput | src/riparr/ripper/makemkv.py:209-211 | The loop over the titles returns `LastOutputFile`. |
| MakeMkv.ReadRipLines | src/riparr/ripper/makemkv.py:197-211 | The read loop updates the state and the capture as `ReadRip` says. |
| MakeMkv.RipTitle | src/riparr/ripper/makemkv.py:139-246 | Builds the rip command and returns `RipOutcome`. |
| MakeMkv.RipAllOutcome | src/riparr/ripper/makemkv.py:248-317 | Success needs a clean exit. It gives the names of the directory's `.mkv` files, in listing order, each ending in ".mkv". A clean exit whose output parses always succeeds. |
| MakeMkv.RipAll | src/riparr/ripper/makemkv.py:248-317 | Builds the rip-all command and returns `RipAllOutcome`. |
| MakeMkv.DriveLine | src/riparr/ripper/makemkv.py:336-353 | A record exactly for "DRV:" lines with at least six fields whose `enabled` field is "1". The device is "/dev/sr" plus the index, `has_disc` iff `visible` is "1", and the drive and disc names are fields 4 and 5 with `"` stripped from both ends (`StripChars`, the model of `str.strip('"')`), so neither starts with a quote. |
| MakeMkv.PresentMeaning | src/riparr/ripper/makemkv.py:335-353 | Every drive listed comes from a line of the output, and the list is empty iff no line yields a drive. |
| MakeMkv.GetDrives | src/riparr/ripper/makemkv.py:319-359 | Probes with the invalid disc "disc:9999". A missing executable gives no drives. Otherwise the result is the drive lines' records, in order. |
| Naming.Sanitize | src/riparr/output/naming.py:190-215 | At most 200 characters, none of `<>:"/\|?*`. Spaces are the only white space and never come in pairs. The name does not start with a blank or a dot. |
| Naming.StrippedClean | src/riparr/output/naming.py:209 | Stripping blanks and dots from a name free of invalid characters and double blanks leaves a clean name. |
| Naming.PrefixClean | src/riparr/output/naming.py:212-213 | Cutting a clean name to 200 characters keeps it clean. |
| Naming.SanitizeClean | src/riparr/output/naming.py:190-215 | A name that is already clean and does not end in a blank or a dot is left as it is. |
| Naming.SanitizeTwice | src/riparr/output/naming.py:190-215 | Sanitizing twice gives what sanitizing once gives, for names kept under 200 characters. |
| Naming.FindYear | src/riparr/output/naming.py:170 | The first position from which `[._\s]\d{4}` matches, or none when it matches nowhere. |
| Naming.YearIn | src/riparr/output/naming.py:170-171 | The year is four digits. There is none exactly when the pattern matches nowhere in the name. |
| Naming.Tidy | src/riparr/output/naming.py:174-175 | No dots or underscores, no double blanks, and no white space at either end. |
| Naming.StripInner | src/riparr/output/naming.py:175 | `strip()` keeps a string free of dots, underscores and double blanks, and leaves no white space at its ends. |
| Naming.DiscNamePath | src/riparr/output/naming.py:147-188 | `output/Unknown/<folder>/<stem>[ [codec]].mkv`, with the folder named after the disc (`DiscFolder`). When that folder name is empty, pathlib drops the part, so the file sits directly in `Unknown`. |
| Naming.UnknownFolder | src/riparr/output/naming.py:168-180 | The folder name is the tidied name, followed by " (YYYY)" exactly when the name shows a year. It holds no dot, no underscore and no two blanks in a row. |
| Naming.DiscNameFromLabel | src/riparr/output/naming.py:166 | A disc without a name but with a label is placed exactly as a disc named after the label. |
| Naming.UnknownWithoutFolder | src/riparr/output/naming.py:166-188 | A disc named "???" sanitizes to an empty folder name, and its file goes straight into `output/Unknown`. |
| Naming.DiscNameBeforeLabel | src/riparr/output/naming.py:166 | A disc with a name is placed the same way whatever its label. |
| Naming.DiscNameFallsBackToStem | src/riparr/output/naming.py:166 | A disc with neither name nor label is placed as if it were named after the source file. |
| Naming.MoviePath | src/riparr/output/naming.py:59-98 | `output/Movies/T (Y) {imdb-I}/T (Y) [codec].mkv`. The year, IMDb id and codec parts appear only when known. When the title sanitizes to nothing and neither year nor IMDb id is known, pathlib drops the empty folder. |
| Naming.MovieFileNames | src/riparr/output/naming.py:93-96 | The four file-name spellings, with or without year and codec, are the folder's title and year plus the codec suffix. |
| Naming.SeasonOf | src/riparr/output/naming.py:131 | A missing or zero season becomes 1. Any other season is kept. |
| Naming.TvPath | src/riparr/output/naming.py:100-145 | `output/TV/T {imdb-I}/Season SS/T - SxxEyy [codec].mkv`, with the episode from `_extract_episode_number`. When the title sanitizes to nothing and no IMDb id is known, pathlib drops the empty series folder. |
| Naming.TvCodeRoundTrip | src/riparr/output/naming.py:138 | The episode code `SxxEyy` reads back as its season and episode. |
| Naming.SeasonFolderNumber | src/riparr/output/naming.py:132 | "Season NN" reads back as the season. |
| Naming.OutputPath | src/riparr/output/naming.py:30-57 | No metadata gives the disc-name path, TV metadata the TV path, and any other metadata the movie path. Every path lies under the output directory. |
| Naming.MoviePathComponents | src/riparr/output/naming.py:80-98 | With an IMDb id and a codec free of '/', every part a movie path adds is one non-empty component without '/'. |
| Naming.SanitizeNoSlash | src/riparr/output/naming.py:202-203 | A sanitized name holds no '/'. |
| Naming.TitleYearNoSlash | src/riparr/output/naming.py:84-87 | "T (Y)" built from a sanitized title holds no '/'. |
| Naming.MatchAt | src/riparr/output/naming.py:228-234 | Each of the five episode patterns captures a number below 100 where it matches. |
| Naming.Search | src/riparr/output/naming.py:239 | The leftmost position where the pattern matches, or none when it matches nowhere. |
| Naming.FirstCapture | src/riparr/output/naming.py:238-241 | The capture of the first pattern that matches anywhere, below 100. There is none iff no pattern matches. |
| Naming.EpisodeNumber | src/riparr/output/naming.py:217-248 | The first pattern's capture. Failing that, the title number. Failing that, 1. |
| Naming.EpisodeLetterFirst | src/riparr/output/naming.py:228-241 | When `[Ee]\d` matches, the episode is its leftmost capture, whatever the other patterns find. |
| Naming.EpisodeFallback | src/riparr/output/naming.py:243-248 | A stem without digits gives the title number, or 1. |
| Naming.VideoTag | src/riparr/output/naming.py:264-270 | "H265" for 265 or HEVC. Failing that, "H264" for 264 or AVC. Otherwise the first six characters, upper-cased. |
| Naming.AudioTag | src/riparr/output/naming.py:276-290 | The rungs are tried in order. TRUEHD gives Atmos when ATMOS also occurs, else TrueHD. Then DTS-HD or DTS:X gives DTS-HD. Then DTS gives DTS. Then AC3 or AC-3 gives DD. Then AAC gives AAC. There is no tag exactly when none of TRUEHD, DTS, AC3, AC-3 or AAC occurs. |
| Naming.DtsHdHasDts | src/riparr/output/naming.py:283-286 | DTS-HD and DTS:X both contain DTS, so the "DTS" branch never shadows them. |
| Naming.AudioTagIgnoresCase | src/riparr/output/naming.py:277 | The audio tag does not depend on case. |
| Naming.CodecParts | src/riparr/output/naming.py:262-290 | The video tag comes first. "HDR" is present iff `hdr` is set, and then it is second. A recognised audio tag comes last. There is one part for each of these that applies. |
| Naming.CodecString | src/riparr/output/naming.py:251-292 | The video tag, then " HDR" when asked for, then a blank and the audio tag when one is recognised. |
| Naming.CodecJoin | src/riparr/output/naming.py:292 | Joining the parts with blanks spells out video, HDR and audio in that order. |
| Naming.CodecStringParts | src/riparr/output/naming.py:292 | Splitting the codec string at blanks gives back its parts. |
| HandBrake.EncoderName | src/riparr/encoder/handbrake.py:46-54 | Always one of the four known encoders. A known codec maps to itself, and anything else maps to "x265". |
| HandBrake.SubtitleFlags | src/riparr/encoder/handbrake.py:110-115 | "first" gives `--subtitle 1`, "all" gives `--all-subtitles`, and every other mode gives no flag. Each holds in both directions. |
| HandBrake.EncodeCommand | src/riparr/encoder/handbrake.py:93-115 | 16 fixed arguments: input, output, preset, a known encoder, the quality (which parses back), the audio languages, `--first-audio` and `--aencoder` with the audio codec. The subtitle flags follow. |
| HandBrake.Encode | src/riparr/encoder/handbrake.py:56-176 | A missing input fails before any command is built. Otherwise the command is built. Success holds iff the run exits 0 and the output exists, and it returns the output path. |
| HandBrake.EncodeExitCode | src/riparr/encoder/handbrake.py:154-155 | A non-zero exit fails with "HandBrake failed with code N", and N parses back to the exit code. |
| HandBrake.PresetsOf | src/riparr/encoder/handbrake.py:196-203 | The stripped output lines that pass the preset filter, in output order. |
| HandBrake.PresetsOfMeaning | src/riparr/encoder/handbrake.py:196-203 | The presets are the stripped lines that are not empty, bracketed, paths or category headers, in order. Every such line is listed. |
| HandBrake.GetPresets | src/riparr/encoder/handbrake.py:178-209 | Runs `--preset-list`. A missing executable gives no presets. Otherwise the result is the filtered lines. |
| MediaInfo.DurationStr | src/riparr/metadata/mediainfo.py:62-68 | HH:MM:SS worth `duration_ms // 1000` seconds, each field shaped as `{:02d}` prints it (minutes and seconds exactly two decimal digits below 60, hours zero-padded digits or a minus sign and digits). The time read back from the string lies within the last second before the duration. |
| MediaInfo.IsHdr | src/riparr/metadata/mediainfo.py:77-80 | There is a video stream and its HDR format is not None. An empty format counts. |
| MediaInfo.Resolution | src/riparr/metadata/mediainfo.py:70-75 | "Unknown" exactly when there is no video stream. |
| MediaInfo.ResolutionFields | src/riparr/metadata/mediainfo.py:73-74 | With video, the string splits at 'x' into the width and the height. |
| MediaInfo.FirstWord | src/riparr/metadata/mediainfo.py:94 | `split()[0]` is the non-empty run of non-blank characters that starts after the leading white space and ends at the next blank or the end of the text. There is none, which raises `IndexError`, exactly when the text is blank. |
| MediaInfo.Word | src/riparr/metadata/mediainfo.py:94 | The longest prefix without white space. |
| MediaInfo.VideoPart | src/riparr/metadata/mediainfo.py:88-94 | HEVC or H.265 gives "H265". Failing that, AVC or H.264 gives "H264". Otherwise the part is the first word of the upper-cased codec. A blank codec of any other kind has no part, and `codec_string` raises. |
| MediaInfo.BlankUpper | src/riparr/metadata/mediainfo.py:88 | Upper-casing keeps a string blank or non-blank. |
| MediaInfo.HdrPart | src/riparr/metadata/mediainfo.py:96-102 | Only a non-empty HDR format adds a part. Dolby Vision gives "DV". HDR10+ gives "HDR10+". Any other HDR gives "HDR". |
| MediaInfo.HdrPlusHasHdr | src/riparr/metadata/mediainfo.py:99-102 | HDR10+ contains HDR, so the order of the tests matters. |
| MediaInfo.AudioPart | src/riparr/metadata/mediainfo.py:104-119 | The first track's rungs are tried in order. TRUEHD, or TrueHD as written, gives Atmos when the track title says Atmos, else TrueHD. Then DTS-HD or DTS:X gives DTS-HD. Then DTS gives DTS. Then AC3 or AC-3 gives DD. Then AAC gives AAC. There is no part exactly when no rung matches. |
| MediaInfo.AudioPartLikeNamer | src/riparr/metadata/mediainfo.py:104-119 | The tag agrees with `generate_codec_string`'s when the title mentions Atmos exactly when the codec does. |
| MediaInfo.AudioParts | src/riparr/metadata/mediainfo.py:104-119 | At most one part, taken from the first track. |
| MediaInfo.CodecParts | src/riparr/metadata/mediainfo.py:85-119 | The video part, then the HDR part, then the audio part, each present when it applies. Every part is a single word. Nothing comes back exactly when a blank codec raises. |
| MediaInfo.AudioPartPlain | src/riparr/metadata/mediainfo.py:104-119 | The audio part is one non-empty word. |
| MediaInfo.VideoPartPlain | src/riparr/metadata/mediainfo.py:88-94 | The video part is one non-empty word. |
| MediaInfo.CodecString | src/riparr/metadata/mediainfo.py:82-121 | "Unknown" without parts. Otherwise the parts joined with blanks, which split back into them. |
| Status.TitleProgress | src/riparr/tui/status.py:32-37 | "—" exactly when the number of titles is 0. |
| Status.TitleProgressFields | src/riparr/tui/status.py:37 | Otherwise the text splits at '/' into two fields, which read back as the current and the total title. |
| Status.WithEvent | src/riparr/tui/status.py:107-115 | The new event is last. A list of at most ten stays at most ten. The result is a suffix of the old events plus the new one. |
| Status.LastTen | src/riparr/tui/status.py:112-114 | At most ten events. |
| Status.WithEventsLastTen | src/riparr/tui/status.py:107-115 | Adding events one at a time to at most ten keeps exactly the last ten of all of them, in order. |
| Status.LastTenTail | src/riparr/tui/status.py:113-114 | Dropping the oldest of more than ten events does not change the last ten. |
| Status.StatusTracker.constructor | src/riparr/tui/status.py:87-96 | Idle rip and encode records, an empty queue and no events. |
| Status.StatusTracker.Notify | src/riparr/tui/status.py:102-105 | One more update notification, and nothing else changes. |
| Status.StatusTracker.AddEvent | src/riparr/tui/status.py:107-115 | The stamped message becomes the newest of at most ten events, with one notification. Nothing else changes. |
| Status.StatusTracker.StartRip | src/riparr/tui/status.py:118-130 | A fresh active rip record for the disc, started now, and one event. The encode side is untouched. |
| Status.StatusTracker.UpdateRip | src/riparr/tui/status.py:132-137 | Only the current title and the progress change. |
| Status.StatusTracker.CompleteRip | src/riparr/tui/status.py:139-145 | The rip is complete at 100%, every other field is kept, and the event names the disc. |
| Status.StatusTracker.FailRip | src/riparr/tui/status.py:147-152 | The rip has failed with the error, every other field is kept, and one event is added. |
| Status.StatusTracker.ClearRip | src/riparr/tui/status.py:154-158 | The rip record is back to its idle defaults. |
| Status.StatusTracker.StartEncode | src/riparr/tui/status.py:161-170 | A fresh active encode record for the file, started now, and one event. |
| Status.StatusTracker.UpdateEncode | src/riparr/tui/status.py:172-178 | Only the progress, frame rate and time left change. |
| Status.StatusTracker.CompleteEncode | src/riparr/tui/status.py:180-186 | The encode is complete at 100%, and the event names the file. |
| Status.StatusTracker.FailEncode | src/riparr/tui/status.py:188-193 | The encode has failed with the error, every other field is kept, and one event is added. |
| Status.StatusTracker.ClearEncode | src/riparr/tui/status.py:195-199 | The encode record is back to its idle defaults. |
| Status.StatusTracker.UpdateQueue | src/riparr/tui/status.py:202-206 | The shown queue is replaced by the items given. |
| JobModel.StatusFromValue | src/riparr/core/job.py:12-22 | A status read from a string carries exactly that string as its value. |
| JobModel.StatusValueRoundTrip | src/riparr/core/job.py:12-22 | Every status reads back from its value, so no two statuses share a value. |
| JobModel.RetryableTerminal | src/riparr/core/job.py:74-82 | A job that can be retried is terminal. A job is terminal exactly when it has failed, completed or been cancelled. |
| JobModel.NonTerminalMeaning | src/riparr/core/job.py:107-115 | The active statuses are exactly the non-terminal ones. The running statuses (scanning, ripping and encoding) are among them. |
| JobModel.Job.constructor | src/riparr/core/job.py:34-48 | A pending job for the disc and directory, created now, with nothing selected, started, completed, failed or produced. |
| JobModel.Job.IsTerminal | src/riparr/core/job.py:74-77 | Complete, failed or cancelled: exactly the statuses outside the active ones. |
| JobModel.Job.CanRetry | src/riparr/core/job.py:79-82 | Only a failed job can be retried, and such a job is terminal. |
| JobModel.Job.Start | src/riparr/core/job.py:52-55 | Scanning, started now, not terminal. The rest of the job is unchanged. |
| JobModel.Job.Complete | src/riparr/core/job.py:57-61 | Complete at 100%, completed now, terminal and not retryable. The rest of the job is unchanged. |
| JobModel.Job.Fail | src/riparr/core/job.py:63-68 | Failed, terminal and retryable. One error record with the message, stage, time and details is appended. The rest of the job is unchanged. |
| JobModel.Job.Cancel | src/riparr/core/job.py:70-72 | Cancelled, terminal and not retryable. The rest of the job is unchanged. |
| JobModel.WithStatus | src/riparr/core/job.py:103-109 | Exactly the queue's jobs whose status is in the set. |
| JobModel.WithStatusSubseq | src/riparr/core/job.py:103-109 | They come in queue order. |
| JobModel.WithStatusFirst | src/riparr/core/job.py:103-121 | The result is empty iff no job has such a status. Otherwise its head is the first job of the queue that has one. |
| JobModel.Next | src/riparr/core/job.py:111-121 | Nothing once `max_concurrent` jobs are scanning, ripping or encoding. Below that, nothing iff no job is pending. Otherwise the first pending job. |
| JobModel.CompletedKeyed | src/riparr/core/job.py:132-133 | The completed jobs, each keyed by its completion time and taken from the queue. |
| JobModel.RemoveFirst | src/riparr/core/job.py:136-137 | `list.remove`: one occurrence fewer of the job, and the list unchanged when the job is not in it. |
| JobModel.FirstIndex | src/riparr/core/job.py:136-137 | The position `list.remove` drops: it holds the job, and no earlier position does. |
| JobModel.RemoveEachMultiset | src/riparr/core/job.py:135-137 | Removing a list of jobs one by one removes exactly that multiset. |
| JobModel.ToRemoveCompleted | src/riparr/core/job.py:130-137 | Only completed jobs are removed, and each at most as often as it is queued. |
| JobModel.CleanupKeepsUnfinished | src/riparr/core/job.py:130-137 | A job that is not complete stays queued as often as it was. |
| JobModel.CleanupCount | src/riparr/core/job.py:130-139 | The number removed is the number of completed jobs beyond `keep_count`, or 0. |
| JobModel.CleanupKeepsNewest | src/riparr/core/job.py:133-135 | No kept completed job finished before a removed one. |
| JobModel.JobQueue.constructor | src/riparr/core/job.py:93-97 | An empty queue with the given concurrency limit. |
| JobModel.JobQueue.Add | src/riparr/core/job.py:99-101 | The job is appended, and nothing else changes. |
| JobModel.JobQueue.GetPending | src/riparr/core/job.py:103-105 | Every pending job of the queue and nothing else, in queue order. |
| JobModel.JobQueue.GetActive | src/riparr/core/job.py:107-109 | Every job that is not terminal and nothing else, in queue order. |
| JobModel.JobQueue.GetNext | src/riparr/core/job.py:111-121 | Nothing once `max_concurrent` jobs are scanning, ripping or encoding. Below that, nothing iff no job is pending. Otherwise the first of the pending jobs. |
| JobModel.JobQueue.GetById | src/riparr/core/job.py:123-128 | None iff no job has the id. Otherwise the first job that has it. |
| JobModel.JobQueue.CleanupCompleted | src/riparr/core/job.py:130-139 | The removal loop removes `ToRemove` one occurrence at a time and returns how many it removed. |
| Markers.MarkerPathsDistinct | src/riparr/queue/markers.py:52-57 | The four statuses give a file four different marker paths. |
| Markers.StatusOf | src/riparr/queue/markers.py:108-121 | No status iff the file has no marker. Otherwise the status is that of a marker present, and the first present in the order ready, transcoding, failed, complete. |
| Markers.ExclusiveStatus | src/riparr/queue/markers.py:117-121 | A file with a single marker has that marker's status. |
| Markers.Without | src/riparr/queue/markers.py:277-287 | The file has no marker left and no status. Other files' markers are unchanged. |
| Markers.WithoutIdempotent | src/riparr/queue/markers.py:277-287 | Removing the markers twice is removing them once. |
| Markers.StoredMetadata | src/riparr/queue/markers.py:98-99 | Metadata is stored only when given and non-empty. |
| Markers.StoredError | src/riparr/queue/markers.py:100-101 | An error is stored only when given and non-empty. |
| Markers.CreatedMeaning | src/riparr/queue/markers.py:67-106 | After creation the file has exactly the one marker of the status, so it has that status. Other files are unchanged. |
| Markers.UpdatedMeaning | src/riparr/queue/markers.py:123-156 | A file without a marker is left alone. Otherwise it has exactly the new status, with the old marker's stored metadata carried over and the new error. Other files are unchanged. |
| Markers.UpdateAfterCreate | src/riparr/queue/markers.py:139-156 | Metadata written at creation survives a status update. |
| Markers.CreatedKeepsAllExclusive | src/riparr/queue/markers.py:85-106 | When every file has at most one marker, creating a marker keeps it so. |
| Markers.UpdatedKeepsAllExclusive | src/riparr/queue/markers.py:139-156 | Updating a status keeps it so as well. |
| Markers.Stem | src/riparr/queue/markers.py:203 | A prefix of the base name, without '/'. |
| Markers.StemOfMkv | src/riparr/queue/markers.py:203 | The stem of `dir/name.mkv` is `name`. |
| Markers.BaseNameAfterSlash | src/riparr/queue/markers.py:203 | The base name of `dir/name` is `name`. |
| Markers.LastDot | src/riparr/queue/markers.py:203 | The position of the last dot of a name, or none when it has no dot. |
| Markers.ReadInfo | src/riparr/queue/markers.py:178-211 | The entry names the file's stem, path, status and size. |
| Markers.Collected | src/riparr/queue/markers.py:170-211 | Exactly the `.mkv` files that have a marker passing the filter, each with its entry. |
| Markers.Listing | src/riparr/queue/markers.py:158-216 | The collected entries of the marked files that pass the filter, stably sorted by creation time. |
| Markers.ListingMeaning | src/riparr/queue/markers.py:158-216 | The listing is sorted by creation time. It holds exactly the entries of the marked `.mkv` files passing the filter. |
| Markers.FirstNamed | src/riparr/queue/markers.py:236-238 | The first job with the name, or none iff no job has it. |
| Markers.UpdatedAllStatus | src/riparr/queue/markers.py:250-252 | After updating a list of files, exactly the listed files that had a marker have the new status. Every other file keeps its status. |
| Markers.ClearedAllMeaning | src/riparr/queue/markers.py:270-272 | After clearing, the listed files have no marker left, and the others keep theirs. |
| Markers.MovedAllLeavesNone | src/riparr/queue/markers.py:243-257 | After moving every listed file of one status to another, no file of the first status is left. |
| Markers.MarkerManager.constructor | src/riparr/queue/markers.py:59-65 | The manager over the given files, sizes and markers. |
| Markers.MarkerManager.RemoveMarkers | src/riparr/queue/markers.py:277-287 | The loop over the four suffixes leaves `Without`. |
| Markers.MarkerManager.CreateMarker | src/riparr/queue/markers.py:67-106 | Returns the status's marker path and leaves `Created`. |
| Markers.MarkerManager.GetStatus | src/riparr/queue/markers.py:108-121 | The loop over the suffixes returns `StatusOf`. |
| Markers.MarkerManager.UpdateStatus | src/riparr/queue/markers.py:123-156 | No path and no change without a marker. Otherwise the new marker's path, and the markers become `Updated`. |
| Markers.MarkerManager.ListJobs | src/riparr/queue/markers.py:158-216 | Returns `Listing`. |
| Markers.MarkerManager.GetNextReady | src/riparr/queue/markers.py:218-225 | The oldest ready job, or none. |
| Markers.MarkerManager.RetryJob | src/riparr/queue/markers.py:227-241 | True iff a failed job has the name. Only the first such job is set back to ready. |
| Markers.MarkerManager.RetryAllFailed | src/riparr/queue/markers.py:243-257 | Every failed job is set back to ready, and the count is how many there were. |
| Markers.MarkerManager.SetEach | src/riparr/queue/markers.py:250-252 | The update loop leaves `UpdatedAll`. |
| Markers.MarkerManager.ClearJobs | src/riparr/queue/markers.py:259-275 | Every listed job loses its markers, and the count is how many were listed. |
| Manager.LastIndex | src/riparr/queue/manager.py:486 | The last position of the character, if any. Nothing after it is that character, and `None` means the character does not occur. |
| Manager.ParentOfJoin | src/riparr/queue/manager.py:486 | The parent of `dir/name` is `dir` when the name is a single component. |
| Manager.TempDirName | src/riparr/queue/manager.py:73 | `disc_` plus the device, with no `/` left in it. |
| Manager.StripKeeps | src/riparr/queue/manager.py:396 | Stripping keeps out whatever characters the input lacks, and keeps single spacing. |
| Manager.SliceKeeps | src/riparr/queue/manager.py:396 | A slice keeps out what the whole lacks, and keeps single spacing. |
| Manager.StripUnpadded | src/riparr/queue/manager.py:396 | A stripped name has no whitespace at either end. |
| Manager.CleanTitle | src/riparr/queue/manager.py:395-396 | The cleaned title has no invalid file-name character, no padding and no run of whitespace. |
| Manager.YearPart | src/riparr/queue/manager.py:398-401 | ` (year)` when the metadata has a non-zero year, otherwise empty. It never holds `/` or `}`. |
| Manager.ImdbPart | src/riparr/queue/manager.py:398-403 | ` {imdb-id}` when an IMDb id is given, otherwise empty. It holds no `/` unless the id does. |
| Manager.FolderName | src/riparr/queue/manager.py:388-407 | The folder starts with the cleaned title. It ends with `}` when an IMDb id is given, with `)` when only a year is, and is the cleaned title alone otherwise. |
| Manager.CleanDiscName | src/riparr/queue/manager.py:410-415 | The cleaned disc name has no invalid character, no `.` or `_`, no padding and no run of whitespace. |
| Manager.DiscOutputDir | src/riparr/queue/manager.py:374-418 | The raw directory joined with the disc's folder: from metadata, else the disc name, else the device. |
| Manager.FallbackIsTempDir | src/riparr/queue/manager.py:417-418 | Without metadata or a disc name, the output folder is the temporary device folder of line 73. |
| Manager.DiscFolderOneComponent | src/riparr/queue/manager.py:374-418 | The disc's folder is one path component when the IMDb id holds no `/`. |
| Manager.Candidates | src/riparr/queue/manager.py:442-450 | The stripped title comes last. One more pattern comes with a year, and one more with a year and an IMDb id. |
| Manager.AlreadyProcessed | src/riparr/queue/manager.py:420-466 | A disc with metadata, some candidate folder of which holds an `.mkv` under the raw directory or under Movies in the output directory. |
| Manager.SearchRawDir | src/riparr/queue/manager.py:452-457 | True iff some pattern's folder under the raw directory holds an `.mkv` file. |
| Manager.SearchMovies | src/riparr/queue/manager.py:459-464 | True iff some pattern's folder under `Movies` holds an `.mkv` file. |
| Manager.FolderIsCandidate | src/riparr/queue/manager.py:388-450 | The folder a rip writes to is among the patterns, whenever there is a year or no IMDb id. |
| Manager.FolderAmongCandidates | src/riparr/queue/manager.py:442-450 | The folder built from the matching title is among the patterns in the same cases. |
| Manager.RemoveCharsFrom | src/riparr/queue/manager.py:442 | Removing characters brings no new character in. |
| Manager.ImdbOnlyFolderMissed | src/riparr/queue/manager.py:403-450 | The folder `title {imdb-id}` of a disc with an IMDb id and no year is never among the patterns, so such a disc is not recognised as already processed. |
| Manager.SearchTitle | src/riparr/queue/manager.py:224 | The search title has no `_`, no padding, and is no longer than the disc name. |
| Manager.LookupMetadata | src/riparr/queue/manager.py:185-244 | A computed DVD id is stored and queried first. A hit there ends the lookup. Otherwise TMDB is searched by the cleaned disc name when there is one. A hit sets the metadata, and every failure leaves it as it was. Nothing else in the disc changes. |
| Manager.ArmFirst | src/riparr/queue/manager.py:204-216 | An ARM hit makes the TMDB service irrelevant. |
| Manager.LookupFailuresSwallowed | src/riparr/queue/manager.py:217-244 | When both services fail or find nothing, the metadata stays as it was. |
| Manager.ProgressBounds | src/riparr/queue/manager.py:260 | Rip progress lies in [0, 100), starts at 0 and rises title by title. |
| Manager.RippedPathsMeaning | src/riparr/queue/manager.py:255-294 | The ripped files are exactly the paths of the successful rips. None means every rip failed. |
| Manager.WithFile | src/riparr/queue/manager.py:280-286 | A ripped file joins the store with its size. Markers and the other files stay. |
| Manager.RippedStoreMeaning | src/riparr/queue/manager.py:255-294 | Ripping adds every ripped file and drops none. Markers are untouched, and with nothing ripped the store is unchanged. |
| Manager.ReadyMetadata | src/riparr/queue/manager.py:146-152 | The ready marker's metadata has exactly the five keys, with the disc name and DVD id. |
| Manager.CreatedAllSnoc | src/riparr/queue/manager.py:145-153 | One more file adds exactly its ready marker. |
| Manager.CreatedAllMeaning | src/riparr/queue/manager.py:145-153 | Every ripped file has exactly one marker, a ready one with the metadata. Other files keep their markers. |
| Manager.Cleaned | src/riparr/queue/manager.py:476-483 | The raw file and all its markers are gone. |
| Manager.AfterEncodeMeaning | src/riparr/queue/manager.py:306-349 | An encoded file ends complete with its metadata kept, or gone when raw files are deleted. A failed one ends failed with the error. Other files keep their markers. |
| Manager.EncodedAllSnoc | src/riparr/queue/manager.py:302-304 | Each listed file is encoded in turn only while it is still present. |
| Manager.EncodeOneRipped | src/riparr/queue/manager.py:302-349 | A ripped file with a ready marker ends complete, removed or failed, as its encode went. |
| Manager.EncodeCall | src/riparr/queue/manager.py:325-335 | A call whose keywords all bind goes as HandBrake goes. An undeclared keyword makes it an error. |
| Manager.Unbound | src/riparr/encoder/handbrake.py:56-66 | The first keyword HandBrake does not declare, and none exactly when all bind. |
| Manager.PassedKeywordsRaise | src/riparr/queue/manager.py:325-335 | The call as written raises the unexpected-keyword `TypeError` for `encoder_preset`. |
| Manager.FirstUnboundPassed | src/riparr/queue/manager.py:328-333 | `encoder_preset` is the first keyword passed that does not bind. |
| Manager.EncodeFailsAsWritten | src/riparr/queue/manager.py:311-349 | As written, every encoded file ends failed with that error, whatever HandBrake would do. |
| Manager.EncodeFollowsRunAsIntended | src/riparr/encoder/handbrake.py:56-66 | With only declared keywords, the call returns HandBrake's own outcome. The file ends complete, removed or failed accordingly. |
| Manager.ReadyMetadataDvdId | src/riparr/queue/manager.py:516-520 | The DVD id the queue processor reads back is the one the rip stored. |
| Manager.DrainTargetUnknown | src/riparr/queue/manager.py:516-522 | A rebuilt disc has no metadata, so its encode target lies under `Unknown` in the output directory. The file is the stored name with ".mkv". |
| Manager.RecoverMeaning | src/riparr/queue/manager.py:575-581 | Exactly the transcoding files become ready again. Every other file keeps its status. |
| Manager.TranscodingFilter | src/riparr/queue/manager.py:575 | The `transcoding` filter selects exactly the transcoding status. |
| Manager.ListedPaths | src/riparr/queue/manager.py:575 | A file is listed iff it is present and its status passes the filter. |
| Manager.RecoverLeavesNoneTranscoding | src/riparr/queue/manager.py:567-588 | After recovery, no job is listed as transcoding. |
| Manager.FinalStoreReady | src/riparr/queue/manager.py:128-163 | Without inline encoding, every ripped file is present with exactly one marker, ready, with the disc's metadata. Other files keep their markers. |
| Manager.QueueManager.constructor | src/riparr/queue/manager.py:37-58 | The settings and marker manager are kept, and the processor is not running. |
| Manager.QueueManager.Stop | src/riparr/queue/manager.py:563-565 | The processor is no longer running. |
| Manager.QueueManager.ProcessDisc | src/riparr/queue/manager.py:60-183 | A new started job. A scan error fails it in stage `processing` with the device's temporary folder. Otherwise the disc gets its metadata and folder. An already processed disc completes untouched. The selection is `Selector.Selection`: sorted by index, distinct keys, at most `max_titles`, every candidate when they fit, else the first `max_titles` (the longest for a movie). With candidates and `max_titles` >= 1 the selection is never empty. No selected title fails in stage `selection`. Otherwise the rip stage runs. |
| Manager.QueueManager.Proceed | src/riparr/queue/manager.py:88-170 | The pipeline after a successful scan, with the same outcomes as `ProcessDisc`. The selection is `Selector.Selection`: sorted by index, distinct keys, at most `max_titles`, every candidate when they fit, else the first `max_titles` (the longest for a movie). With candidates and `max_titles` >= 1 the selection is never empty, so that disc never fails at `selection`. |
| Manager.QueueManager.Identify | src/riparr/queue/manager.py:91-102 | The job's disc is the looked-up disc, and its folder is the disc's folder. |
| Manager.QueueManager.Scanned | src/riparr/queue/manager.py:104-170 | The already-processed check, then selection and the rip stage, with the job's identity kept. The selection is `Selector.Selection`: sorted by index, distinct keys, at most `max_titles`, every candidate when they fit, else the first `max_titles` (the longest for a movie). With candidates and `max_titles` >= 1 the selection is never empty. |
| Manager.QueueManager.ChooseTitles | src/riparr/queue/manager.py:114 | The result is what `select_titles` promises (`Selector.Selection`). It is sorted by index, keeps distinct keys and has at most `max_titles` titles. When the candidates fit it is all of them. Otherwise it is the first `max_titles` of them, or the longest for a movie. |
| Manager.QueueManager.SelectStage | src/riparr/queue/manager.py:113-121 | The job's titles are a `Selector.Selection` of the disc's titles. With candidates and `max_titles` >= 1 they are never empty. No selected title fails the job in stage `selection` and leaves the markers alone. Otherwise the rip stage runs. |
| Manager.QueueManager.RipSelected | src/riparr/queue/manager.py:116-170 | The job keeps the given titles. An empty list fails the job in stage `selection` with "No titles selected" and leaves the markers alone. Otherwise the rip stage runs. |
| Manager.QueueManager.RipStage | src/riparr/queue/manager.py:128-170 | Nothing ripped fails the job in stage `ripping`. Otherwise the files are delivered. |
| Manager.QueueManager.Deliver | src/riparr/queue/manager.py:138-170 | The job completes with the ripped files. The markers become ready, and are encoded when inline encoding is on. The disc is ejected iff the settings say so. |
| Manager.QueueManager.IsAlreadyProcessed | src/riparr/queue/manager.py:420-466 | True iff the disc has metadata and some pattern's folder, under the raw directory or `Movies`, holds an `.mkv`. |
| Manager.QueueManager.RipTitles | src/riparr/queue/manager.py:246-294 | One rip call per selected title, in order, with its progress. The ripped files are the successful ones, and the store gains them. The job's current title and progress are the last title's. |
| Manager.QueueManager.MarkReady | src/riparr/queue/manager.py:145-153 | Every ripped file gets its ready marker, and the files and sizes stay. |
| Manager.QueueManager.CleanupRawFile | src/riparr/queue/manager.py:468-492 | The file and its markers are gone. The parent folder is removed iff nothing is left in it. |
| Manager.QueueManager.EncodeOne | src/riparr/queue/manager.py:302-352 | One file moves through transcoding to complete or failed. Cleanup follows when raw files are deleted. |
| Manager.QueueManager.EncodeFiles | src/riparr/queue/manager.py:296-356 | Each job file still present is encoded in turn. |
| Manager.QueueManager.DrainStep | src/riparr/queue/manager.py:499-561 | With nothing ready, nothing changes. Otherwise the oldest ready job is encoded to its target, and the outcome is reported with the error when it fails. |
| Manager.QueueManager.RecoverInterrupted | src/riparr/queue/manager.py:567-588 | Every transcoding job becomes ready, and the count is how many there were. |
| Poller.DeviceList | src/riparr/detection/poller.py:30 | The configured devices, or `/dev/sr0` alone when none or an empty list is given. Never empty. |
| Poller.CheckDiscSync | src/riparr/detection/poller.py:104-167 | No disc when the device cannot be opened. Otherwise there is a disc iff blkid finds a filesystem, the mount point holds `VIDEO_TS` or `BDMV`, or the drive status is `CDS_DISC_OK` (4). |
| Poller.RoundContinues | src/riparr/detection/poller.py:62-85 | Each polling round continues from the states the previous round left. |
| Poller.StoppedAtRound | src/riparr/detection/poller.py:77-79 | Once a one-shot run has returned, later rounds change nothing. |
| Poller.RunToStopped | src/riparr/detection/poller.py:77-79 | After the early return, later probes make no callback and change no state. |
| Poller.RunNamesProbedDevices | src/riparr/detection/poller.py:65-85 | Every callback names a probed device. |
| Poller.FlatProbesDevices | src/riparr/detection/poller.py:65-69 | The loop probes only the poller's devices. |
| Poller.PollRun | src/riparr/detection/poller.py:35-85 | The state a `poll` run ends with: every probe up to the point where `stop` is seen, fed to the loop in order. |
| Poller.PollNamesItsDevices | src/riparr/detection/poller.py:35-85 | Every callback of a poll run names one of the poller's devices. |
| Poller.ObserveAlternates | src/riparr/detection/poller.py:69-85 | One probe keeps each device's callbacks alternating, and its known state equal to the last callback. |
| Poller.RunAlternates | src/riparr/detection/poller.py:50-85 | A device's callbacks alternate between insert and remove. The first is an insert iff the device started without a disc. |
| Poller.RepeatIsSilent | src/riparr/detection/poller.py:70-85 | Probing a device that finds its known state again makes no callback and changes nothing. |
| Poller.RunTracksLastSample | src/riparr/detection/poller.py:69-85 | Unless a one-shot run has returned, each device's known state is what its last probe found. |
| Poller.OnceEndsAtFirstInsert | src/riparr/detection/poller.py:76-79 | A run ends early iff it is one-shot and has made an insert callback. A one-shot run makes at most one insert, and ends with it. |
| Poller.OneInsertOneRemove | src/riparr/detection/poller.py:50-85 | A drive found absent, absent, present, present, then absent gives exactly one insert, then one remove. |
| Poller.DevicePoller.constructor | src/riparr/detection/poller.py:19-33 | The devices default to `/dev/sr0`. The poller is not running and knows no states. |
| Poller.DevicePoller.Stop | src/riparr/detection/poller.py:87-89 | The running flag is cleared. |
| Poller.DevicePoller.ProbeRound | src/riparr/detection/poller.py:65-85 | One round of the loop gives what the probes of that round give. |
| Poller.DevicePoller.RecordInitial | src/riparr/detection/poller.py:50-54 | Each device's first probe is recorded, and no callback is made. |
| Poller.DevicePoller.Poll | src/riparr/detection/poller.py:35-85 | The callbacks and final states are those of the probe sequence up to `stop`, and the flag ends cleared. |
| Poller.SrDevicesDistinct | src/riparr/detection/poller.py:202-203 | `/dev/sr0` to `/dev/sr3` are four distinct names. |
| Poller.ScanToNext | src/riparr/detection/poller.py:206-210 | An existing link adds its target unless that target is already listed. |
| Poller.ScanToShape | src/riparr/detection/poller.py:190-212 | The scan lists the existing numbered drives first, then the link targets. It has no duplicate, at most one entry per link more, and holds exactly those drives and targets. |
| Poller.ScanSr | src/riparr/detection/poller.py:200-205 | The existing `/dev/srN` in order, without duplicates. |
| Poller.AddLink | src/riparr/detection/poller.py:206-210 | An existing link's target is appended when it is new. |
| Poller.DetectDrivesByScan | src/riparr/detection/poller.py:190-212 | The numbered drives found, then the new link targets. No duplicates, and exactly the existing drives and link targets. |
| Udev.IsOpticalDrive | src/riparr/detection/udev.py:122-146 | An optical drive iff `ID_TYPE` is `cd`, the node contains `/sr` or `/cdrom`, or `ID_CDROM` is `1`. |
| Udev.SrNodeIsOptical | src/riparr/detection/udev.py:137-139 | Every `/dev/srN` node counts as an optical drive. |
| Udev.HasDisc | src/riparr/detection/udev.py:148-159 | A disc is present iff `ID_CDROM_MEDIA` is `1`. A missing property means no disc. |
| Udev.Callback | src/riparr/detection/udev.py:101-110 | A change event names its node. It is an insert iff media is present, and a remove otherwise. |
| Udev.MonitorTo | src/riparr/detection/udev.py:79-110 | The monitor loop after the first `k` polled events, each dispatched in turn. |
| Udev.FirstFiringCalls | src/riparr/detection/udev.py:79-110 | When the first polled event fires, the first callback is that event's, whatever is polled after it. |
| Udev.MonitorToPrefix | src/riparr/detection/udev.py:79-110 | The loop's state after `k` polls depends only on those polls. |
| Udev.SilentEventsChangeNothing | src/riparr/detection/udev.py:85-101 | Timeouts, nodeless, non-optical, unlisted and non-change events make no callback and change nothing. |
| Udev.RepeatedEventFiresTwice | src/riparr/detection/udev.py:101-110 | The monitor keeps no state per device, so a repeated change event fires its callback again. |
| Udev.CallbacksAllowed | src/riparr/detection/udev.py:88-97 | Every callback names an optical drive node in the allow-list, when one is given. |
| Udev.OnceEndsAtFirstInsert | src/riparr/detection/udev.py:103-107 | A run ends early iff it is one-shot and has made an insert callback. A one-shot run makes at most one insert, and ends with it. |
| Udev.StoppedStays | src/riparr/detection/udev.py:79-107 | Once the loop has stopped, later polls change nothing. |
| Udev.UdevMonitor.constructor | src/riparr/detection/udev.py:18-26 | No devices means an empty allow-list. The monitor is not running. |
| Udev.UdevMonitor.Stop | src/riparr/detection/udev.py:118-120 | The running flag is cleared. |
| Udev.UdevMonitor.Monitor | src/riparr/detection/udev.py:47-116 | Without pyudev, `pyudev is not installed` is raised. A socket failure is raised as is. Otherwise the callbacks are those of the polled events, and the flag ends cleared. |
| Udev.DriveRecord | src/riparr/detection/udev.py:186-200 | The drive's node, model and vendor (defaulting to `Unknown`), and whether media is present. The capabilities are exactly those flagged, in the order DVD, Blu-ray, MRW. |
| Udev.Records | src/riparr/detection/udev.py:176-202 | One record per listed drive. |
| Udev.RecordsSnoc | src/riparr/detection/udev.py:202 | One more drive appends its record. |
| Udev.Record | src/riparr/detection/udev.py:186-200 | The record built step by step is `DriveRecord`. |
| Udev.DetectOpticalDrives | src/riparr/detection/udev.py:162-205 | No drives without pyudev. Otherwise the records of the listed disks that have a node and `ID_CDROM` set to `1`, in order. |
| Watcher.DeviceNames | src/riparr/detection/watcher.py:121 | The device names of the records, in order. |
| Watcher.Detected | src/riparr/detection/watcher.py:111-124 | Udev's drives when udev works and lists some, otherwise the scan of /dev. |
| Watcher.DetectedFallsBack | src/riparr/detection/watcher.py:111-124 | Detection returns nothing only when the scan finds nothing as well. When udev works and lists drives, detection returns them, none with an empty name. |
| Watcher.Selected | src/riparr/detection/watcher.py:65-76 | `auto` picks udev iff it is available, and polling otherwise. An explicit method is kept. |
| Watcher.Watch | src/riparr/detection/watcher.py:86-105 | The udev monitor's callbacks, or its setup error; otherwise the poller's callbacks. This is the intended behaviour; see Findings for the udev callbacks as written. |
| Watcher.WatchAsWritten | src/riparr/detection/watcher.py:89-96 | As written: it differs from `Watch` only when udev opens and some event calls back, and then it ends with the `RuntimeError` from `anyio.from_thread.run`. |
| Watcher.WatchAsWrittenRaises | src/riparr/detection/udev.py:103-110 | As written, a firing first udev event makes `start` raise instead of calling back, while the intended model calls back. |
| Watcher.WatchCallsBackFirstEvent | src/riparr/detection/udev.py:103-110 | Intended: a firing first udev event reaches its callback, insert or remove, as the first event. |
| Watcher.InsertExample | src/riparr/detection/watcher.py:89-96 | A disc inserted into the one watched drive `/dev/sr0` is one insert callback when intended, and as written the `RuntimeError`. |
| Watcher.WatchNamesWatchedDrives | src/riparr/detection/watcher.py:86-100 | Whichever backend runs, every callback names a watched drive. |
| Watcher.WatchOnceInsertsAtMostOnce | src/riparr/detection/watcher.py:86-100 | With `once`, either backend makes at most one insert callback, and it is the last one. |
| Watcher.DiscWatcher.constructor | src/riparr/detection/watcher.py:25-42 | The settings are kept. The watcher is not running, and no method is selected. |
| Watcher.DiscWatcher.Stop | src/riparr/detection/watcher.py:107-109 | The watcher's own running flag is cleared. |
| Watcher.DiscWatcher.DetectDevices | src/riparr/detection/watcher.py:111-124 | Udev's drive names when udev works and lists some. Otherwise the scan of `/dev`. |
| Watcher.DiscWatcher.Start | src/riparr/detection/watcher.py:44-105 | Missing or empty devices are replaced by the detected ones, and with none found nothing starts. Otherwise the selected backend runs over the drives, and the flag ends cleared. |
| Watcher.DiscWatcher.GetDrives | src/riparr/detection/watcher.py:138-159 | Udev's records when udev is available, even when it lists none. Otherwise each scanned device with whether a disc is in it. |
| Watcher.DiscWatcher.CheckAll | src/riparr/detection/watcher.py:152-157 | Each device, in order, with the result of `check_disc`. |
| Watcher.Detail | src/riparr/detection/watcher.py:145-146 | Udev's records, in order. |
| Watcher.Statuses | src/riparr/detection/watcher.py:126-136 | Each device paired with `_check_disc_sync` of its probe, in order. |
| DiscEvents.Inserts | src/riparr/detection/poller.py:76 | The count of insert callbacks is at most the count of callbacks. It is 0 exactly when no callback is an insert, and the full count exactly when every one is. |


## Left out

- Running MakeMKV, HandBrake, `blkid`, `eject` and the udev socket, and reading or writing files: each is an input value, a success or an error the model receives.
- The DVD id computation (`dvdid.py`), the ARM and TMDB clients and `get_media_info`'s pymediainfo call are not part of this model. Their results are inputs, and a raised exception is an `Err`.
- The MakeMKV license registration (src/riparr/ripper/makemkv.py:36-61) writes a settings file and has no logic worth proving.
- Async and concurrency are left out: the rip and encode semaphores, the anyio sleeps and thread bridging, and the tracker's lock. The one consequence of thread bridging the model keeps is the udev callback error under Findings. The model has one thread; a run of a loop is a sequence of steps.
- `wait_for_disc` (src/riparr/detection/watcher.py:162-211) is left out. It is a timeout around the same callbacks.
- The poller calls the async callbacks without awaiting them. The model records which callbacks are made, not whether they complete.
- Selector.GetMainFeature: the contract does not say which of several equally long eligible titles is picked. The body sorts with `Lists.SortBy`, which is stable (`Lists.SortByStable`), so the pick is the first of them in disc order, as with Python's stable `sorted`; only the tie clause of the contract is missing.
- Watcher.DiscWatcher.Stop clears only the watcher's own flag, as the source does. A backend already running stops only when its own `stop` is called, so the model takes the point where `stop` is seen as an input (`rounds` and `cut` for the poller, the end of the polled events for udev).
- Whether udev is available (`UdevMonitor.is_available`) is an input.
- Floating point is left out: the progress and fps parsing of HandBrake's output, MakeMKV's frame rate, the size strings, elapsed-time strings and the progress throttle. Progress values are Dafny `real`s, and the 5% and 90% duration tests are exact rational comparisons.
- Strings are ASCII: `upper`, `lower`, `\s` and `\d` are modelled on ASCII only, without Unicode case mapping or Unicode whitespace; `strip` does not remove U+001C to U+001F or U+0085, and `int()` does not accept underscores between digits (`"1_000"`) or non-ASCII digits.
- Timestamps are opaque integers passed in by the caller. `Job.duration` and the clock itself are left out.
- JobModel.CompletionKey: `datetime.min` for a completed job without `completed_at` is the integer 0, which is only the least time when timestamps are not negative.
- JobModel.JobQueue.CleanupCompleted: `list.remove` compares pydantic models field by field; the model removes the job object itself, which differs only when two distinct jobs have equal fields.
- Status.StatusTracker.Notify: the listener callbacks are counted, not called.
- Manager.QueueManager.ProcessDisc: the scan is the only step whose exception the model carries to the `processing` failure. The directory creation and removal, the marker writes and the status tracker calls are assumed to succeed. The tracker's events are not modelled.
- Manager.QueueManager.DrainStep: one iteration of `process_queue`. The five-second sleep when nothing is ready and the `while self._running` loop around it are left out.
- The encode outcome is an input in the rest of the model, as if the keyword arguments bound; the call as written is modelled separately below.
- The dashboard, the CLI commands, the pydantic settings loading and the `__init__.py` re-exports are left out. Settings are plain values.

## Findings

| source | as written | input that shows it | evidently intended | confidence | as-written member | corrected member |
|---|---|---|---|---|---|---|
| src/riparr/ripper/makemkv.py:101-104 | A non-zero exit reads `state.errors`, which `ParseState` does not have. The `AttributeError` is re-raised as a scan failure. | MakeMKV exits with code 2 and no output, as it does with no disc in the drive. | Log the exit code and return the parsed disc, as the comment at lines 119-120 says. | not executed | MakeMkv.ScanNoDiscExample | MakeMkv.ScanOutcome |
| src/riparr/queue/manager.py:325-335 | Both encode paths pass `encoder_preset`, `deinterlace` and `subtitle_scan` to `HandBrake.encode`, which declares none of them (src/riparr/encoder/handbrake.py:56-66). Every call raises `TypeError` before HandBrake runs, and the file is marked failed. | Any ready file with any settings. | The call binds, and the file's marker follows HandBrake's outcome. | not executed | Manager.EncodeFailsAsWritten | Manager.EncodeFollowsRunAsIntended |
| src/riparr/detection/watcher.py:89-96 | The udev callbacks are wrapped in `anyio.from_thread.run`, which only works in a worker thread. `UdevMonitor.monitor` calls them from its coroutine on the event loop thread (src/riparr/detection/udev.py:79-114); only `monitor.poll` runs in a worker. The first callback raises `RuntimeError`, which both loops re-raise. | The udev backend, and a disc inserted into a watched drive. | The callback runs on the event loop (awaited directly, as the polling backend does), and the insert is queued. | not executed | Watcher.WatchAsWrittenRaises | Watcher.WatchCallsBackFirstEvent |
