# podcast-downloader, modelled in Dafny

podcast-downloader reads a list of podcasts from a configuration file. For each podcast it fetches the RSS feed and works out which episodes are missing from the podcast's directory. It then downloads them, oldest first, under a download limit shared by all podcasts.

This project models that decision logic and proves properties of it:

- **Anchor detection.** `get_last_downloaded_file_before_gap` finds the anchor: the last name of the first run of already-downloaded feed names. It is modelled as a loop proved against a specification function.
- **Directory listing.** Podcast files are recognised by extension, and the listing is ordered newest first.
- **File naming.** Entries get a plain name or a dated name.
- **Feed filters.** Feed items are flattened into one entity per link. Entities are then filtered by type, by cursor (take-while), to the newest one, or by publication date.
- **Configuration.** Podcast entries are validated. Weekday labels are parsed. The "n days ago" date is computed.
- **Parameter layering and `compose`.**
- **The program's main loop.** The `if_directory_empty` value is dispatched to a policy. Per-podcast overrides are resolved and the file-name template is chosen. Each feed's candidates are built, and the candidates of all feeds are downloaded under the shared counter.
- **The older snapshot.** This is the top-level `main.py` and `downloaded.py`.

The model does not touch the outside world; it takes it as parameters:

- the directory listing, `os.path.isfile` and `os.path.getctime`;
- the feed entries;
- the current time;
- the last downloaded file of each podcast;
- the expansion of a file-name template.

A download is recorded as a `Download` value instead of being performed. Dates are proleptic Gregorian calendar dates, and "n days ago" is counted in calendar days. Letter case is mapped on ASCII letters only.

The code as written differs from the design of the program in a few places. The model follows the code in each case:

- An `if_directory_empty` value that cannot be dispatched raises in the main loop. That ends the whole run, including the podcasts that come after it. It does not only skip the podcast concerned.
- Every `download_from_<label>` value other than `download_from_<n>_days` fails:
  - a label that is not a weekday fails in `parse_day_label`, because `tuple.index` raises;
  - a weekday fails in `get_label_to_date`, which calls `str.to_lower`, a method `str` does not have.

  So the weekday and day-of-month cut-offs that the design describes are never reached.
- Every podcast must have a `name`, a `path` and an `rss_link`. Otherwise the run stops after validation with the first problem found.
- A negative `downloads_limit` never reaches 0, so it places no limit on the run.

## Model

| member | source | states |
|---|---|---|
| Downloaded.HasExtension | podcast_downloader/downloaded.py:7-10 | the checker accepts a name exactly when some listed extension is a suffix of it; with no extensions it accepts nothing |
| Downloaded.HasExtensionExamples | podcast_downloader/downloaded.py:7-10 | "abc.abc" is accepted with [".abc"] and with [".xyz", ".abc"]; "abc.not" is rejected; an empty list rejects everything |
| Downloaded.FilesFrom | podcast_downloader/downloaded.py:17-21 | the result is a permutation of the listing, ordered by creation time, newest first |
| Downloaded.DownloadedFiles | podcast_downloader/downloaded.py:24-33 | only listed names that pass the filter and are regular files, and each of them, still newest first |
| Downloaded.DownloadedFilesCount | podcast_downloader/downloaded.py:24-33 | each accepted regular file occurs in the result exactly as often as in the listing, and no other name occurs |
| Downloaded.FirstDownloaded | podcast_downloader/downloaded.py:42-46 | the first feed position at or after a start whose name is downloaded, with nothing downloaded in between |
| Downloaded.RunEnd | podcast_downloader/downloaded.py:42-47 | from a downloaded position, the last position of the run of downloaded names: all downloaded up to it, the next one not |
| Downloaded.RunEndIs | podcast_downloader/downloaded.py:42-47 | a position that closes a downloaded run is the run's end: the end of a run is unique |
| Downloaded.LastDownloadedFileBeforeGap | podcast_downloader/downloaded.py:36-49 | the loop with its early return yields the anchor, the last name of the first run of downloaded feed names (None if there is no downloaded name) |
| Downloaded.AnchorNoneIff | podcast_downloader/downloaded.py:39-49 | there is no anchor exactly when no feed name is downloaded, in particular for an empty feed |
| Downloaded.AnchorEndsFirstRun | podcast_downloader/downloaded.py:42-47 | an anchor is a downloaded feed name; every name from the start of the first run up to it is downloaded, nothing before the run is, and the next name (if any) is not |
| Downloaded.FirstRunUnique | podcast_downloader/downloaded.py:42-47 | two descriptions of the first maximal run coincide, so the anchor is well defined |
| Downloaded.AnchorWhenAllDownloaded | podcast_downloader/downloaded.py:49 | when every feed name is downloaded the anchor is the last feed name |
| Downloaded.AnchorIgnoresListingOrder | podcast_downloader/downloaded.py:40 | listings with the same names in another order give the same anchor |
| Downloaded.AnchorIgnoresRepetitions | podcast_downloader/downloaded.py:40 | listing a name a second time leaves the anchor unchanged |
| Downloaded.AnchorSkipsLeadingMisses | podcast_downloader/downloaded.py:45-47 | undownloaded names before the first downloaded one do not stop the walk: dropping them leaves the anchor unchanged |
| Downloaded.AnchorIdempotent | podcast_downloader/downloaded.py:42-49 | with the anchor as the only downloaded name the anchor is the same |
| Rss.SimpleFileName | podcast_downloader/rss.py:22-27 | the name is a prefix of the lower-cased text after the last "/"; it never contains "/"; when the first "?" is past index 0 it is that text cut before its last "?", otherwise the whole text (a leading "?" included) |
| Rss.SimpleFileNameIsLowerCase | podcast_downloader/rss.py:24 | the simple name contains no upper-case letter |
| Rss.DatedFileName | podcast_downloader/rss.py:31-34 | the dated name starts with "[" and ends with "] " followed by the simple name |
| Rss.DatedFileNameShape | podcast_downloader/rss.py:31-34 | for a four-digit year the dated name is "[", eight digits, "] " and the simple name; the digits read back as the year (four digits), the month and the day (two digits each) |
| Rss.StampDigits | podcast_downloader/rss.py:34 | "%Y%m%d" of a valid date with a four-digit year is eight digits: the year, then the zero-padded month and day, each reading back as its field |
| Rss.DatedFileNameExample | main_test.py:15-23 | the entry of 2 January 2020 whose link ends in "/fIlE_nAme.mp3" is named "[20200102] file_name.mp3", whatever the rest of the link |
| Rss.StampLength | podcast_downloader/rss.py:34 | "%Y%m%d" of a valid date with a four-digit year has eight characters |
| Rss.EntitiesOf | podcast_downloader/rss.py:47-51 | one entity per link of a feed item |
| Rss.Flatten | podcast_downloader/rss.py:43-51 | the flattened sequence has exactly as many entities as the items have links together |
| Rss.FlattenAt | podcast_downloader/rss.py:47-51 | link j of item i sits at position (links of the items before i) + j, with the item's date and the link's type and URL: items first, then links |
| Rss.FlattenOrigin | podcast_downloader/rss.py:47-51 | every flattened position comes from some link of some item |
| Rss.IsAllowed | podcast_downloader/rss.py:54-57 | an entity passes exactly when some entry of the allowed list equals its type |
| Rss.OnlyAllowed | podcast_downloader/rss.py:54-57 | every kept entity has an allowed type and comes from the input, and every input entity with an allowed type is kept |
| Rss.OnlyAllowedCount | podcast_downloader/rss.py:54-57 | each entity of an allowed type is kept exactly as often as it occurs, and no other entity is kept |
| Rss.OnlyAllowedConcat | podcast_downloader/rss.py:54-57 | filtering a concatenation gives the filtered parts in order, so the kept entities keep their input order |
| Rss.AllowedIsExactMatch | podcast_downloader/rss.py:54-57 | a type passes only when it equals a listed type; "ab" does not pass ["a", "b"] |
| Rss.OnlyNewEntities | podcast_downloader/rss.py:60-65 | the longest prefix whose file names all differ from the cursor; what follows it starts with the cursor's entity |
| Rss.OnlyNewEntitiesNoMatch | podcast_downloader/rss.py:63-65 | with no entity named as the cursor, everything is kept |
| Rss.OnlyNewEntitiesUpTo | podcast_downloader/rss.py:63-65 | when entity k is the first one with the cursor's name, exactly the entities before k are kept |
| Rss.OnlyLastEntity | podcast_downloader/rss.py:68-69 | the first entity alone, or nothing for an empty input |
| Rss.IsEntityNewer | podcast_downloader/rss.py:72-73 | true exactly when (year, month, day) of the entity is at least the cut-off's, compared as tuples |
| Rss.IsEntityNewerIgnoresTime | podcast_downloader/rss.py:72-73 | the comparison looks at (year, month, day) only |
| Rss.OnlyEntitiesFromDate | podcast_downloader/rss.py:80-81 | every kept entity is dated on or after the cut-off and comes from the input, and every such input entity is kept |
| Rss.OnlyEntitiesFromDateKeeps | podcast_downloader/rss.py:80-81 | exactly the entities dated on or after the cut-off are kept, each as often as it occurs |
| Configuration.ProblemIffIncomplete | podcast_downloader/configuration.py:31-44 | one podcast entry is reported exactly when it lacks name, path or RSS link |
| Configuration.ConfigurationVerification | podcast_downloader/configuration.py:29-46 | (True, None) exactly when every podcast entry is complete (an empty list included), otherwise False with a message |
| Configuration.FirstProblemDecides | podcast_downloader/configuration.py:30-44 | the first incomplete entry decides the message, checked in the order name, path, RSS link |
| Configuration.NameMissingFirst | podcast_downloader/configuration.py:31-32 | an entry without a name is reported as "Name is missing for one of the podcast" |
| Configuration.IndexOf | podcast_downloader/configuration.py:75 | the first position of a name in a tuple, or -1 where `index` raises |
| Configuration.ParseDayLabel | podcast_downloader/configuration.py:68-79 | a parsed label is one of `WEEK_DAYS`; an error carries the raw label |
| Configuration.WeekdayNamesCapitalized | podcast_downloader/configuration.py:18-26 | the full and short weekday names are already in capitalized form |
| Configuration.ShortNamesDistinct | podcast_downloader/configuration.py:74-75 | no short name is a full name and each short name is found at its own position |
| Configuration.ParseFullName | podcast_downloader/configuration.py:69-72 | a full weekday name in any letter case gives that weekday |
| Configuration.ParseShortName | podcast_downloader/configuration.py:74-77 | a short name (Mon, Tues, Weds, Thurs, Fri, Sat, Sun) in any letter case gives the weekday at the same position |
| Configuration.ParseOtherLabel | podcast_downloader/configuration.py:75-79 | every other label is an error |
| Configuration.GetLabelToDate | podcast_downloader/configuration.py:53-57 | every label fails on the missing `str.to_lower` |
| Configuration.GetNAgeDate | podcast_downloader/configuration.py:49-50 | a valid date, strictly before today for n > 0 and today itself for n = 0 |
| Configuration.GetNAgeDateRoundTrip | podcast_downloader/configuration.py:49-50 | counting n days forward from the result gives back today's date |
| Configuration.GetNAgeDateAcrossNewYear | podcast_downloader/configuration.py:49-50 | three days before 2020-01-01 is 2019-12-29 |
| Calendar.MinusDays | podcast_downloader/rss.py:76-77 | counting days back from a valid date gives a valid date, strictly earlier when n > 0 |
| Calendar.MinusDaysAdditive | podcast_downloader/configuration.py:50 | going back a days and then b days is going back a + b days |
| Calendar.PlusMinusDays | podcast_downloader/configuration.py:50 | going back n days and forward n days returns to the start |
| Calendar.MinusDaysAcrossNewYear | podcast_downloader/configuration.py:50 | 2020-01-01 minus 3 days is 2019-12-29 |
| Text.AfterLast | podcast_downloader/rss.py:24 | `rpartition(c)[-1]`: a suffix free of c, preceded by c unless c does not occur, in which case it is the whole text |
| Text.BeforeLast | podcast_downloader/rss.py:26 | `rpartition(c)[0]`: the text is this, then c, then the part after the last c |
| Text.Find | podcast_downloader/rss.py:25 | the first index of c, or -1 exactly when c does not occur |
| Text.LowerKeepsNonLetters | podcast_downloader/rss.py:24 | lower-casing neither adds nor removes "/" |
| Text.CapitalizeMatches | podcast_downloader/configuration.py:69-71 | for a capitalized word, `capitalize()` of a label gives the word exactly when the label spells it in any letter case |
| Text.ZeroPadLength | podcast_downloader/rss.py:34 | zero padding to width w gives exactly w characters for a value below 10^w |
| Text.ParseDigitsOfZeroPad | podcast_downloader/rss.py:34 | a zero-padded field is made of digits and reads back as its value |
| Text.ParseDigitsOfDigits | podcast_downloader/__main__.py:73 | `int` of the decimal digits of n is n |
| Seqs.Filter | podcast_downloader/rss.py:81 | the kept elements satisfy the predicate and come from the input; every satisfying element is kept |
| Seqs.FilterConcat | podcast_downloader/rss.py:81 | filtering works piecewise, so it keeps the input order |
| Seqs.FilterCount | podcast_downloader/rss.py:81 | a kept element keeps its multiplicity, a dropped one has none |
| Sorting.SortDescending | podcast_downloader/downloaded.py:21 | `sorted(..., reverse=True)` keeps the elements with their multiplicity |
| Sorting.SortDescendingSorted | podcast_downloader/downloaded.py:21 | for a total, transitive key order the result is in descending order |
| Sorting.FilterSorted | podcast_downloader/downloaded.py:29-33 | filtering an ordered listing keeps it ordered |
| Parameters.MergeParametersCollection | podcast_downloader/parameters.py:1-8 | the nested loops produce the default overridden layer by layer; with no layers the result is the default |
| Parameters.MergedKeys | podcast_downloader/parameters.py:2-6 | a key is in the result exactly when the default or some layer has it |
| Parameters.MergedLastLayerWins | podcast_downloader/parameters.py:4-6 | a key takes its value from the last layer that has it |
| Parameters.MergedKeepsDefault | podcast_downloader/parameters.py:2 | a key no layer has keeps its default value |
| Utils.Compose | podcast_downloader/utils.py:10-11 | composing no functions is an error, composing some is not |
| Utils.ComposeFromApplies | podcast_downloader/utils.py:11 | the `reduce` accumulator applied to x is the accumulated function applied after the remaining ones, right to left |
| Utils.ComposeApplies | podcast_downloader/utils.py:10-11 | compose(f1, ..., fn)(x) == f1(f2(...fn(x))) |
| Utils.ComposeTwo | podcast_downloader/utils.py:11 | compose(f, g)(x) == f(g(x)) |
| Utils.ComposeSingle | podcast_downloader/utils.py:11 | compose(f) is f itself |
| App.LineBody | podcast_downloader/__main__.py:71 | `$` may match before one final newline: the text is the value or the value less that newline |
| App.MatchNDays | podcast_downloader/__main__.py:71 | a match yields a non-empty digit group and the value is "download_from_" + digits + "_days", with at most one final newline |
| App.MatchNDaysComplete | podcast_downloader/__main__.py:71 | every such value matches, with or without one final newline |
| App.FirstLine | podcast_downloader/__main__.py:76 | `(.*)` stops at the first newline |
| App.OnEmptyDirectory | podcast_downloader/__main__.py:60-82 | "download_last" and only it gives the newest entity only, "download_all_from_feed" and only it gives every entity; the dispatch succeeds exactly for those two and the "n days" form; it reports an unrecognised value exactly when the value is neither literal and does not start with "download_from_"; a date cut-off is never after today |
| App.OnEmptyDirectoryNDays | podcast_downloader/__main__.py:71-74 | "download_from_<n>_days" keeps what was published from n days ago on |
| App.OnEmptyDirectorySevenDays | podcast_downloader/__main__.py:71-74 | "download_from_7_days" on 2020-01-15 cuts off at 2020-01-08 |
| App.OnEmptyDirectoryWeekday | podcast_downloader/__main__.py:76-80 | "download_from_" and a weekday name or short name in any case fails in `get_label_to_date` |
| App.ApplyPolicy | podcast_downloader/__main__.py:63-74 | the identity, the first entity only, or exactly the entities dated on or after the cut-off |
| App.RssToNameTemplate | podcast_downloader/__main__.py:85-106 | the warning is due exactly when the podcast sets require_date and no file-name template of its own; the template is the dated one when require_date is true there, and the given one otherwise |
| App.ResolveFeed | podcast_downloader/__main__.py:138-163 | per-podcast template, policy and extensions override the global ones; disable defaults to false; with require_date and no per-podcast template a true value selects the dated template and a false one keeps the global template; the deprecation warning is logged exactly for enabled podcasts with require_date and no per-podcast template, never for a disabled one |
| App.AllowedEntitiesAsList | podcast_downloader/__main__.py:177-181 | filtering by the extension map's values is `build_only_allowed_filter_for_link_data` with any listing of those values |
| App.FeedCandidates | podcast_downloader/__main__.py:164-184 | a policy error is raised whichever limiter is used; candidates are allowed entities of the feed; with a last downloaded file they are the longest prefix not reaching it, otherwise the policy's choice |
| App.DownloadsOf | podcast_downloader/__main__.py:188-202 | one download per candidate, oldest (last listed) first |
| App.PlanStepIs | podcast_downloader/__main__.py:155-184 | the plan step unfolded: a disabled podcast or one after an error adds nothing; otherwise its downloads are appended or its error recorded (the plan's properties are PlanStopsAtFailure, PlanOnlyEnabled and RunFeeds) |
| App.PlanStopsAtFailure | podcast_downloader/__main__.py:164-166 | after a policy error no later podcast adds anything |
| App.PlanOnlyEnabled | podcast_downloader/__main__.py:155-157 | every planned download belongs to an enabled podcast |
| App.Capped | podcast_downloader/__main__.py:192-203 | with a limit L >= 0, the first min(L, n) of n planned downloads; with a negative limit, all of them |
| App.CappedSnoc | podcast_downloader/__main__.py:192-203 | one more planned download is made exactly when the limit is not used up |
| App.DownloadCandidates | podcast_downloader/__main__.py:191-203 | the inner loop extends the downloads to the capped queue with this podcast's downloads and keeps counter = limit - downloads |
| App.RunFeed | podcast_downloader/__main__.py:138-206 | one pass of the loop takes the plan one podcast further: its error, or the downloads capped by the shared counter, with counter = limit - downloads |
| App.RunFeeds | podcast_downloader/__main__.py:137-207 | the downloads are the planned ones capped by the shared limit, across podcasts; the counter ends at limit - downloads and never below 0 for a limit >= 0; a policy error ends the run |
| App.Run | podcast_downloader/__main__.py:129-207 | an invalid configuration stops before any download with its message; otherwise the run is the capped plan, aborted exactly when a policy fails |
| LegacyMain.FileNameToEntryLinkName | main.py:14-15 | drops exactly the first 11 characters; "" for shorter names |
| LegacyMain.FileNameToEntryLinkNameExample | main.py:14-15 | "[20190701] file_name.mp3" gives "file_name.mp3" |
| LegacyMain.DatedNameRoundTrip | main.py:14-15 | for a four-digit year, dropping the prefix of the dated name gives back the simple name |
| LegacyMain.RepackedRssEntries | main.py:28-36 | one (date, links) pair per entry, in order; the links kept are "audio/mpeg" links of that entry, and each such link is kept |
| LegacyMain.RepackedRssEntriesCount | main.py:30-31 | each "audio/mpeg" link of an entry is kept exactly as often as the entry lists it, and no other link is kept |
| LegacyMain.RepackedRssEntriesAllMpeg | main.py:30-31 | an entry whose links are all "audio/mpeg" keeps them all, in their order |
| LegacyMain.RepackedRssEntriesConcat | main.py:30-31 | the links of a + b are kept as those of a followed by those of b, so their order is kept |
| LegacyMain.OnlyPodcastEntries | main.py:39-44 | never more pairs than entries |
| LegacyMain.OnlyPodcastEntriesConcat | main.py:39-44 | entries are reduced one by one, so order is preserved |
| LegacyMain.OnlyPodcastEntriesMembership | main.py:39-44 | a (date, URL) pair is produced exactly when an entry with links has that date and first URL |
| LegacyMain.PodcastPipeline | main.py:28-44 | an entry with an "audio/mpeg" link yields its date and the URL of its first such link |
| LegacyDownloaded.OnlyMp3 | downloaded.py:6-7 | a name passes exactly when its last four characters are ".mp3", and then it is a stem followed by ".mp3" |
| LegacyDownloaded.OnlyMp3IsExtensionCheck | downloaded.py:6-7 | the mp3 check is the extension checker with [".mp3"] |
| LegacyDownloaded.OnlyMp3CaseSensitive | downloaded.py:6-7 | "episode.mp3" passes, "EPISODE.MP3" does not |
| LegacyDownloaded.StrLessTrichotomy | downloaded.py:13 | string `<` is a strict total order: exactly one of a < b, a == b, b < a |
| LegacyDownloaded.StrLessTransitive | downloaded.py:13 | string `<` is transitive |
| LegacyDownloaded.NotBelowIsTotalOrder | downloaded.py:13 | "not less than" is total and transitive, so reverse sorting is well defined |
| LegacyDownloaded.GetFilesFrom | downloaded.py:12-13 | a permutation of the listing in descending name order |
| LegacyDownloaded.GetDownloadedFiles | downloaded.py:15-20 | only listed mp3 names that are regular files, and each of them, in descending order |
| LegacyDownloaded.GetDownloadedFilesCount | downloaded.py:15-20 | each qualifying name occurs in the result exactly as often as in the listing, and no other name occurs |
| LegacyDownloaded.GetLastDownloaded | downloaded.py:22-23 | the greatest qualifying name; None (StopIteration) exactly when there is none |

## Left out

- Fetching and parsing feeds (`get_raw_rss_entries_from_web`, `get_raw_rss_entries`, feedparser): feed entries are a parameter.
- Downloading (`download_rss_entity_to_path`, `urlretrieve`): it needs the network. A download is recorded as a value.
- App.Run: every download is taken to succeed, so no run ends in a failed download. In the program a failing `urlretrieve` (`__main__.py:202`) raises out of the main loop uncaught: the run ends there, that download is not counted against the limit, and no later candidate or podcast is downloaded.
- The file system (`os.listdir`, `os.path.isfile`, `os.path.getctime`, `expanduser`): these are parameters. A creation time is an integer.
- Loading the configuration file and the command line (`load_configuration_file`, `parse_argv`, `build_parser`): these are I/O. The merged configuration is a parameter (`App.Settings`).
- Logging and the deprecation warning's text (`log`, `warning`): these are output only. The warning is a boolean in `App.Feed`.
- `time.localtime()`: "now" is a parameter.
- App.RunFeeds: one "now" serves the whole run. The program reads the clock again for each podcast (`__main__.py:69`, reached from line 164), so a run that crosses midnight can give later podcasts a later cut-off than the model does.
- Configuration.GetNAgeDate: does not model `mktime`/`localtime` round trips through epoch seconds, so daylight-saving shifts are not modelled. It works on calendar dates and returns the date part only. It returns a date for every n, where the program loses precision in the float seconds for very large n and raises once `localtime` overflows.
- Text.Lower and Text.Capitalize: ASCII letters only. Python maps Unicode letters too.
- Rss.DateStamp prints the year as the GNU C library's `%Y` does, without padding. Other C libraries may pad a year below 1000 to four digits.
- Rss.DatedFileNameShape: claims nothing for years below 1000 or above 9999, where the year has other than four digits and the prefix is not 11 characters long. The same holds for Rss.StampDigits, Rss.StampLength and LegacyMain.DatedNameRoundTrip.
- The default configuration (`DEFAULT_CONFIGURATION`, `__main__.py:112-118`) is not part of this model. The main loop takes the merged settings as an input, and the merge itself is Parameters.MergeParametersCollection.
- App.MatchNDays: treats only ASCII digits as digits. Python's `\d` also matches other Unicode decimal digits.
- Template expansion (`file_template_to_file_name`) is not part of this model. The expansion is the parameter `nameOf` of the main loop.
- Several names that `__main__.py` imports are not defined in the package files modelled here. Each is handled as follows:
  - the package's `get_last_downloaded`: the last downloaded file is a parameter (`App.FeedData`);
  - `build_only_new_entities` and `flatten_rss_links_data`: modelled as `Rss.OnlyNewEntities` and `Rss.Flatten`;
  - `warning`;
  - `configuration.CONFIG_FILE_NAME_TEMPLATE`: the key is taken to be "file_name_template".
- `get_week_day` and `get_nth_day`: their bodies are empty, and no call ever reaches them.
- main.py:8-11 `get_downloaded_files`: it behaves like the one in downloaded.py:15-20 and is modelled once, as LegacyDownloaded.GetDownloadedFiles.
- Sorting.SortDescending: does not state the stability of Python's `sorted` for equal keys. The result is ordered and a permutation, but ties may come out in another order.
- Utils.Compose: the functions all have one type `T -> T`. The program composes functions of different types.
- App.Settings: the configuration values have the types the program expects (`disable` and `require_date` are booleans, the limit is an integer). Type errors on other values are not modelled.
