/**
  The program of `podcast_downloader/__main__.py`: turning the
  `if_directory_empty` value into a policy, choosing the file-name
  template, resolving each podcast's settings against the global ones,
  building each feed's candidate list and downloading the candidates
  oldest first under one download limit shared by all feeds.

  What the program reads from the outside world is passed in: the feed
  entries and the last downloaded file of each podcast (`FeedData`), the
  current time, and the expansion of a file-name template for an entity
  (`nameOf`). A download is recorded rather than performed.
 */
module App {
  import opened Wrappers
  import opened Text
  import opened Calendar
  import opened Seqs
  import opened Rss
  import opened Configuration

  /** The template that a true `require_date` selects. */
  const DATED_FILE_NAME_TEMPLATE: string := "[%publish_date%] %file_name%.%file_extension%"

  /** The merged configuration: `downloads_limit`, `if_directory_empty`, `podcast_extensions`, `file_name_template`, `podcasts`. */
  datatype Settings = Settings(
    downloadsLimit: int,
    ifDirectoryEmpty: string,
    podcastExtensions: map<string, string>,
    fileNameTemplate: string,
    podcasts: seq<PodcastConfig>)

  // -------------------------------------------------- empty-directory policy

  /** What to take from a feed when the podcast directory has no downloaded file. */
  datatype Policy = OnlyLast | Everything | FromDate(from: Date)

  /** Why a policy value could not be turned into a policy. */
  datatype DispatchError =
    | Unrecognized(value: string)   // "The value the '...' is not recognizable"
    | BadDayLabel(dayLabel: string) // `parse_day_label` found no weekday
    | NoToLower(dayLabel: string)   // `get_label_to_date` called `str.to_lower`

  const FROM_PREFIX: string := "download_from_"
  const DAYS_SUFFIX: string := "_days"

  predicate AllDigits(s: string)
  {
    forall i :: 0 <= i < |s| ==> IsDigit(s[i])
  }

  /** The text a pattern ending in `$` has to match: the value less one final newline. */
  function LineBody(v: string): (r: string)
    ensures r == v || v == r + "\n"
  {
    if EndsWith(v, "\n") then v[..|v| - 1] else v
  }

  /** `re.match(r"^download_from_(\d+)_days$", v)`: the digit group, if the value has that form. */
  function MatchNDays(v: string): (r: Option<string>)
    ensures r.Some? ==> r.value != [] && AllDigits(r.value)
                        && LineBody(v) == FROM_PREFIX + r.value + DAYS_SUFFIX
  {
    var body := LineBody(v);
    if |body| > |FROM_PREFIX| + |DAYS_SUFFIX| && StartsWith(body, FROM_PREFIX) && EndsWith(body, DAYS_SUFFIX) then
      var digits := body[|FROM_PREFIX|..|body| - |DAYS_SUFFIX|];
      if AllDigits(digits) then
        assert body == body[..|FROM_PREFIX|] + digits + body[|body| - |DAYS_SUFFIX|..];
        Some(digits)
      else None
    else None
  }

  /** Every "download_from_<digits>_days" value, with or without one final newline, matches. */
  lemma MatchNDaysComplete(digits: string, newline: bool)
    requires digits != [] && AllDigits(digits)
    ensures MatchNDays(FROM_PREFIX + digits + DAYS_SUFFIX + (if newline then "\n" else "")) == Some(digits)
  {
    var body := FROM_PREFIX + digits + DAYS_SUFFIX;
    var v := body + (if newline then "\n" else "");
    assert body[|body| - 1..] == "s";
    assert LineBody(v) == body by {
      if newline {
        assert v[|v| - 1..] == "\n";
        assert v[..|v| - 1] == body;
      } else {
        assert v == body && !EndsWith(v, "\n");
      }
    }
    assert body[..|FROM_PREFIX|] == FROM_PREFIX;
    assert body[|body| - |DAYS_SUFFIX|..] == DAYS_SUFFIX;
    assert body[|FROM_PREFIX|..|body| - |DAYS_SUFFIX|] == digits;
  }

  /** The group `(.*)` of "^download_from_(.*)": the text up to the first newline. */
  function FirstLine(s: string): (r: string)
    ensures '\n' !in r
    ensures |r| <= |s| && r == s[..|r|]
    ensures |r| < |s| ==> s[|r|] == '\n'
  {
    var i := Find(s, '\n');
    if i < 0 then s else s[..i]
  }

  /**
    `configuration_to_function_on_empty_directory(value)` with `now` for
    `time.localtime()`: the two literal values, then the "n days" form,
    then any other "download_from_" value as a weekday label, which always
    fails (unknown labels in `parse_day_label`, weekday names in
    `get_label_to_date`); anything else is not recognised.
   */
  function OnEmptyDirectory(value: string, now: Timestamp): (r: Result<Policy, DispatchError>)
    requires Valid(now.DatePart())
    ensures r == Ok(OnlyLast) <==> value == "download_last"
    ensures r == Ok(Everything) <==> value == "download_all_from_feed"
    ensures r.Ok? <==> value == "download_last" || value == "download_all_from_feed" || MatchNDays(value).Some?
    ensures r == Err(Unrecognized(value)) <==>
              value != "download_last" && value != "download_all_from_feed" && !StartsWith(value, FROM_PREFIX)
    ensures r.Ok? && r.value.FromDate? ==> Valid(r.value.from) && !Before(now.DatePart(), r.value.from)
  {
    if value == "download_last" then Ok(OnlyLast)
    else if value == "download_all_from_feed" then Ok(Everything)
    else match MatchNDays(value)
      case Some(digits) =>
        assert StartsWith(LineBody(value), FROM_PREFIX);
        Ok(FromDate(GetNAgeDate(ParseDigits(digits), now)))
      case None =>
        if StartsWith(value, FROM_PREFIX) then
          var dayLabel := FirstLine(value[|FROM_PREFIX|..]);
          match ParseDayLabel(dayLabel)
          case Err(_) => Err(BadDayLabel(dayLabel))
          case Ok(day) =>
            assert GetLabelToDate(day).Err?;
            Err(NoToLower(day))
        else Err(Unrecognized(value))
  }

  /** "download_from_<n>_days" keeps what was published on or after the date `n` days ago. */
  lemma OnEmptyDirectoryNDays(digits: string, newline: bool, now: Timestamp)
    requires digits != [] && AllDigits(digits) && Valid(now.DatePart())
    ensures OnEmptyDirectory(FROM_PREFIX + digits + DAYS_SUFFIX + (if newline then "\n" else ""), now)
            == Ok(FromDate(GetNAgeDate(ParseDigits(digits), now)))
  {
    var v := FROM_PREFIX + digits + DAYS_SUFFIX + (if newline then "\n" else "");
    MatchNDaysComplete(digits, newline);
    assert v[..13] == FROM_PREFIX[..13];
  }

  /** "download_from_7_days" on 2020-01-15 keeps what was published from 2020-01-08 on. */
  lemma OnEmptyDirectorySevenDays(hour: int, minute: int, second: int)
    ensures OnEmptyDirectory("download_from_7_days", Timestamp(2020, 1, 15, hour, minute, second))
            == Ok(FromDate(Date(2020, 1, 8)))
  {
    var now := Timestamp(2020, 1, 15, hour, minute, second);
    OnEmptyDirectoryNDays("7", false, now);
    assert FROM_PREFIX + "7" + DAYS_SUFFIX + "" == "download_from_7_days";
    assert ParseDigits("7") == 7;
    assert MinusDays(Date(2020, 1, 15), 7) == Date(2020, 1, 8);
  }

  /** A weekday name or short name in any casing parses, and does not start with a digit. */
  lemma WeekdayLabelParses(raw: string, i: nat)
    requires i < 7
    requires EqualsIgnoringCase(raw, WEEK_DAYS[i]) || EqualsIgnoringCase(raw, SHORT_WEEKDAYS[i])
    ensures raw != [] && !IsDigit(raw[0])
    ensures ParseDayLabel(raw) == Ok(WEEK_DAYS[i])
  {
    WeekdayInitialsUpper(i);
    if EqualsIgnoringCase(raw, WEEK_DAYS[i]) {
      ParseFullName(raw, i);
      SameCaseInitialNotDigit(raw, WEEK_DAYS[i]);
    } else {
      ParseShortName(raw, i);
      SameCaseInitialNotDigit(raw, SHORT_WEEKDAYS[i]);
    }
  }

  /** "download_from_" and a one-line label not starting with a digit is neither literal nor "n days". */
  lemma FromLabelIsNotNDays(raw: string)
    requires raw != [] && !IsDigit(raw[0]) && '\n' !in raw
    ensures MatchNDays(FROM_PREFIX + raw) == None
    ensures StartsWith(FROM_PREFIX + raw, FROM_PREFIX) && (FROM_PREFIX + raw)[|FROM_PREFIX|..] == raw
    ensures FROM_PREFIX + raw != "download_last" && FROM_PREFIX + raw != "download_all_from_feed"
  {
    var v := FROM_PREFIX + raw;
    assert v[|FROM_PREFIX|..] == raw;
    assert v[..|FROM_PREFIX|] == FROM_PREFIX;
    assert v[9] == 'f';
    var body := LineBody(v);
    if |body| > |FROM_PREFIX| + |DAYS_SUFFIX| {
      assert body[|FROM_PREFIX|] == raw[0];
    }
  }

  /** "download_from_" followed by a weekday name in any casing fails for want of `str.to_lower`. */
  lemma OnEmptyDirectoryWeekday(raw: string, i: nat, now: Timestamp)
    requires i < 7 && Valid(now.DatePart()) && '\n' !in raw
    requires EqualsIgnoringCase(raw, WEEK_DAYS[i]) || EqualsIgnoringCase(raw, SHORT_WEEKDAYS[i])
    ensures OnEmptyDirectory(FROM_PREFIX + raw, now) == Err(NoToLower(WEEK_DAYS[i]))
  {
    WeekdayLabelParses(raw, i);
    FromLabelIsNotNDays(raw);
    assert FirstLine(raw) == raw;
  }

  /** `lambda source: source`, `only_last_entity` or `only_entities_from_date(from_date)`. */
  function ApplyPolicy(p: Policy, xs: seq<Entity>): (r: seq<Entity>)
    ensures p.Everything? ==> r == xs
    ensures p.OnlyLast? ==> |r| == Min(1, |xs|) && r == xs[..|r|]
    ensures p.FromDate? ==> (forall i :: 0 <= i < |r| ==> IsEntityNewer(p.from, r[i]) && r[i] in xs)
                            && (forall i :: 0 <= i < |xs| && IsEntityNewer(p.from, xs[i]) ==> xs[i] in r)
  {
    match p
    case OnlyLast => OnlyLastEntity(xs)
    case Everything => xs
    case FromDate(from) => OnlyEntitiesFromDate(from, xs)
  }

  // ------------------------------------------------------- feed settings

  /**
    `configuration_to_function_rss_to_name(value, sub_configuration)`: the
    template to expand and whether the deprecation warning is logged.
   */
  function RssToNameTemplate(value: string, p: PodcastConfig): (r: (string, bool))
    ensures r.1 <==> p.requireDate.Some? && p.fileNameTemplate.None?
    ensures r.0 == DATED_FILE_NAME_TEMPLATE || r.0 == value
    ensures r.0 != value ==> p.requireDate == Some(true) && p.fileNameTemplate.None?
    ensures p.requireDate == Some(true) && p.fileNameTemplate.None? ==> r.0 == DATED_FILE_NAME_TEMPLATE
  {
    if p.requireDate.Some? && p.fileNameTemplate.None? then
      (if p.requireDate.value then DATED_FILE_NAME_TEMPLATE else value, true)
    else (value, false)
  }

  /** One podcast's settings after the per-podcast values have overridden the global ones. */
  datatype Feed = Feed(
    name: string,
    path: string,
    rssLink: string,
    disabled: bool,
    template: string,
    warned: bool,
    ifDirectoryEmpty: string,
    podcastExtensions: map<string, string>)

  /**
    Lines 138-153 and 161-163 for one entry of `podcasts`. A disabled
    podcast is skipped before its template is chosen, so it never logs the
    deprecation warning.
   */
  function ResolveFeed(settings: Settings, p: PodcastConfig): (f: Feed)
    requires IsComplete(p)
    ensures f.name == p.name.value && f.path == p.path.value && f.rssLink == p.rssLink.value
    ensures f.disabled <==> p.disable == Some(true)
    ensures f.disabled ==> !f.warned
    ensures f.ifDirectoryEmpty == if p.ifDirectoryEmpty.Some? then p.ifDirectoryEmpty.value else settings.ifDirectoryEmpty
    ensures f.podcastExtensions == if p.podcastExtensions.Some? then p.podcastExtensions.value else settings.podcastExtensions
    ensures p.fileNameTemplate.Some? ==> f.template == p.fileNameTemplate.value && !f.warned
    ensures p.fileNameTemplate.None? ==>
              f.template == (if p.requireDate == Some(true) then DATED_FILE_NAME_TEMPLATE else settings.fileNameTemplate)
              && (f.warned <==> p.requireDate.Some? && !f.disabled)
  {
    var value := if p.fileNameTemplate.Some? then p.fileNameTemplate.value else settings.fileNameTemplate;
    var (template, warned) := RssToNameTemplate(value, p);
    var disabled := p.disable.Some? && p.disable.value;
    Feed(p.name.value, p.path.value, p.rssLink.value,
         disabled,
         template, warned && !disabled,
         if p.ifDirectoryEmpty.Some? then p.ifDirectoryEmpty.value else settings.ifDirectoryEmpty,
         if p.podcastExtensions.Some? then p.podcastExtensions.value else settings.podcastExtensions)
  }

  // ---------------------------------------------------------- candidates

  /** What the program learns from outside about one podcast: its feed entries and its last downloaded file. */
  datatype FeedData = FeedData(entries: seq<FeedEntry>, lastDownloaded: Option<string>)

  /** `if last_downloaded_file`: there is a last downloaded file and its name is not empty. */
  predicate HasCursor(data: FeedData)
  {
    data.lastDownloaded.Some? && data.lastDownloaded.value != ""
  }

  /** The flattened entities whose type is one of the values of the extension map. */
  function AllowedEntities(feed: Feed, data: FeedData): seq<Entity>
  {
    Filter((e: Entity) => e.kind in feed.podcastExtensions.Values, Flatten(data.entries))
  }

  /** The allow-list built from the map's values filters exactly like `OnlyAllowed` with any listing of them. */
  lemma AllowedEntitiesAsList(feed: Feed, data: FeedData, allowed: seq<string>)
    requires forall t :: t in allowed <==> t in feed.podcastExtensions.Values
    ensures AllowedEntities(feed, data) == OnlyAllowed(allowed, Flatten(data.entries))
  {
    FilterAgreeing((e: Entity) => e.kind in feed.podcastExtensions.Values, e => IsAllowed(allowed, e), Flatten(data.entries));
  }

  /**
    The pipeline of lines 161-184: the policy is built first (and its error
    ends the run even when it would not be used), then the allowed entities
    go through the cursor filter when there is a last downloaded file and
    through the policy otherwise.
   */
  function FeedCandidates(feed: Feed, data: FeedData, now: Timestamp, nameOf: (string, Entity) -> string)
    : (r: Result<seq<Entity>, DispatchError>)
    requires Valid(now.DatePart())
    ensures r.Err? <==> OnEmptyDirectory(feed.ifDirectoryEmpty, now).Err?
    ensures r.Err? ==> r.error == OnEmptyDirectory(feed.ifDirectoryEmpty, now).error
    ensures r.Ok? ==> forall i :: 0 <= i < |r.value| ==>
              r.value[i] in Flatten(data.entries) && r.value[i].kind in feed.podcastExtensions.Values
    ensures r.Ok? && HasCursor(data) ==>
              var allowed := AllowedEntities(feed, data);
              && |r.value| <= |allowed| && r.value == allowed[..|r.value|]
              && (forall i :: 0 <= i < |r.value| ==> nameOf(feed.template, r.value[i]) != data.lastDownloaded.value)
              && (|r.value| < |allowed| ==> nameOf(feed.template, allowed[|r.value|]) == data.lastDownloaded.value)
    ensures r.Ok? && !HasCursor(data) ==>
              r.value == ApplyPolicy(OnEmptyDirectory(feed.ifDirectoryEmpty, now).value, AllowedEntities(feed, data))
  {
    match OnEmptyDirectory(feed.ifDirectoryEmpty, now)
    case Err(e) => Err(e)
    case Ok(policy) =>
      var allowed := AllowedEntities(feed, data);
      var candidates :=
        if HasCursor(data) then OnlyNewEntities(e => nameOf(feed.template, e), data.lastDownloaded.value, allowed)
        else ApplyPolicy(policy, allowed);
      assert forall i :: 0 <= i < |candidates| ==> candidates[i] in allowed;
      Ok(candidates)
  }

  // ----------------------------------------------------------- downloads

  /** `download_rss_entity_to_path` for one entity: podcast, directory, URL and file name. */
  datatype Download = Download(podcast: string, path: string, link: string, fileName: string)

  function DownloadOf(feed: Feed, e: Entity, nameOf: (string, Entity) -> string): Download
  {
    Download(feed.name, feed.path, e.link, nameOf(feed.template, e))
  }

  /** The downloads of one feed's candidates in `reversed` order: the oldest (last listed) first. */
  function DownloadsOf(feed: Feed, candidates: seq<Entity>, nameOf: (string, Entity) -> string): (r: seq<Download>)
    ensures |r| == |candidates|
    ensures forall i :: 0 <= i < |r| ==> r[i] == DownloadOf(feed, candidates[|candidates| - 1 - i], nameOf)
  {
    if candidates == [] then []
    else DownloadsOf(feed, candidates[1..], nameOf) + [DownloadOf(feed, candidates[0], nameOf)]
  }

  /**
    What the loop of lines 137-207 relies on: a feed for every podcast,
    every podcast verified complete, and a valid current date.
   */
  predicate Runnable(settings: Settings, data: seq<FeedData>, now: Timestamp)
  {
    && |settings.podcasts| <= |data|
    && (forall i :: 0 <= i < |settings.podcasts| ==> IsComplete(settings.podcasts[i]))
    && Valid(now.DatePart())
  }

  /**
    The downloads the first `n` podcasts ask for, in order, ignoring the
    limit, and the error that ended the run, if one did: a disabled podcast
    asks for nothing, and after an error no further podcast is looked at.
   */
  function Plan(settings: Settings, data: seq<FeedData>, n: nat, now: Timestamp,
                nameOf: (string, Entity) -> string): (r: (seq<Download>, Option<DispatchError>))
    requires Runnable(settings, data, now) && n <= |settings.podcasts|
    decreases n
  {
    if n == 0 then ([], None)
    else PlanStep(Plan(settings, data, n - 1, now, nameOf), settings, settings.podcasts[n - 1], data[n - 1], now, nameOf)
  }

  /** What one podcast adds to the plan so far. */
  function PlanStep(sofar: (seq<Download>, Option<DispatchError>), settings: Settings, p: PodcastConfig,
                    data: FeedData, now: Timestamp, nameOf: (string, Entity) -> string)
    : (seq<Download>, Option<DispatchError>)
    requires IsComplete(p) && Valid(now.DatePart())
  {
    var feed := ResolveFeed(settings, p);
    if sofar.1.Some? || feed.disabled then sofar
    else match FeedCandidates(feed, data, now, nameOf)
      case Err(e) => (sofar.0, Some(e))
      case Ok(candidates) => (sofar.0 + DownloadsOf(feed, candidates, nameOf), None)
  }

  /**
    A disabled podcast, or any podcast after an error, adds nothing; an
    enabled one appends its downloads or records its policy error.
   */
  lemma PlanStepIs(sofar: (seq<Download>, Option<DispatchError>), settings: Settings, p: PodcastConfig,
                   data: FeedData, now: Timestamp, nameOf: (string, Entity) -> string)
    requires IsComplete(p) && Valid(now.DatePart())
    ensures sofar.1.Some? || p.disable == Some(true) ==> PlanStep(sofar, settings, p, data, now, nameOf) == sofar
    ensures sofar.1.None? && p.disable != Some(true) ==>
              var feed := ResolveFeed(settings, p);
              match FeedCandidates(feed, data, now, nameOf)
              case Err(e) => PlanStep(sofar, settings, p, data, now, nameOf) == (sofar.0, Some(e))
              case Ok(candidates) =>
                PlanStep(sofar, settings, p, data, now, nameOf) == (sofar.0 + DownloadsOf(feed, candidates, nameOf), None)
  {
  }

  /** One more podcast extends the plan by one step. */
  lemma PlanNext(settings: Settings, data: seq<FeedData>, n: nat, now: Timestamp, nameOf: (string, Entity) -> string)
    requires Runnable(settings, data, now) && n < |settings.podcasts|
    ensures Plan(settings, data, n + 1, now, nameOf)
            == PlanStep(Plan(settings, data, n, now, nameOf), settings, settings.podcasts[n], data[n], now, nameOf)
  {
  }

  /** Once a podcast's policy fails, nothing after it is planned. */
  lemma {:induction false} PlanStopsAtFailure(settings: Settings, data: seq<FeedData>, n: nat, m: nat,
                                              now: Timestamp, nameOf: (string, Entity) -> string)
    requires Runnable(settings, data, now) && n <= m <= |settings.podcasts|
    requires Plan(settings, data, n, now, nameOf).1.Some?
    ensures Plan(settings, data, m, now, nameOf) == Plan(settings, data, n, now, nameOf)
    decreases m
  {
    if m > n {
      PlanStopsAtFailure(settings, data, n, m - 1, now, nameOf);
    }
  }

  /** A step keeps what was planned and adds only downloads of the podcast, when it is enabled. */
  lemma PlanStepExtends(sofar: (seq<Download>, Option<DispatchError>), settings: Settings, p: PodcastConfig,
                        data: FeedData, now: Timestamp, nameOf: (string, Entity) -> string)
    requires IsComplete(p) && Valid(now.DatePart())
    ensures |sofar.0| <= |PlanStep(sofar, settings, p, data, now, nameOf).0|
    ensures PlanStep(sofar, settings, p, data, now, nameOf).0[..|sofar.0|] == sofar.0
    ensures forall k :: |sofar.0| <= k < |PlanStep(sofar, settings, p, data, now, nameOf).0| ==>
              p.disable != Some(true) && PlanStep(sofar, settings, p, data, now, nameOf).0[k].podcast == p.name.value
  {
    PlanStepIs(sofar, settings, p, data, now, nameOf);
  }

  /** Every planned download belongs to an enabled podcast. */
  lemma {:induction false} PlanOnlyEnabled(settings: Settings, data: seq<FeedData>, n: nat,
                                           now: Timestamp, nameOf: (string, Entity) -> string, k: nat)
    requires Runnable(settings, data, now) && n <= |settings.podcasts|
    requires k < |Plan(settings, data, n, now, nameOf).0|
    ensures exists i :: 0 <= i < n && settings.podcasts[i].disable != Some(true)
                        && Plan(settings, data, n, now, nameOf).0[k].podcast == settings.podcasts[i].name.value
    decreases n
  {
    PlanNext(settings, data, n - 1, now, nameOf);
    var prev := Plan(settings, data, n - 1, now, nameOf);
    var p := settings.podcasts[n - 1];
    PlanStepExtends(prev, settings, p, data[n - 1], now, nameOf);
    var plan := Plan(settings, data, n, now, nameOf).0;
    if k < |prev.0| {
      PlanOnlyEnabled(settings, data, n - 1, now, nameOf, k);
      assert plan[k] == plan[..|prev.0|][k] == prev.0[k];
    } else {
      assert p.disable != Some(true) && plan[k].podcast == p.name.value;
    }
  }

  /** The first `limit` downloads of a queue, or all of them when the limit is negative. */
  function Capped(queue: seq<Download>, limit: int): (r: seq<Download>)
    ensures |r| == if limit < 0 then |queue| else Min(limit, |queue|)
    ensures r == queue[..|r|]
  {
    if limit < 0 then queue else queue[..Min(limit, |queue|)]
  }

  /** A non-negative limit bounds the number of downloads. */
  lemma CappedWithinLimit(queue: seq<Download>, limit: int)
    ensures limit >= 0 ==> 0 <= limit - |Capped(queue, limit)| <= limit
  {
  }

  /** One more queued download is made exactly when the limit is not used up. */
  lemma CappedSnoc(queue: seq<Download>, d: Download, limit: int)
    ensures Capped(queue + [d], limit)
            == if 0 <= limit <= |queue| then Capped(queue, limit) else Capped(queue, limit) + [d]
  {
    if limit >= 0 && limit > |queue| {
      assert (queue + [d])[..|queue| + 1] == queue + [d];
    }
  }

  /** The counter decides the next step: a download is made exactly while it is not 0. */
  lemma CappedCounter(queue: seq<Download>, d: Download, downloadsLimit: int, downloads: seq<Download>, limit: int)
    requires downloads == Capped(queue, downloadsLimit)
    requires limit == downloadsLimit - |downloads|
    ensures Capped(queue + [d], downloadsLimit) == if limit == 0 then downloads else downloads + [d]
  {
    CappedSnoc(queue, d, downloadsLimit);
  }

  /** Walking the candidates from the back adds one download at a time. */
  lemma DownloadsOfStep(feed: Feed, entries: seq<Entity>, nameOf: (string, Entity) -> string, j: nat)
    requires j < |entries|
    ensures DownloadsOf(feed, entries, nameOf)[..|entries| - j]
            == DownloadsOf(feed, entries, nameOf)[..|entries| - j - 1] + [DownloadOf(feed, entries[j], nameOf)]
  {
    var pending := DownloadsOf(feed, entries, nameOf);
    assert pending[|entries| - j - 1] == DownloadOf(feed, entries[j], nameOf);
  }

  /**
    The inner loop of lines 191-203 for one podcast: its candidates oldest
    first, each downloaded while the counter is not 0 and skipped otherwise.
    The counter drops once a download has finished (line 203 follows line
    202); a failing download would raise before that.
   */
  method DownloadCandidates(feed: Feed, entries: seq<Entity>, nameOf: (string, Entity) -> string,
                            ghost queue: seq<Download>, downloadsLimit: int,
                            downloadsBefore: seq<Download>, limitBefore: int)
    returns (downloads: seq<Download>, limit: int)
    requires downloadsBefore == Capped(queue, downloadsLimit)
    requires limitBefore == downloadsLimit - |downloadsBefore|
    ensures downloads == Capped(queue + DownloadsOf(feed, entries, nameOf), downloadsLimit)
    ensures limit == downloadsLimit - |downloads|
  {
    downloads, limit := downloadsBefore, limitBefore;
    ghost var pending := DownloadsOf(feed, entries, nameOf);
    var j := |entries|;
    while j > 0
      invariant 0 <= j <= |entries|
      invariant downloads == Capped(queue + pending[..|entries| - j], downloadsLimit)
      invariant limit == downloadsLimit - |downloads|
    {
      j := j - 1;
      var entry := entries[j];
      ghost var sofar := queue + pending[..|entries| - j - 1];
      DownloadsOfStep(feed, entries, nameOf, j);
      assert queue + pending[..|entries| - j] == sofar + [DownloadOf(feed, entry, nameOf)];
      CappedCounter(sofar, DownloadOf(feed, entry, nameOf), downloadsLimit, downloads, limit);
      if limit != 0 {
        downloads := downloads + [DownloadOf(feed, entry, nameOf)];
        limit := limit - 1;
      }
    }
    assert pending[..|entries|] == pending;
  }

  /**
    One pass of the loop of lines 137-207, for podcast `n`: it is skipped
    when disabled, its policy error is raised, or its candidates are
    downloaded under the shared counter.
   */
  method RunFeed(settings: Settings, data: seq<FeedData>, n: nat, now: Timestamp,
                 nameOf: (string, Entity) -> string, ghost queue: seq<Download>,
                 downloadsBefore: seq<Download>, limitBefore: int)
    returns (downloads: seq<Download>, limit: int, failure: Option<DispatchError>)
    requires Runnable(settings, data, now) && n < |settings.podcasts|
    requires Plan(settings, data, n, now, nameOf) == (queue, None)
    requires downloadsBefore == Capped(queue, settings.downloadsLimit)
    requires limitBefore == settings.downloadsLimit - |downloadsBefore|
    ensures failure == Plan(settings, data, n + 1, now, nameOf).1
    ensures downloads == Capped(Plan(settings, data, n + 1, now, nameOf).0, settings.downloadsLimit)
    ensures limit == settings.downloadsLimit - |downloads|
    ensures failure.Some? ==> Plan(settings, data, |settings.podcasts|, now, nameOf) == Plan(settings, data, n + 1, now, nameOf)
  {
    PlanNext(settings, data, n, now, nameOf);
    downloads, limit, failure := downloadsBefore, limitBefore, None;
    var feed := ResolveFeed(settings, settings.podcasts[n]);
    if !feed.disabled {
      var candidates := FeedCandidates(feed, data[n], now, nameOf);
      if candidates.Err? {
        failure := Some(candidates.error);
        PlanStopsAtFailure(settings, data, n + 1, |settings.podcasts|, now, nameOf);
        return;
      }
      downloads, limit := DownloadCandidates(feed, candidates.value, nameOf, queue, settings.downloadsLimit, downloads, limit);
    }
  }

  /**
    The download loop of lines 137-207: podcast by podcast, the enabled
    ones' candidates oldest first, skipping every download once the shared
    counter `DOWNLOADS_LIMITS` has reached 0. A policy error ends the run.
   */
  method RunFeeds(settings: Settings, data: seq<FeedData>, now: Timestamp, nameOf: (string, Entity) -> string)
    returns (downloads: seq<Download>, remaining: int, failure: Option<DispatchError>)
    requires |data| == |settings.podcasts|
    requires forall i :: 0 <= i < |settings.podcasts| ==> IsComplete(settings.podcasts[i])
    requires Valid(now.DatePart())
    ensures failure == Plan(settings, data, |data|, now, nameOf).1
    ensures downloads == Capped(Plan(settings, data, |data|, now, nameOf).0, settings.downloadsLimit)
    ensures remaining == settings.downloadsLimit - |downloads|
    ensures settings.downloadsLimit >= 0 ==> 0 <= remaining <= settings.downloadsLimit
  {
    assert Runnable(settings, data, now);
    var limit := settings.downloadsLimit;
    downloads, failure := [], None;
    ghost var queue: seq<Download> := [];
    var n := 0;
    while n < |settings.podcasts|
      invariant 0 <= n <= |settings.podcasts|
      invariant Plan(settings, data, n, now, nameOf) == (queue, None)
      invariant failure == None
      invariant downloads == Capped(queue, settings.downloadsLimit)
      invariant limit == settings.downloadsLimit - |downloads|
    {
      downloads, limit, failure := RunFeed(settings, data, n, now, nameOf, queue, downloads, limit);
      queue := Plan(settings, data, n + 1, now, nameOf).0;
      n := n + 1;
      if failure.Some? {
        break;
      }
    }
    remaining := limit;
    CappedWithinLimit(queue, settings.downloadsLimit);
  }

  /** How a run ends. */
  datatype Outcome =
    | InvalidConfiguration(message: string)                          // exit(1) after verification
    | Finished(downloads: seq<Download>)
    | Aborted(downloads: seq<Download>, error: DispatchError)   // the policy exception

  /** The program after loading the configuration: verification first, then the feeds. */
  method Run(settings: Settings, data: seq<FeedData>, now: Timestamp, nameOf: (string, Entity) -> string)
    returns (outcome: Outcome)
    requires |data| == |settings.podcasts|
    requires Valid(now.DatePart())
    ensures !ConfigurationVerification(settings.podcasts).0 ==>
              outcome == InvalidConfiguration(ConfigurationVerification(settings.podcasts).1.value)
    ensures ConfigurationVerification(settings.podcasts).0 ==>
              !outcome.InvalidConfiguration?
              && outcome.downloads == Capped(Plan(settings, data, |data|, now, nameOf).0, settings.downloadsLimit)
              && (outcome.Aborted? <==> Plan(settings, data, |data|, now, nameOf).1.Some?)
  {
    var (isValid, error) := ConfigurationVerification(settings.podcasts);
    if !isValid {
      return InvalidConfiguration(error.value);
    }
    var downloads, remaining, failure := RunFeeds(settings, data, now, nameOf);
    if failure.Some? {
      outcome := Aborted(downloads, failure.value);
    } else {
      outcome := Finished(downloads);
    }
  }
}
