/**
  `podcast_downloader/configuration.py`: the podcast entries of the
  configuration and their validation, the weekday labels accepted by the
  "download_from_<label>" policy, and the "n days ago" date.
 */
module Configuration {
  import opened Wrappers
  import opened Text
  import opened Calendar

  /** `WEEK_DAYS`. */
  const WEEK_DAYS: seq<string> := ["Monday", "Tuesday", "Wednesday", "Thursday", "Friday", "Saturday", "Sunday"]

  /** The `short_weekdays` tuple of `parse_day_label`, index for index with `WEEK_DAYS`. */
  const SHORT_WEEKDAYS: seq<string> := ["Mon", "Tues", "Weds", "Thurs", "Fri", "Sat", "Sun"]

  /**
    One entry of the `podcasts` list. A key missing from the entry is `None`;
    `require_date` and `disable` are taken by their truth value.
   */
  datatype PodcastConfig = PodcastConfig(
    name: Option<string>,
    path: Option<string>,
    rssLink: Option<string>,
    requireDate: Option<bool>,
    disable: Option<bool>,
    fileNameTemplate: Option<string>,
    ifDirectoryEmpty: Option<string>,
    podcastExtensions: Option<map<string, string>>)

  // ------------------------------------------------------------ validation

  /** The message for the first of name, path and RSS link missing from one entry. */
  function PodcastProblem(p: PodcastConfig): Option<string>
  {
    if p.name.None? then Some("Name is missing for one of the podcast")
    else if p.path.None? then Some("There is no path for podcast " + p.name.value)
    else if p.rssLink.None? then Some("There is no RSS link for podcast " + p.name.value)
    else None
  }

  /** The entry names its podcast, its directory and its feed. */
  predicate IsComplete(p: PodcastConfig)
  {
    p.name.Some? && p.path.Some? && p.rssLink.Some?
  }

  lemma ProblemIffIncomplete(p: PodcastConfig)
    ensures PodcastProblem(p) == None <==> IsComplete(p)
  {
  }

  /**
    `configuration_verification(config)`: `(True, None)` when every podcast
    entry is complete, otherwise `False` and the message of the first
    incomplete entry.
   */
  function ConfigurationVerification(podcasts: seq<PodcastConfig>): (r: (bool, Option<string>))
    ensures r.0 <==> forall i :: 0 <= i < |podcasts| ==> IsComplete(podcasts[i])
    ensures r.0 ==> r.1 == None
    ensures !r.0 ==> r.1.Some?
  {
    if podcasts == [] then (true, None)
    else match PodcastProblem(podcasts[0])
      case Some(message) => (false, Some(message))
      case None => ConfigurationVerification(podcasts[1..])
  }

  /**
    The first incomplete entry decides the message: the entries before it
    are complete, and its first missing key (name, then path, then RSS
    link) is the one reported.
   */
  lemma {:induction false} FirstProblemDecides(podcasts: seq<PodcastConfig>, k: nat)
    requires k < |podcasts| && !IsComplete(podcasts[k])
    requires forall i :: 0 <= i < k ==> IsComplete(podcasts[i])
    ensures ConfigurationVerification(podcasts) == (false, PodcastProblem(podcasts[k]))
  {
    if k > 0 {
      ProblemIffIncomplete(podcasts[0]);
      FirstProblemDecides(podcasts[1..], k - 1);
    }
  }

  /** An entry without a name is reported as such, whatever else the list holds. */
  lemma NameMissingFirst(podcasts: seq<PodcastConfig>, k: nat)
    requires k < |podcasts| && podcasts[k].name.None?
    requires forall i :: 0 <= i < k ==> IsComplete(podcasts[i])
    ensures ConfigurationVerification(podcasts) == (false, Some("Name is missing for one of the podcast"))
  {
    FirstProblemDecides(podcasts, k);
  }

  // ---------------------------------------------------------- weekday labels

  /** The first position of `x` in `xs`, or -1; `tuple.index` raises where this gives -1. */
  function IndexOf(xs: seq<string>, x: string): (r: int)
    ensures -1 <= r < |xs|
    ensures r == -1 <==> x !in xs
    ensures r >= 0 ==> xs[r] == x && x !in xs[..r]
  {
    if xs == [] then -1
    else if xs[0] == x then 0
    else
      var r := IndexOf(xs[1..], x);
      assert r >= 0 ==> xs[..r + 1] == [xs[0]] + xs[1..][..r];
      if r == -1 then -1 else r + 1
  }

  /**
    `parse_day_label(raw_label)`: the capitalized label when it is a full
    weekday name, else the full name at the position of the capitalized
    label among the short names. A label that is neither makes `.index`
    raise a `ValueError` that does not mention the label; returning the raw
    label as the error value is this model's own choice.
   */
  function ParseDayLabel(raw: string): (r: Result<string, string>)
    ensures r.Ok? ==> r.value in WEEK_DAYS
    ensures r.Err? ==> r.error == raw
  {
    var capitalized := Capitalize(raw);
    if capitalized in WEEK_DAYS then Ok(capitalized)
    else
      var index := IndexOf(SHORT_WEEKDAYS, capitalized);
      if index >= 0 then Ok(WEEK_DAYS[index]) else Err(raw)
  }

  lemma WeekdayNamesCapitalized(i: nat)
    requires i < 7
    ensures Capitalize(WEEK_DAYS[i]) == WEEK_DAYS[i]
    ensures Capitalize(SHORT_WEEKDAYS[i]) == SHORT_WEEKDAYS[i]
  {
    var full, short := WEEK_DAYS[i], SHORT_WEEKDAYS[i];
    assert Lower(full[1..]) == full[1..];
    assert Lower(short[1..]) == short[1..];
    assert full == [full[0]] + full[1..] && short == [short[0]] + short[1..];
  }

  /** Every full and short weekday name starts with an upper-case letter. */
  lemma WeekdayInitialsUpper(i: nat)
    requires i < 7
    ensures WEEK_DAYS[i] != [] && IsUpper(WEEK_DAYS[i][0])
    ensures SHORT_WEEKDAYS[i] != [] && IsUpper(SHORT_WEEKDAYS[i][0])
  {
    assert forall k :: 0 <= k < 7 ==> WEEK_DAYS[k][0] == "MTWTFSS"[k] && SHORT_WEEKDAYS[k][0] == "MTWTFSS"[k];
  }

  /** No short name is a full name, and each short name occurs once. */
  lemma ShortNamesDistinct(i: nat)
    requires i < 7
    ensures SHORT_WEEKDAYS[i] !in WEEK_DAYS
    ensures IndexOf(SHORT_WEEKDAYS, SHORT_WEEKDAYS[i]) == i
  {
    var short := SHORT_WEEKDAYS[i];
    assert |short| <= 5;
    forall j | 0 <= j < 7 ensures WEEK_DAYS[j] != short {
      assert |WEEK_DAYS[j]| >= 6;
    }
    forall j | 0 <= j < 7 && j != i ensures SHORT_WEEKDAYS[j] != short {
      assert SHORT_WEEKDAYS[j][..2] != short[..2] by {
        assert forall k :: 0 <= k < 7 ==> SHORT_WEEKDAYS[k][..2] == ["Mo", "Tu", "We", "Th", "Fr", "Sa", "Su"][k];
      }
    }
  }

  /** A full weekday name in any casing gives that weekday. */
  lemma ParseFullName(raw: string, i: nat)
    requires i < 7 && EqualsIgnoringCase(raw, WEEK_DAYS[i])
    ensures ParseDayLabel(raw) == Ok(WEEK_DAYS[i])
  {
    WeekdayNamesCapitalized(i);
    CapitalizeMatches(raw, WEEK_DAYS[i]);
  }

  /** A short weekday name in any casing gives the weekday at the same position. */
  lemma ParseShortName(raw: string, i: nat)
    requires i < 7 && EqualsIgnoringCase(raw, SHORT_WEEKDAYS[i])
    ensures ParseDayLabel(raw) == Ok(WEEK_DAYS[i])
  {
    WeekdayNamesCapitalized(i);
    ShortNamesDistinct(i);
    CapitalizeMatches(raw, SHORT_WEEKDAYS[i]);
  }

  /** Any other label is an error. */
  lemma ParseOtherLabel(raw: string)
    requires forall i :: 0 <= i < 7 ==>
               !EqualsIgnoringCase(raw, WEEK_DAYS[i]) && !EqualsIgnoringCase(raw, SHORT_WEEKDAYS[i])
    ensures ParseDayLabel(raw) == Err(raw)
  {
    var capitalized := Capitalize(raw);
    forall i | 0 <= i < 7
      ensures capitalized != WEEK_DAYS[i] && capitalized != SHORT_WEEKDAYS[i]
    {
      WeekdayNamesCapitalized(i);
      CapitalizeMatches(raw, WEEK_DAYS[i]);
      CapitalizeMatches(raw, SHORT_WEEKDAYS[i]);
    }
  }

  /** The two resolvers `get_label_to_date` would hand out. */
  datatype LabelResolver = WeekDayResolver | NthDayResolver

  /**
    `get_label_to_date(day_label)`: calls `day_label.to_lower()`, a method
    `str` does not have, so it raises for every label before choosing a
    resolver.
   */
  function GetLabelToDate(dayLabel: string): (r: Result<LabelResolver, string>)
    ensures r == Err("'str' object has no attribute 'to_lower'")
  {
    Err("'str' object has no attribute 'to_lower'")
  }

  // ------------------------------------------------------------ n days ago

  /**
    `get_n_age_date(day_number, from_date)` (also in `rss.py`): the calendar
    date `day_number` days before the date of `from_date`.
   */
  function GetNAgeDate(dayNumber: nat, fromDate: Timestamp): (r: Date)
    requires Valid(fromDate.DatePart())
    ensures Valid(r)
    ensures dayNumber > 0 ==> Before(r, fromDate.DatePart())
    ensures dayNumber == 0 ==> r == fromDate.DatePart()
  {
    MinusDays(fromDate.DatePart(), dayNumber)
  }

  /** Counting `day_number` days forward from the result gives back the date of `from_date`. */
  lemma GetNAgeDateRoundTrip(dayNumber: nat, fromDate: Timestamp)
    requires Valid(fromDate.DatePart())
    ensures PlusDays(GetNAgeDate(dayNumber, fromDate), dayNumber) == fromDate.DatePart()
  {
    PlusMinusDays(fromDate.DatePart(), dayNumber);
  }

  /** Three days before 2020-01-01 (any time of day) is 2019-12-29. */
  lemma GetNAgeDateAcrossNewYear(hour: int, minute: int, second: int)
    ensures GetNAgeDate(3, Timestamp(2020, 1, 1, hour, minute, second)) == Date(2019, 12, 29)
  {
    MinusDaysAcrossNewYear();
  }
}
