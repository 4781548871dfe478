/**
  Feed entries and the pure operations of `podcast_downloader/rss.py`:
  file naming (`RSSEntitySimpleName` / `RSSEntityWithDate`), flattening
  feed items into one entity per enclosure link, and the filters that
  decide which entities are candidates for download.
 */
module Rss {
  import opened Text
  import opened Calendar
  import opened Seqs

  /** One enclosure of a feed item: its media type and its URL. */
  datatype Link = Link(kind: string, href: string)

  /** A parsed feed item: `published_parsed` and its `links`. */
  datatype FeedEntry = FeedEntry(published: Timestamp, links: seq<Link>)

  /** `RSSEntity(published_date, type, link)`. */
  datatype Entity = Entity(published: Timestamp, kind: string, link: string)

  // ---------------------------------------------------------------- naming

  /** The last path segment of a link, lower-cased. */
  function LastSegment(link: string): string
  {
    Lower(AfterLast(link, '/'))
  }

  /**
    `RSSEntitySimpleName.to_file_name`: the lower-cased text after the last
    "/", cut before its last "?" when its first "?" is not its first character.
   */
  function SimpleFileName(link: string): (r: string)
    ensures '/' !in r
    ensures |r| <= |LastSegment(link)| && r == LastSegment(link)[..|r|]
    ensures Find(LastSegment(link), '?') > 0 ==>
              LastSegment(link) == r + "?" + AfterLast(LastSegment(link), '?')
    ensures Find(LastSegment(link), '?') <= 0 ==> r == LastSegment(link)
  {
    var segment := LastSegment(link);
    LowerKeepsNonLetters(AfterLast(link, '/'), '/');
    if Find(segment, '?') > 0 then
      var r := BeforeLast(segment, '?');
      assert segment == r + ['?'] + AfterLast(segment, '?');
      assert segment[..|r|] == r;
      r
    else segment
  }

  /** The name has no upper-case ASCII letter, whatever the link's casing. */
  lemma SimpleFileNameIsLowerCase(link: string)
    ensures forall i :: 0 <= i < |SimpleFileName(link)| ==> !IsUpper(SimpleFileName(link)[i])
  {
    var r := SimpleFileName(link);
    forall i | 0 <= i < |r| ensures !IsUpper(r[i]) {
      assert r[i] == LastSegment(link)[i];
    }
  }

  /**
    `time.strftime("%Y%m%d", published_date)` as the GNU C library prints
    it: the year without padding, the month and the day with two digits.
   */
  function DateStamp(t: Timestamp): string
  {
    Decimal(t.year, 0) + Decimal(t.month, 2) + Decimal(t.day, 2)
  }

  /**
    `RSSEntityWithDate.to_file_name`: "[YYYYMMDD] " followed by the simple
    name. The name opens with "[" and closes with "] " and the simple name;
    what lies between is the date stamp (see `DatedFileNameShape`).
   */
  function DatedFileName(e: Entity): (r: string)
    ensures StartsWith(r, "[") && EndsWith(r, "] " + SimpleFileName(e.link))
  {
    Bracketed(DateStamp(e.published), SimpleFileName(e.link))
  }

  /** "[" + stamp + "] " + name. */
  function Bracketed(stamp: string, name: string): (r: string)
    ensures StartsWith(r, "[") && EndsWith(r, "] " + name)
  {
    var r := "[" + stamp + "] " + name;
    assert r == ("[" + stamp) + ("] " + name);
    r
  }

  /**
    `r` is "[", eight digits that read back as the year (four digits), the
    month and the day (two digits each), then "] " and `name`.
   */
  predicate DatedLayout(r: string, name: string, d: Date)
  {
    && |r| == 11 + |name| && r[0] == '[' && r[9..11] == "] " && r[11..] == name
    && (forall i :: 1 <= i < 9 ==> IsDigit(r[i]))
    && ParseDigits(r[1..5]) == d.year
    && ParseDigits(r[5..7]) == d.month
    && ParseDigits(r[7..9]) == d.day
  }

  /** For a four-digit year the dated name has exactly that layout. */
  lemma DatedFileNameShape(e: Entity)
    requires 1000 <= e.published.year < 10000 && Valid(e.published.DatePart())
    ensures DatedLayout(DatedFileName(e), SimpleFileName(e.link), e.published.DatePart())
  {
    var t := e.published;
    StampDigits(t);
    StampedShape(DateStamp(t), SimpleFileName(e.link), t.DatePart());
  }

  /** "[" + an eight-digit stamp + "] " + name, read position by position. */
  lemma StampedShape(stamp: string, name: string, d: Date)
    requires |stamp| == 8 && forall i :: 0 <= i < 8 ==> IsDigit(stamp[i])
    requires ParseDigits(stamp[..4]) == d.year
    requires ParseDigits(stamp[4..6]) == d.month
    requires ParseDigits(stamp[6..]) == d.day
    ensures DatedLayout("[" + stamp + "] " + name, name, d)
  {
    var r := "[" + stamp + "] " + name;
    BracketedShape(stamp, name);
    assert r[1..9] == stamp;
    assert r[1..5] == stamp[..4];
    assert r[5..7] == stamp[4..6];
    assert r[7..9] == stamp[6..];
  }

  /** For a four-digit year the stamp is the year, then the zero-padded month and day, each reading back as its field. */
  lemma StampDigits(t: Timestamp)
    requires 1000 <= t.year < 10000 && Valid(t.DatePart())
    ensures |DateStamp(t)| == 8
    ensures forall i :: 0 <= i < 8 ==> IsDigit(DateStamp(t)[i])
    ensures ParseDigits(DateStamp(t)[..4]) == t.year
    ensures ParseDigits(DateStamp(t)[4..6]) == t.month
    ensures ParseDigits(DateStamp(t)[6..]) == t.day
  {
    ParseDigitsOfZeroPad(t.year, 0);
    ParseDigitsOfZeroPad(t.month, 2);
    ParseDigitsOfZeroPad(t.day, 2);
    var y, m, d := ZeroPad(t.year, 0), ZeroPad(t.month, 2), ZeroPad(t.day, 2);
    assert |y| == 4 && |m| == 2 && |d| == 2 by {
      DigitsLengthExactly(t.year, 4);
      ZeroPadLength(t.month, 2);
      ZeroPadLength(t.day, 2);
    }
    assert DateStamp(t) == y + m + d;
    assert DateStamp(t)[..4] == y;
    assert DateStamp(t)[4..6] == m;
    assert DateStamp(t)[6..] == d;
  }

  // The dated name of main_test.py's entry, assembled piece by piece: the
  // stamp, the lower-cased last segment without a query, then the brackets.

  lemma ExampleStamp(t: Timestamp)
    requires t == Timestamp(2020, 1, 2, 17, 3, 38)
    ensures DateStamp(t) == "20200102"
  {
    assert Digits(2020) == "2020";
    assert Digits(1) == "1" && Digits(2) == "2";
  }

  lemma ExampleLower(segment: string)
    requires segment == "fIlE_nAme.mp3"
    ensures Lower(segment) == "file_name.mp3"
  {
    var lowered := Lower(segment);
    forall i | 0 <= i < |segment| ensures lowered[i] == "file_name.mp3"[i] {
      assert lowered[i] == LowerChar(segment[i]);
    }
  }

  lemma ExampleSimpleName(prefix: string)
    ensures SimpleFileName(prefix + "/fIlE_nAme.mp3") == "file_name.mp3"
  {
    var segment := "fIlE_nAme.mp3";
    assert prefix + "/fIlE_nAme.mp3" == prefix + ['/'] + segment;
    AfterLastOfJoin(prefix, '/', segment);
    ExampleLower(segment);
    ExampleNoQuery(prefix + "/fIlE_nAme.mp3");
  }

  lemma ExampleNoQuery(link: string)
    requires LastSegment(link) == "file_name.mp3"
    ensures SimpleFileName(link) == "file_name.mp3"
  {
    var segment := LastSegment(link);
    forall i | 0 <= i < |segment| ensures segment[i] != '?' { }
    assert '?' !in segment;
  }

  lemma ExampleBrackets(stamp: string, name: string)
    requires stamp == "20200102" && name == "file_name.mp3"
    ensures "[" + stamp + "] " + name == "[20200102] file_name.mp3"
  {
  }

  /**
    The entry published on 2 January 2020 whose link ends in
    "/fIlE_nAme.mp3" is named "[20200102] file_name.mp3", whatever the rest
    of the link. main_test.py expects this name for the link
    "http://www.podcast.com/podcast/something/fIlE_nAme.mp3"; it builds the
    entity with the older main.py's `RSSEntity`, which has no
    `to_file_name`, and the name it expects is the one
    `RSSEntityWithDate.to_file_name` gives.
   */
  lemma DatedFileNameExample(e: Entity, prefix: string)
    requires e.published == Timestamp(2020, 1, 2, 17, 3, 38)
    requires e.link == prefix + "/fIlE_nAme.mp3"
    ensures DatedFileName(e) == "[20200102] file_name.mp3"
  {
    ExampleStamp(e.published);
    ExampleSimpleName(prefix);
    ExampleBrackets(DateStamp(e.published), SimpleFileName(e.link));
  }

  /** "[" + an eight-character stamp + "] " is an 11-character prefix. */
  lemma BracketedShape(stamp: string, name: string)
    requires |stamp| == 8
    ensures |"[" + stamp + "] " + name| == 11 + |name|
    ensures ("[" + stamp + "] " + name)[11..] == name
    ensures ("[" + stamp + "] " + name)[0] == '[' && ("[" + stamp + "] " + name)[9..11] == "] "
  {
  }

  lemma StampLength(t: Timestamp)
    requires 1000 <= t.year < 10000 && Valid(t.DatePart())
    ensures |DateStamp(t)| == 8
  {
    DigitsLengthExactly(t.year, 4);
    ZeroPadLength(t.month, 2);
    ZeroPadLength(t.day, 2);
  }

  // ----------------------------------------------------------- flattening

  /** The entities of one feed item, one per link, in link order. */
  function EntitiesOf(item: FeedEntry): (r: seq<Entity>)
    ensures |r| == |item.links|
  {
    seq(|item.links|, j requires 0 <= j < |item.links| =>
      Entity(item.published, item.links[j].kind, item.links[j].href))
  }

  /** The number of links of all the given feed items together. */
  function LinkCount(items: seq<FeedEntry>): nat
  {
    if items == [] then 0 else |items[0].links| + LinkCount(items[1..])
  }

  /** `build_flatten_rss_links_data(RSSEntity)(items)`: items first, then links. */
  function Flatten(items: seq<FeedEntry>): (r: seq<Entity>)
    ensures |r| == LinkCount(items)
  {
    if items == [] then [] else EntitiesOf(items[0]) + Flatten(items[1..])
  }

  /**
    Link `j` of item `i` is the entity at position "links of the items
    before `i`" plus `j`, and carries that item's date and that link's type
    and URL.
   */
  lemma {:induction false} FlattenAt(items: seq<FeedEntry>, i: nat, j: nat)
    requires i < |items| && j < |items[i].links|
    ensures LinkCount(items[..i]) + j < |Flatten(items)|
    ensures Flatten(items)[LinkCount(items[..i]) + j]
            == Entity(items[i].published, items[i].links[j].kind, items[i].links[j].href)
  {
    if i == 0 {
      assert items[..0] == [];
    } else {
      assert items[..i][1..] == items[1..][..i - 1];
      FlattenAt(items[1..], i - 1, j);
    }
  }

  /** Every flattened entity comes from some link of some item. */
  lemma {:induction false} FlattenOrigin(items: seq<FeedEntry>, k: nat) returns (i: nat, j: nat)
    requires k < |Flatten(items)|
    ensures i < |items| && j < |items[i].links|
    ensures k == LinkCount(items[..i]) + j
  {
    if k < |items[0].links| {
      assert items[..0] == [];
      i, j := 0, k;
    } else {
      var i', j' := FlattenOrigin(items[1..], k - |items[0].links|);
      assert items[..i' + 1][1..] == items[1..][..i'];
      i, j := i' + 1, j';
    }
  }

  // --------------------------------------------------------------- filters

  /** `build_only_allowed_filter_for_link_data(allowed)`: the type is one of the list. */
  function IsAllowed(allowed: seq<string>, e: Entity): (r: bool)
    ensures r <==> exists i :: 0 <= i < |allowed| && allowed[i] == e.kind
  {
    e.kind in allowed
  }

  /** The entities of `xs` whose type is allowed, and every such entity. */
  function OnlyAllowed(allowed: seq<string>, xs: seq<Entity>): (r: seq<Entity>)
    ensures |r| <= |xs|
    ensures forall i :: 0 <= i < |r| ==> r[i].kind in allowed && r[i] in xs
    ensures forall i :: 0 <= i < |xs| && xs[i].kind in allowed ==> xs[i] in r
  {
    Filter(e => IsAllowed(allowed, e), xs)
  }

  /** Each entity of an allowed type is kept as often as it occurs; nothing else is kept. */
  lemma OnlyAllowedCount(allowed: seq<string>, xs: seq<Entity>, x: Entity)
    ensures multiset(OnlyAllowed(allowed, xs))[x] == if x.kind in allowed then multiset(xs)[x] else 0
  {
    FilterCount(e => IsAllowed(allowed, e), xs, x);
  }

  /** The filter works piecewise, so the kept entities stay in their input order. */
  lemma OnlyAllowedConcat(allowed: seq<string>, a: seq<Entity>, b: seq<Entity>)
    ensures OnlyAllowed(allowed, a + b) == OnlyAllowed(allowed, a) + OnlyAllowed(allowed, b)
  {
    FilterConcat(e => IsAllowed(allowed, e), a, b);
  }

  /** A type must equal a listed type; containing or being contained in one is not enough. */
  lemma AllowedIsExactMatch(t: Timestamp)
    ensures IsAllowed(["a", "b"], Entity(t, "a", ""))
    ensures IsAllowed(["a", "b"], Entity(t, "b", ""))
    ensures !IsAllowed(["a", "b"], Entity(t, "ab", ""))
    ensures !IsAllowed(["a", "b"], Entity(t, "c", ""))
  {
    assert "ab" != "a" && "ab" != "b";
  }

  /**
    `only_new_entities(from_file, xs)`: the entities of `xs` taken while their
    file name differs from `from_file` (`takewhile`).
   */
  function OnlyNewEntities(nameOf: Entity -> string, fromFile: string, xs: seq<Entity>): (r: seq<Entity>)
    ensures |r| <= |xs| && r == xs[..|r|]
    ensures forall i :: 0 <= i < |r| ==> nameOf(r[i]) != fromFile
    ensures |r| < |xs| ==> nameOf(xs[|r|]) == fromFile
  {
    if xs == [] || nameOf(xs[0]) == fromFile then []
    else [xs[0]] + OnlyNewEntities(nameOf, fromFile, xs[1..])
  }

  /** With no entity named `fromFile`, nothing is cut. */
  lemma OnlyNewEntitiesNoMatch(nameOf: Entity -> string, fromFile: string, xs: seq<Entity>)
    requires forall i :: 0 <= i < |xs| ==> nameOf(xs[i]) != fromFile
    ensures OnlyNewEntities(nameOf, fromFile, xs) == xs
  {
  }

  /**
    When `fromFile` is the name of entity `k` and of none before it, exactly
    the entities before `k` are new: the match and everything after it are
    left out.
   */
  lemma OnlyNewEntitiesUpTo(nameOf: Entity -> string, xs: seq<Entity>, k: nat)
    requires k < |xs|
    requires forall i :: 0 <= i < k ==> nameOf(xs[i]) != nameOf(xs[k])
    ensures OnlyNewEntities(nameOf, nameOf(xs[k]), xs) == xs[..k]
  {
  }

  /** `only_last_entity(xs)`: `islice(xs, 1)`, the first (newest) entity if any. */
  function OnlyLastEntity(xs: seq<Entity>): (r: seq<Entity>)
    ensures |r| == (if xs == [] then 0 else 1)
    ensures r == xs[..|r|]
  {
    if xs == [] then [] else [xs[0]]
  }

  /** `is_entity_newer(from_date, e)`: `e.published_date[:3] >= from_date[:3]`. */
  function IsEntityNewer(fromDate: Date, e: Entity): (r: bool)
    ensures r <==> || e.published.year > fromDate.year
                   || (e.published.year == fromDate.year && e.published.month > fromDate.month)
                   || (e.published.year == fromDate.year && e.published.month == fromDate.month
                       && e.published.day >= fromDate.day)
  {
    !Before(e.published.DatePart(), fromDate)
  }

  /** Only the date matters: entities published the same day at any hour agree. */
  lemma IsEntityNewerIgnoresTime(fromDate: Date, a: Entity, b: Entity)
    requires a.published.DatePart() == b.published.DatePart()
    ensures IsEntityNewer(fromDate, a) == IsEntityNewer(fromDate, b)
  {
  }

  /** `only_entities_from_date(from_date)(xs)`. */
  function OnlyEntitiesFromDate(fromDate: Date, xs: seq<Entity>): (r: seq<Entity>)
    ensures |r| <= |xs|
    ensures forall i :: 0 <= i < |r| ==> IsEntityNewer(fromDate, r[i]) && r[i] in xs
    ensures forall i :: 0 <= i < |xs| && IsEntityNewer(fromDate, xs[i]) ==> xs[i] in r
  {
    Filter(e => IsEntityNewer(fromDate, e), xs)
  }

  /** Exactly the entities dated on or after `fromDate` are kept, with their multiplicity. */
  lemma OnlyEntitiesFromDateKeeps(fromDate: Date, xs: seq<Entity>, x: Entity)
    ensures multiset(OnlyEntitiesFromDate(fromDate, xs))[x]
            == if IsEntityNewer(fromDate, x) then multiset(xs)[x] else 0
  {
    FilterCount(e => IsEntityNewer(fromDate, e), xs, x);
  }
}
