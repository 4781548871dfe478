/**
  The older top-level `main.py`: recovering the simple file name from a
  dated one, and reducing feed entries to (date, first "audio/mpeg" link)
  pairs.
 */
module LegacyMain {
  import opened Calendar
  import opened Seqs
  import opened Rss

  /** `file_name_to_entry_link_name(link)`: `link[11:]`, which is "" for shorter names. */
  function FileNameToEntryLinkName(fileName: string): (r: string)
    ensures |fileName| <= 11 ==> r == ""
    ensures |fileName| > 11 ==> |r| == |fileName| - 11 && fileName == fileName[..11] + r
  {
    if |fileName| <= 11 then "" else fileName[11..]
  }

  lemma FileNameToEntryLinkNameExample()
    ensures FileNameToEntryLinkName("[20190701] file_name.mp3") == "file_name.mp3"
  {
    assert "[20190701] file_name.mp3"[11..] == "file_name.mp3";
  }

  /**
    Dropping the 11-character "[YYYYMMDD] " prefix undoes the dated naming:
    for a four-digit year the simple name comes back.
   */
  lemma DatedNameRoundTrip(e: Entity)
    requires 1000 <= e.published.year < 10000 && Valid(e.published.DatePart())
    ensures FileNameToEntryLinkName(DatedFileName(e)) == SimpleFileName(e.link)
  {
    DatedFileNameShape(e);
  }

  predicate IsMpeg(l: Link)
  {
    l.kind == "audio/mpeg"
  }

  /** `repacked_rss_entries(entries)`: each entry's date with its "audio/mpeg" links, in order. */
  function RepackedRssEntries(entries: seq<FeedEntry>): (r: seq<(Timestamp, seq<Link>)>)
    ensures |r| == |entries|
    ensures forall i :: 0 <= i < |r| ==> r[i].0 == entries[i].published
    ensures forall i, j :: 0 <= i < |r| && 0 <= j < |r[i].1| ==>
              IsMpeg(r[i].1[j]) && r[i].1[j] in entries[i].links
    ensures forall i, j :: 0 <= i < |r| && 0 <= j < |entries[i].links| && IsMpeg(entries[i].links[j]) ==>
              entries[i].links[j] in r[i].1
  {
    seq(|entries|, i requires 0 <= i < |entries| => (entries[i].published, Filter(IsMpeg, entries[i].links)))
  }
  /** Each "audio/mpeg" link of an entry is kept as often as the entry lists it; nothing else is kept. */
  lemma RepackedRssEntriesCount(entries: seq<FeedEntry>, i: nat, l: Link)
    requires i < |entries|
    ensures multiset(RepackedRssEntries(entries)[i].1)[l]
            == if IsMpeg(l) then multiset(entries[i].links)[l] else 0
  {
    FilterCount(IsMpeg, entries[i].links, l);
  }

  /** An entry whose links are all "audio/mpeg" keeps them all, in their order. */
  lemma RepackedRssEntriesAllMpeg(entries: seq<FeedEntry>, i: nat)
    requires i < |entries|
    requires forall j :: 0 <= j < |entries[i].links| ==> IsMpeg(entries[i].links[j])
    ensures RepackedRssEntries(entries)[i].1 == entries[i].links
  {
    FilterAll(IsMpeg, entries[i].links);
  }

  /** Links are kept piecewise: the links of `a + b` give those of `a` followed by those of `b`. */
  lemma RepackedRssEntriesConcat(t: Timestamp, a: seq<Link>, b: seq<Link>)
    ensures RepackedRssEntries([FeedEntry(t, a + b)])[0].1
            == RepackedRssEntries([FeedEntry(t, a)])[0].1 + RepackedRssEntries([FeedEntry(t, b)])[0].1
  {
    FilterConcat(IsMpeg, a, b);
  }


  /** The pair an entry contributes: its date and the URL of its first link, if it has one. */
  function PodcastPair(x: (Timestamp, seq<Link>)): seq<(Timestamp, string)>
  {
    if |x.1| > 0 then [(x.0, x.1[0].href)] else []
  }

  /** `only_podcast_entries(entries)`: entries without links are dropped, the others reduced to their first URL. */
  function OnlyPodcastEntries(xs: seq<(Timestamp, seq<Link>)>): (r: seq<(Timestamp, string)>)
    ensures |r| <= |xs|
  {
    if xs == [] then [] else PodcastPair(xs[0]) + OnlyPodcastEntries(xs[1..])
  }

  /** The output keeps the order of the entries: it is computed piecewise. */
  lemma {:induction false} OnlyPodcastEntriesConcat(a: seq<(Timestamp, seq<Link>)>, b: seq<(Timestamp, seq<Link>)>)
    ensures OnlyPodcastEntries(a + b) == OnlyPodcastEntries(a) + OnlyPodcastEntries(b)
  {
    if a == [] {
      assert a + b == b;
    } else {
      assert (a + b)[1..] == a[1..] + b;
      OnlyPodcastEntriesConcat(a[1..], b);
    }
  }

  /** A (date, URL) pair is produced exactly when some entry with a link has that date and first URL. */
  lemma {:induction false} OnlyPodcastEntriesMembership(xs: seq<(Timestamp, seq<Link>)>, d: Timestamp, href: string)
    ensures (d, href) in OnlyPodcastEntries(xs) <==>
              exists i :: 0 <= i < |xs| && |xs[i].1| > 0 && xs[i].0 == d && xs[i].1[0].href == href
  {
    if xs != [] {
      OnlyPodcastEntriesMembership(xs[1..], d, href);
      if exists i :: 0 <= i < |xs| && |xs[i].1| > 0 && xs[i].0 == d && xs[i].1[0].href == href {
        var i :| 0 <= i < |xs| && |xs[i].1| > 0 && xs[i].0 == d && xs[i].1[0].href == href;
        if i > 0 {
          assert xs[1..][i - 1] == xs[i];
        }
      }
      if (d, href) in OnlyPodcastEntries(xs[1..]) {
        var i :| 0 <= i < |xs[1..]| && |xs[1..][i].1| > 0 && xs[1..][i].0 == d && xs[1..][i].1[0].href == href;
        assert xs[i + 1] == xs[1..][i];
      }
    }
  }

  /**
    Through both steps, an entry with an "audio/mpeg" link yields its date
    and the URL of its first such link.
   */
  lemma PodcastPipeline(entries: seq<FeedEntry>, i: nat)
    requires i < |entries|
    requires exists j :: 0 <= j < |entries[i].links| && IsMpeg(entries[i].links[j])
    ensures (entries[i].published, Filter(IsMpeg, entries[i].links)[0].href)
            in OnlyPodcastEntries(RepackedRssEntries(entries))
  {
    var packed := RepackedRssEntries(entries);
    var j :| 0 <= j < |entries[i].links| && IsMpeg(entries[i].links[j]);
    assert entries[i].links[j] in packed[i].1;
    assert packed[i].1 == Filter(IsMpeg, entries[i].links);
    OnlyPodcastEntriesMembership(packed, entries[i].published, packed[i].1[0].href);
  }
}
