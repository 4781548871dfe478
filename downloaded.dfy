/**
  `podcast_downloader/downloaded.py`: recognising podcast files by extension,
  listing a destination directory newest first, and finding the anchor file
  that ends the first run of already-downloaded feed files.
  The directory listing, `os.path.isfile` and `os.path.getctime` are inputs.
 */
module Downloaded {
  import opened Wrappers
  import opened Text
  import opened Seqs
  import opened Sorting

  /** `get_extensions_checker(extensions)(file_name)`: some extension is a suffix of the name. */
  function HasExtension(extensions: seq<string>, fileName: string): (r: bool)
    ensures r <==> exists i :: 0 <= i < |extensions| && EndsWith(fileName, extensions[i])
  {
    if extensions == [] then false
    else if EndsWith(fileName, extensions[0]) then true
    else
      var r := HasExtension(extensions[1..], fileName);
      assert r ==> exists i :: 1 <= i < |extensions| && EndsWith(fileName, extensions[i]) by {
        if r {
          var i :| 0 <= i < |extensions[1..]| && EndsWith(fileName, extensions[1..][i]);
          assert EndsWith(fileName, extensions[i + 1]);
        }
      }
      assert (exists i :: 1 <= i < |extensions| && EndsWith(fileName, extensions[i])) ==> r by {
        if exists i :: 1 <= i < |extensions| && EndsWith(fileName, extensions[i]) {
          var i :| 1 <= i < |extensions| && EndsWith(fileName, extensions[i]);
          assert extensions[1..][i - 1] == extensions[i];
        }
      }
      r
  }

  /** The checker from the tests: ".abc" files are recognised, "abc.not" is not. */
  lemma HasExtensionExamples()
    ensures HasExtension([".abc"], "abc.abc")
    ensures HasExtension([".xyz", ".abc"], "abc.abc")
    ensures !HasExtension([".xyz", ".abc"], "abc.not")
    ensures !HasExtension([], "abc.abc")
  {
    assert "abc.abc"[3..] == ".abc";
    assert "abc.not"[3..] != ".abc";
    assert "abc.not"[3..] != ".xyz";
  }

  // ---------------------------------------------------------------- listing

  /** Orders file names by creation time, newest first. */
  function ByCreation(ctime: string -> int): (string, string) -> bool
  {
    (a: string, b: string) => ctime(a) >= ctime(b)
  }

  /**
    `get_files_from(directory)`: the directory's names sorted by
    `getctime`, newest first; the listing and `ctime` are inputs.
   */
  function FilesFrom(listing: seq<string>, ctime: string -> int): (r: seq<string>)
    ensures multiset(r) == multiset(listing)
    ensures SortedBy(r, ByCreation(ctime))
  {
    SortDescendingSorted(listing, ByCreation(ctime));
    SortDescending(listing, ByCreation(ctime))
  }

  /**
    `get_downloaded_files(filter, directory)`: the names that pass the filter
    and are regular files, newest first.
   */
  function DownloadedFiles(accept: string -> bool, listing: seq<string>,
                           isFile: string -> bool, ctime: string -> int): (r: seq<string>)
    ensures forall i :: 0 <= i < |r| ==> accept(r[i]) && isFile(r[i]) && r[i] in listing
    ensures forall i :: 0 <= i < |listing| && accept(listing[i]) && isFile(listing[i]) ==> listing[i] in r
    ensures SortedBy(r, ByCreation(ctime))
  {
    var sorted := FilesFrom(listing, ctime);
    var r := Filter(n => accept(n) && isFile(n), sorted);
    FilterSorted(n => accept(n) && isFile(n), sorted, ByCreation(ctime));
    forall i | 0 <= i < |r| ensures r[i] in listing {
      assert r[i] in multiset(sorted);
    }
    forall i | 0 <= i < |listing| && accept(listing[i]) && isFile(listing[i]) ensures listing[i] in r {
      assert listing[i] in multiset(sorted);
    }
    r
  }

  /** Each accepted regular file is kept as often as it is listed; nothing else is kept. */
  lemma DownloadedFilesCount(accept: string -> bool, listing: seq<string>,
                             isFile: string -> bool, ctime: string -> int, x: string)
    ensures multiset(DownloadedFiles(accept, listing, isFile, ctime))[x]
            == if accept(x) && isFile(x) then multiset(listing)[x] else 0
  {
    FilterCount(n => accept(n) && isFile(n), FilesFrom(listing, ctime), x);
  }

  // ------------------------------------------------------------ the anchor

  function AsSet(xs: seq<string>): set<string>
  {
    set x | x in xs
  }

  /**
    Feed positions `s..k` form the first run of downloaded names: nothing
    before `s` is downloaded, everything from `s` to `k` is, and the name
    after `k` (if any) is not.
   */
  predicate IsFirstRun(feed: seq<string>, downloaded: set<string>, s: nat, k: nat)
  {
    && s <= k < |feed|
    && (forall i :: 0 <= i < s ==> feed[i] !in downloaded)
    && (forall i :: s <= i <= k ==> feed[i] in downloaded)
    && (k + 1 == |feed| || feed[k + 1] !in downloaded)
  }

  /** The first position at or after `from` whose name is downloaded, or `|feed|`. */
  function FirstDownloaded(feed: seq<string>, downloaded: set<string>, from: nat): (r: nat)
    requires from <= |feed|
    ensures from <= r <= |feed|
    ensures forall i :: from <= i < r ==> feed[i] !in downloaded
    ensures r < |feed| ==> feed[r] in downloaded
    decreases |feed| - from
  {
    if from == |feed| || feed[from] in downloaded then from
    else FirstDownloaded(feed, downloaded, from + 1)
  }

  /** The last position of the run of downloaded names that starts at `s`. */
  function RunEnd(feed: seq<string>, downloaded: set<string>, s: nat): (k: nat)
    requires s < |feed| && feed[s] in downloaded
    ensures s <= k < |feed|
    ensures forall i :: s <= i <= k ==> feed[i] in downloaded
    ensures k + 1 == |feed| || feed[k + 1] !in downloaded
    decreases |feed| - s
  {
    if s + 1 < |feed| && feed[s + 1] in downloaded then RunEnd(feed, downloaded, s + 1) else s
  }

  /** The anchor: the last name of the first run of downloaded names, if there is one. */
  function AnchorOf(feed: seq<string>, downloaded: set<string>): Option<string>
  {
    var s := FirstDownloaded(feed, downloaded, 0);
    if s == |feed| then None else Some(feed[RunEnd(feed, downloaded, s)])
  }

  /** A run of downloaded names is ended by exactly one position. */
  lemma RunEndIs(feed: seq<string>, downloaded: set<string>, s: nat, k: nat)
    requires s <= k < |feed|
    requires forall i :: s <= i <= k ==> feed[i] in downloaded
    requires k + 1 == |feed| || feed[k + 1] !in downloaded
    ensures RunEnd(feed, downloaded, s) == k
  {
  }

  /**
    `get_last_downloaded_file_before_gap(feed_files, downloaded_files)`:
    walks the feed names in order, remembering the last downloaded one, and
    stops at the first name that is not downloaded once one has been seen.
   */
  method LastDownloadedFileBeforeGap(feedFiles: seq<string>, downloadedFiles: seq<string>)
    returns (lastFile: Option<string>)
    ensures lastFile == AnchorOf(feedFiles, AsSet(downloadedFiles))
  {
    lastFile := None;
    var allDownloaded := AsSet(downloadedFiles);
    ghost var start := FirstDownloaded(feedFiles, allDownloaded, 0);
    var i := 0;
    while i < |feedFiles|
      invariant 0 <= i <= |feedFiles|
      invariant lastFile == None <==> i <= start
      invariant lastFile != None ==>
                  (forall j :: start <= j < i ==> feedFiles[j] in allDownloaded)
                  && lastFile == Some(feedFiles[i - 1])
    {
      if feedFiles[i] in allDownloaded {
        lastFile := Some(feedFiles[i]);
      } else if lastFile != None {
        RunEndIs(feedFiles, allDownloaded, start, i - 1);
        return;
      }
      i := i + 1;
    }
    if lastFile != None {
      RunEndIs(feedFiles, allDownloaded, start, |feedFiles| - 1);
    }
  }

  /** There is no anchor exactly when no feed name is downloaded (in particular for an empty feed). */
  lemma AnchorNoneIff(feed: seq<string>, downloaded: set<string>)
    ensures AnchorOf(feed, downloaded) == None <==> forall i :: 0 <= i < |feed| ==> feed[i] !in downloaded
  {
  }

  /** An anchor is a downloaded feed name ending the first run of downloaded names. */
  lemma {:induction false} AnchorEndsFirstRun(feed: seq<string>, downloaded: set<string>)
    returns (s: nat, k: nat)
    requires AnchorOf(feed, downloaded) != None
    ensures IsFirstRun(feed, downloaded, s, k)
    ensures AnchorOf(feed, downloaded) == Some(feed[k])
    ensures feed[k] in downloaded
  {
    s := FirstDownloaded(feed, downloaded, 0);
    k := RunEnd(feed, downloaded, s);
  }

  /** The first run is unique, so the anchor is determined by the feed and the set. */
  lemma FirstRunUnique(feed: seq<string>, downloaded: set<string>, s: nat, k: nat, s': nat, k': nat)
    requires IsFirstRun(feed, downloaded, s, k) && IsFirstRun(feed, downloaded, s', k')
    ensures s == s' && k == k'
  {
    assert feed[s] in downloaded && feed[s'] in downloaded;
  }

  /** When every feed name is downloaded, the anchor is the last feed name. */
  lemma AnchorWhenAllDownloaded(feed: seq<string>, downloaded: set<string>)
    requires |feed| > 0
    requires forall i :: 0 <= i < |feed| ==> feed[i] in downloaded
    ensures AnchorOf(feed, downloaded) == Some(feed[|feed| - 1])
  {
    RunEndIs(feed, downloaded, 0, |feed| - 1);
  }

  /** Listings with the same names in another order give the same anchor. */
  lemma AnchorIgnoresListingOrder(feed: seq<string>, a: seq<string>, b: seq<string>)
    requires multiset(a) == multiset(b)
    ensures AnchorOf(feed, AsSet(a)) == AnchorOf(feed, AsSet(b))
  {
    forall x ensures x in AsSet(a) <==> x in AsSet(b) {
      assert x in a <==> x in multiset(a);
      assert x in b <==> x in multiset(b);
    }
    assert AsSet(a) == AsSet(b);
  }

  /** Listing a name a second time does not move the anchor. */
  lemma AnchorIgnoresRepetitions(feed: seq<string>, a: seq<string>, x: string)
    requires x in a
    ensures AnchorOf(feed, AsSet(a + [x])) == AnchorOf(feed, AsSet(a))
  {
    forall y ensures y in AsSet(a + [x]) <==> y in AsSet(a) {
      assert y in a + [x] <==> y in a || y == x;
    }
    assert AsSet(a + [x]) == AsSet(a);
  }

  /**
    Undownloaded names before the first downloaded one do not stop the walk:
    the anchor of a feed is the anchor of what remains after such a prefix.
   */
  lemma {:induction false} AnchorSkipsLeadingMisses(feed: seq<string>, downloaded: set<string>, p: nat)
    requires p <= |feed|
    requires forall i :: 0 <= i < p ==> feed[i] !in downloaded
    ensures AnchorOf(feed, downloaded) == AnchorOf(feed[p..], downloaded)
  {
    var s := FirstDownloaded(feed, downloaded, 0);
    var t := FirstDownloaded(feed[p..], downloaded, 0);
    assert s >= p;
    assert s == p + t;
    if s < |feed| {
      var k := RunEnd(feed[p..], downloaded, t);
      RunEndIs(feed, downloaded, s, p + k);
    }
  }

  /**
    Feeding the anchor back in as the only downloaded name yields the same
    anchor again.
   */
  lemma AnchorIdempotent(feed: seq<string>, downloaded: set<string>)
    requires AnchorOf(feed, downloaded) != None
    ensures AnchorOf(feed, {AnchorOf(feed, downloaded).value}) == AnchorOf(feed, downloaded)
  {
    var a := AnchorOf(feed, downloaded).value;
    var s := FirstDownloaded(feed, {a}, 0);
    assert a == feed[RunEnd(feed, downloaded, FirstDownloaded(feed, downloaded, 0))];
    assert s < |feed|;
    assert feed[s] == a;
    assert feed[RunEnd(feed, {a}, s)] == a;
  }
}
