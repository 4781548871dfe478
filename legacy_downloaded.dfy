/**
  The older top-level `downloaded.py`: mp3 files of a directory listing in
  descending name order, the greatest of them being the last download.
  The listing and `os.path.isfile` are inputs.
 */
module LegacyDownloaded {
  import opened Wrappers
  import opened Text
  import opened Seqs
  import opened Sorting
  import opened Downloaded

  /** `only_mp3(file_name)`: the name ends with ".mp3", letter case included. */
  function OnlyMp3(fileName: string): (r: bool)
    ensures r <==> |fileName| >= 4 && fileName[|fileName| - 4..] == ".mp3"
    ensures r ==> fileName == fileName[..|fileName| - 4] + ".mp3"
  {
    EndsWith(fileName, ".mp3")
  }

  /** The check is the newer extension checker with the single extension ".mp3". */
  lemma OnlyMp3IsExtensionCheck(fileName: string)
    ensures OnlyMp3(fileName) == HasExtension([".mp3"], fileName)
  {
  }

  lemma OnlyMp3CaseSensitive()
    ensures OnlyMp3("episode.mp3")
    ensures !OnlyMp3("EPISODE.MP3")
  {
    assert "episode.mp3"[7..] == ".mp3";
    assert "EPISODE.MP3"[7..] != ".mp3";
  }

  /** Python's `<` on strings: code point by code point, a proper prefix first. */
  predicate StrLess(a: string, b: string)
  {
    if a == [] then b != []
    else if b == [] then false
    else if a[0] != b[0] then a[0] < b[0]
    else StrLess(a[1..], b[1..])
  }

  lemma {:induction false} StrLessTrichotomy(a: string, b: string)
    ensures StrLess(a, b) || a == b || StrLess(b, a)
    ensures !(StrLess(a, b) && StrLess(b, a))
    ensures !StrLess(a, a)
  {
    if a != [] && b != [] {
      StrLessTrichotomy(a[1..], b[1..]);
      if a[0] == b[0] && a[1..] == b[1..] {
        assert a == [a[0]] + a[1..] && b == [b[0]] + b[1..];
      }
    }
    if a != [] {
      StrLessTrichotomy(a[1..], a[1..]);
    }
  }

  lemma {:induction false} StrLessTransitive(a: string, b: string, c: string)
    requires StrLess(a, b) && StrLess(b, c)
    ensures StrLess(a, c)
  {
    if a != [] && a[0] == b[0] && b[0] == c[0] {
      StrLessTransitive(a[1..], b[1..], c[1..]);
    }
  }

  /** The "goes first or ties" relation of `sorted(..., reverse=True)` on names. */
  function NotBelow(): (string, string) -> bool
  {
    (a: string, b: string) => !StrLess(a, b)
  }

  lemma NotBelowIsTotalOrder()
    ensures Total(NotBelow()) && Transitive(NotBelow())
  {
    forall a, b ensures NotBelow()(a, b) || NotBelow()(b, a) {
      StrLessTrichotomy(a, b);
    }
    forall a, b, c | NotBelow()(a, b) && NotBelow()(b, c) ensures NotBelow()(a, c) {
      StrLessTrichotomy(a, b);
      StrLessTrichotomy(b, c);
      StrLessTrichotomy(a, c);
      if c != b && b != a {
        StrLessTransitive(c, b, a);
      }
    }
  }

  /** `get_files_from(directory)`: the listing in descending order. */
  function GetFilesFrom(listing: seq<string>): (r: seq<string>)
    ensures multiset(r) == multiset(listing)
    ensures SortedBy(r, NotBelow())
  {
    NotBelowIsTotalOrder();
    SortDescendingSorted(listing, NotBelow());
    SortDescending(listing, NotBelow())
  }

  predicate Qualifies(isFile: string -> bool, fileName: string)
  {
    OnlyMp3(fileName) && isFile(fileName)
  }

  /** `get_downloaded_files(directory)`: the mp3 names that are regular files, in descending order. */
  function GetDownloadedFiles(listing: seq<string>, isFile: string -> bool): (r: seq<string>)
    ensures forall i :: 0 <= i < |r| ==> Qualifies(isFile, r[i]) && r[i] in listing
    ensures forall i :: 0 <= i < |listing| && Qualifies(isFile, listing[i]) ==> listing[i] in r
    ensures SortedBy(r, NotBelow())
  {
    var sorted := GetFilesFrom(listing);
    NotBelowIsTotalOrder();
    FilterSorted(n => Qualifies(isFile, n), sorted, NotBelow());
    var r := Filter(n => Qualifies(isFile, n), sorted);
    forall i | 0 <= i < |r| ensures r[i] in listing {
      assert r[i] in multiset(sorted);
    }
    forall i | 0 <= i < |listing| && Qualifies(isFile, listing[i]) ensures listing[i] in r {
      assert listing[i] in multiset(sorted);
    }
    r
  }
  /** Each qualifying name is kept as often as it is listed; nothing else is kept. */
  lemma GetDownloadedFilesCount(listing: seq<string>, isFile: string -> bool, x: string)
    ensures multiset(GetDownloadedFiles(listing, isFile))[x]
            == if Qualifies(isFile, x) then multiset(listing)[x] else 0
  {
    FilterCount(n => Qualifies(isFile, n), GetFilesFrom(listing), x);
  }


  /**
    `get_last_downloaded(directory)`: the first of the downloaded files,
    that is the greatest qualifying name; `None` stands for the
    `StopIteration` that `next` raises when there is none.
   */
  function GetLastDownloaded(listing: seq<string>, isFile: string -> bool): (r: Option<string>)
    ensures r.None? <==> forall i :: 0 <= i < |listing| ==> !Qualifies(isFile, listing[i])
    ensures r.Some? ==> r.value in listing && Qualifies(isFile, r.value)
    ensures r.Some? ==> forall i :: 0 <= i < |listing| && Qualifies(isFile, listing[i]) ==>
                          !StrLess(r.value, listing[i])
  {
    var files := GetDownloadedFiles(listing, isFile);
    if files == [] then None
    else
      assert forall i :: 0 <= i < |listing| && Qualifies(isFile, listing[i]) ==> !StrLess(files[0], listing[i]) by {
        forall i | 0 <= i < |listing| && Qualifies(isFile, listing[i]) ensures !StrLess(files[0], listing[i]) {
          var k :| 0 <= k < |files| && files[k] == listing[i];
          if k > 0 {
            assert NotBelow()(files[0], files[k]);
          } else {
            StrLessTrichotomy(files[0], files[0]);
          }
        }
      }
      Some(files[0])
  }
}
