/**
  The scanner: the book files directly inside a directory, and the category
  subdirectories already there. The directory listing is data: the entries
  os.listdir returns, in its order and each with its kind, or None when the
  listing itself raises.
*/
module FileScanner {
  import opened Wrappers
  import opened Paths

  datatype EntryKind = RegularFile | Directory | OtherKind

  /** One name returned by os.listdir, with what os.path.isfile / isdir say about it. */
  datatype DirEntry = DirEntry(name: string, kind: EntryKind)

  /** A listing, or None when os.listdir raised. */
  type Listing = Option<seq<DirEntry>>

  const DefaultBookExtensions: seq<string> := [".pdf", ".epub", ".mobi", ".djvu", ".txt"]

  /** The test scan_books applies to one entry: a regular file whose lower-cased
      extension occurs literally in the allow-list. */
  predicate IsBook(e: DirEntry, extensions: seq<string>) {
    e.kind == RegularFile && Lower(SplitExt(e.name).1) in extensions
  }

  /** The test get_existing_categories applies to one entry. */
  predicate IsCategory(e: DirEntry, uncatFolder: string) {
    e.kind == Directory && e.name != uncatFolder
  }

  /** The entries scan_books keeps, in listing order. */
  function BookEntries(entries: seq<DirEntry>, extensions: seq<string>): seq<DirEntry> {
    if entries == [] then []
    else
      var last := entries[|entries| - 1];
      BookEntries(entries[..|entries| - 1], extensions)
        + (if IsBook(last, extensions) then [last] else [])
  }

  /** What scan_books returns for a listing: the kept entries joined to the scanned directory. */
  function BookFiles(directory: Path, entries: seq<DirEntry>, extensions: seq<string>): seq<Path> {
    JoinedListing(directory, BookEntries(entries, extensions))
  }

  /** What get_existing_categories returns for a listing: the names of the
      category directories, in listing order. */
  function CategoryNames(entries: seq<DirEntry>, uncatFolder: string): seq<string> {
    if entries == [] then []
    else
      var last := entries[|entries| - 1];
      CategoryNames(entries[..|entries| - 1], uncatFolder)
        + (if IsCategory(last, uncatFolder) then [last.name] else [])
  }

  /** Every entry's path, in listing order. */
  function JoinedListing(directory: Path, entries: seq<DirEntry>): (r: seq<Path>)
    ensures |r| == |entries|
    ensures forall i :: 0 <= i < |entries| ==> r[i] == Join(directory, entries[i].name)
  {
    seq(|entries|, i requires 0 <= i < |entries| => Join(directory, entries[i].name))
  }

  /** Every entry's name, in listing order. */
  function Names(entries: seq<DirEntry>): (r: seq<string>)
    ensures |r| == |entries|
    ensures forall i :: 0 <= i < |entries| ==> r[i] == entries[i].name
  {
    seq(|entries|, i requires 0 <= i < |entries| => entries[i].name)
  }

  /** `a` is `b` with some elements dropped and the rest in their order. */
  predicate IsSubsequence<T(==)>(a: seq<T>, b: seq<T>)
    decreases |b|
  {
    a == [] ||
    (b != [] &&
      (IsSubsequence(a, b[..|b| - 1]) ||
        (a[|a| - 1] == b[|b| - 1] && IsSubsequence(a[..|a| - 1], b[..|b| - 1]))))
  }

  /** An entry is kept exactly when it is in the listing and is a book. */
  lemma {:induction false} BookEntriesMembers(entries: seq<DirEntry>, extensions: seq<string>, e: DirEntry)
    ensures e in BookEntries(entries, extensions) <==> e in entries && IsBook(e, extensions)
  {
    if entries != [] {
      var n := |entries| - 1;
      BookEntriesMembers(entries[..n], extensions, e);
      assert entries == entries[..n] + [entries[n]];
    }
  }

  /** The kept entries are the listing with the non-books dropped, in listing order. */
  lemma {:induction false} BookEntriesKeepListingOrder(entries: seq<DirEntry>, extensions: seq<string>)
    ensures IsSubsequence(BookEntries(entries, extensions), entries)
  {
    if entries != [] {
      var n := |entries| - 1;
      BookEntriesKeepListingOrder(entries[..n], extensions);
      var r := BookEntries(entries, extensions);
      if IsBook(entries[n], extensions) {
        assert r[..|r| - 1] == BookEntries(entries[..n], extensions);
      } else {
        assert r == BookEntries(entries[..n], extensions);
      }
    }
  }

  /** Scanning one more entry appends its path exactly when it is a book. */
  lemma BookFilesStep(directory: Path, entries: seq<DirEntry>, i: nat, extensions: seq<string>)
    requires i < |entries|
    ensures BookFiles(directory, entries[..i + 1], extensions) ==
      BookFiles(directory, entries[..i], extensions)
        + (if IsBook(entries[i], extensions) then [Join(directory, entries[i].name)] else [])
  {
    assert entries[..i + 1][..i] == entries[..i];
    var kept := BookEntries(entries[..i], extensions);
    if IsBook(entries[i], extensions) {
      assert JoinedListing(directory, kept + [entries[i]]) == JoinedListing(directory, kept) + [Join(directory, entries[i].name)];
    }
  }

  /** A name is listed as a category exactly when some entry is a directory with
      that name other than the uncategorised folder. */
  lemma {:induction false} CategoryNamesMembers(entries: seq<DirEntry>, uncatFolder: string, name: string)
    ensures name in CategoryNames(entries, uncatFolder) <==>
      name != uncatFolder && exists i :: 0 <= i < |entries| && entries[i] == DirEntry(name, Directory)
  {
    if entries != [] {
      var n := |entries| - 1;
      var init := entries[..n];
      CategoryNamesMembers(init, uncatFolder, name);
      if exists i :: 0 <= i < |init| && init[i] == DirEntry(name, Directory) {
        var i :| 0 <= i < |init| && init[i] == DirEntry(name, Directory);
        assert entries[i] == init[i];
      }
      if exists i :: 0 <= i < |entries| && entries[i] == DirEntry(name, Directory) {
        var i :| 0 <= i < |entries| && entries[i] == DirEntry(name, Directory);
        if i < n {
          assert init[i] == entries[i];
        }
      }
    }
  }

  /** The category names are the listed names with the rest dropped, in listing order. */
  lemma {:induction false} CategoryNamesKeepListingOrder(entries: seq<DirEntry>, uncatFolder: string)
    ensures IsSubsequence(CategoryNames(entries, uncatFolder), Names(entries))
  {
    if entries != [] {
      var n := |entries| - 1;
      var init := entries[..n];
      CategoryNamesKeepListingOrder(init, uncatFolder);
      var whole := Names(entries);
      assert whole[..n] == Names(init);
      var r := CategoryNames(entries, uncatFolder);
      if IsCategory(entries[n], uncatFolder) {
        assert r[..|r| - 1] == CategoryNames(init, uncatFolder);
      } else {
        assert r == CategoryNames(init, uncatFolder);
      }
    }
  }

  predicate HasUpper(s: string) {
    exists k :: 0 <= k < |s| && 'A' <= s[k] <= 'Z'
  }

  /** A lower-cased string never equals a string holding an upper-case letter. */
  lemma LowerHasNoUpper(s: string, e: string)
    requires HasUpper(e)
    ensures Lower(s) != e
  {
    var k :| 0 <= k < |e| && 'A' <= e[k] <= 'Z';
    if |Lower(s)| == |e| {
      assert Lower(s)[k] == LowerChar(s[k]);
    }
  }

  /** Allow-list entries holding an upper-case letter never match: adding them
      changes nothing that scan_books keeps. */
  lemma {:induction false} UpperCaseExtensionsNeverMatch(entries: seq<DirEntry>, extensions: seq<string>,
                                                         upper: seq<string>)
    requires forall e :: e in upper ==> HasUpper(e)
    ensures BookEntries(entries, extensions + upper) == BookEntries(entries, extensions)
  {
    if entries != [] {
      var n := |entries| - 1;
      UpperCaseExtensionsNeverMatch(entries[..n], extensions, upper);
      var ext := Lower(SplitExt(entries[n].name).1);
      if ext in upper {
        LowerHasNoUpper(SplitExt(entries[n].name).1, ext);
      }
      assert IsBook(entries[n], extensions + upper) == IsBook(entries[n], extensions);
    }
  }

  /** The scanner, configured with its allow-list of extensions. */
  class Scanner {
    const bookExtensions: seq<string>

    /** A missing or empty allow-list falls back to the five default extensions. */
    constructor (extensions: Option<seq<string>>)
      ensures extensions.Some? && extensions.value != [] ==> bookExtensions == extensions.value
      ensures extensions.None? || extensions.value == [] ==> bookExtensions == DefaultBookExtensions
    {
      if extensions.Some? && extensions.value != [] {
        bookExtensions := extensions.value;
      } else {
        bookExtensions := DefaultBookExtensions;
      }
    }

    /** scan_books: the book files directly in `directory`; nothing when the listing fails. */
    method ScanBooks(directory: Path, listing: Listing) returns (bookFiles: seq<Path>)
      ensures listing.None? ==> bookFiles == []
      ensures listing.Some? ==> bookFiles == BookFiles(directory, listing.value, bookExtensions)
    {
      bookFiles := [];
      if listing.None? {
        return;
      }
      var entries := listing.value;
      for i := 0 to |entries|
        invariant bookFiles == BookFiles(directory, entries[..i], bookExtensions)
      {
        BookFilesStep(directory, entries, i, bookExtensions);
        var entry := entries[i];
        var filePath := Join(directory, entry.name);
        if entry.kind == RegularFile {
          var fileExt := Lower(SplitExt(entry.name).1);
          if fileExt in bookExtensions {
            bookFiles := bookFiles + [filePath];
          }
        }
      }
      assert entries[..|entries|] == entries;
    }

    /** get_existing_categories: the subdirectories other than the uncategorised
        folder; nothing when the listing fails. */
    method GetExistingCategories(listing: Listing, uncatFolder: string) returns (categories: seq<string>)
      ensures listing.None? ==> categories == []
      ensures listing.Some? ==> categories == CategoryNames(listing.value, uncatFolder)
    {
      categories := [];
      if listing.None? {
        return;
      }
      var entries := listing.value;
      for i := 0 to |entries|
        invariant categories == CategoryNames(entries[..i], uncatFolder)
      {
        var item := entries[i];
        assert entries[..i + 1][..i] == entries[..i];
        if item.kind == Directory && item.name != uncatFolder {
          categories := categories + [item.name];
        }
      }
      assert entries[..|entries|] == entries;
    }
  }
}
