/**
  The remote listing the crawler walks, and the items it is turned into.

  The listing fetcher of `downloader.py`, which drives a headless browser, is replaced by a
  tree: a directory entry holds the entries its own listing would return. The
  fetcher already dropped names starting with `.` and told files from
  directories by a non-empty modification date; the tree is taken as that
  already-classified result.
 */
module Listing {
  import opened Wrappers

  datatype Entry =
    | FileEntry(name: string, url: string, modifyDate: string)
    | DirEntry(name: string, url: string, children: seq<Entry>)

  /** A `FileItem`: the name, its address, the date token found in the name and the remote modification date. */
  datatype FileItem = FileItem(name: string, url: string, date: string, modifyDate: string)

  /** An item of a fetched listing: a file with its date token, or a directory with what its listing holds. */
  datatype Item =
    | File(file: FileItem)
    | Dir(name: string, url: string, children: seq<Entry>)
  {
    function Name(): string {
      match this
      case File(f) => f.name
      case Dir(n, _, _) => n
    }
  }

  /** Building a `FileItem` fails when its name holds no date token. */
  datatype ListingError = NoDateToken(name: string)

  // ---------------------------------------------------------------------------
  // The date token: the leftmost match of `\d{4}-\d{2}(?:-\d{2})?`

  predicate IsDigit(c: char) {
    '0' <= c <= '9'
  }

  predicate DigitsAt(s: string, i: nat, n: nat)
    requires i + n <= |s|
  {
    forall k :: i <= k < i + n ==> IsDigit(s[k])
  }

  /** `dddd-dd` starts at `i`. */
  predicate MonthAt(s: string, i: nat) {
    i + 7 <= |s| && DigitsAt(s, i, 4) && s[i + 4] == '-' && DigitsAt(s, i + 5, 2)
  }

  /** `dddd-dd-dd` starts at `i`. */
  predicate DayAt(s: string, i: nat) {
    MonthAt(s, i) && i + 10 <= |s| && s[i + 7] == '-' && DigitsAt(s, i + 8, 2)
  }

  /** A whole string of the form `dddd-dd` or `dddd-dd-dd`. */
  predicate IsDateToken(t: string) {
    (|t| == 7 && MonthAt(t, 0)) || (|t| == 10 && DayAt(t, 0))
  }

  /** The first position at or after `from` where a date token starts. */
  function FindDate(s: string, from: nat): (r: Option<nat>)
    ensures r.Some? ==> from <= r.value && MonthAt(s, r.value)
    ensures r.Some? ==> forall j :: from <= j < r.value ==> !MonthAt(s, j)
    ensures r.None? ==> forall j :: from <= j ==> !MonthAt(s, j)
    decreases |s| - from
  {
    if from + 7 > |s| then None
    else if MonthAt(s, from) then Some(from)
    else FindDate(s, from + 1)
  }

  /** `date_pat.search(name)`: the leftmost match, taking the optional `-dd` whenever it is there. */
  function DateToken(name: string): (r: Option<string>)
    ensures r.Some? <==> exists i: nat :: MonthAt(name, i)
    ensures r.Some? ==> IsDateToken(r.value)
    ensures r.Some? ==> exists i: nat :: MonthAt(name, i) && (forall j: nat :: j < i ==> !MonthAt(name, j)) &&
                                         i + |r.value| <= |name| && r.value == name[i..i + |r.value|] &&
                                    (|r.value| == 10 <==> DayAt(name, i))
  {
    match FindDate(name, 0)
    case None => None
    case Some(i) =>
      var n := if DayAt(name, i) then 10 else 7;
      var t := name[i..i + n];
      assert MonthAt(t, 0);
      Some(t)
  }

  /** `FileItem(name, url, modify_date)`; the constructor raises when the name has no date token. */
  function MakeFileItem(name: string, url: string, modifyDate: string): (r: Result<FileItem, ListingError>)
    ensures r.Failure? <==> DateToken(name).None?
    ensures r.Failure? ==> r.error == NoDateToken(name)
    ensures r.Success? ==> r.value.name == name && r.value.url == url && r.value.modifyDate == modifyDate
    ensures r.Success? ==> r.value.date == DateToken(name).value && IsDateToken(r.value.date)
  {
    match DateToken(name)
    case None => Failure(NoDateToken(name))
    case Some(d) => Success(FileItem(name, url, d, modifyDate))
  }

  // ---------------------------------------------------------------------------
  // Turning a listing into items

  /** Every file entry of the listing has a date token in its name. */
  predicate ListingDated(entries: seq<Entry>) {
    forall i :: 0 <= i < |entries| && entries[i].FileEntry? ==> DateToken(entries[i].name).Some?
  }

  /** `items` is the listing `entries` item by item, in the same order. */
  predicate ItemsOf(entries: seq<Entry>, items: seq<Item>) {
    |items| == |entries| &&
    forall i :: 0 <= i < |items| ==>
      match entries[i]
      case FileEntry(n, u, m) => items[i].File? && MakeFileItem(n, u, m) == Success(items[i].file)
      case DirEntry(n, u, c) => items[i] == Dir(n, u, c)
  }

  /** The items `_fetch` builds for one listing: a single dateless file makes the whole fetch fail. */
  function ToItems(entries: seq<Entry>): (r: Result<seq<Item>, ListingError>)
    ensures r.Success? <==> ListingDated(entries)
    ensures r.Success? ==> ItemsOf(entries, r.value)
    ensures r.Failure? ==> exists i :: 0 <= i < |entries| && entries[i].FileEntry? &&
                                       r.error == NoDateToken(entries[i].name) &&
                                       DateToken(entries[i].name).None?
    decreases |entries|
  {
    if entries == [] then Success([])
    else
      var head := match entries[0]
        case FileEntry(n, u, m) => (match MakeFileItem(n, u, m)
                                    case Success(f) => Success(File(f))
                                    case Failure(e) => Failure(e))
        case DirEntry(n, u, c) => Success(Dir(n, u, c));
      match head
      case Failure(e) => Failure(e)
      case Success(item) =>
        match ToItems(entries[1..])
        case Failure(e) => Failure(e)
        case Success(rest) => Success([item] + rest)
  }
}
