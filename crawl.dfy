/**
  What the recursive crawl `_download` does, as functions: which files it hands
  to the scheduler, with which ancestor names, in which order, and whether a
  listing failure stops it. The imperative crawl in module Downloader is proved
  to follow these functions.
 */
module Crawl {
  import opened Wrappers
  import opened PathTemplate
  import opened Listing

  /** A file handed to the scheduler, with the names of its ancestor directories, root first. */
  datatype Offer = Offer(item: FileItem, components: seq<string>)

  /** How a crawl ends: it walked everything, or a listing could not be turned into items. */
  datatype Outcome = Completed | Aborted(error: ListingError)

  /** The files offered, in order, and how the crawl ended. */
  datatype Walk = Walk(offers: seq<Offer>, outcome: Outcome)

  // ---------------------------------------------------------------------------
  // Narrowing the template lists, one level at a time

  /** `[path for path in paths if path.match(name, level)]`. */
  function NarrowAt(paths: seq<Path>, name: string, level: nat): (r: seq<Path>)
    ensures |r| <= |paths|
    decreases |paths|
  {
    if paths == [] then []
    else if paths[0].Match(name, level) then [paths[0]] + NarrowAt(paths[1..], name, level)
    else NarrowAt(paths[1..], name, level)
  }

  /** The narrowed list holds exactly the templates whose segment at `level` accepts the name. */
  lemma {:induction false} NarrowAtKeepsMatching(paths: seq<Path>, name: string, level: nat)
    ensures forall p :: p in NarrowAt(paths, name, level) <==> p in paths && p.Match(name, level)
    ensures IsSubsequence(NarrowAt(paths, name, level), paths)
    decreases |paths|
  {
    if paths != [] {
      NarrowAtKeepsMatching(paths[1..], name, level);
      assert paths == [paths[0]] + paths[1..];
    }
  }

  /** `a` is `b` with some elements left out and the order kept. */
  predicate IsSubsequence<T(==)>(a: seq<T>, b: seq<T>)
    decreases |b|
  {
    if a == [] then true
    else if b == [] then false
    else if a[0] == b[0] then IsSubsequence(a[1..], b[1..])
    else IsSubsequence(a, b[1..])
  }

  /** `any(xpath.is_exhausted(level) for xpath in xpaths)`. */
  predicate AnyExhausted(xpaths: seq<Path>, level: nat) {
    exists x :: x in xpaths && x.IsExhausted(level)
  }

  // ---------------------------------------------------------------------------
  // The crawl

  function Prepend(offers: seq<Offer>, w: Walk): Walk {
    Walk(offers + w.offers, w.outcome)
  }

  /** Prepending two runs of offers one after the other is prepending them joined. */
  lemma PrependTwice(a: seq<Offer>, b: seq<Offer>, w: Walk)
    ensures Prepend(a, Prepend(b, w)) == Prepend(a + b, w)
  {
    assert a + (b + w.offers) == a + b + w.offers;
  }

  /** `_download(url, components, level, paths, xpaths)` on the directory whose listing is `entries`.
      Every file it offers lies below `components`. */
  function CrawlDir(entries: seq<Entry>, components: seq<string>, level: nat,
                    paths: seq<Path>, xpaths: seq<Path>): (w: Walk)
    ensures forall o :: o in w.offers ==> components <= o.components
    decreases entries, |entries| + 1
  {
    match ToItems(entries)
    case Failure(e) => Walk([], Aborted(e))
    case Success(items) => CrawlFrom(entries, items, 0, components, level, paths, xpaths)
  }

  /** The loop of `_download` from item `i` of the listing on: it stops at the first aborted turn. */
  function CrawlFrom(entries: seq<Entry>, items: seq<Item>, i: nat, components: seq<string>, level: nat,
                     paths: seq<Path>, xpaths: seq<Path>): (w: Walk)
    requires ItemsOf(entries, items) && i <= |items|
    ensures forall o :: o in w.offers ==> components <= o.components
    decreases entries, |items| - i, 1
  {
    if i == |items| then Walk([], Completed)
    else
      var w := Visit(entries, items, i, components, level, paths, xpaths);
      if w.outcome.Aborted? then w
      else Prepend(w.offers, CrawlFrom(entries, items, i + 1, components, level, paths, xpaths))
  }

  /** One turn of the loop of `_download`, on item `i`: it passes over the item, offers the file,
      or crawls the directory with the narrowed template lists and one more ancestor name. */
  function Visit(entries: seq<Entry>, items: seq<Item>, i: nat, components: seq<string>, level: nat,
                 paths: seq<Path>, xpaths: seq<Path>): (w: Walk)
    requires ItemsOf(entries, items) && i < |items|
    ensures forall o :: o in w.offers ==> components <= o.components
    decreases entries, |items| - i, 0
  {
    var item := items[i];
    var curPaths := NarrowAt(paths, item.Name(), level);
    var curXpaths := NarrowAt(xpaths, item.Name(), level);
    if curPaths == [] || AnyExhausted(curXpaths, level) then Walk([], Completed)
    else
      match item
      case File(f) => Walk([Offer(f, components)], Completed)
      case Dir(n, _, children) =>
        assert entries[i].children == children;
        CrawlDir(children, components + [n], level + 1, curPaths, curXpaths)
  }

  // ---------------------------------------------------------------------------
  // The reference: which files a template selection means, stated over whole paths

  /** Every segment of `p` matches the name at its depth (deeper names are free). */
  predicate MatchesAll(p: Path, names: seq<string>) {
    forall j :: 0 <= j < |names| ==> p.Match(names[j], j)
  }

  /** The templates of `paths` that match every name of `names`, in their order. */
  function Narrow(paths: seq<Path>, names: seq<string>): (r: seq<Path>)
    ensures forall p :: p in r <==> p in paths && MatchesAll(p, names)
    decreases |paths|
  {
    if paths == [] then []
    else if MatchesAll(paths[0], names) then [paths[0]] + Narrow(paths[1..], names)
    else Narrow(paths[1..], names)
  }

  /** Some include template matches the path. */
  predicate Included(paths: seq<Path>, names: seq<string>) {
    exists p :: p in paths && MatchesAll(p, names)
  }

  /** The exclude template `x` is a strict, fully matched prefix of the path. */
  predicate ExcludedBy(x: Path, names: seq<string>) {
    |x.components| < |names| &&
    forall j :: 0 <= j < |x.components| ==> Glob.FnMatch(names[j], x.components[j])
  }

  predicate Selected(paths: seq<Path>, xpaths: seq<Path>, names: seq<string>) {
    Included(paths, names) && !(exists x :: x in xpaths && ExcludedBy(x, names))
  }

  /** The item `_fetch` builds for a dated file entry. */
  function ItemOfFile(e: Entry): (f: FileItem)
    requires e.FileEntry? && DateToken(e.name).Some?
    ensures MakeFileItem(e.name, e.url, e.modifyDate) == Success(f)
  {
    MakeFileItem(e.name, e.url, e.modifyDate).value
  }

  /** Every listing the crawl fetches at or below this one gives each of its files a date token:
      the listing itself, and the listing of every directory whose whole path is selected.
      The listings of directories the templates pass over are never fetched and may hold anything. */
  predicate FetchedDated(paths: seq<Path>, xpaths: seq<Path>, ancestors: seq<string>, entries: seq<Entry>)
    decreases entries
  {
    forall i :: 0 <= i < |entries| ==> EntryFetchedDated(paths, xpaths, ancestors, entries[i])
  }

  predicate EntryFetchedDated(paths: seq<Path>, xpaths: seq<Path>, ancestors: seq<string>, e: Entry)
    decreases e
  {
    match e
    case FileEntry(n, _, _) => DateToken(n).Some?
    case DirEntry(n, _, children) =>
      Selected(paths, xpaths, ancestors + [n]) ==> FetchedDated(paths, xpaths, ancestors + [n], children)
  }

  /** Every file of the tree whose whole path is selected, in depth-first listing order, with its
      ancestors; a directory whose path is not selected contributes nothing. */
  function SelectedFiles(paths: seq<Path>, xpaths: seq<Path>, ancestors: seq<string>, entries: seq<Entry>): seq<Offer>
    requires FetchedDated(paths, xpaths, ancestors, entries)
    decreases entries
  {
    if entries == [] then []
    else SelectedIn(paths, xpaths, ancestors, entries[0]) + SelectedFiles(paths, xpaths, ancestors, entries[1..])
  }

  /** The selected files at or below one entry. */
  function SelectedIn(paths: seq<Path>, xpaths: seq<Path>, ancestors: seq<string>, e: Entry): seq<Offer>
    requires EntryFetchedDated(paths, xpaths, ancestors, e)
    decreases e
  {
    match e
    case FileEntry(n, _, _) =>
      if Selected(paths, xpaths, ancestors + [n]) then [Offer(ItemOfFile(e), ancestors)] else []
    case DirEntry(n, _, children) =>
      if Selected(paths, xpaths, ancestors + [n]) then SelectedFiles(paths, xpaths, ancestors + [n], children) else []
  }

  // ---------------------------------------------------------------------------
  // The crawl selects exactly the reference's files

  /** Narrowing level by level, as the crawl does, is narrowing by the whole path. */
  lemma {:induction false} NarrowStep(paths: seq<Path>, names: seq<string>, n: string)
    ensures NarrowAt(Narrow(paths, names), n, |names|) == Narrow(paths, names + [n])
    decreases |paths|
  {
    if paths != [] {
      NarrowStep(paths[1..], names, n);
      var p := paths[0];
      assert MatchesAll(p, names + [n]) <==> MatchesAll(p, names) && p.Match(n, |names|) by {
        if MatchesAll(p, names + [n]) {
          forall j | 0 <= j < |names| ensures p.Match(names[j], j) {
            assert (names + [n])[j] == names[j];
          }
          assert (names + [n])[|names|] == n;
        }
      }
    }
  }

  /** The crawl's root call narrows nothing yet. */
  lemma {:induction false} NarrowNothing(paths: seq<Path>)
    ensures Narrow(paths, []) == paths
    decreases |paths|
  {
    if paths != [] {
      NarrowNothing(paths[1..]);
      assert MatchesAll(paths[0], []);
      assert paths == [paths[0]] + paths[1..];
    }
  }

  /** Some narrowed exclude template is exhausted at the entry's level exactly when one excludes the entry's path. */
  lemma ExhaustedIffExcluded(xpaths: seq<Path>, names: seq<string>, n: string)
    ensures AnyExhausted(Narrow(xpaths, names + [n]), |names|) <==>
            exists x :: x in xpaths && ExcludedBy(x, names + [n])
  {
    var full := names + [n];
    forall x | x in xpaths
      ensures (MatchesAll(x, full) && x.IsExhausted(|names|)) <==> ExcludedBy(x, full)
    {
      if ExcludedBy(x, full) {
        forall j | 0 <= j < |full| ensures x.Match(full[j], j) {
        }
      }
    }
    if AnyExhausted(Narrow(xpaths, full), |names|) {
      var x :| x in Narrow(xpaths, full) && x.IsExhausted(|names|);
      assert ExcludedBy(x, full);
    }
  }

  /** A path is selected only if every shorter path is. */
  lemma SelectedPrefix(paths: seq<Path>, xpaths: seq<Path>, names: seq<string>, n: string)
    requires Selected(paths, xpaths, names + [n])
    ensures Selected(paths, xpaths, names)
  {
    var full := names + [n];
    var p :| p in paths && MatchesAll(p, full);
    assert MatchesAll(p, names) by {
      forall j | 0 <= j < |names| ensures p.Match(names[j], j) {
        assert full[j] == names[j];
      }
    }
  }

  /** Below a path that is not selected, no file is selected. */
  lemma {:induction false} NothingSelectedBelow(paths: seq<Path>, xpaths: seq<Path>, ancestors: seq<string>, entries: seq<Entry>)
    requires FetchedDated(paths, xpaths, ancestors, entries)
    requires !Selected(paths, xpaths, ancestors)
    ensures SelectedFiles(paths, xpaths, ancestors, entries) == []
    decreases entries
  {
    if entries != [] {
      var e := entries[0];
      if Selected(paths, xpaths, ancestors + [e.name]) {
        SelectedPrefix(paths, xpaths, ancestors, e.name);
      }
      NothingSelectedBelow(paths, xpaths, ancestors, entries[1..]);
    }
  }

  /** The crawl skips an entry exactly when its whole path is not selected, and otherwise
      recurses with the template lists narrowed by that whole path. */
  lemma SkipIffNotSelected(paths: seq<Path>, xpaths: seq<Path>, ancestors: seq<string>, n: string)
    ensures NarrowAt(Narrow(paths, ancestors), n, |ancestors|) == Narrow(paths, ancestors + [n])
    ensures NarrowAt(Narrow(xpaths, ancestors), n, |ancestors|) == Narrow(xpaths, ancestors + [n])
    ensures (Narrow(paths, ancestors + [n]) == [] || AnyExhausted(Narrow(xpaths, ancestors + [n]), |ancestors|))
            <==> !Selected(paths, xpaths, ancestors + [n])
  {
    NarrowStep(paths, ancestors, n);
    NarrowStep(xpaths, ancestors, n);
    ExhaustedIffExcluded(xpaths, ancestors, n);
    NarrowEmptyIffNotIncluded(paths, ancestors + [n]);
  }

  lemma NarrowEmptyIffNotIncluded(paths: seq<Path>, names: seq<string>)
    ensures Narrow(paths, names) == [] <==> !Included(paths, names)
  {
    if Included(paths, names) {
      var p :| p in paths && MatchesAll(p, names);
      assert p in Narrow(paths, names);
    }
  }

  /** What the crawl fetches below a listing, it fetches below any run of its last entries. */
  lemma FetchedDatedSuffix(paths: seq<Path>, xpaths: seq<Path>, ancestors: seq<string>, entries: seq<Entry>, i: nat)
    requires FetchedDated(paths, xpaths, ancestors, entries) && i <= |entries|
    ensures FetchedDated(paths, xpaths, ancestors, entries[i..])
  {
    forall k | 0 <= k < |entries[i..]|
      ensures EntryFetchedDated(paths, xpaths, ancestors, entries[i..][k])
    {
      assert entries[i..][k] == entries[i + k];
    }
  }

  /** A turn on a directory whose whole path is selected is the crawl of that directory, with the
      template lists narrowed by its whole path. */
  lemma VisitEntersSelectedDir(entries: seq<Entry>, items: seq<Item>, i: nat, ancestors: seq<string>,
                               paths: seq<Path>, xpaths: seq<Path>)
    requires ItemsOf(entries, items) && i < |items|
    requires entries[i].DirEntry? && Selected(paths, xpaths, ancestors + [entries[i].name])
    ensures Visit(entries, items, i, ancestors, |ancestors|, Narrow(paths, ancestors), Narrow(xpaths, ancestors))
         == CrawlDir(entries[i].children, ancestors + [entries[i].name], |ancestors| + 1,
                     Narrow(paths, ancestors + [entries[i].name]), Narrow(xpaths, ancestors + [entries[i].name]))
  {
    assert items[i].Name() == entries[i].name;
    SkipIffNotSelected(paths, xpaths, ancestors, entries[i].name);
  }

  /** The listing loop from item `i` on offers exactly the selected files of the remaining entries. */
  lemma {:induction false} CrawlFromSelects(entries: seq<Entry>, items: seq<Item>, i: nat, ancestors: seq<string>,
                                             paths: seq<Path>, xpaths: seq<Path>)
    requires FetchedDated(paths, xpaths, ancestors, entries) && ItemsOf(entries, items) && i <= |items|
    ensures FetchedDated(paths, xpaths, ancestors, entries[i..])
    ensures CrawlFrom(entries, items, i, ancestors, |ancestors|, Narrow(paths, ancestors), Narrow(xpaths, ancestors))
         == Walk(SelectedFiles(paths, xpaths, ancestors, entries[i..]), Completed)
    decreases entries, |items| - i, 1
  {
    FetchedDatedSuffix(paths, xpaths, ancestors, entries, i);
    if i < |items| {
      CrawlFromSelects(entries, items, i + 1, ancestors, paths, xpaths);
      assert entries[i..][1..] == entries[i + 1..];
      VisitSelectsAt(entries, items, i, ancestors, paths, xpaths);
    }
  }

  /** One turn of the listing loop, under the condition on fetched listings, with the directory
      case discharged by the crawl below it. */
  lemma {:induction false} VisitSelectsAt(entries: seq<Entry>, items: seq<Item>, i: nat, ancestors: seq<string>,
                                           paths: seq<Path>, xpaths: seq<Path>)
    requires FetchedDated(paths, xpaths, ancestors, entries) && ItemsOf(entries, items) && i < |items|
    ensures EntryFetchedDated(paths, xpaths, ancestors, entries[i])
    ensures Visit(entries, items, i, ancestors, |ancestors|, Narrow(paths, ancestors), Narrow(xpaths, ancestors))
         == Walk(SelectedIn(paths, xpaths, ancestors, entries[i]), Completed)
    decreases entries, |items| - i, 0
  {
    var e := entries[i];
    assert EntryFetchedDated(paths, xpaths, ancestors, e);
    if e.DirEntry? && Selected(paths, xpaths, ancestors + [e.name]) {
      CrawlSelectsExactly(e.children, ancestors + [e.name], paths, xpaths);
    }
    VisitSelects(entries, items, i, ancestors, paths, xpaths);
  }

  /** One turn of the listing loop: item `i` contributes exactly its own selected files. */
  lemma VisitSelects(entries: seq<Entry>, items: seq<Item>, i: nat, ancestors: seq<string>,
                     paths: seq<Path>, xpaths: seq<Path>)
    requires ItemsOf(entries, items) && i < |items|
    requires EntryFetchedDated(paths, xpaths, ancestors, entries[i])
    requires entries[i].DirEntry? && Selected(paths, xpaths, ancestors + [entries[i].name]) ==> (
               var e := entries[i];
               FetchedDated(paths, xpaths, ancestors + [e.name], e.children) &&
               CrawlDir(e.children, ancestors + [e.name], |ancestors| + 1,
                        Narrow(paths, ancestors + [e.name]), Narrow(xpaths, ancestors + [e.name]))
               == Walk(SelectedFiles(paths, xpaths, ancestors + [e.name], e.children), Completed))
    ensures Visit(entries, items, i, ancestors, |ancestors|, Narrow(paths, ancestors), Narrow(xpaths, ancestors))
         == Walk(SelectedIn(paths, xpaths, ancestors, entries[i]), Completed)
  {
    var e := entries[i];
    assert items[i].Name() == e.name;
    SkipIffNotSelected(paths, xpaths, ancestors, e.name);
  }

  /** A file without a date token in a listing ends the whole crawl at that listing before anything
      of it is offered, whatever the templates say about that file. */
  lemma UndatedFileAbortsCrawl(entries: seq<Entry>, components: seq<string>, level: nat,
                               paths: seq<Path>, xpaths: seq<Path>, k: nat)
    requires k < |entries| && entries[k].FileEntry? && DateToken(entries[k].name).None?
    ensures var w := CrawlDir(entries, components, level, paths, xpaths);
            w.offers == [] && w.outcome.Aborted? &&
            exists i :: 0 <= i < |entries| && entries[i].FileEntry? && w.outcome.error == NoDateToken(entries[i].name)
  {
  }

  /** When every listing the crawl fetches gives its files date tokens, the crawl of a directory
      reached through `ancestors` (with the template lists narrowed by those ancestors) completes
      and offers exactly the selected files below it, in listing order, each with its ancestor names. */
  lemma {:induction false} CrawlSelectsExactly(entries: seq<Entry>, ancestors: seq<string>,
                                                paths: seq<Path>, xpaths: seq<Path>)
    requires FetchedDated(paths, xpaths, ancestors, entries)
    ensures CrawlDir(entries, ancestors, |ancestors|, Narrow(paths, ancestors), Narrow(xpaths, ancestors))
         == Walk(SelectedFiles(paths, xpaths, ancestors, entries), Completed)
    decreases entries, |entries| + 1
  {
    assert ListingDated(entries) by {
      forall i | 0 <= i < |entries| && entries[i].FileEntry?
        ensures DateToken(entries[i].name).Some?
      {
        assert EntryFetchedDated(paths, xpaths, ancestors, entries[i]);
      }
    }
    var items := ToItems(entries).value;
    CrawlFromSelects(entries, items, 0, ancestors, paths, xpaths);
    assert entries[0..] == entries;
  }

  /** When some listing the crawl fetches holds a file without a date token, the crawl aborts. */
  lemma {:induction false} CrawlAbortsWhenUndated(entries: seq<Entry>, ancestors: seq<string>,
                                                   paths: seq<Path>, xpaths: seq<Path>)
    requires !FetchedDated(paths, xpaths, ancestors, entries)
    ensures CrawlDir(entries, ancestors, |ancestors|, Narrow(paths, ancestors), Narrow(xpaths, ancestors)).outcome.Aborted?
    decreases entries, |entries| + 1
  {
    var j :| 0 <= j < |entries| && !EntryFetchedDated(paths, xpaths, ancestors, entries[j]);
    if ToItems(entries).Success? {
      var items := ToItems(entries).value;
      assert entries[j].DirEntry?;
      CrawlFromAborts(entries, items, 0, j, ancestors, paths, xpaths);
    }
  }

  /** The listing loop from item `i` on aborts exactly when the turn on item `i` aborts or the
      loop from the next item on does. */
  lemma AbortStep(entries: seq<Entry>, items: seq<Item>, i: nat, components: seq<string>, level: nat,
                  paths: seq<Path>, xpaths: seq<Path>)
    requires ItemsOf(entries, items) && i < |items|
    ensures CrawlFrom(entries, items, i, components, level, paths, xpaths).outcome.Aborted?
        <==> Visit(entries, items, i, components, level, paths, xpaths).outcome.Aborted?
             || CrawlFrom(entries, items, i + 1, components, level, paths, xpaths).outcome.Aborted?
  {
  }

  /** Item `j` of the listing is a directory that leads to an undated listing the crawl fetches. */
  predicate LeadsToUndated(entries: seq<Entry>, items: seq<Item>, j: nat, ancestors: seq<string>,
                           paths: seq<Path>, xpaths: seq<Path>) {
    ItemsOf(entries, items) && j < |items| &&
    entries[j].DirEntry? && !EntryFetchedDated(paths, xpaths, ancestors, entries[j])
  }

  /** The listing loop aborts when a later directory it enters leads to an undated listing. */
  lemma {:induction false} CrawlFromAborts(entries: seq<Entry>, items: seq<Item>, i: nat, j: nat, ancestors: seq<string>,
                                            paths: seq<Path>, xpaths: seq<Path>)
    requires i <= j && LeadsToUndated(entries, items, j, ancestors, paths, xpaths)
    ensures CrawlFrom(entries, items, i, ancestors, |ancestors|, Narrow(paths, ancestors), Narrow(xpaths, ancestors)).outcome.Aborted?
    decreases entries, |items| - i, 1
  {
    var np, nx := Narrow(paths, ancestors), Narrow(xpaths, ancestors);
    AbortStep(entries, items, i, ancestors, |ancestors|, np, nx);
    if i == j {
      VisitAborts(entries, items, i, ancestors, paths, xpaths);
    } else {
      CrawlFromAborts(entries, items, i + 1, j, ancestors, paths, xpaths);
    }
  }

  /** The turn on a directory that leads to an undated listing aborts. */
  lemma {:induction false} VisitAborts(entries: seq<Entry>, items: seq<Item>, i: nat, ancestors: seq<string>,
                                        paths: seq<Path>, xpaths: seq<Path>)
    requires LeadsToUndated(entries, items, i, ancestors, paths, xpaths)
    ensures Visit(entries, items, i, ancestors, |ancestors|, Narrow(paths, ancestors), Narrow(xpaths, ancestors)).outcome.Aborted?
    decreases entries, |items| - i, 0
  {
    VisitEntersSelectedDir(entries, items, i, ancestors, paths, xpaths);
    CrawlAbortsWhenUndated(entries[i].children, ancestors + [entries[i].name], paths, xpaths);
  }

  /** Whether or not the crawl of a directory completes, every file it has offered by then lies
      below the directory and has a selected whole path: a later undated listing does not take
      back what was already dispatched, and that is all it could have dispatched. */
  lemma {:induction false} CrawlOffersSelected(entries: seq<Entry>, ancestors: seq<string>,
                                                paths: seq<Path>, xpaths: seq<Path>)
    ensures forall o :: o in CrawlDir(entries, ancestors, |ancestors|, Narrow(paths, ancestors), Narrow(xpaths, ancestors)).offers ==>
              ancestors <= o.components && Selected(paths, xpaths, o.components + [o.item.name])
    decreases entries, |entries| + 1
  {
    if ToItems(entries).Success? {
      CrawlFromOffersSelected(entries, ToItems(entries).value, 0, ancestors, paths, xpaths);
    }
  }

  /** The listing loop from item `i` on offers only selected files below the directory. */
  lemma {:induction false} CrawlFromOffersSelected(entries: seq<Entry>, items: seq<Item>, i: nat, ancestors: seq<string>,
                                                    paths: seq<Path>, xpaths: seq<Path>)
    requires ItemsOf(entries, items) && i <= |items|
    ensures forall o :: o in CrawlFrom(entries, items, i, ancestors, |ancestors|, Narrow(paths, ancestors), Narrow(xpaths, ancestors)).offers ==>
              ancestors <= o.components && Selected(paths, xpaths, o.components + [o.item.name])
    decreases entries, |items| - i, 1
  {
    if i < |items| {
      VisitOffersSelected(entries, items, i, ancestors, paths, xpaths);
      CrawlFromOffersSelected(entries, items, i + 1, ancestors, paths, xpaths);
    }
  }

  /** One turn of the loop offers only selected files below the directory. */
  lemma {:induction false} VisitOffersSelected(entries: seq<Entry>, items: seq<Item>, i: nat, ancestors: seq<string>,
                                                paths: seq<Path>, xpaths: seq<Path>)
    requires ItemsOf(entries, items) && i < |items|
    ensures forall o :: o in Visit(entries, items, i, ancestors, |ancestors|, Narrow(paths, ancestors), Narrow(xpaths, ancestors)).offers ==>
              ancestors <= o.components && Selected(paths, xpaths, o.components + [o.item.name])
    decreases entries, |items| - i, 0
  {
    var e := entries[i];
    assert items[i].Name() == e.name;
    SkipIffNotSelected(paths, xpaths, ancestors, e.name);
    if e.DirEntry? && Selected(paths, xpaths, ancestors + [e.name]) {
      VisitEntersSelectedDir(entries, items, i, ancestors, paths, xpaths);
      CrawlOffersSelected(e.children, ancestors + [e.name], paths, xpaths);
    }
  }

  /** `download()`: the crawl from the root with the templates as given completes exactly when every
      listing it fetches gives its files date tokens, and then offers exactly the selected files. */
  lemma CrawlFromRootSelectsExactly(entries: seq<Entry>, paths: seq<Path>, xpaths: seq<Path>)
    ensures var w := CrawlDir(entries, [], 0, paths, xpaths);
            (w.outcome.Completed? <==> FetchedDated(paths, xpaths, [], entries)) &&
            (FetchedDated(paths, xpaths, [], entries) ==> w == Walk(SelectedFiles(paths, xpaths, [], entries), Completed))
  {
    NarrowNothing(paths);
    NarrowNothing(xpaths);
    if FetchedDated(paths, xpaths, [], entries) {
      CrawlSelectsExactly(entries, [], paths, xpaths);
    } else {
      CrawlAbortsWhenUndated(entries, [], paths, xpaths);
    }
  }
}
