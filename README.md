# Binance public-data downloader: selection, scheduling and retry

This project models the core of `downloader.py`, the mirror tool for the
Binance public-data site, in Dafny:

- **Path templates** (`PathTemplate`, `Glob`). A template loses the site prefix
  and its leading and trailing slashes, and is then split on `/` into one glob
  segment per directory level. A segment matches a name as `fnmatch` does.
  A template matches every name past its last segment, and it is *exhausted* there.
- **File items** (`Listing`). A directory listing is a tree of entries. Every
  file becomes a `FileItem` whose date is the leftmost `dddd-dd` or
  `dddd-dd-dd` in its name. A file whose name has no such token makes the
  whole listing fail.
- **The recursive crawl `_download`** (`Crawl`, `Downloader`). The function
  `CrawlDir` says which files the crawl hands to the scheduler, with which
  ancestor names, in which order, and whether a listing failure stops it. The
  crawl completes exactly when every listing it fetches gives its files date
  tokens; it fetches the listing of a directory only when it enters it. When it
  completes, it is proved equal to an independent definition: a file is selected
  exactly when some include template matches every name on its path and no
  exclude template matches a strict prefix of that path. The imperative `BinanceDownloader.Crawl`
  is proved to do what `CrawlDir` says. It keeps the shared stack of directory
  names as a field, pushed before a descent and popped after it. The body of the
  listing loop is the separate method `VisitItem`.
- **The scheduler `_submit_download_file_task`** (`Schedule`). It applies the
  date bounds, compared as strings at the precision of the file's token. It
  applies the checksum-file rule and the never-overwrite test. An accepted file
  creates its directory with all parents, takes the next task number and is
  dispatched. Task numbers are proved consecutive across any sequence of offers.
- **The retry loop `_download_file`** (`Retry`). There are at most `retry + 1`
  attempts, stopping at the first success. The error is logged, not raised,
  when every attempt fails. The default of 3 applies only when no value is given.

The listing fetcher, the worker pool and the file transfer are replaced:

- the fetcher by the listing tree;
- the worker pool by the sequence of dispatched tasks;
- the transfer by a sequence of attempt outcomes;
- the local filesystem by a set of paths, each a sequence of segments.

## Model

| member | source | states |
|---|---|---|
| PathTemplate.RemovePrefix | downloader.py:83-84 | the result is the template with the site prefix cut off when the template starts with it, and the template itself otherwise |
| PathTemplate.TrimStart | downloader.py:24 | the result is a suffix of the input, everything dropped is `/`, and the result does not start with `/` |
| PathTemplate.TrimEnd | downloader.py:24 | the result is a prefix of the input, everything dropped is `/`, and the result does not end with `/` |
| PathTemplate.Strip | downloader.py:24 | neither end of the stripped template is `/`, it is no longer than the template, and a template with no `/` at either end is kept as it is |
| PathTemplate.Split | downloader.py:24 | there is always at least one piece, and no piece contains `/` |
| PathTemplate.JoinSplit | downloader.py:24 | splitting on `/` loses nothing: joining the pieces with `/` gives back the string |
| PathTemplate.SplitJoin | downloader.py:24 | pieces without `/` are recovered exactly by splitting their `/`-join |
| PathTemplate.SplitCount | downloader.py:24 | the number of pieces is one more than the number of slashes |
| PathTemplate.ParsePath | downloader.py:23-24 | a parsed template has at least one segment, one more than the slashes of the stripped template, none containing `/`, and re-joined they are the stripped template |
| PathTemplate.NormalizeTemplates | downloader.py:83-85 | every template is kept, in order, as the parse of the template without the site prefix |
| PathTemplate.EmptyTemplateHasOneEmptySegment | downloader.py:24 | a template made only of slashes (or empty) becomes the single empty segment |
| PathTemplate.OuterSegmentsNonEmpty | downloader.py:24 | after stripping, the first and last segments of a non-empty template are non-empty |
| PathTemplate.Path.Match | downloader.py:26-27 | an exhausted template matches every name at that level; before that, the segment of the level is tested with `fnmatch` |
| PathTemplate.Path.IsExhausted | downloader.py:29-30 | a template is exhausted at every level past its last segment; what follows from that is stated by `PathTemplate.ExhaustedStaysExhausted` and `PathTemplate.Path.Match` |
| PathTemplate.ExhaustedStaysExhausted | downloader.py:26-30 | a template exhausted at a level stays exhausted at every deeper level, and matches every name there |
| Glob.Compile | downloader.py:27 | the translation of a segment into tokens (`*`, `?`, a character class or a literal) never has more tokens than the segment has characters |
| Glob.MatchTokens | downloader.py:27 | the whole name must match the whole token sequence; what this means for each kind of token is stated by the `Glob` lemmas below |
| Glob.FnMatch | downloader.py:27 | `fnmatch` on one segment: the translation of the pattern, matched against the whole name; characterised by the `Glob` lemmas below |
| Glob.AnyRunMatchesSomeSuffix | downloader.py:27 | a leading `*` matches a name exactly when the rest of the pattern matches some suffix of it |
| Glob.StarMatchesEverything | downloader.py:27 | the segment `*` matches every name, the empty name included |
| Glob.QuestionMarkMatchesOneCharacter | downloader.py:27 | the segment `?` matches exactly the one-character names |
| Glob.FixedLengthWithoutStar | downloader.py:27 | a pattern without `*` matches only names with as many characters as it has tokens |
| Glob.PlainPatternMatchesItself | downloader.py:27 | a segment without `*`, `?` or `[` matches exactly the name equal to it |
| Glob.PlainClassMembers | downloader.py:27 | a class body without `-` accepts exactly the characters occurring in it |
| Glob.ClosedClassCompiles | downloader.py:27 | `[!body]`, with a non-empty body free of `]`, is one negated class token over the members of the body; so is `[body]`, a positive one, when the body also does not open with `!` |
| Glob.ClassMatchesItsMembers | downloader.py:27 | `[body]`, for a body without `]` or `-` that does not open with `!`, matches exactly the one-character names whose character is in the body |
| Glob.NegatedClassMatchesOthers | downloader.py:27 | `[!body]`, for a body without `]` or `-`, matches exactly the one-character names whose character is not in the body |
| Glob.UnclosedBracketIsLiteral | downloader.py:27 | a `[` that no `]` closes (a `]` right after `[` or `[!` being a member, not a close) is the literal character `[`, so the pattern then matches a name starting with `[` whose rest matches the rest of the pattern |
| Glob.NoBracketAfterIsUnclosed | downloader.py:27 | a `[` with no `]` anywhere after it is never closed |
| Glob.LeadingBracketMemberLeavesClassOpen | downloader.py:27 | in `[]x` and `[!]x` the only `]` is a class member, so the `[` is never closed |
| Listing.FindDate | downloader.py:49 | the position found is the first one at or after the start where `dddd-dd` begins, and none means there is no such position |
| Listing.DateToken | downloader.py:49-54 | a token exists iff some position holds `dddd-dd`; it is a date token, taken at the leftmost such position, and it is the 10-character form exactly when `-dd` follows there |
| Listing.MakeFileItem | downloader.py:51-55 | building the item fails exactly when the name has no date token, and the failure names the file; otherwise name, url and modification date are kept and the date is the leftmost date token of the name |
| Listing.ToItems | downloader.py:138-142 | the listing becomes items iff every file in it has a date token; the items then correspond one to one, in order; a failure names a file without a token |
| Crawl.CrawlDir | downloader.py:105-119 | the crawl of one directory: fetch the listing, then walk it; every file it offers carries the directory's own ancestor names as a leading part (selection of what it offers: `Crawl.CrawlOffersSelected`) |
| Crawl.CrawlFrom | downloader.py:107-119 | the listing loop from one item on, stopping at the first turn that aborts; every file it offers lies below the directory |
| Crawl.Visit | downloader.py:108-119 | one turn of the loop: pass over the item, offer the file, or crawl the directory with the narrowed lists and one more ancestor name; every file offered lies below the directory |
| Crawl.NarrowAt | downloader.py:108 | narrowing never lengthens the template list |
| Crawl.NarrowAtKeepsMatching | downloader.py:108-111 | the narrowed list holds exactly the templates whose segment at the level accepts the name, in their original order |
| Crawl.Narrow | downloader.py:108-118 | the templates kept for a path are exactly those matching every name on it |
| Crawl.NarrowStep | downloader.py:108-118 | narrowing level by level, as the recursion does, equals narrowing by the whole path |
| Crawl.NarrowNothing | downloader.py:101 | the root call starts with the templates unnarrowed |
| Crawl.ExhaustedIffExcluded | downloader.py:111-113 | some narrowed exclude template is exhausted at an entry's level exactly when one matches a strict prefix of the entry's path |
| Crawl.SelectedPrefix | downloader.py:107-119 | a path is selected only if the path of its parent directory is |
| Crawl.NothingSelectedBelow | downloader.py:112-113 | below a directory whose path is not selected, no file is selected |
| Crawl.SkipIffNotSelected | downloader.py:108-113 | the loop passes over an entry exactly when its whole path is not selected |
| Crawl.NarrowEmptyIffNotIncluded | downloader.py:108-110 | no include template is left exactly when none matches the whole path |
| Crawl.VisitSelects | downloader.py:108-119 | one turn of the listing loop contributes exactly the selected files at or below its entry |
| Crawl.VisitEntersSelectedDir | downloader.py:108-117 | the turn on a directory whose whole path is selected is the crawl of that directory, with the lists narrowed by its whole path |
| Crawl.VisitSelectsAt | downloader.py:108-119 | when the listings the crawl fetches are dated, one turn of the loop contributes exactly the selected files at or below its entry |
| Crawl.FetchedDatedSuffix | downloader.py:106-118 | the condition on fetched listings holds for any run of a listing's last entries when it holds for the listing |
| Crawl.CrawlFromSelects | downloader.py:107-119 | the listing loop from any item on offers exactly the selected files of the remaining entries, in order |
| Crawl.CrawlSelectsExactly | downloader.py:105-119 | when every listing the crawl fetches (this directory's, and recursively those of the directories whose whole path is selected) gives its files date tokens, the crawl of the directory completes; it offers exactly the selected files below it, in depth-first listing order, each with its ancestor names |
| Crawl.AbortStep | downloader.py:107-119 | the loop from an item on aborts exactly when the turn on that item aborts or the loop from the next item on does |
| Crawl.CrawlAbortsWhenUndated | downloader.py:106-119 | when some listing the crawl fetches holds a file without a date token, the crawl aborts |
| Crawl.CrawlFromAborts | downloader.py:107-119 | the loop aborts when a directory it will reach leads to an undated listing that the crawl fetches |
| Crawl.VisitAborts | downloader.py:108-117 | the turn on a directory that leads to an undated listing the crawl fetches aborts |
| Crawl.CrawlOffersSelected | downloader.py:105-119 | whether or not the crawl completes, every file it has offered (and so dispatched) lies below the directory and has a selected whole path |
| Crawl.CrawlFromOffersSelected | downloader.py:107-119 | whether or not the listing loop completes, every file it has offered lies below the directory and has a selected whole path |
| Crawl.VisitOffersSelected | downloader.py:108-119 | every file one turn offers, directly or through its sub-crawl, lies below the directory and has a selected whole path |
| Crawl.CrawlFromRootSelectsExactly | downloader.py:100-101 | the crawl from the root with the configured templates completes exactly when every listing it fetches is dated, and then offers exactly the selected files of the whole tree |
| Crawl.UndatedFileAbortsCrawl | downloader.py:106 | a file without a date token in a listing aborts the whole crawl there, before any of that listing is offered, even a file the templates would skip |
| Schedule.LexLess | downloader.py:146-147 | Python's string `<`; no string is smaller than itself or than one of its own leading parts |
| Schedule.Truncate | downloader.py:146-147 | the result is a prefix of the bound, as long as the token or the whole bound when that is shorter |
| Schedule.Parents | downloader.py:155 | the directories created are exactly the non-empty leading parts of the destination path |
| Schedule.Decide | downloader.py:145-154 | a file is accepted iff it is inside both set date bounds, is not an unwanted checksum file and, under never-overwrite, its destination does not exist; each refusal names a condition that holds |
| Schedule.LexLessAfterCommonPrefix | downloader.py:146-147 | two dates that share a leading part compare as what follows that part |
| Schedule.TokenLeadingBothBoundsPasses | downloader.py:146-147 | a file whose token is a leading part of both bounds passes both, so a bound inside a month keeps that month's file |
| Schedule.Submit | downloader.py:145-158 | an offer either changes nothing or appends one task for that file under the next number, for a file inside the date bounds that is not an unwanted checksum file; the filesystem only grows, and consecutive numbering is kept |
| Schedule.SubmitAll | downloader.py:100-119 | offering files in order only appends tasks, at most one per offer, and the filesystem only grows |
| Schedule.SubmitEffect | downloader.py:145-158 | a refused file changes nothing; an accepted one takes the next task number, is dispatched to its destination, and its directory with all parents exists afterwards |
| Schedule.SubmitAllAppend | downloader.py:145-160 | offering files batch after batch is offering them all at once |
| Schedule.SubmitAllKeepsNumbering | downloader.py:156-160 | over any sequence of offers, task numbers stay consecutive from 1. Tasks are only appended, at most one per offer, and the counter moves with them. The filesystem only grows. Every dispatched file is inside the date bounds and is not an unwanted checksum file |
| Retry.EffectiveRetry | downloader.py:89 | a given retry count is kept, zero and negative counts included; only a missing one becomes 3 |
| Retry.Budget | downloader.py:163 | the attempts allowed are `retry + 1`, and none for a negative retry |
| Retry.FirstSuccess | downloader.py:163-173 | the attempt found is within the budget, succeeds, and follows only failures; none means every attempt in the budget fails |
| Retry.FirstSuccessIs | downloader.py:163-173 | a successful attempt preceded only by failures is the first success |
| Retry.AttemptLog | downloader.py:163-171 | each attempt adds its announcement and, when it fails, a warning: between one and two lines per attempt, and exactly one per attempt when none of them failed |
| Retry.AttemptLogAnnouncesEachAttempt | downloader.py:164-171 | every attempt is announced with its ordinal, none beyond those made, and no failure-to-download line appears before the loop ends |
| Downloader.BinanceDownloader.constructor | downloader.py:70-92 | the templates are normalised, the retry default applies only to a missing value, and no task has been numbered or dispatched |
| Downloader.BinanceDownloader.Download | downloader.py:100-103 | the state after the crawl from the root is the scheduler's state after the offers of `CrawlDir` on the whole tree, and the crawl ends as it does |
| Downloader.BinanceDownloader.Crawl | downloader.py:105-119 | the crawl of a directory offers exactly what `CrawlDir` says, in that order, and ends as it does; task numbering stays consecutive; the stack of names is as it was on entry |
| Downloader.BinanceDownloader.VisitItem | downloader.py:108-119 | one loop turn skips, dispatches the file or crawls the directory exactly as `Visit` says; the stack of names is back as it was |
| Downloader.BinanceDownloader.SubmitDownloadFileTask | downloader.py:145-160 | the scheduler's state afterwards is the one `Submit` gives for this file with these ancestors |
| Downloader.BinanceDownloader.DownloadFile | downloader.py:162-175 | attempts stop at the first success within `retry + 1`, or use them all. The log announces every attempt made and adds the failure line exactly when none succeeded |
| Scenarios.MonthNameIsItsOwnDate | downloader.py:49-54 | a name that is only a month token is its own date |
| Scenarios.MonthFileItem | downloader.py:51-55 | the file `2021-01` has a date token, and its item's date is the whole name |
| Scenarios.PathNamedByExcludeIsSelected | downloader.py:108-113 | the path `a/2021-01` is selected under include `a` then `*`, although an exclude template names exactly that path |
| Scenarios.IncludeASelectsOnlyUnderA | downloader.py:108-110 | under include `a` then `*`, the path `x` is not selected while `a` and `a/2021-01` are |
| Scenarios.SkippedDirectorySelectsNothing | downloader.py:108-110 | the directory `x` contributes nothing under include `a` then `*`, and its listing is not fetched |
| Scenarios.DirectoryASelectsItsFile | downloader.py:108-119 | the directory `a` contributes its file `2021-01` with the ancestor name `a` |
| Scenarios.UndatedFileInSkippedDirectoryIsHarmless | downloader.py:106-119 | a file without a date token under a directory the templates pass over does not stop the crawl, which offers the selected file under `a` |
| Scenarios.IntervalPatternTokens | example.py:13 | the interval segment `*[wo]` is a `*` followed by the class of `w` and `o`, which accepts exactly `w` and `o` |
| Scenarios.WeeklyAndMonthlyIntervals | example.py:13 | the interval segment `*[wo]` keeps `1w` and `1mo` and passes over `1d` |
| Scenarios.ExcludeNamingAFileKeepsIt | downloader.py:108-115 | with include `a` then `*` and exclude `a/2021-01`, the file `2021-01` under `a` is still offered |
| Scenarios.StartBoundAtTokenPrecision | downloader.py:146 | with start bound `2023-01-15`, the monthly file `2023-01` is kept and the daily file `2023-01-10` is dropped |

## Behaviour that follows the code

- A file name without a date token raises inside the listing fetch (downloader.py:54, 139). The exception is not caught anywhere, so the whole crawl stops at that listing. It stops even if the templates would have skipped that file. The model does this (`Crawl.UndatedFileAbortsCrawl`, `Crawl.CrawlAbortsWhenUndated`). It does not treat such a file as a skipped entry. A listing the crawl never fetches, below a directory it passes over, cannot stop it (`Scenarios.UndatedFileInSkippedDirectoryIsHarmless`).
- An exclude template is exhausted only one level below its last segment (downloader.py:29-30, 112). So the exclude `a/b` vetoes everything under the directory `a/b`, but never the entry `a/b` itself. A file `a/b` is downloaded. A directory `a/b` is entered, but nothing under it is taken. `Scenarios.ExcludeNamingAFileKeepsIt` shows the file case.

## Left out

- The listing fetcher `_fetch` (downloader.py:121-143) and `_init_selenium` are not modelled. Its result is assumed already done: names starting with `.` are dropped, trailing `/` is removed, and entries with a modification date are files. Only the `FileItem` construction is modelled (`Listing.ToItems`). The page wait timeout and the cell-count assertion are left out.
- The worker pool is not modelled. A dispatch (inline or to the pool) is recorded as one more `Task` in order. Concurrent execution and `executor.shutdown()` are left out, and `parallel` is only stored.
- `DownloadFile` models one task's run on its own. The downloaded file is not added to the modelled filesystem, so a later offer of the same path does not see it.
- `urllib.request.urlretrieve` becomes the `outcomes` oracle, one entry per attempt. Exception objects and the text of the log lines are left out. Only the kind, task number, attempt number, name and url of each line are kept.
- Date bounds are not checked with `strptime` in the constructor (downloader.py:75-79). Any string is accepted as a bound. The `isinstance` assertion on `overwrite` is enforced by its type.
- `xpaths=None` is modelled as the empty list. A non-integer `retry` is not modelled.
- `os.path.join` is modelled as appending segments. Absolute components, which reset the join, and separator normalisation are left out.
- `\d` is modelled as the ASCII digits `0`-`9`. Python's regex also accepts other Unicode decimal digits.
- `fnmatch` is modelled for POSIX, where `normcase` is the identity. Windows case folding is left out.
- Crawl.NarrowAt: its own contract bounds only the length. Membership and order are stated by `Crawl.NarrowAtKeepsMatching`.
- `example.py` is not part of this model, except for its interval segment `*[wo]` (`Scenarios.WeeklyAndMonthlyIntervals`).
