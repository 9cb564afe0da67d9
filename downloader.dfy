/**
  `BinanceDownloader`: the object that holds the configuration, the task
  counter and the shared stack of directory names, and whose methods crawl
  the listing, schedule the selected files and download one file with retries.

  The listing is a tree of entries, the local filesystem a set of paths, the
  worker pool a sequence of dispatched tasks, and the transfer an oracle of
  attempt outcomes.
 */
module Downloader {
  import opened Wrappers
  import opened PathTemplate
  import opened Listing
  import opened Crawl
  import opened Schedule
  import opened Retry

  class BinanceDownloader {
    const policy: Policy
    const paths: seq<Path>
    const xpaths: seq<Path>
    const retry: int
    /** Worker-pool size; 0 runs each download inline. Both ways a task is dispatched in order. */
    const parallel: nat

    var taskno: nat
    /** Every task dispatched so far, inline or to the pool. */
    var tasks: seq<Task>
    /** The paths that exist under the local filesystem. */
    var fs: set<seq<string>>
    /** The names of the directories from the root to the one being crawled. */
    var components: seq<string>

    function SchedulerState(): State
      reads this
    {
      Schedule.State(taskno, tasks, fs)
    }

    ghost predicate Valid()
      reads this
    {
      Numbered(SchedulerState())
    }

    /** `__init__`: templates lose the site prefix and are parsed; `retry` takes its default only when missing. */
    constructor (pathTemplates: seq<string>, xpathTemplates: seq<string>,
                 startDate: Option<string>, endDate: Option<string>, overwrite: OverwriteOption,
                 outputDir: string, needChecksum: bool, retry: Option<int>, parallel: nat,
                 existing: set<seq<string>>)
      ensures Valid()
      ensures policy == Policy(startDate, endDate, overwrite, outputDir, needChecksum)
      ensures paths == NormalizeTemplates(pathTemplates) && xpaths == NormalizeTemplates(xpathTemplates)
      ensures this.retry == EffectiveRetry(retry) && this.parallel == parallel
      ensures taskno == 0 && tasks == [] && fs == existing && components == []
    {
      policy := Policy(startDate, endDate, overwrite, outputDir, needChecksum);
      paths := NormalizeTemplates(pathTemplates);
      xpaths := NormalizeTemplates(xpathTemplates);
      this.retry := EffectiveRetry(retry);
      this.parallel := parallel;
      taskno := 0;
      tasks := [];
      fs := existing;
      components := [];
    }

    /** `download()`: crawl the whole listing from the root with the templates as configured. */
    method Download(listing: seq<Entry>) returns (outcome: Outcome)
      requires Valid()
      modifies this
      ensures Valid()
      ensures var w := CrawlDir(listing, [], 0, paths, xpaths);
              outcome == w.outcome && SchedulerState() == SubmitAll(policy, old(SchedulerState()), w.offers)
    {
      components := [];
      outcome := Crawl(listing, 0, paths, xpaths);
    }

    /** `_download(url, components, level, paths, xpaths)` on the directory whose listing is `entries`. */
    method Crawl(entries: seq<Entry>, level: nat, paths: seq<Path>, xpaths: seq<Path>) returns (outcome: Outcome)
      requires Valid()
      modifies this
      ensures Valid() && components == old(components)
      ensures var w := CrawlDir(entries, old(components), level, paths, xpaths);
              outcome == w.outcome && SchedulerState() == SubmitAll(policy, old(SchedulerState()), w.offers)
      decreases entries, 1
    {
      ghost var whole := CrawlDir(entries, components, level, paths, xpaths);
      var fetched := ToItems(entries);
      if fetched.Failure? {
        return Aborted(fetched.error);
      }
      var items := fetched.value;
      ghost var done: seq<Offer> := [];
      var i := 0;
      while i < |items|
        invariant 0 <= i <= |items|
        invariant Valid() && components == old(components)
        invariant SchedulerState() == SubmitAll(policy, old(SchedulerState()), done)
        invariant whole == Prepend(done, CrawlFrom(entries, items, i, components, level, paths, xpaths))
      {
        ghost var step := Visit(entries, items, i, components, level, paths, xpaths);
        ghost var rest := CrawlFrom(entries, items, i + 1, components, level, paths, xpaths);
        PrependTwice(done, step.offers, rest);
        var turn := VisitItem(entries, items, i, level, paths, xpaths);
        SubmitAllAppend(policy, old(SchedulerState()), done, step.offers);
        done := done + step.offers;
        if turn.Aborted? {
          return turn;
        }
        i := i + 1;
      }
      assert done + [] == done;
      outcome := Completed;
    }

    /** The body of the listing loop of `_download`, on item `i`: pass over an item no include
        template accepts or some exclude template has used up, schedule a file, or descend into a
        directory with one more name on `components` and take it off again afterwards. */
    method VisitItem(ghost entries: seq<Entry>, items: seq<Item>, i: nat, level: nat,
                     paths: seq<Path>, xpaths: seq<Path>) returns (outcome: Outcome)
      requires Valid() && ItemsOf(entries, items) && i < |items|
      modifies this
      ensures Valid() && components == old(components)
      ensures var w := Visit(entries, items, i, old(components), level, paths, xpaths);
              outcome == w.outcome && SchedulerState() == SubmitAll(policy, old(SchedulerState()), w.offers)
      decreases entries, 0
    {
      var item := items[i];
      var curPaths := NarrowAt(paths, item.Name(), level);
      if curPaths == [] {
        return Completed;
      }
      var curXpaths := NarrowAt(xpaths, item.Name(), level);
      if AnyExhausted(curXpaths, level) {
        return Completed;
      }
      match item {
        case File(f) =>
          ghost var before := SchedulerState();
          SubmitDownloadFileTask(f, components);
          assert SubmitAll(policy, before, [Offer(f, components)]) == Submit(policy, before, Offer(f, components));
          outcome := Completed;
        case Dir(n, _, children) =>
          assert entries[i].children == children;
          components := components + [n];
          outcome := Crawl(children, level + 1, curPaths, curXpaths);
          components := components[..|components| - 1];
      }
    }

    /** `_submit_download_file_task(item, components)`. */
    method SubmitDownloadFileTask(item: FileItem, components: seq<string>)
      requires Valid()
      modifies this`taskno, this`tasks, this`fs
      ensures Valid()
      ensures SchedulerState() == Submit(policy, old(SchedulerState()), Offer(item, components))
    {
      if (IsSet(policy.startDate) && LexLess(item.date, Truncate(policy.startDate.value, |item.date|))) ||
         (IsSet(policy.endDate) && LexLess(Truncate(policy.endDate.value, |item.date|), item.date)) {
        return;
      }
      if !policy.needChecksum && EndsWith(item.name, CHECKSUM_SUFFIX) {
        return;
      }
      var dirPath := DirPath(policy, components);
      var filePath := dirPath + [item.name];
      if policy.overwrite == OverwriteNever && filePath in fs {
        return;
      }
      fs := fs + Parents(dirPath);
      taskno := taskno + 1;
      tasks := tasks + [Task(item, filePath, taskno)];
    }

    /** `_download_file(item, file_path, taskno)`: attempt the transfer at most `retry + 1` times,
        stop at the first success, and log the failure (never raise it) when every attempt fails. */
    method DownloadFile(item: FileItem, filePath: seq<string>, taskno: nat, outcomes: seq<bool>)
      returns (attempts: nat, succeeded: bool, log: seq<LogEvent>)
      ensures succeeded <==> FirstSuccess(outcomes, Budget(retry)).Some?
      ensures attempts <= Budget(retry)
      ensures succeeded ==> attempts == FirstSuccess(outcomes, Budget(retry)).value + 1
      ensures !succeeded ==> attempts == Budget(retry)
      ensures forall j :: 0 <= j < attempts - 1 ==> !Succeeds(outcomes, j)
      ensures log == AttemptLog(taskno, item.name, outcomes, attempts) +
                     (if succeeded then [] else [FailedToDownload(taskno, item.name, item.url)])
    {
      attempts, succeeded, log := 0, false, [];
      var budget := Budget(retry);
      var i: nat := 0;
      while i < budget
        invariant 0 <= i <= budget
        invariant forall j: nat :: j < i ==> !Succeeds(outcomes, j)
        invariant !succeeded ==> attempts == i
        invariant succeeded ==> attempts == i + 1 && Succeeds(outcomes, i)
        invariant succeeded ==> i < budget
        invariant log == AttemptLog(taskno, item.name, outcomes, attempts)
        decreases budget - i, if succeeded then 0 else 1
      {
        log := log + [AttemptEvent(taskno, i, item.name)];
        attempts := attempts + 1;
        if i < |outcomes| && outcomes[i] {
          succeeded := true;
          break;
        }
        log := log + [GotException(taskno, item.name)];
        i := i + 1;
      }
      if succeeded {
        FirstSuccessIs(outcomes, budget, i);
      } else {
        log := log + [FailedToDownload(taskno, item.name, item.url)];
      }
    }
  }
}
