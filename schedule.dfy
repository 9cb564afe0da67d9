/**
  The scheduler decision of `_submit_download_file_task`: date bounds compared
  as strings, the checksum-file rule and the never-overwrite test, and what an
  accepted file does to the scheduler's state (a new task number, one more
  dispatched task, the destination directory and its parents created).
 */
module Schedule {
  import opened Wrappers
  import opened Listing
  import opened Crawl

  datatype OverwriteOption = OverwriteNever | OverwriteAlways

  /** The settings the decision reads. An unset date bound is `None` or the empty string. */
  datatype Policy = Policy(startDate: Option<string>, endDate: Option<string>, overwrite: OverwriteOption,
                           outputDir: string, needChecksum: bool)

  const CHECKSUM_SUFFIX: string := ".CHECKSUM"

  /** Python's `a < b` on strings: code point by code point, a proper prefix being smaller.
      No string is smaller than itself or than one of its own leading parts. */
  predicate LexLess(a: string, b: string): (less: bool)
    ensures less ==> !(b <= a)
    decreases |a|
  {
    if a == [] then b != []
    else if b == [] then false
    else if a[0] != b[0] then a[0] < b[0]
    else LexLess(a[1..], b[1..])
  }

  /** Python's `s[:n]`. */
  function Truncate(s: string, n: nat): (r: string)
    ensures r <= s && |r| == if n < |s| then n else |s|
  {
    if n < |s| then s[..n] else s
  }

  /** Python's truthiness of an optional string. */
  predicate IsSet(bound: Option<string>) {
    bound.Some? && bound.value != ""
  }

  predicate EndsWith(s: string, suffix: string) {
    |suffix| <= |s| && s[|s| - |suffix|..] == suffix
  }

  /** `item.date < start_date[:len(item.date)]`. */
  predicate BeforeStart(policy: Policy, date: string) {
    IsSet(policy.startDate) && LexLess(date, Truncate(policy.startDate.value, |date|))
  }

  /** `item.date > end_date[:len(item.date)]`. */
  predicate AfterEnd(policy: Policy, date: string) {
    IsSet(policy.endDate) && LexLess(Truncate(policy.endDate.value, |date|), date)
  }

  predicate UnwantedChecksum(policy: Policy, name: string) {
    !policy.needChecksum && EndsWith(name, CHECKSUM_SUFFIX)
  }

  /** `os.path.join(output_dir, *components)`, paths kept as their segments. */
  function DirPath(policy: Policy, components: seq<string>): seq<string> {
    [policy.outputDir] + components
  }

  /** `os.path.join(dir_path, item.name)`. */
  function FilePath(policy: Policy, components: seq<string>, name: string): seq<string> {
    DirPath(policy, components) + [name]
  }

  /** The directories `mkdir(parents=True)` makes sure exist: every leading part of the path. */
  function Parents(dir: seq<string>): (made: set<seq<string>>)
    ensures forall k :: 1 <= k <= |dir| ==> dir[..k] in made
    ensures forall q :: q in made ==> 1 <= |q| <= |dir| && q == dir[..|q|]
  {
    set k | 1 <= k <= |dir| :: dir[..k]
  }

  datatype Decision = Accept | TooEarly | TooLate | ChecksumNotWanted | AlreadyExists

  /** The checks of `_submit_download_file_task`, in the order it makes them. */
  function Decide(policy: Policy, fs: set<seq<string>>, item: FileItem, components: seq<string>): (d: Decision)
    ensures d == Accept <==>
              !BeforeStart(policy, item.date) && !AfterEnd(policy, item.date) &&
              !UnwantedChecksum(policy, item.name) &&
              !(policy.overwrite == OverwriteNever && FilePath(policy, components, item.name) in fs)
    ensures d == TooEarly ==> BeforeStart(policy, item.date)
    ensures d == TooLate ==> AfterEnd(policy, item.date)
    ensures d == ChecksumNotWanted ==> UnwantedChecksum(policy, item.name)
    ensures d == AlreadyExists ==> policy.overwrite == OverwriteNever && FilePath(policy, components, item.name) in fs
  {
    if BeforeStart(policy, item.date) then TooEarly
    else if AfterEnd(policy, item.date) then TooLate
    else if UnwantedChecksum(policy, item.name) then ChecksumNotWanted
    else if policy.overwrite == OverwriteNever && FilePath(policy, components, item.name) in fs then AlreadyExists
    else Accept
  }

  /** A dispatched download: `_download_file(item, file_path, taskno)` handed to the pool or run inline. */
  datatype Task = Task(item: FileItem, filePath: seq<string>, taskno: nat)

  /** What the scheduler changes: the task counter, the dispatched tasks and the local filesystem. */
  datatype State = State(taskno: nat, tasks: seq<Task>, fs: set<seq<string>>)

  /** Task numbers start at 1 and follow submission order; the counter is the last one given. */
  predicate Numbered(s: State) {
    s.taskno == |s.tasks| && forall i :: 0 <= i < |s.tasks| ==> s.tasks[i].taskno == i + 1
  }

  /** The scheduler's state after it is offered one file: either nothing changes, or one task is
      appended under the next number, for a file inside the date bounds that is not an unwanted
      checksum file, and the filesystem only gains entries. */
  function Submit(policy: Policy, s: State, o: Offer): (r: State)
    ensures r == s || (r.taskno == s.taskno + 1 && |r.tasks| == |s.tasks| + 1 && s.tasks <= r.tasks &&
                       r.tasks[|s.tasks|].item == o.item && s.fs <= r.fs)
    ensures r != s ==> !BeforeStart(policy, o.item.date) && !AfterEnd(policy, o.item.date) &&
                       !UnwantedChecksum(policy, o.item.name)
    ensures Numbered(s) ==> Numbered(r)
  {
    if Decide(policy, s.fs, o.item, o.components) != Accept then s
    else
      var n := s.taskno + 1;
      State(n, s.tasks + [Task(o.item, FilePath(policy, o.components, o.item.name), n)],
            s.fs + Parents(DirPath(policy, o.components)))
  }

  /** The scheduler's state after it is offered the files in order: tasks are only appended, at
      most one per offer, and the filesystem only gains entries. */
  function SubmitAll(policy: Policy, s: State, offers: seq<Offer>): (r: State)
    ensures s.tasks <= r.tasks && |r.tasks| <= |s.tasks| + |offers| && s.fs <= r.fs
    decreases |offers|
  {
    if offers == [] then s else SubmitAll(policy, Submit(policy, s, offers[0]), offers[1..])
  }

  // ---------------------------------------------------------------------------
  // Properties of the scheduler

  /** A common leading part does not decide the comparison: what follows it does. */
  lemma {:induction false} LexLessAfterCommonPrefix(p: string, a: string, b: string)
    ensures LexLess(p + a, p + b) <==> LexLess(a, b)
    decreases |p|
  {
    if p != [] {
      assert (p + a)[1..] == p[1..] + a;
      assert (p + b)[1..] == p[1..] + b;
      LexLessAfterCommonPrefix(p[1..], a, b);
    } else {
      assert p + a == a && p + b == b;
    }
  }

  /** The bounds are compared at the length of the file's own token: a file whose token is a
      leading part of both bounds (a monthly `2021-03` against `2021-03-15` and `2021-03-20`)
      passes both, so a bound inside a month keeps that month's file. */
  lemma TokenLeadingBothBoundsPasses(policy: Policy, date: string)
    requires policy.startDate.Some? ==> date <= policy.startDate.value
    requires policy.endDate.Some? ==> date <= policy.endDate.value
    ensures !BeforeStart(policy, date) && !AfterEnd(policy, date)
  {
    if policy.startDate.Some? {
      assert Truncate(policy.startDate.value, |date|) == date;
    }
    if policy.endDate.Some? {
      assert Truncate(policy.endDate.value, |date|) == date;
    }
  }

  /** A declined file changes nothing: no task, no counter step, no directory. An accepted one
      takes the next task number and creates the destination directory and its parents. */
  lemma SubmitEffect(policy: Policy, s: State, o: Offer)
    ensures var d := Decide(policy, s.fs, o.item, o.components);
            var s' := Submit(policy, s, o);
            (d != Accept ==> s' == s) &&
            (d == Accept ==> s'.taskno == s.taskno + 1 &&
                             s'.tasks == s.tasks + [Task(o.item, FilePath(policy, o.components, o.item.name), s'.taskno)] &&
                             s'.fs == s.fs + Parents(DirPath(policy, o.components)) &&
                             DirPath(policy, o.components) in s'.fs)
  {
    var dir := DirPath(policy, o.components);
    assert dir[..|dir|] == dir;
  }

  /** Offering files one batch after another is offering them all. */
  lemma {:induction false} SubmitAllAppend(policy: Policy, s: State, a: seq<Offer>, b: seq<Offer>)
    ensures SubmitAll(policy, s, a + b) == SubmitAll(policy, SubmitAll(policy, s, a), b)
    decreases |a|
  {
    if a == [] {
      assert a + b == b;
    } else {
      assert (a + b)[0] == a[0];
      assert (a + b)[1..] == a[1..] + b;
      SubmitAllAppend(policy, Submit(policy, s, a[0]), a[1..], b);
    }
  }

  /** Task numbers stay consecutive; tasks are only ever appended; the counter moves by exactly
      one per dispatched task; the filesystem only gains entries; and every dispatched task is a
      file inside the date bounds that is not an unwanted checksum file. */
  lemma {:induction false} SubmitAllKeepsNumbering(policy: Policy, s: State, offers: seq<Offer>)
    requires Numbered(s)
    ensures var s' := SubmitAll(policy, s, offers);
            Numbered(s') && s.tasks <= s'.tasks && |s'.tasks| <= |s.tasks| + |offers| &&
            s'.taskno - s.taskno == |s'.tasks| - |s.tasks| && s.fs <= s'.fs &&
            forall i :: |s.tasks| <= i < |s'.tasks| ==>
              !BeforeStart(policy, s'.tasks[i].item.date) && !AfterEnd(policy, s'.tasks[i].item.date) &&
              !UnwantedChecksum(policy, s'.tasks[i].item.name)
    decreases |offers|
  {
    if offers != [] {
      var s1 := Submit(policy, s, offers[0]);
      SubmitEffect(policy, s, offers[0]);
      SubmitAllKeepsNumbering(policy, s1, offers[1..]);
      var s' := SubmitAll(policy, s, offers);
      forall i | |s.tasks| <= i < |s'.tasks|
        ensures !BeforeStart(policy, s'.tasks[i].item.date) && !AfterEnd(policy, s'.tasks[i].item.date) &&
                !UnwantedChecksum(policy, s'.tasks[i].item.name)
      {
        if i < |s1.tasks| {
          assert s'.tasks[i] == s1.tasks[i];
        }
      }
    }
  }
}
