/**
  Concrete crawls that pin down how include and exclude templates interact.
 */
module Scenarios {
  import opened Wrappers
  import Glob
  import opened PathTemplate
  import opened Listing
  import opened Crawl
  import opened Schedule

  /** A name that is nothing but a month token is its own date token. */
  lemma MonthNameIsItsOwnDate(name: string)
    requires |name| == 7 && MonthAt(name, 0)
    ensures DateToken(name) == Some(name)
  {
    var t := DateToken(name).value;
    var i: nat :| MonthAt(name, i) && (forall j: nat :: j < i ==> !MonthAt(name, j)) &&
                  i + |t| <= |name| && t == name[i..i + |t|];
    assert i == 0;
    assert name[0..7] == name;
  }

  /** The file `2021-01` is dated, and its item takes the whole name as its date. */
  lemma MonthFileItem(url: string, modifyDate: string)
    ensures DateToken("2021-01").Some?
    ensures ItemOfFile(FileEntry("2021-01", url, modifyDate)) == FileItem("2021-01", url, "2021-01", modifyDate)
  {
    assert MonthAt("2021-01", 0);
    MonthNameIsItsOwnDate("2021-01");
  }

  /** The path `a/2021-01` is selected by the include template of segments `a` and `*`,
      and the exclude template naming that very path does not veto it. */
  lemma PathNamedByExcludeIsSelected()
    ensures Selected([Path(["a", "*"])], [Path(["a", "2021-01"])], ["a", "2021-01"])
  {
    Glob.PlainPatternMatchesItself("a", "a");
    Glob.StarMatchesEverything("2021-01");
    assert MatchesAll(Path(["a", "*"]), ["a", "2021-01"]);
  }

  /** With the include template of segments `a` and `*` and the exclude template `a/2021-01`,
      the file `2021-01` under `a` is still offered: an exclude template is used up only one
      level below its last segment, so it vetoes what lies strictly under the path it names
      and never that path itself. */
  lemma ExcludeNamingAFileKeepsIt()
    ensures CrawlDir([DirEntry("a", "d", [FileEntry("2021-01", "f", "m")])], [], 0,
                     [Path(["a", "*"])], [Path(["a", "2021-01"])])
         == Walk([Offer(FileItem("2021-01", "f", "2021-01", "m"), ["a"])], Completed)
  {
    var file := FileEntry("2021-01", "f", "m");
    var dir := DirEntry("a", "d", [file]);
    var paths := [Path(["a", "*"])];
    var xpaths := [Path(["a", "2021-01"])];
    MonthFileItem("f", "m");
    PathNamedByExcludeIsSelected();
    assert ["a"] + ["2021-01"] == ["a", "2021-01"];
    assert FetchedDated(paths, xpaths, ["a"], [file]);
    assert [] + ["a"] == ["a"];
    assert FetchedDated(paths, xpaths, [], [dir]);
    CrawlFromRootSelectsExactly([dir], paths, xpaths);
    assert SelectedIn(paths, xpaths, ["a"], file) == [Offer(ItemOfFile(file), ["a"])];
    assert SelectedFiles(paths, xpaths, ["a"], [file]) == SelectedIn(paths, xpaths, ["a"], file) + SelectedFiles(paths, xpaths, ["a"], []);
    assert SelectedFiles(paths, xpaths, [], [dir]) == SelectedIn(paths, xpaths, [], dir) + SelectedFiles(paths, xpaths, [], []);
  }

  /** Under the include template of segments `a` and `*`, the path `x` is not selected while
      `a` and `a/2021-01` are. */
  lemma IncludeASelectsOnlyUnderA()
    ensures !Selected([Path(["a", "*"])], [], ["x"])
    ensures Selected([Path(["a", "*"])], [], ["a"])
    ensures Selected([Path(["a", "*"])], [], ["a", "2021-01"])
  {
    var p := Path(["a", "*"]);
    Glob.PlainPatternMatchesItself("a", "a");
    Glob.PlainPatternMatchesItself("x", "a");
    Glob.StarMatchesEverything("2021-01");
    assert !p.Match("x", 0);
    assert !MatchesAll(p, ["x"]) by {
      assert ["x"][0] == "x";
    }
    assert MatchesAll(p, ["a"]);
    assert MatchesAll(p, ["a", "2021-01"]);
  }

  /** The directory `x` contributes nothing under include `a` then `*`, whatever it holds. */
  lemma SkippedDirectorySelectsNothing()
    ensures var skipped := DirEntry("x", "dx", [FileEntry("README", "r", "m")]);
            EntryFetchedDated([Path(["a", "*"])], [], [], skipped) &&
            SelectedIn([Path(["a", "*"])], [], [], skipped) == []
  {
    IncludeASelectsOnlyUnderA();
    assert [] + ["x"] == ["x"];
  }

  /** The directory `a` contributes its file `2021-01`, with the ancestor name `a`. */
  lemma DirectoryASelectsItsFile()
    ensures var dir := DirEntry("a", "d", [FileEntry("2021-01", "f", "m")]);
            EntryFetchedDated([Path(["a", "*"])], [], [], dir) &&
            SelectedIn([Path(["a", "*"])], [], [], dir) == [Offer(FileItem("2021-01", "f", "2021-01", "m"), ["a"])]
  {
    var file := FileEntry("2021-01", "f", "m");
    var paths := [Path(["a", "*"])];
    var xpaths: seq<Path> := [];
    MonthFileItem("f", "m");
    IncludeASelectsOnlyUnderA();
    assert [] + ["a"] == ["a"] && ["a"] + ["2021-01"] == ["a", "2021-01"];
    assert FetchedDated(paths, xpaths, ["a"], [file]);
    assert SelectedIn(paths, xpaths, ["a"], file) == [Offer(ItemOfFile(file), ["a"])];
    assert SelectedFiles(paths, xpaths, ["a"], [file]) == SelectedIn(paths, xpaths, ["a"], file) + SelectedFiles(paths, xpaths, ["a"], []);
  }

  /** A file without a date token in a directory the templates pass over does not stop the crawl:
      that directory's listing is never fetched. With the include template of segments `a` and `*`,
      the file `README` under `x` is ignored and `2021-01` under `a` is offered. */
  lemma UndatedFileInSkippedDirectoryIsHarmless()
    ensures CrawlDir([DirEntry("x", "dx", [FileEntry("README", "r", "m")]),
                      DirEntry("a", "d", [FileEntry("2021-01", "f", "m")])], [], 0,
                     [Path(["a", "*"])], [])
         == Walk([Offer(FileItem("2021-01", "f", "2021-01", "m"), ["a"])], Completed)
  {
    var skipped := DirEntry("x", "dx", [FileEntry("README", "r", "m")]);
    var dir := DirEntry("a", "d", [FileEntry("2021-01", "f", "m")]);
    var paths := [Path(["a", "*"])];
    var xpaths: seq<Path> := [];
    SkippedDirectorySelectsNothing();
    DirectoryASelectsItsFile();
    assert FetchedDated(paths, xpaths, [], [skipped, dir]);
    assert [skipped, dir][1..] == [dir];
    assert SelectedFiles(paths, xpaths, [], [skipped, dir]) == SelectedIn(paths, xpaths, [], skipped) + SelectedFiles(paths, xpaths, [], [dir]);
    assert SelectedFiles(paths, xpaths, [], [dir]) == SelectedIn(paths, xpaths, [], dir) + SelectedFiles(paths, xpaths, [], []);
    CrawlFromRootSelectsExactly([DirEntry("x", "dx", [FileEntry("README", "r", "m")]),
                                 DirEntry("a", "d", [FileEntry("2021-01", "f", "m")])], [Path(["a", "*"])], []);
  }

  /** The interval pattern `*[wo]` is a run of any characters followed by the class of `w` and
      `o`, which accepts exactly the one-character names `w` and `o`. */
  lemma IntervalPatternTokens(s: string)
    ensures Glob.Compile("*[wo]") == [Glob.AnyRun] + Glob.Compile("[wo]")
    ensures Glob.MatchTokens(Glob.Compile("[wo]"), s) <==> s == "w" || s == "o"
  {
    assert "*[wo]"[1..] == "[wo]";
    assert "[wo]" == "[" + "wo" + "]";
    Glob.ClassMatchesItsMembers(s, "wo");
    if |s| == 1 && s[0] in "wo" {
      assert s == [s[0]];
    }
  }

  /** The interval segment `*[wo]` keeps the weekly and monthly intervals `1w` and `1mo` and
      passes over the daily `1d`. */
  lemma WeeklyAndMonthlyIntervals()
    ensures Glob.FnMatch("1w", "*[wo]") && Glob.FnMatch("1mo", "*[wo]") && !Glob.FnMatch("1d", "*[wo]")
  {
    var cls := Glob.Compile("[wo]");
    IntervalPatternTokens("w");
    IntervalPatternTokens("o");
    IntervalPatternTokens("1d");
    IntervalPatternTokens("d");
    IntervalPatternTokens("");
    Glob.AnyRunMatchesSomeSuffix(cls, "1w");
    Glob.AnyRunMatchesSomeSuffix(cls, "1mo");
    Glob.AnyRunMatchesSomeSuffix(cls, "1d");
    assert "1w"[1..] == "w" && "1mo"[2..] == "o";
    assert "1d"[0..] == "1d" && "1d"[1..] == "d" && "1d"[2..] == "";
  }

  /** With the start bound `2023-01-15`, the monthly file `2023-01` is kept (its token is compared
      with `2023-01`) while the daily file `2023-01-10` is dropped. */
  lemma StartBoundAtTokenPrecision()
    ensures var policy := Policy(Some("2023-01-15"), None, OverwriteAlways, ".", false);
            !BeforeStart(policy, "2023-01") && BeforeStart(policy, "2023-01-10")
  {
    var policy := Policy(Some("2023-01-15"), None, OverwriteAlways, ".", false);
    TokenLeadingBothBoundsPasses(policy, "2023-01");
    assert Truncate("2023-01-15", 10) == "2023-01-15";
    assert "2023-01-10" == "2023-01-1" + "0" && "2023-01-15" == "2023-01-1" + "5";
    LexLessAfterCommonPrefix("2023-01-1", "0", "5");
  }
}
