/**
  The `Path` template of the downloader: a slash-separated glob template cut
  into segments, one per directory level, and the two questions the crawler
  asks of it.
 */
module PathTemplate {
  import Glob

  /** The prefix that templates copied from the listing site's address bar carry. */
  const BINANCE_DATA_URL: string := "https://data.binance.vision/?prefix=data/"

  /** Python's `s.removeprefix(prefix)`. */
  function RemovePrefix(s: string, prefix: string): (r: string)
    ensures prefix <= s ==> prefix + r == s
    ensures !(prefix <= s) ==> r == s
  {
    if prefix <= s then s[|prefix|..] else s
  }

  /** Python's `s.lstrip('/')`: drops every leading `/`. */
  function TrimStart(s: string): (r: string)
    ensures |r| <= |s| && r == s[|s| - |r|..]
    ensures forall i :: 0 <= i < |s| - |r| ==> s[i] == '/'
    ensures r == [] || r[0] != '/'
    decreases |s|
  {
    if s != [] && s[0] == '/' then TrimStart(s[1..]) else s
  }

  /** Python's `s.rstrip('/')`: drops every trailing `/`. */
  function TrimEnd(s: string): (r: string)
    ensures |r| <= |s| && r == s[..|r|]
    ensures forall i :: |r| <= i < |s| ==> s[i] == '/'
    ensures r == [] || r[|r| - 1] != '/'
    decreases |s|
  {
    if s != [] && s[|s| - 1] == '/' then TrimEnd(s[..|s| - 1]) else s
  }

  /** Python's `s.strip('/')`: neither end of the result is `/`, and a string with no `/` at
      either end is kept as it is. */
  function Strip(s: string): (r: string)
    ensures |r| <= |s|
    ensures r == [] || (r[0] != '/' && r[|r| - 1] != '/')
    ensures (s == [] || (s[0] != '/' && s[|s| - 1] != '/')) ==> r == s
  {
    TrimEnd(TrimStart(s))
  }

  /** Python's `s.split('/')`: every `/` separates two pieces, so empty pieces are kept. */
  function Split(s: string): (parts: seq<string>)
    ensures |parts| >= 1
    ensures forall k :: 0 <= k < |parts| ==> '/' !in parts[k]
    decreases |s|
  {
    if s == [] then [[]]
    else
      var rest := Split(s[1..]);
      if s[0] == '/' then [[]] + rest
      else [[s[0]] + rest[0]] + rest[1..]
  }

  /** Python's `'/'.join(parts)`. */
  function Join(parts: seq<string>): string
    requires |parts| >= 1
    decreases |parts|
  {
    if |parts| == 1 then parts[0] else parts[0] + "/" + Join(parts[1..])
  }

  function CountSlashes(s: string): nat
    decreases |s|
  {
    if s == [] then 0 else (if s[0] == '/' then 1 else 0) + CountSlashes(s[1..])
  }

  /** Splitting loses nothing: joining the pieces gives back the string. */
  lemma {:induction false} JoinSplit(s: string)
    ensures Join(Split(s)) == s
    decreases |s|
  {
    if s != [] {
      JoinSplit(s[1..]);
      var rest := Split(s[1..]);
      if s[0] == '/' {
        assert Split(s)[1..] == rest;
        assert s == [s[0]] + s[1..];
      } else {
        var parts := Split(s);
        if |rest| == 1 {
          assert s == [s[0]] + rest[0];
        } else {
          assert parts[1..] == rest[1..];
          assert Join(rest) == rest[0] + "/" + Join(rest[1..]);
          assert s == [s[0]] + s[1..];
        }
      }
    }
  }

  /** Splitting the join of slash-free pieces gives back the pieces. */
  lemma {:induction false} SplitJoin(parts: seq<string>)
    requires |parts| >= 1
    requires forall k :: 0 <= k < |parts| ==> '/' !in parts[k]
    ensures Split(Join(parts)) == parts
    decreases |parts|, |parts[0]|
  {
    var p := parts[0];
    if p == [] {
      if |parts| > 1 {
        SplitJoin(parts[1..]);
        var j := Join(parts);
        assert j == "/" + Join(parts[1..]);
        assert j[1..] == Join(parts[1..]);
        assert parts == [[]] + parts[1..];
      } else {
        assert Join(parts) == [];
      }
    } else {
      var tail := [p[1..]] + parts[1..];
      assert forall k :: 0 <= k < |tail| ==> '/' !in tail[k] by {
        forall k | 0 <= k < |tail| ensures '/' !in tail[k] {
          if k == 0 {
            assert forall c :: c in p[1..] ==> c in p;
          } else {
            assert tail[k] == parts[k];
          }
        }
      }
      SplitJoin(tail);
      JoinCons(p, parts[1..]);
      assert tail[1..] == parts[1..];
      var j := Join(parts);
      assert j == [p[0]] + Join(tail);
      assert j[0] == p[0] && j[0] != '/';
      assert j[1..] == Join(tail);
      assert Split(j) == [[p[0]] + p[1..]] + parts[1..];
      assert [p[0]] + p[1..] == p;
      assert parts == [p] + parts[1..];
    }
  }

  /** Peeling the first character off the first piece of a join. */
  lemma JoinCons(p: string, more: seq<string>)
    requires p != []
    ensures Join([p] + more) == [p[0]] + Join([p[1..]] + more)
  {
    var a := [p] + more;
    var b := [p[1..]] + more;
    assert a[1..] == more && b[1..] == more;
    assert p == [p[0]] + p[1..];
  }

  /** There is one more piece than there are slashes. */
  lemma {:induction false} SplitCount(s: string)
    ensures |Split(s)| == CountSlashes(s) + 1
    decreases |s|
  {
    if s != [] {
      SplitCount(s[1..]);
    }
  }

  /** A glob template cut into its segments. */
  datatype Path = Path(components: seq<string>) {

    /** `Path.match`: past the last segment every name matches, otherwise the segment is a glob. */
    predicate Match(component: string, level: nat): (m: bool)
      ensures IsExhausted(level) ==> m
    {
      level >= |components| || Glob.FnMatch(component, components[level])
    }

    /** `Path.is_exhausted`: the template has no segment left for this level. */
    predicate IsExhausted(level: nat) {
      level >= |components|
    }
  }

  /** `Path(template)`: strip every leading and trailing `/`, then split on `/`. */
  function ParsePath(template: string): (p: Path)
    ensures |p.components| >= 1
    ensures |p.components| == CountSlashes(Strip(template)) + 1
    ensures forall k :: 0 <= k < |p.components| ==> '/' !in p.components[k]
    ensures Join(p.components) == Strip(template)
  {
    var stripped := Strip(template);
    SplitCount(stripped);
    JoinSplit(stripped);
    Path(Split(stripped))
  }

  /** The templates as the downloader keeps them: the site prefix removed, then parsed. */
  function NormalizeTemplates(templates: seq<string>): (ps: seq<Path>)
    ensures |ps| == |templates|
    ensures forall i :: 0 <= i < |ps| ==> ps[i] == ParsePath(RemovePrefix(templates[i], BINANCE_DATA_URL))
    decreases |templates|
  {
    if templates == [] then []
    else [ParsePath(RemovePrefix(templates[0], BINANCE_DATA_URL))] + NormalizeTemplates(templates[1..])
  }

  // ---------------------------------------------------------------------------
  // Properties of templates

  /** An empty template (or one made only of slashes) has the single empty segment. */
  lemma EmptyTemplateHasOneEmptySegment(template: string)
    requires forall i :: 0 <= i < |template| ==> template[i] == '/'
    ensures ParsePath(template).components == [""]
  {
    assert TrimStart(template) == [];
  }

  /** A template never has an empty first or last segment unless it is the lone empty one. */
  lemma {:induction false} OuterSegmentsNonEmpty(template: string)
    requires Strip(template) != []
    ensures ParsePath(template).components[0] != []
    ensures ParsePath(template).components[|ParsePath(template).components| - 1] != []
  {
    var s := Strip(template);
    var t := TrimStart(template);
    assert s == t[..|s|];
    assert s[0] != '/' by {
      assert t[0] == s[0];
    }
    assert s[|s| - 1] != '/';
    FirstPieceStartsString(s);
    LastPieceEndsString(s);
    assert ParsePath(template).components == Split(s);
  }

  lemma FirstPieceStartsString(s: string)
    requires s != [] && s[0] != '/'
    ensures Split(s)[0] != []
  {
  }

  lemma {:induction false} LastPieceEndsString(s: string)
    requires s != [] && s[|s| - 1] != '/'
    ensures Split(s)[|Split(s)| - 1] != []
    decreases |s|
  {
    if |s| > 1 {
      LastPieceEndsString(s[1..]);
      assert s[1..][|s[1..]| - 1] == s[|s| - 1];
    }
  }

  /** Once a template is exhausted it stays exhausted at every deeper level, and there it matches
      every name. */
  lemma ExhaustedStaysExhausted(p: Path, component: string, level: nat, deeper: nat)
    requires p.IsExhausted(level) && level <= deeper
    ensures p.IsExhausted(deeper) && p.Match(component, deeper)
  {
  }
}
