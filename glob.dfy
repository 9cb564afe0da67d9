/**
  Shell-style glob matching of one path segment, as Python's `fnmatch.fnmatch`
  does it on POSIX: the pattern is first translated into a sequence of tokens
  (`*`, `?`, a `[...]` character class or a literal character) and the whole
  name must then match the whole token sequence.
 */
module Glob {

  /** One member of a `[...]` character class: a single character or an inclusive range `lo-hi`. */
  datatype ClassItem = Single(c: char) | Range(lo: char, hi: char)

  datatype Token =
    | Literal(c: char)
    | AnyChar                                         // `?`
    | AnyRun                                          // `*`
    | CharClass(negated: bool, items: seq<ClassItem>)  // `[...]` or `[!...]`

  predicate IsSpecial(c: char) {
    c == '*' || c == '?' || c == '['
  }

  /** Index of the first `]` at or after `j`, or `|pat|` when there is none. */
  function ClassEnd(pat: string, j: nat): (k: nat)
    requires j <= |pat|
    ensures j <= k <= |pat|
    ensures k < |pat| ==> pat[k] == ']'
    ensures forall m :: j <= m < k ==> pat[m] != ']'
    decreases |pat| - j
  {
    if j == |pat| || pat[j] == ']' then j else ClassEnd(pat, j + 1)
  }

  /** The members of a class body: `x-y` is a range, every other character stands for itself. */
  function ClassItems(body: string): (items: seq<ClassItem>)
    ensures |items| <= |body|
    decreases |body|
  {
    if body == [] then []
    else if |body| >= 3 && body[1] == '-' then [Range(body[0], body[2])] + ClassItems(body[3..])
    else [Single(body[0])] + ClassItems(body[1..])
  }

  /** Where the body of a class opened by `pat[0] == '['` may end at the earliest:
      a leading `!` negates and a `]` right after the opening is a member. */
  function ClassBodyStart(pat: string): (j: nat)
    requires pat != [] && pat[0] == '['
    ensures 1 <= j <= |pat|
  {
    var j := if 1 < |pat| && pat[1] == '!' then 2 else 1;
    if j < |pat| && pat[j] == ']' then j + 1 else j
  }

  /** The translation of a pattern into tokens; a `[` without a closing `]` is a literal. */
  function Compile(pat: string): (toks: seq<Token>)
    ensures |toks| <= |pat|
    decreases |pat|
  {
    if pat == [] then []
    else if pat[0] == '*' then [AnyRun] + Compile(pat[1..])
    else if pat[0] == '?' then [AnyChar] + Compile(pat[1..])
    else if pat[0] == '[' then
      var k := ClassEnd(pat, ClassBodyStart(pat));
      if k == |pat| then [Literal('[')] + Compile(pat[1..])
      else
        var negated := pat[1] == '!';
        var body := pat[(if negated then 2 else 1)..k];
        [CharClass(negated, ClassItems(body))] + Compile(pat[k + 1..])
    else [Literal(pat[0])] + Compile(pat[1..])
  }

  predicate ItemMatches(item: ClassItem, c: char) {
    match item
    case Single(x) => c == x
    case Range(lo, hi) => lo <= c <= hi
  }

  predicate SomeItemMatches(items: seq<ClassItem>, c: char)
    decreases |items|
  {
    items != [] && (ItemMatches(items[0], c) || SomeItemMatches(items[1..], c))
  }

  /** Whether a token other than `*` accepts the character `c`. */
  predicate TokenAccepts(t: Token, c: char)
    requires !t.AnyRun?
  {
    match t
    case Literal(x) => c == x
    case AnyChar => true
    case CharClass(negated, items) => SomeItemMatches(items, c) != negated
  }

  /** Whether the whole of `s` matches the whole token sequence. */
  predicate MatchTokens(toks: seq<Token>, s: string)
    decreases |toks| + |s|
  {
    if toks == [] then s == []
    else if toks[0].AnyRun? then
      MatchTokens(toks[1..], s) || (s != [] && MatchTokens(toks, s[1..]))
    else
      s != [] && TokenAccepts(toks[0], s[0]) && MatchTokens(toks[1..], s[1..])
  }

  /** `fnmatch.fnmatch(name, pat)`. */
  predicate FnMatch(name: string, pat: string) {
    MatchTokens(Compile(pat), name)
  }

  // ---------------------------------------------------------------------------
  // Properties of the matcher

  /** `*` consumes any run of characters: a leading `*` matches `s` exactly when
      the rest of the pattern matches some suffix of `s`. */
  lemma {:induction false} AnyRunMatchesSomeSuffix(rest: seq<Token>, s: string)
    ensures MatchTokens([AnyRun] + rest, s) <==> exists k :: 0 <= k <= |s| && MatchTokens(rest, s[k..])
  {
    var toks := [AnyRun] + rest;
    assert toks[1..] == rest;
    if s == [] {
      assert s[0..] == s;
    } else {
      AnyRunMatchesSomeSuffix(rest, s[1..]);
      if MatchTokens(toks, s) {
        if !MatchTokens(rest, s) {
          var k :| 0 <= k <= |s[1..]| && MatchTokens(rest, s[1..][k..]);
          assert s[1..][k..] == s[k + 1..];
        } else {
          assert s[0..] == s;
        }
      }
      if exists k :: 0 <= k <= |s| && MatchTokens(rest, s[k..]) {
        var k :| 0 <= k <= |s| && MatchTokens(rest, s[k..]);
        if k > 0 {
          assert s[1..][k - 1..] == s[k..];
        } else {
          assert s[0..] == s;
        }
      }
    }
  }

  /** The pattern `*` matches every name, the empty one included. */
  lemma StarMatchesEverything(name: string)
    ensures FnMatch(name, "*")
  {
    assert Compile("*") == [AnyRun];
    assert [AnyRun] + [] == [AnyRun];
    AnyRunMatchesSomeSuffix([], name);
    assert name[|name|..] == [];
  }

  /** The pattern `?` matches exactly the names of one character. */
  lemma QuestionMarkMatchesOneCharacter(name: string)
    ensures FnMatch(name, "?") <==> |name| == 1
  {
    assert Compile("?") == [AnyChar];
    assert [AnyChar][1..] == [];
    if name != [] {
      assert MatchTokens([AnyChar], name) <==> MatchTokens([], name[1..]);
    }
  }

  /** A token sequence without `*` matches only names of its own length. */
  lemma {:induction false} FixedLengthWithoutStar(toks: seq<Token>, s: string)
    requires forall i :: 0 <= i < |toks| ==> !toks[i].AnyRun?
    requires MatchTokens(toks, s)
    ensures |s| == |toks|
  {
    if toks != [] {
      FixedLengthWithoutStar(toks[1..], s[1..]);
    }
  }

  /** A pattern with none of `*`, `?` or `[` matches exactly the name equal to it. */
  lemma {:induction false} PlainPatternMatchesItself(name: string, pat: string)
    requires forall i :: 0 <= i < |pat| ==> !IsSpecial(pat[i])
    ensures FnMatch(name, pat) <==> name == pat
    decreases |pat|
  {
    if pat == [] {
    } else {
      assert Compile(pat) == [Literal(pat[0])] + Compile(pat[1..]);
      var toks := Compile(pat);
      assert toks[1..] == Compile(pat[1..]);
      if name != [] {
        PlainPatternMatchesItself(name[1..], pat[1..]);
        if name[0] == pat[0] && name[1..] == pat[1..] {
          assert name == [name[0]] + name[1..];
          assert pat == [pat[0]] + pat[1..];
        }
      }
    }
  }

  /** A class body without `-` lists its members one by one: a character belongs to it exactly
      when it occurs in the body. */
  lemma {:induction false} PlainClassMembers(body: string, c: char)
    requires '-' !in body
    ensures SomeItemMatches(ClassItems(body), c) <==> c in body
    decreases |body|
  {
    if body != [] {
      assert ClassItems(body) == [Single(body[0])] + ClassItems(body[1..]);
      assert ClassItems(body)[1..] == ClassItems(body[1..]);
      assert body == [body[0]] + body[1..];
      PlainClassMembers(body[1..], c);
    }
  }

  /** A closed class `[body]` or `[!body]`, with a non-empty body free of `]`, compiles to one
      class token over the body's members. */
  lemma ClosedClassCompiles(body: string, negated: bool)
    requires body != [] && ']' !in body
    requires !negated ==> body[0] != '!'
    ensures Compile((if negated then "[!" else "[") + body + "]") == [CharClass(negated, ClassItems(body))]
  {
    var open := if negated then "[!" else "[";
    var pat := open + body + "]";
    assert pat[1] == (if negated then '!' else body[0]);
    assert pat[|open|] == body[0];
    assert ClassBodyStart(pat) == |open|;
    forall m | |open| <= m < |open| + |body| ensures pat[m] != ']' {
      assert pat[m] == body[m - |open|];
    }
    ClassEndAtFirstBracket(pat, |open|, |open| + |body|);
    assert pat[|open|..|open| + |body|] == body;
    assert pat[|open| + |body| + 1..] == [];
  }

  /** The class opened before `j` closes at the first `]` from `j` on. */
  lemma {:induction false} ClassEndAtFirstBracket(pat: string, j: nat, k: nat)
    requires j <= k < |pat| && pat[k] == ']'
    requires forall m :: j <= m < k ==> pat[m] != ']'
    ensures ClassEnd(pat, j) == k
    decreases k - j
  {
    if j < k {
      ClassEndAtFirstBracket(pat, j + 1, k);
    }
  }

  /** `[body]`, for a body without `]` or `-` that does not open with `!`, matches exactly the
      one-character names whose character occurs in the body. */
  lemma ClassMatchesItsMembers(name: string, body: string)
    requires body != [] && ']' !in body && '-' !in body && body[0] != '!'
    ensures FnMatch(name, "[" + body + "]") <==> |name| == 1 && name[0] in body
  {
    ClosedClassCompiles(body, false);
    var toks := [CharClass(false, ClassItems(body))];
    assert toks[1..] == [];
    if name != [] {
      PlainClassMembers(body, name[0]);
      assert MatchTokens(toks, name) <==> TokenAccepts(toks[0], name[0]) && name[1..] == [];
    }
  }

  /** `[!body]`, for a body without `]` or `-`, matches exactly the one-character names whose
      character does not occur in the body. */
  lemma NegatedClassMatchesOthers(name: string, body: string)
    requires body != [] && ']' !in body && '-' !in body
    ensures FnMatch(name, "[!" + body + "]") <==> |name| == 1 && name[0] !in body
  {
    ClosedClassCompiles(body, true);
    var toks := [CharClass(true, ClassItems(body))];
    assert toks[1..] == [];
    if name != [] {
      PlainClassMembers(body, name[0]);
      assert MatchTokens(toks, name) <==> TokenAccepts(toks[0], name[0]) && name[1..] == [];
    }
  }

  /** A `[` that no `]` closes compiles to the literal `[`, followed by the rest of the pattern. */
  lemma CompileUnclosed(pat: string)
    requires pat != [] && pat[0] == '[' && ClassEnd(pat, ClassBodyStart(pat)) == |pat|
    ensures Compile(pat) == [Literal('[')] + Compile(pat[1..])
  {
  }

  /** A `[` that no `]` closes is an ordinary character. A `]` right after `[` or `[!` is a
      member of the class, so it does not close it: `[]x` and `[!]x` are unclosed too. */
  lemma UnclosedBracketIsLiteral(name: string, rest: string)
    requires ClassEnd("[" + rest, ClassBodyStart("[" + rest)) == |rest| + 1
    ensures Compile("[" + rest) == [Literal('[')] + Compile(rest)
    ensures FnMatch(name, "[" + rest) <==> name != [] && name[0] == '[' && FnMatch(name[1..], rest)
  {
    var pat := "[" + rest;
    assert pat[1..] == rest;
    CompileUnclosed(pat);
    var toks := [Literal('[')] + Compile(rest);
    assert toks[1..] == Compile(rest);
  }

  /** A `[` with no `]` anywhere after it is never closed. */
  lemma NoBracketAfterIsUnclosed(rest: string)
    requires ']' !in rest
    ensures ClassEnd("[" + rest, ClassBodyStart("[" + rest)) == |rest| + 1
  {
    var pat := "[" + rest;
    forall m | 1 <= m < |pat| ensures pat[m] != ']' {
      assert pat[m] == rest[m - 1];
    }
    ClassEndPastLastBracket(pat, ClassBodyStart(pat));
  }

  /** With no `]` from `j` on, the class opened before `j` runs to the end of the pattern. */
  lemma ClassEndPastLastBracket(pat: string, j: nat)
    requires j <= |pat| && forall m :: j <= m < |pat| ==> pat[m] != ']'
    ensures ClassEnd(pat, j) == |pat|
  {
  }

  /** `[]x` and `[!]x` are unclosed: their only `]` is a class member, and nothing closes it. */
  lemma LeadingBracketMemberLeavesClassOpen(x: char)
    requires x != ']'
    ensures ClassEnd("[" + "]" + [x], ClassBodyStart("[" + "]" + [x])) == 3
    ensures ClassEnd("[" + "!]" + [x], ClassBodyStart("[" + "!]" + [x])) == 4
  {
    assert ClassBodyStart("[" + "]" + [x]) == 2;
    assert ClassBodyStart("[" + "!]" + [x]) == 3;
  }
}
