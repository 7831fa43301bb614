/**
 * The exclusion check of the cleanup run: an artifact is kept (not
 * deleted) when its full repository path matches one of the exclusion
 * patterns. The check stops at the first matching pattern and records only
 * that one in the caller's set of matched patterns.
 */
module Exclusion {
  import opened Values
  import opened Glob
  import opened Text

  /**
   * The position of the first pattern, in list order, that matches `path`;
   * None when no pattern does.
   */
  function FirstMatchIndex(path: string, patterns: seq<string>): (r: Option<nat>)
    ensures r.Some? ==> r.value < |patterns| && FnMatch(path, patterns[r.value])
    ensures r.Some? ==> forall j :: 0 <= j < r.value ==> !FnMatch(path, patterns[j])
    ensures r.None? <==> forall j :: 0 <= j < |patterns| ==> !FnMatch(path, patterns[j])
    decreases |patterns|
  {
    if patterns == [] then None
    else if FnMatch(path, patterns[0]) then Some(0)
    else
      match FirstMatchIndex(path, patterns[1..])
      case None => None
      case Some(i) => Some(i + 1)
  }

  /** A matching pattern with no match before it is the first match. */
  lemma FirstMatchAt(path: string, patterns: seq<string>, i: nat)
    requires i < |patterns| && FnMatch(path, patterns[i])
    requires forall j :: 0 <= j < i ==> !FnMatch(path, patterns[j])
    ensures FirstMatchIndex(path, patterns) == Some(i)
  {
    var r := FirstMatchIndex(path, patterns);
    assert r.Some?;
    assert !(r.value < i) && !(i < r.value);
  }

  /** The mutable set of matched patterns that the caller hands to the check. */
  class PatternSet {
    var patterns: set<string>

    constructor ()
      ensures patterns == {}
    {
      patterns := {};
    }

    method Add(p: string)
      modifies this
      ensures patterns == old(patterns) + {p}
    {
      patterns := patterns + {p};
    }
  }

  /**
   * `is_excluded`: true exactly when some pattern matches the whole path;
   * in that case the first matching pattern, and only it, is added to
   * `matched`; otherwise `matched` is left as it was.
   */
  method IsExcluded(fullPath: string, exclusionPatterns: seq<string>, matched: PatternSet)
    returns (excluded: bool)
    modifies matched
    ensures excluded <==> exists i :: 0 <= i < |exclusionPatterns| && FnMatch(fullPath, exclusionPatterns[i])
    ensures excluded ==> FirstMatchIndex(fullPath, exclusionPatterns).Some?
                         && matched.patterns == old(matched.patterns)
                              + {exclusionPatterns[FirstMatchIndex(fullPath, exclusionPatterns).value]}
    ensures !excluded ==> matched.patterns == old(matched.patterns)
  {
    for i := 0 to |exclusionPatterns|
      invariant forall j :: 0 <= j < i ==> !FnMatch(fullPath, exclusionPatterns[j])
      invariant matched.patterns == old(matched.patterns)
    {
      if FnMatch(fullPath, exclusionPatterns[i]) {
        FirstMatchAt(fullPath, exclusionPatterns, i);
        matched.Add(exclusionPatterns[i]);
        return true;
      }
    }
    return false;
  }

  /**
   * `sep.join(s)` for a set: the elements are visited in some order the
   * caller cannot predict, each exactly once.
   */
  method JoinSet(sep: string, s: set<string>) returns (r: string, ghost order: seq<string>)
    ensures |order| == |s| && forall x :: x in order <==> x in s
    ensures r == Join(sep, order)
    ensures |s| == 1 ==> {r} == s
    ensures s == {} ==> r == []
  {
    var rest := s;
    var first := true;
    r, order := [], [];
    while rest != {}
      invariant rest <= s
      invariant forall x :: x in order <==> x in s && x !in rest
      invariant |order| + |rest| == |s|
      invariant r == Join(sep, order)
      invariant first <==> order == []
      decreases |rest|
    {
      var p :| p in rest;
      if first {
        r := p;
        first := false;
      } else {
        JoinSnoc(sep, order, p);
        r := r + sep + p;
      }
      order := order + [p];
      rest := rest - {p};
    }
  }

  /** The tokens of the pattern matching a `tmp` directory anywhere. */
  lemma TmpPatternTokens()
    ensures Compile("*/tmp/*") == [AnyString, Literal('/'), Literal('t'), Literal('m'), Literal('p'), Literal('/'), AnyString]
  {
    CompileStep("*/tmp/*");
    CompileStep("/tmp/*");
    CompileStep("tmp/*");
    CompileStep("mp/*");
    CompileStep("p/*");
    CompileStep("/*");
    CompileStep("*");
  }

  /** `a/tmp/x.bak` cut into one piece per token of the `tmp` pattern. */
  lemma TmpExampleSplit()
    ensures IsSplit([AnyString, Literal('/'), Literal('t'), Literal('m'), Literal('p'), Literal('/'), AnyString],
                    "a/tmp/x.bak", ["a", "/", "t", "m", "p", "/", "x.bak"])
  {
    TmpExampleConcat();
  }

  lemma TmpExampleTail()
    ensures Concat(["p", "/", "x.bak"]) == "p/x.bak"
  {
    assert Concat(["x.bak"]) == "x.bak";
    assert Concat(["/", "x.bak"]) == "/x.bak";
  }

  lemma TmpExampleMiddle()
    ensures Concat(["t", "m", "p", "/", "x.bak"]) == "tmp/x.bak"
  {
    TmpExampleTail();
    assert Concat(["m", "p", "/", "x.bak"]) == "mp/x.bak";
  }

  lemma TmpExampleConcat()
    ensures Concat(["a", "/", "t", "m", "p", "/", "x.bak"]) == "a/tmp/x.bak"
  {
    TmpExampleMiddle();
    assert Concat(["/", "t", "m", "p", "/", "x.bak"]) == "/tmp/x.bak";
    assert Concat(["a", "/", "t", "m", "p", "/", "x.bak"]) == "a/tmp/x.bak";
  }

  lemma TmpPatternMatchesExample()
    ensures FnMatch("a/tmp/x.bak", "*/tmp/*")
  {
    var toks := [AnyString, Literal('/'), Literal('t'), Literal('m'), Literal('p'), Literal('/'), AnyString];
    TmpPatternTokens();
    TmpExampleSplit();
    MatchComplete(toks, "a/tmp/x.bak", ["a", "/", "t", "m", "p", "/", "x.bak"]);
  }

  /** The tokens of `*.bak`. */
  lemma BakPatternTokens()
    ensures Compile("*.bak") == [AnyString, Literal('.'), Literal('b'), Literal('a'), Literal('k')]
  {
    CompileStep("*.bak");
    CompileStep(".bak");
    CompileStep("bak");
    CompileStep("ak");
    CompileStep("k");
  }

  /** `a/tmp/x.bak` cut into one piece per token of `*.bak`. */
  lemma BakExampleSplit()
    ensures IsSplit([AnyString, Literal('.'), Literal('b'), Literal('a'), Literal('k')],
                    "a/tmp/x.bak", ["a/tmp/x", ".", "b", "a", "k"])
  {
    BakExampleConcat();
  }

  lemma BakExampleConcat()
    ensures Concat(["a/tmp/x", ".", "b", "a", "k"]) == "a/tmp/x.bak"
  {
    assert Concat(["k"]) == "k";
    assert Concat(["a", "k"]) == "ak";
    assert Concat(["b", "a", "k"]) == "bak";
    assert Concat([".", "b", "a", "k"]) == ".bak";
    assert Concat(["a/tmp/x", ".", "b", "a", "k"]) == "a/tmp/x.bak";
  }

  lemma BakPatternMatchesExample()
    ensures FnMatch("a/tmp/x.bak", "*.bak")
  {
    var toks := [AnyString, Literal('.'), Literal('b'), Literal('a'), Literal('k')];
    BakPatternTokens();
    BakExampleSplit();
    MatchComplete(toks, "a/tmp/x.bak", ["a/tmp/x", ".", "b", "a", "k"]);
  }

  /**
   * A path that two patterns match: only the first is reported, although
   * both would exclude it.
   */
  lemma OnlyFirstMatchRecorded()
    ensures FnMatch("a/tmp/x.bak", "*/tmp/*") && FnMatch("a/tmp/x.bak", "*.bak")
    ensures FirstMatchIndex("a/tmp/x.bak", ["*/tmp/*", "*.bak"]) == Some(0)
  {
    TmpPatternMatchesExample();
    BakPatternMatchesExample();
  }
}
