/**
 * Shell-style wildcard matching as Python's `fnmatch.fnmatch` performs it on
 * a POSIX system (where `os.path.normcase` leaves names alone): `*` matches
 * any string, `?` any one character, `[seq]` one character in `seq`,
 * `[!seq]` one character not in `seq`. The whole name has to match, and
 * neither `/` nor a leading `.` is special.
 *
 * The pattern is first compiled to tokens, the way `fnmatch.translate`
 * turns it into a regular expression; the tokens are then matched against
 * the name. `IsSplit` gives an independent reading of what the tokens
 * mean, and `FnMatchMeaning` proves the two agree.
 */
module Glob {
  import opened Values

  /** One entry of a bracket expression: a character, or an inclusive range. */
  datatype SetItem = Single(c: char) | Span(lo: char, hi: char)

  datatype Token =
    | AnyString                                  // `*`
    | AnyChar                                    // `?`
    | Literal(c: char)                           // any other character, or a `[` that opens no set
    | CharSet(negated: bool, items: seq<SetItem>) // `[...]` or `[!...]`

  predicate ItemHas(item: SetItem, c: char)
  {
    match item
    case Single(x) => c == x
    case Span(lo, hi) => lo <= c <= hi
  }

  predicate InItems(c: char, items: seq<SetItem>)
  {
    exists i :: 0 <= i < |items| && ItemHas(items[i], c)
  }

  /** Whether a one-character token accepts the character `c`. */
  predicate CharMatches(t: Token, c: char)
    requires !t.AnyString?
  {
    match t
    case AnyChar => true
    case Literal(x) => c == x
    case CharSet(negated, items) => InItems(c, items) != negated
  }

  /**
   * The entries of a bracket expression's body, read left to right: `x-y`
   * is a range whenever a character follows the hyphen, any other
   * character stands for itself. A range whose ends are out of order holds
   * no character, which is how `fnmatch` drops such ranges.
   */
  function SetItems(body: string): (items: seq<SetItem>)
    ensures |items| <= |body|
    ensures (forall k :: 0 <= k < |body| ==> body[k] != '-') ==>
              |items| == |body| && forall k :: 0 <= k < |body| ==> items[k] == Single(body[k])
    decreases |body|
  {
    if body == [] then []
    else if |body| >= 3 && body[1] == '-' then [Span(body[0], body[2])] + SetItems(body[3..])
    else [Single(body[0])] + SetItems(body[1..])
  }

  /** The first `]` in `s` at or after index `from`. */
  function FindClose(s: string, from: nat): (r: Option<nat>)
    ensures r.Some? ==> from <= r.value < |s| && s[r.value] == ']'
                        && forall m :: from <= m < r.value ==> s[m] != ']'
    ensures r.None? ==> forall m :: from <= m < |s| ==> s[m] != ']'
    decreases |s| - from
  {
    if from >= |s| then None
    else if s[from] == ']' then Some(from)
    else FindClose(s, from + 1)
  }

  /**
   * Where the members of the bracket expression whose `[` immediately
   * precedes `rest` start to be searched for the closing `]`: past a
   * leading `!`, and then past a `]` right after it, which are members.
   */
  function SetBodyStart(rest: string): (j: nat)
    ensures j <= |rest| && j <= 2
    ensures forall m :: 0 <= m < j ==> rest[m] == (if m == 0 && rest[0] == '!' then '!' else ']')
    ensures |rest| > 0 && rest[0] == '!' ==> j >= 1
    ensures |rest| > 0 && rest[0] == ']' ==> j == 1
    ensures |rest| > 1 && rest[0] == '!' && rest[1] == ']' ==> j == 2
  {
    var j0 := if |rest| > 0 && rest[0] == '!' then 1 else 0;
    if j0 < |rest| && rest[j0] == ']' then j0 + 1 else j0
  }

  /**
   * Where the bracket expression whose `[` immediately precedes `rest`
   * closes: a `!` right after the `[`, and then a `]` right after that,
   * belong to the expression; it ends at the first `]` after them. None
   * when no `]` closes it, in which case the `[` is an ordinary character.
   */
  function SetClose(rest: string): (r: Option<nat>)
    ensures r.Some? ==> r.value < |rest| && rest[r.value] == ']'
    ensures r.Some? && rest[0] == '!' ==> r.value >= 2
    ensures r.Some? ==> r.value >= 1
    ensures r.Some? ==> SetBodyStart(rest) <= r.value
                        && forall m :: SetBodyStart(rest) <= m < r.value ==> rest[m] != ']'
    ensures r.None? <==> forall m :: SetBodyStart(rest) <= m < |rest| ==> rest[m] != ']'
  {
    FindClose(rest, SetBodyStart(rest))
  }

  /** The token for the body of a bracket expression (the text between `[` and `]`). */
  function MakeSet(body: string): Token
  {
    if |body| > 0 && body[0] == '!' then CharSet(true, SetItems(body[1..]))
    else CharSet(false, SetItems(body))
  }

  /**
   * The tokens of a pattern, in the order `fnmatch.translate` reads them.
   * Every token uses up at least one character of the pattern.
   */
  function Compile(pat: string): (toks: seq<Token>)
    ensures |toks| <= |pat| && (toks == [] <==> pat == [])
    decreases |pat|
  {
    if pat == [] then []
    else if pat[0] == '*' then [AnyString] + Compile(pat[1..])
    else if pat[0] == '?' then [AnyChar] + Compile(pat[1..])
    else if pat[0] == '[' then
      var rest := pat[1..];
      match SetClose(rest)
      case None => [Literal('[')] + Compile(rest)
      case Some(j) => [MakeSet(rest[..j])] + Compile(rest[j + 1..])
    else [Literal(pat[0])] + Compile(pat[1..])
  }

  /**
   * Whether the whole of `name` is matched by the tokens (`MatchSound` and
   * `MatchComplete` give the meaning).
   */
  function MatchTokens(toks: seq<Token>, name: string): bool
    decreases |toks| + |name|
  {
    if toks == [] then name == []
    else if toks[0].AnyString? then
      MatchTokens(toks[1..], name) || (name != [] && MatchTokens(toks, name[1..]))
    else
      name != [] && CharMatches(toks[0], name[0]) && MatchTokens(toks[1..], name[1..])
  }

  /**
   * `fnmatch.fnmatch(name, pat)` on POSIX (`FnMatchMeaning` gives its
   * meaning). A pattern without `*` only matches names no longer than itself.
   */
  predicate FnMatch(name: string, pat: string)
    ensures FnMatch(name, pat) && StarFree(pat) ==> |name| <= |pat|
  {
    StarFreeCompiles(pat);
    FixedMatchLength(Compile(pat), name);
    MatchTokens(Compile(pat), name)
  }

  /** A pattern without `*`. */
  predicate StarFree(pat: string)
  {
    forall k :: 0 <= k < |pat| ==> pat[k] != '*'
  }

  /** Tokens none of which stands for any string. */
  predicate Fixed(toks: seq<Token>)
  {
    forall k :: 0 <= k < |toks| ==> !toks[k].AnyString?
  }

  /** Only a `*` compiles to a token standing for any string. */
  lemma {:induction false} StarFreeCompiles(pat: string)
    ensures StarFree(pat) ==> Fixed(Compile(pat))
    decreases |pat|
  {
    if pat != [] && StarFree(pat) {
      var rest := pat[1..];
      StarFreeSuffix(pat, 1);
      if pat[0] != '[' {
        assert pat[0] != '*';
        CompileStep(pat);
        StarFreeCompiles(rest);
        FixedCons(if pat[0] == '?' then AnyChar else Literal(pat[0]), Compile(rest));
      } else if SetClose(rest).None? {
        CompileUnclosed(pat);
        StarFreeCompiles(rest);
        FixedCons(Literal('['), Compile(rest));
      } else {
        var j := SetClose(rest).value;
        CompileSet(pat, rest, j);
        StarFreeSuffix(rest, j + 1);
        StarFreeCompiles(rest[j + 1..]);
        FixedCons(MakeSet(rest[..j]), Compile(rest[j + 1..]));
      }
    }
  }

  lemma StarFreeSuffix(pat: string, n: nat)
    requires StarFree(pat) && n <= |pat|
    ensures StarFree(pat[n..])
  {
    forall k | 0 <= k < |pat| - n ensures pat[n..][k] != '*' {
      assert pat[n..][k] == pat[n + k];
    }
  }

  lemma FixedCons(t: Token, toks: seq<Token>)
    requires !t.AnyString? && Fixed(toks)
    ensures Fixed([t] + toks)
  {
    forall k | 0 <= k < |toks| + 1 ensures !([t] + toks)[k].AnyString? {
      if k > 0 { assert ([t] + toks)[k] == toks[k - 1]; }
    }
  }

  /** Tokens without `*` match only names with one character per token. */
  lemma {:induction false} FixedMatchLength(toks: seq<Token>, name: string)
    ensures MatchTokens(toks, name) && Fixed(toks) ==> |name| == |toks|
    decreases |toks|
  {
    if toks != [] && MatchTokens(toks, name) && Fixed(toks) {
      assert Fixed(toks[1..]) by {
        forall k | 0 <= k < |toks| - 1 ensures !toks[1..][k].AnyString? {
          assert toks[1..][k] == toks[k + 1];
        }
      }
      FixedMatchLength(toks[1..], name[1..]);
    }
  }

  // ---------------------------------------------------------------------
  // An independent reading: the name splits into one piece per token.

  function Concat(parts: seq<string>): string
    decreases |parts|
  {
    if parts == [] then [] else parts[0] + Concat(parts[1..])
  }

  /** A piece of the name that a single token can stand for. */
  predicate PieceFits(t: Token, piece: string)
  {
    if t.AnyString? then true else |piece| == 1 && CharMatches(t, piece[0])
  }

  /** `parts` cuts `name` into one piece per token, each fitting its token. */
  predicate IsSplit(toks: seq<Token>, name: string, parts: seq<string>)
  {
    |parts| == |toks| && Concat(parts) == name
    && forall i :: 0 <= i < |toks| ==> PieceFits(toks[i], parts[i])
  }

  /** Every successful match comes with such a split. */
  lemma {:induction false} MatchSound(toks: seq<Token>, name: string) returns (parts: seq<string>)
    requires MatchTokens(toks, name)
    ensures IsSplit(toks, name, parts)
    decreases |toks| + |name|
  {
    if toks == [] {
      parts := [];
    } else if toks[0].AnyString? {
      if MatchTokens(toks[1..], name) {
        var rest := MatchSound(toks[1..], name);
        parts := [[]] + rest;
        assert parts[1..] == rest;
      } else {
        var p := MatchSound(toks, name[1..]);
        parts := [[name[0]] + p[0]] + p[1..];
        assert parts[1..] == p[1..];
        assert Concat(p) == p[0] + Concat(p[1..]);
        assert name == [name[0]] + name[1..];
      }
    } else {
      var rest := MatchSound(toks[1..], name[1..]);
      parts := [[name[0]]] + rest;
      assert parts[1..] == rest;
      assert name == [name[0]] + name[1..];
    }
  }

  /** Every split makes the match succeed. */
  lemma {:induction false} MatchComplete(toks: seq<Token>, name: string, parts: seq<string>)
    requires IsSplit(toks, name, parts)
    ensures MatchTokens(toks, name)
    decreases |toks| + |name|
  {
    if toks != [] {
      assert name == parts[0] + Concat(parts[1..]);
      assert forall i :: 0 <= i < |toks[1..]| ==> toks[1..][i] == toks[i + 1] && parts[1..][i] == parts[i + 1];
      if toks[0].AnyString? {
        if parts[0] == [] {
          MatchComplete(toks[1..], name, parts[1..]);
        } else {
          var p := [parts[0][1..]] + parts[1..];
          assert p[1..] == parts[1..];
          assert name[1..] == p[0] + Concat(p[1..]);
          assert IsSplit(toks, name[1..], p) by {
            forall i | 0 <= i < |toks| ensures PieceFits(toks[i], p[i]) {
              if i > 0 { assert p[i] == parts[i] && PieceFits(toks[i], parts[i]); }
            }
          }
          MatchComplete(toks, name[1..], p);
        }
      } else {
        assert PieceFits(toks[0], parts[0]);
        assert name[1..] == Concat(parts[1..]);
        MatchComplete(toks[1..], name[1..], parts[1..]);
      }
    }
  }

  /** `fnmatch` accepts a name exactly when the name splits into pieces fitting the pattern's tokens. */
  lemma FnMatchMeaning(name: string, pat: string)
    ensures FnMatch(name, pat) <==> exists parts :: IsSplit(Compile(pat), name, parts)
  {
    var toks := Compile(pat);
    if MatchTokens(toks, name) {
      var parts := MatchSound(toks, name);
      assert exists p :: IsSplit(Compile(pat), name, p);
    } else {
      forall parts | IsSplit(toks, name, parts) ensures false {
        MatchComplete(toks, name, parts);
      }
    }
  }

  // ---------------------------------------------------------------------
  // Consequences.

  /** Compiling peels off one token for a `*`, a `?` or an ordinary character. */
  lemma CompileStep(pat: string)
    requires pat != [] && pat[0] != '['
    ensures Compile(pat) == [if pat[0] == '*' then AnyString
                             else if pat[0] == '?' then AnyChar
                             else Literal(pat[0])] + Compile(pat[1..])
  {
  }

  lemma CompileUnclosed(pat: string)
    requires pat != [] && pat[0] == '[' && SetClose(pat[1..]).None?
    ensures Compile(pat) == [Literal('[')] + Compile(pat[1..])
  {
  }

  lemma CompileSet(pat: string, rest: string, j: nat)
    requires pat != [] && pat[0] == '[' && rest == pat[1..] && SetClose(rest) == Some(j)
    ensures Compile(pat) == [MakeSet(rest[..j])] + Compile(rest[j + 1..])
  {
  }

  /** `*` alone matches every name, slashes and leading dots included. */
  lemma {:induction false} StarMatchesEverything(name: string)
    ensures FnMatch(name, "*")
    decreases |name|
  {
    assert Compile("*") == [AnyString];
    if name != [] {
      StarMatchesEverything(name[1..]);
    }
  }

  /** A pattern without `*`, `?` or `[` matches only the name equal to it (case-sensitively). */
  lemma {:induction false} PlainPatternMatchesItself(name: string, pat: string)
    requires forall k :: 0 <= k < |pat| ==> pat[k] != '*' && pat[k] != '?' && pat[k] != '['
    ensures FnMatch(name, pat) <==> name == pat
    decreases |pat|
  {
    if pat != [] {
      assert Compile(pat) == [Literal(pat[0])] + Compile(pat[1..]);
      assert ([Literal(pat[0])] + Compile(pat[1..]))[1..] == Compile(pat[1..]);
      if name != [] {
        PlainPatternMatchesItself(name[1..], pat[1..]);
        assert name == [name[0]] + name[1..];
        assert pat == [pat[0]] + pat[1..];
      }
    }
  }
}
