/**
 * The Python string operations the cleanup script relies on: `sep.join`,
 * `c * n`, left-aligned padding (`f"{s:<{w}}"`) and `str.strip()`.
 */
module Text {

  /**
   * `sep.join(parts)`: nothing for no parts, the part itself for one, and
   * never shorter than the parts together (`JoinLength` gives the exact
   * length, `JoinPartAt` and `JoinSepAt` where each piece sits).
   */
  function Join(sep: string, parts: seq<string>): (r: string)
    ensures parts == [] ==> r == []
    ensures |parts| == 1 ==> r == parts[0]
    ensures |r| >= TotalLength(parts)
    decreases |parts|
  {
    if |parts| == 0 then []
    else if |parts| == 1 then parts[0]
    else Join(sep, parts[..|parts| - 1]) + sep + parts[|parts| - 1]
  }

  /** Sum of a sequence of naturals (Python's `sum`). */
  function Sum(xs: seq<nat>): nat
    decreases |xs|
  {
    if xs == [] then 0 else Sum(xs[..|xs| - 1]) + xs[|xs| - 1]
  }

  /** Total length of a sequence of strings. */
  function TotalLength(parts: seq<string>): nat
    decreases |parts|
  {
    if parts == [] then 0 else TotalLength(parts[..|parts| - 1]) + |parts[|parts| - 1]|
  }

  /** A joined string is as long as its parts plus one separator between each pair. */
  lemma {:induction false} JoinLength(sep: string, parts: seq<string>)
    requires |parts| > 0
    ensures |Join(sep, parts)| == TotalLength(parts) + |sep| * (|parts| - 1)
    decreases |parts|
  {
    var n := |parts|;
    var init := parts[..n - 1];
    assert TotalLength(parts) == TotalLength(init) + |parts[n - 1]|;
    if n == 1 {
      assert init == [];
    } else {
      JoinLength(sep, init);
      assert |Join(sep, parts)| == |Join(sep, init)| + |sep| + |parts[n - 1]|;
      assert |sep| * (n - 1) == |sep| * (n - 2) + |sep|;
    }
  }

  /** Joining one more part appends the separator and that part. */
  lemma JoinSnoc(sep: string, parts: seq<string>, last: string)
    requires |parts| > 0
    ensures Join(sep, parts + [last]) == Join(sep, parts) + sep + last
  {
    assert (parts + [last])[..|parts|] == parts;
  }

  /** Where the `j`-th part begins in `sep.join(parts)`. */
  function PartOffset(sep: string, parts: seq<string>, j: nat): nat
    requires j <= |parts|
  {
    TotalLength(parts[..j]) + |sep| * j
  }

  /** In a joined string, the `j`-th part sits at `PartOffset(sep, parts, j)`. */
  lemma {:induction false} JoinPartAt(sep: string, parts: seq<string>, j: nat)
    requires j < |parts|
    ensures PartOffset(sep, parts, j) + |parts[j]| <= |Join(sep, parts)|
    ensures Join(sep, parts)[PartOffset(sep, parts, j)..PartOffset(sep, parts, j) + |parts[j]|] == parts[j]
    decreases |parts|
  {
    var n := |parts|;
    if n > 1 {
      var init := parts[..n - 1];
      var whole, front := Join(sep, parts), Join(sep, init);
      var off := PartOffset(sep, parts, j);
      assert whole == front + sep + parts[n - 1];
      if j < n - 1 {
        InitPartOffset(sep, parts, j);
        JoinPartAt(sep, init, j);
        SliceOfFront(whole, front, sep, parts[n - 1], off, off + |parts[j]|);
      } else {
        LastPartOffset(sep, parts);
        SliceOfBack(whole, front, sep, parts[n - 1], off);
      }
    }
  }

  /** In a joined string, the separator sits just before every part but the first. */
  lemma {:induction false} JoinSepAt(sep: string, parts: seq<string>, j: nat)
    requires 0 < j < |parts|
    ensures |sep| <= PartOffset(sep, parts, j) <= |Join(sep, parts)|
    ensures Join(sep, parts)[PartOffset(sep, parts, j) - |sep|..PartOffset(sep, parts, j)] == sep
    decreases |parts|
  {
    var n := |parts|;
    var init := parts[..n - 1];
    var whole, front := Join(sep, parts), Join(sep, init);
    var off := PartOffset(sep, parts, j);
    assert whole == front + sep + parts[n - 1];
    if j < n - 1 {
      InitPartOffset(sep, parts, j);
      JoinSepAt(sep, init, j);
      SliceOfFront(whole, front, sep, parts[n - 1], off - |sep|, off);
    } else {
      LastPartOffset(sep, parts);
      SliceOfMiddle(whole, front, sep, parts[n - 1], off - |sep|, off);
    }
  }

  /** Dropping the last part moves no earlier part. */
  lemma InitPartOffset(sep: string, parts: seq<string>, j: nat)
    requires j < |parts| - 1
    ensures PartOffset(sep, parts[..|parts| - 1], j) == PartOffset(sep, parts, j)
  {
    assert parts[..|parts| - 1][..j] == parts[..j];
  }

  /** The last part starts one separator after everything before it, joined. */
  lemma LastPartOffset(sep: string, parts: seq<string>)
    requires |parts| > 1
    ensures PartOffset(sep, parts, |parts| - 1) == |Join(sep, parts[..|parts| - 1])| + |sep|
  {
    var j := |parts| - 1;
    JoinLength(sep, parts[..j]);
    assert |sep| * j == |sep| * (j - 1) + |sep|;
  }

  /** A slice within the first of three concatenated pieces. */
  lemma SliceOfFront(whole: string, front: string, mid: string, back: string, a: nat, b: nat)
    requires whole == front + mid + back && a <= b <= |front|
    ensures whole[a..b] == front[a..b]
  {
  }

  /** The middle of three concatenated pieces, as a slice. */
  lemma SliceOfMiddle(whole: string, front: string, mid: string, back: string, a: nat, b: nat)
    requires whole == front + mid + back && a == |front| && b == |front| + |mid|
    ensures whole[a..b] == mid
  {
  }

  /** The last of three concatenated pieces, as a slice. */
  lemma SliceOfBack(whole: string, front: string, mid: string, back: string, a: nat)
    requires whole == front + mid + back && a == |front| + |mid|
    ensures a + |back| == |whole| && whole[a..a + |back|] == back
  {
  }

  /** `c * n` for a one-character string `c`. */
  function Repeat(c: char, n: nat): (r: string)
    ensures |r| == n
    ensures forall k :: 0 <= k < n ==> r[k] == c
  {
    seq(n, _ => c)
  }

  /**
   * `f"{s:<{w}}"`: `s` followed by enough spaces to make it `w` long; a
   * string already at least `w` long is left as it is.
   */
  function PadRight(s: string, w: nat): (r: string)
    ensures |r| == if |s| < w then w else |s|
    ensures r[..|s|] == s
    ensures forall k :: |s| <= k < |r| ==> r[k] == ' '
  {
    if |s| < w then s + Repeat(' ', w - |s|) else s
  }

  /** The characters for which Python's `str.isspace()` is true. */
  predicate IsSpace(c: char)
  {
    var n := c as int;
    (9 <= n <= 13) || (28 <= n <= 32) || n == 0x85 || n == 0xA0 || n == 0x1680
    || (0x2000 <= n <= 0x200A) || n == 0x2028 || n == 0x2029 || n == 0x202F
    || n == 0x205F || n == 0x3000
  }

  /** `s.lstrip()`: the suffix left after every leading whitespace character is removed. */
  function TrimStart(s: string): (r: string)
    ensures |r| <= |s| && r == s[|s| - |r|..]
    ensures forall k :: 0 <= k < |s| - |r| ==> IsSpace(s[k])
    ensures r != [] ==> !IsSpace(r[0])
    decreases |s|
  {
    if s != [] && IsSpace(s[0]) then TrimStart(s[1..]) else s
  }

  /** `s.rstrip()`: the prefix left after every trailing whitespace character is removed. */
  function TrimEnd(s: string): (r: string)
    ensures |r| <= |s| && r == s[..|r|]
    ensures forall k :: |r| <= k < |s| ==> IsSpace(s[k])
    ensures r != [] ==> !IsSpace(r[|r| - 1])
    decreases |s|
  {
    if s != [] && IsSpace(s[|s| - 1]) then TrimEnd(s[..|s| - 1]) else s
  }

  /** Number of leading whitespace characters of `s`. */
  function LeadingSpaces(s: string): (n: nat)
    ensures n <= |s|
  {
    |s| - |TrimStart(s)|
  }

  /**
   * `s.strip()`: the piece of `s` starting after its leading whitespace that
   * neither starts nor ends with whitespace, everything cut off on either
   * side being whitespace; empty exactly when `s` is all whitespace.
   */
  function Strip(s: string): (r: string)
    ensures LeadingSpaces(s) + |r| <= |s|
    ensures r == s[LeadingSpaces(s)..LeadingSpaces(s) + |r|]
    ensures forall k :: 0 <= k < LeadingSpaces(s) ==> IsSpace(s[k])
    ensures forall k :: LeadingSpaces(s) + |r| <= k < |s| ==> IsSpace(s[k])
    ensures r != [] ==> !IsSpace(r[0]) && !IsSpace(r[|r| - 1])
    ensures r == [] <==> forall k :: 0 <= k < |s| ==> IsSpace(s[k])
  {
    var t := TrimStart(s);
    var r := TrimEnd(t);
    SliceOfSuffix(s, t, r);
    r
  }

  /** A prefix of a suffix of `s` is a slice of `s`, and what follows it in the suffix follows it in `s`. */
  lemma SliceOfSuffix(s: string, t: string, r: string)
    requires |t| <= |s| && t == s[|s| - |t|..]
    requires |r| <= |t| && r == t[..|r|]
    ensures r == s[|s| - |t|..|s| - |t| + |r|]
    ensures forall k :: |s| - |t| + |r| <= k < |s| ==> s[k] == t[k - (|s| - |t|)]
  {
  }

  /** Stripping twice is stripping once. */
  lemma StripIdempotent(s: string)
    ensures Strip(Strip(s)) == Strip(s)
  {
    var r := Strip(s);
    if r != [] {
      assert TrimStart(r) == r;
      assert TrimEnd(r) == r;
    }
  }
}
