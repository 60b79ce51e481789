/** The JavaScript string built-ins the application relies on (`trim`,
    `includes`, `indexOf`, `startsWith`, `split`, `join`, `replace` with a
    string pattern or a global literal pattern, `substring(0, n)`), stated
    over sequences of characters. */
module JsString {
  import opened Wrappers

  /** The characters matched by `\s` in a JavaScript regular expression; they
      are also the characters `String.prototype.trim` removes. */
  predicate IsWhitespace(c: char) {
    if c <= ' ' then c == ' ' || '\t' <= c <= '\r'
    else
      && '\U{00A0}' <= c
      && (|| c == '\U{00A0}' || c == '\U{1680}' || '\U{2000}' <= c <= '\U{200A}'
          || c == '\U{2028}' || c == '\U{2029}' || c == '\U{202F}' || c == '\U{205F}'
          || c == '\U{3000}' || c == '\U{FEFF}')
  }

  predicate AllWhitespace(s: string) {
    forall k | 0 <= k < |s| :: IsWhitespace(s[k])
  }

  /** `s.startsWith(p)` */
  predicate StartsWith(s: string, p: string) {
    |p| <= |s| && s[..|p|] == p
  }

  /** A string starts with each of its prefixes. */
  lemma PrefixOfConcat(a: string, b: string)
    ensures StartsWith(a + b, a)
  {
    assert (a + b)[..|a|] == a;
  }

  /** `s.endsWith(p)` */
  predicate EndsWith(s: string, p: string) {
    |p| <= |s| && s[|s| - |p|..] == p
  }

  /** `p` occurs in `s` starting at index `i`. */
  predicate OccursAt(s: string, p: string, i: int) {
    0 <= i && i + |p| <= |s| && s[i..i + |p|] == p
  }

  /** `s.includes(p)` */
  predicate Contains(s: string, p: string) {
    exists i | 0 <= i <= |s| :: OccursAt(s, p, i)
  }

  /** The first index at or after `from` where `p` occurs in `s`. */
  function IndexFrom(s: string, p: string, from: nat): (r: Option<nat>)
    ensures r.Some? ==> from <= r.value && OccursAt(s, p, r.value)
    ensures forall j :: from <= j && (r.None? || j < r.value) ==> !OccursAt(s, p, j)
    decreases |s| - from
  {
    if from + |p| > |s| then None
    else if OccursAt(s, p, from) then Some(from)
    else IndexFrom(s, p, from + 1)
  }

  /** `s.indexOf(p)`, with `None` standing for -1: the first occurrence. */
  function IndexOf(s: string, p: string): (r: Option<nat>)
    ensures r.Some? <==> Contains(s, p)
    ensures r.Some? ==> OccursAt(s, p, r.value)
    ensures r.Some? ==> forall j :: 0 <= j < r.value ==> !OccursAt(s, p, j)
  {
    IndexFrom(s, p, 0)
  }

  /** An occurrence with no earlier one is the one `indexOf` finds. */
  lemma IndexOfIs(s: string, p: string, i: nat)
    requires OccursAt(s, p, i)
    requires forall j :: 0 <= j < i ==> !OccursAt(s, p, j)
    ensures IndexOf(s, p) == Some(i)
  {
  }

  /** An occurrence inside a prefix of `s` is an occurrence in `s`. */
  lemma OccursInPrefix(s: string, p: string, n: nat, j: int)
    requires n <= |s| && OccursAt(s[..n], p, j)
    ensures OccursAt(s, p, j) && j + |p| <= n
  {
    assert s[j..j + |p|] == s[..n][j..j + |p|];
  }

  /** An occurrence inside a suffix of `s` is an occurrence in `s`. */
  lemma OccursInSuffix(s: string, p: string, n: nat, j: int)
    requires n <= |s| && OccursAt(s[n..], p, j)
    ensures OccursAt(s, p, n + j)
  {
    assert s[n + j..n + j + |p|] == s[n..][j..j + |p|];
  }

  /** The text before the first occurrence of `p` does not contain `p`. */
  lemma NoOccurrenceBeforeFirst(s: string, p: string, i: nat)
    requires p != [] && OccursAt(s, p, i)
    requires forall j :: 0 <= j < i ==> !OccursAt(s, p, j)
    ensures !Contains(s[..i], p)
  {
    if Contains(s[..i], p) {
      var j :| OccursAt(s[..i], p, j);
      OccursInPrefix(s, p, i, j);
      assert false;
    }
  }

  /** A string none of whose characters is `c` does not contain `c`. */
  lemma AvoidsChar(s: string, c: char)
    requires forall k | 0 <= k < |s| :: s[k] != c
    ensures !Contains(s, [c])
  {
    forall j | 0 <= j <= |s|
      ensures !OccursAt(s, [c], j)
    {
      if j + 1 <= |s| {
        assert s[j..j + 1] == [s[j]];
      }
    }
  }

  /** Two strings free of a one-character pattern make a concatenation free
      of it. */
  lemma ConcatAvoids(a: string, b: string, c: string)
    requires |c| == 1 && !Contains(a, c) && !Contains(b, c)
    ensures !Contains(a + b, c)
  {
    if Contains(a + b, c) {
      var j :| 0 <= j <= |a + b| && OccursAt(a + b, c, j);
      if j < |a| {
        assert (a + b)[j..j + 1] == a[j..j + 1];
        assert OccursAt(a, c, j);
      } else {
        assert (a + b)[j..j + 1] == b[j - |a|..j - |a| + 1];
        assert OccursAt(b, c, j - |a|);
      }
    }
  }

  /** The index of the first character at or after `i` that is not white
      space, or `|s|` when there is none. */
  function SpaceEnd(s: string, i: nat): (e: nat)
    requires i <= |s|
    ensures i <= e <= |s|
    ensures forall k | i <= k < e :: IsWhitespace(s[k])
    ensures e == |s| || !IsWhitespace(s[e])
    decreases |s| - i
  {
    if i < |s| && IsWhitespace(s[i]) then SpaceEnd(s, i + 1) else i
  }

  /** The index just past the last character before `j` that is not white
      space, or 0 when there is none. */
  function SpaceStart(s: string, j: nat): (b: nat)
    requires j <= |s|
    ensures b <= j
    ensures forall k | b <= k < j :: IsWhitespace(s[k])
    ensures b == 0 || !IsWhitespace(s[b - 1])
  {
    if j > 0 && IsWhitespace(s[j - 1]) then SpaceStart(s, j - 1) else j
  }

  /** Leading white space is determined by where it stops. */
  lemma SpaceEndIs(s: string, e: nat)
    requires e <= |s|
    requires forall k | 0 <= k < e :: IsWhitespace(s[k])
    requires e == |s| || !IsWhitespace(s[e])
    ensures SpaceEnd(s, 0) == e
  {
  }

  /** Trailing white space is determined by where it starts. */
  lemma SpaceStartIs(s: string, b: nat)
    requires b <= |s|
    requires forall k | b <= k < |s| :: IsWhitespace(s[k])
    requires b == 0 || !IsWhitespace(s[b - 1])
    ensures SpaceStart(s, |s|) == b
  {
  }

  /** `s.trimStart()` */
  function TrimStart(s: string): (r: string)
    ensures |r| <= |s| && r == s[|s| - |r|..]
    ensures AllWhitespace(s[..|s| - |r|])
    ensures r == [] || !IsWhitespace(r[0])
  {
    s[SpaceEnd(s, 0)..]
  }

  /** `s.trimEnd()` */
  function TrimEnd(s: string): (r: string)
    ensures |r| <= |s| && r == s[..|r|]
    ensures AllWhitespace(s[|r|..])
    ensures r == [] || !IsWhitespace(r[|r| - 1])
  {
    s[..SpaceStart(s, |s|)]
  }

  /** `s.trim()`: the slice of `s` left once the white space at both ends is
      removed. */
  function Trim(s: string): (r: string)
    ensures |r| <= |s|
    ensures r == [] || (!IsWhitespace(r[0]) && !IsWhitespace(r[|r| - 1]))
    ensures var a := |s| - |TrimStart(s)|;
      && a + |r| <= |s| && r == s[a..a + |r|]
      && AllWhitespace(s[..a]) && AllWhitespace(s[a + |r|..])
  {
    var a := SpaceEnd(s, 0);
    var b := SpaceStart(s, |s|);
    assert AllWhitespace(s[..a]);
    if b <= a then
      assert AllWhitespace(s[a..]);
      []
    else
      assert AllWhitespace(s[b..]);
      s[a..b]
  }

  /** `!s.trim()`: the string is empty or white space only. */
  predicate IsBlank(s: string) {
    Trim(s) == []
  }

  /** A string is blank exactly when all of it is white space. */
  lemma BlankIffAllWhitespace(s: string)
    ensures IsBlank(s) <==> AllWhitespace(s)
  {
    if AllWhitespace(s) {
      SpaceEndIs(s, |s|);
    }
  }

  /** The leading white space of `w + u` is `w` when `u` does not start
      with white space. */
  lemma LeadingPad(w: string, u: string)
    requires AllWhitespace(w)
    requires u == [] || !IsWhitespace(u[0])
    ensures SpaceEnd(w + u, 0) == |w|
  {
    var x := w + u;
    forall k | 0 <= k < |w|
      ensures IsWhitespace(x[k])
    {
      assert x[k] == w[k];
    }
    SpaceEndIs(x, |w|);
  }

  /** The trailing white space of `u + w` is `w` when `u` does not end with
      white space. */
  lemma TrailingPad(u: string, w: string)
    requires AllWhitespace(w)
    requires u == [] || !IsWhitespace(u[|u| - 1])
    ensures SpaceStart(u + w, |u + w|) == |u|
  {
    var x := u + w;
    forall k | |u| <= k < |x|
      ensures IsWhitespace(x[k])
    {
      assert x[k] == w[k - |u|];
    }
    SpaceStartIs(x, |u|);
  }

  /** Trimming a trimmed string padded with white space gives it back. */
  lemma TrimPadded(w1: string, t: string, w2: string)
    requires AllWhitespace(w1) && AllWhitespace(w2)
    requires t == [] || (!IsWhitespace(t[0]) && !IsWhitespace(t[|t| - 1]))
    ensures Trim(w1 + t + w2) == t
  {
    if t == [] {
      assert w1 + t + w2 == w1 + w2;
      TrimBlank(w1, w2);
    } else {
      var x := w1 + t + w2;
      assert x == w1 + (t + w2);
      LeadingPad(w1, t + w2);
      assert (w1 + t)[|w1 + t| - 1] == t[|t| - 1];
      TrailingPad(w1 + t, w2);
      assert x[|w1|..|w1| + |t|] == t;
    }
  }

  /** White space alone trims to nothing. */
  lemma TrimBlank(w1: string, w2: string)
    requires AllWhitespace(w1) && AllWhitespace(w2)
    ensures Trim(w1 + w2) == []
  {
    var x := w1 + w2;
    forall k | |w1| <= k < |x|
      ensures IsWhitespace(x[k])
    {
      assert x[k] == w2[k - |w1|];
    }
    assert x == x + [];
    LeadingPad(w1, []);
  }

  /** White space added after a trimmed string is trimmed away again. */
  lemma TrimTrailing(s: string, w: string)
    requires AllWhitespace(w)
    ensures Trim(Trim(s) + w) == Trim(s)
  {
    TrimPadded([], Trim(s), w);
    assert [] + Trim(s) + w == Trim(s) + w;
  }

  /** White space added before a trimmed string is trimmed away again. */
  lemma TrimLeading(w: string, s: string)
    requires AllWhitespace(w)
    ensures Trim(w + Trim(s)) == Trim(s)
  {
    TrimPadded(w, Trim(s), []);
    assert w + Trim(s) + [] == w + Trim(s);
  }

  /** `trim` is idempotent. */
  lemma TrimIdempotent(s: string)
    ensures Trim(Trim(s)) == Trim(s)
  {
    TrimPadded([], Trim(s), []);
    assert [] + Trim(s) + [] == Trim(s);
  }

  /** `s.split(sep)` for a non-empty literal separator. */
  function Split(s: string, sep: string): (parts: seq<string>)
    requires sep != []
    ensures |parts| >= 1
    ensures !Contains(s, sep) ==> parts == [s]
    ensures Contains(s, sep) ==> |parts| >= 2
    ensures forall k :: 0 <= k < |parts| ==> !Contains(parts[k], sep)
    decreases |s|
  {
    match IndexOf(s, sep)
    case None => [s]
    case Some(i) =>
      NoOccurrenceBeforeFirst(s, sep, i);
      [s[..i]] + Split(s[i + |sep|..], sep)
  }

  /** `parts.join(sep)` */
  function Join(parts: seq<string>, sep: string): string {
    if |parts| == 0 then []
    else if |parts| == 1 then parts[0]
    else parts[0] + sep + Join(parts[1..], sep)
  }

  /** Joining the pieces of a split with the same separator restores the
      string. */
  lemma {:induction false} JoinSplit(s: string, sep: string)
    requires sep != []
    ensures Join(Split(s, sep), sep) == s
    decreases |s|
  {
    var r := IndexOf(s, sep);
    if r.Some? {
      var i := r.value;
      var rest := s[i + |sep|..];
      var tail := Split(rest, sep);
      JoinSplit(rest, sep);
      assert Split(s, sep) == [s[..i]] + tail;
      assert Join([s[..i]] + tail, sep) == s[..i] + sep + Join(tail, sep);
      assert s[i..i + |sep|] == sep;
      assert s == s[..i] + s[i..i + |sep|] + rest;
    }
  }

  /** Splitting on a one-character separator what was joined with it gives
      the pieces back, when no piece contains the separator. */
  lemma {:induction false} SplitJoin(parts: seq<string>, sep: string)
    requires |sep| == 1 && |parts| >= 1
    requires forall k :: 0 <= k < |parts| ==> !Contains(parts[k], sep)
    ensures Split(Join(parts, sep), sep) == parts
    decreases |parts|
  {
    if |parts| == 1 {
      assert IndexOf(parts[0], sep).None?;
    } else {
      var p0, rest := parts[0], Join(parts[1..], sep);
      var s := p0 + sep + rest;
      assert OccursAt(s, sep, |p0|);
      forall j | 0 <= j < |p0|
        ensures !OccursAt(s, sep, j)
      {
        assert !OccursAt(p0, sep, j);
        assert s[j..j + 1] == p0[j..j + 1];
      }
      IndexOfIs(s, sep, |p0|);
      assert s[|p0| + 1..] == rest;
      assert s[..|p0|] == p0;
      SplitJoin(parts[1..], sep);
      assert parts == [p0] + parts[1..];
    }
  }

  /** The first piece of a split is the text before the first separator. */
  lemma SplitHead(s: string, sep: string)
    requires sep != []
    ensures Split(s, sep)[0] == if IndexOf(s, sep).Some? then s[..IndexOf(s, sep).value] else s
  {
  }

  /** The second piece of a split is the first piece of the text after the
      first separator. */
  lemma SplitSecond(s: string, sep: string)
    requires sep != [] && Contains(s, sep)
    ensures var i := IndexOf(s, sep).value;
      && i + |sep| <= |s|
      && |Split(s, sep)| >= 2
      && Split(s, sep)[0] == s[..i]
      && Split(s, sep)[1] == Split(s[i + |sep|..], sep)[0]
  {
  }

  /** `s.replace(p, rep)` with a string pattern: the first occurrence only. */
  function ReplaceFirst(s: string, p: string, rep: string): (r: string)
    requires p != []
    ensures !Contains(s, p) ==> r == s
    ensures Contains(s, p) ==> exists i :: && OccursAt(s, p, i) && !Contains(s[..i], p)
                                           && r == s[..i] + rep + s[i + |p|..]
  {
    match IndexOf(s, p)
    case None => s
    case Some(i) =>
      NoOccurrenceBeforeFirst(s, p, i);
      s[..i] + rep + s[i + |p|..]
  }

  /** `s.replace(/p/g, rep)` for a literal pattern: every occurrence, scanning
      left to right without overlap. */
  function ReplaceAll(s: string, p: string, rep: string): string
    requires p != []
    decreases |s|
  {
    match IndexOf(s, p)
    case None => s
    case Some(i) => s[..i] + rep + ReplaceAll(s[i + |p|..], p, rep)
  }

  /** A global replacement is a split followed by a join with the
      replacement. */
  lemma {:induction false} ReplaceAllIsSplitJoin(s: string, p: string, rep: string)
    requires p != []
    ensures ReplaceAll(s, p, rep) == Join(Split(s, p), rep)
    decreases |s|
  {
    var r := IndexOf(s, p);
    if r.Some? {
      var i := r.value;
      var rest := s[i + |p|..];
      var tail := Split(rest, p);
      ReplaceAllIsSplitJoin(rest, p, rep);
      assert Split(s, p) == [s[..i]] + tail;
      assert Join([s[..i]] + tail, rep) == s[..i] + rep + Join(tail, rep);
    }
  }

  /** Removing every occurrence never makes the string longer. */
  lemma {:induction false} ReplaceAllShrinks(s: string, p: string)
    requires p != []
    ensures |ReplaceAll(s, p, [])| <= |s|
    decreases |s|
  {
    match IndexOf(s, p)
    case None =>
    case Some(i) => ReplaceAllShrinks(s[i + |p|..], p);
  }

  /** `s.substring(0, n)` */
  function Take(s: string, n: nat): (r: string)
    ensures |r| <= n && |r| <= |s|
    ensures r == s[..|r|]
    ensures |s| <= n ==> r == s
    ensures |s| > n ==> |r| == n
  {
    if |s| <= n then s else s[..n]
  }

  /** Number of occurrences of the character `c` in `s`. */
  function CountChar(s: string, c: char): nat {
    if s == [] then 0 else (if s[0] == c then 1 else 0) + CountChar(s[1..], c)
  }

  lemma {:induction false} CountCharAppend(a: string, b: string, c: char)
    ensures CountChar(a + b, c) == CountChar(a, c) + CountChar(b, c)
    decreases |a|
  {
    if a == [] {
      assert a + b == b;
    } else {
      assert (a + b)[1..] == a[1..] + b;
      CountCharAppend(a[1..], b, c);
    }
  }

  lemma {:induction false} CountCharAbsent(s: string, c: char)
    requires !Contains(s, [c])
    ensures CountChar(s, c) == 0
    decreases |s|
  {
    if s != [] {
      assert !OccursAt(s, [c], 0);
      assert s[0..1] == [s[0]];
      if Contains(s[1..], [c]) {
        var j :| OccursAt(s[1..], [c], j);
        OccursInSuffix(s, [c], 1, j);
      }
      CountCharAbsent(s[1..], c);
    }
  }

  /** Splitting on one character yields one more piece than there are
      occurrences of that character. */
  lemma {:induction false} SplitCount(s: string, c: char)
    ensures |Split(s, [c])| == CountChar(s, c) + 1
    decreases |s|
  {
    match IndexOf(s, [c])
    case None =>
      CountCharAbsent(s, c);
    case Some(i) =>
      var rest := s[i + 1..];
      NoOccurrenceBeforeFirst(s, [c], i);
      CountCharAbsent(s[..i], c);
      assert s == s[..i] + ([s[i]] + rest);
      CountCharAppend(s[..i], [s[i]] + rest, c);
      assert ([s[i]] + rest)[1..] == rest;
      SplitCount(rest, c);
  }

  /** A string free of `p` has every slice free of `p`. */
  lemma SliceAvoids(s: string, p: string, lo: nat, hi: nat)
    requires lo <= hi <= |s| && !Contains(s, p)
    ensures !Contains(s[lo..hi], p)
  {
    var t := s[lo..hi];
    forall j | 0 <= j <= |t|
      ensures !OccursAt(t, p, j)
    {
      assert !OccursAt(s, p, lo + j);
      if j + |p| <= |t| {
        var u, v := t[j..j + |p|], s[lo + j..lo + j + |p|];
        forall k | 0 <= k < |p|
          ensures u[k] == v[k]
        {
          assert t[j + k] == s[lo + j + k];
        }
        assert u == v;
      }
    }
  }

  /** When the first character of `p` appears nowhere else in `p`, the
      first occurrence of `p` in `a + p + rest` is right after `a`, if `a` is
      free of `p`. */
  lemma FirstOccurrenceAfter(a: string, p: string, rest: string)
    requires p != [] && !Contains(a, p)
    requires forall k | 0 < k < |p| :: p[k] != p[0]
    ensures IndexOf(a + p + rest, p) == Some(|a|)
  {
    var s := a + p + rest;
    assert s[|a|..|a| + |p|] == p;
    forall j | 0 <= j < |a|
      ensures !OccursAt(s, p, j)
    {
      assert !OccursAt(a, p, j);
      if j + |p| <= |a| {
        assert s[j..j + |p|] == a[j..j + |p|];
      } else {
        assert s[|a|] == p[0] != p[|a| - j];
      }
    }
    IndexOfIs(s, p, |a|);
  }

  /** No occurrence of `p` in `a + g + c`, given none in each part, none
      across the first junction (the first character of `g` is not in
      `p[1..]`) and none across the second (every copy of `p[0]` in `g` has
      room for all of `p` inside `g`). */
  lemma NoOccurrenceAround(a: string, g: string, c: string, p: string)
    requires p != [] && |g| >= 1
    requires !Contains(a, p) && !Contains(g, p) && !Contains(c, p)
    requires forall k | 0 < k < |p| :: p[k] != g[0]
    requires forall k | 0 <= k < |g| && g[k] == p[0] :: k + |p| <= |g|
    ensures !Contains(a + g + c, p)
  {
    var s := a + g + c;
    forall j | 0 <= j <= |s|
      ensures !OccursAt(s, p, j)
    {
      if j + |p| <= |s| {
        if j + |p| <= |a| {
          assert !OccursAt(a, p, j);
          assert s[j..j + |p|] == a[j..j + |p|];
        } else if j < |a| {
          assert s[|a|] == g[0] != p[|a| - j];
        } else if j + |p| <= |a| + |g| {
          assert !OccursAt(g, p, j - |a|);
          assert s[j..j + |p|] == g[j - |a|..j - |a| + |p|];
        } else if j < |a| + |g| {
          assert s[j] == g[j - |a|] != p[0];
        } else {
          assert !OccursAt(c, p, j - |a| - |g|);
          assert s[j..j + |p|] == c[j - |a| - |g|..j - |a| - |g| + |p|];
        }
      }
    }
  }

  /** A character that does not start `p`, put in front of a string free of
      `p`, creates no occurrence. */
  lemma ConsAvoids(x: char, c: string, p: string)
    requires p != [] && x != p[0] && !Contains(c, p)
    ensures !Contains([x] + c, p)
  {
    var s := [x] + c;
    forall j | 0 <= j <= |s|
      ensures !OccursAt(s, p, j)
    {
      if 1 <= j && j + |p| <= |s| {
        assert !OccursAt(c, p, j - 1);
        assert s[j..j + |p|] == c[j - 1..j - 1 + |p|];
      }
    }
  }
}
