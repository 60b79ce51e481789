/** The text step at the end of `fetchWebContent` (backend/routes/ask.js):
    every run of white space becomes one space, the ends are trimmed and the
    result is cut to 10000 characters. Fetching the page and extracting the
    body text are outside the model and arrive as a function. */
module WebContent {
  import opened Wrappers
  import opened JsString

  const MaxContentLength: nat := 10000

  /** No two white-space characters stand next to each other. */
  predicate NoAdjacentWhitespace(s: string) {
    forall k | 0 <= k < |s| - 1 :: !IsWhitespace(s[k]) || !IsWhitespace(s[k + 1])
  }

  /** The visible (non-white-space) characters of `s`, in order. */
  function Visible(s: string): string {
    if s == [] then [] else (if IsWhitespace(s[0]) then [] else [s[0]]) + Visible(s[1..])
  }

  /** `s.replace(/\s+/g, " ")` */
  function CollapseWhitespace(s: string): (r: string)
    ensures NoAdjacentWhitespace(r)
    ensures forall k | 0 <= k < |r| :: IsWhitespace(r[k]) ==> r[k] == ' '
    ensures r == [] <==> s == []
    ensures r != [] ==> (IsWhitespace(r[0]) <==> IsWhitespace(s[0]))
    decreases |s|
  {
    if s == [] then []
    else if IsWhitespace(s[0]) then
      var rest := TrimStart(s);
      " " + CollapseWhitespace(rest)
    else [s[0]] + CollapseWhitespace(s[1..])
  }

  /** `/\s+/g` read one character at a time: a white-space character that
      follows white space is dropped, any other becomes one space, and every
      other character is kept. `afterSpace` says whether the character before
      `s` was white space. */
  function CollapseFrom(s: string, afterSpace: bool): string
    decreases |s|
  {
    if s == [] then []
    else if IsWhitespace(s[0]) then (if afterSpace then [] else " ") + CollapseFrom(s[1..], true)
    else [s[0]] + CollapseFrom(s[1..], false)
  }

  /** After white space, further white space adds nothing. */
  lemma {:induction false} CollapseFromSkipsRun(w: string, rest: string)
    requires AllWhitespace(w)
    ensures CollapseFrom(w + rest, true) == CollapseFrom(rest, true)
    decreases |w|
  {
    if w != [] {
      assert (w + rest)[0] == w[0];
      assert (w + rest)[1..] == w[1..] + rest;
      CollapseFromSkipsRun(w[1..], rest);
    } else {
      assert w + rest == rest;
    }
  }

  /** Replacing every maximal run at once is the same as reading character by
      character: each run becomes exactly one space and nothing else
      changes. */
  lemma {:induction false} CollapseRunByRun(s: string)
    ensures CollapseWhitespace(s) == CollapseFrom(s, false)
    decreases |s|
  {
    if s != [] {
      if IsWhitespace(s[0]) {
        var rest := TrimStart(s);
        var w := s[1..|s| - |rest|];
        assert s[1..] == w + rest;
        assert AllWhitespace(w) by {
          forall k | 0 <= k < |w|
            ensures IsWhitespace(w[k])
          {
            assert w[k] == s[..|s| - |rest|][k + 1];
          }
        }
        CollapseFromSkipsRun(w, rest);
        CollapseRunByRun(rest);
      } else {
        CollapseRunByRun(s[1..]);
      }
    }
  }

  /** Reading `a + t` is reading `a`, then reading `t` knowing whether `a`
      ended in white space. */
  lemma {:induction false} CollapseFromAppend(a: string, t: string, afterSpace: bool)
    ensures CollapseFrom(a + t, afterSpace)
         == CollapseFrom(a, afterSpace) + CollapseFrom(t, if a == [] then afterSpace else IsWhitespace(a[|a| - 1]))
    decreases |a|
  {
    if a == [] {
      assert a + t == t;
    } else {
      assert (a + t)[0] == a[0];
      assert (a + t)[1..] == a[1..] + t;
      CollapseFromAppend(a[1..], t, IsWhitespace(a[0]));
    }
  }

  /** A string read up to a visible last character ends in that
      character. */
  lemma CollapseFromEndsVisible(a: string)
    requires a != [] && !IsWhitespace(a[|a| - 1])
    ensures CollapseFrom(a, false) == CollapseFrom(a[..|a| - 1], false) + [a[|a| - 1]]
  {
    var front, c := a[..|a| - 1], a[|a| - 1];
    assert a == front + [c];
    CollapseFromAppend(front, [c], false);
    assert CollapseFrom([c], front != [] && IsWhitespace(front[|front| - 1])) == [c] by {
      assert [c][1..] == [];
    }
  }

  /** A run before a word is read as one space followed by the word. */
  lemma CollapseFromRunThenWord(w: string, b: string)
    requires w != [] && AllWhitespace(w)
    requires b != [] && !IsWhitespace(b[0])
    ensures CollapseFrom(w + b, false) == [' ', b[0]] + CollapseFrom(b[1..], false)
  {
    assert (w + b)[0] == w[0];
    assert (w + b)[1..] == w[1..] + b;
    CollapseFromSkipsRun(w[1..], b);
  }

  /** Two words with white space between them stay two words with one space
      between them. */
  lemma CollapseKeepsSeparator(a: string, w: string, b: string)
    requires a != [] && !IsWhitespace(a[|a| - 1])
    requires w != [] && AllWhitespace(w)
    requires b != [] && !IsWhitespace(b[0])
    ensures Contains(CollapseWhitespace(a + w + b), [a[|a| - 1], ' ', b[0]])
  {
    var c := a[|a| - 1];
    var pre := CollapseFrom(a[..|a| - 1], false);
    var post := CollapseFrom(b[1..], false);
    CollapseRunByRun(a + w + b);
    assert a + w + b == a + (w + b);
    CollapseFromAppend(a, w + b, false);
    CollapseFromEndsVisible(a);
    CollapseFromRunThenWord(w, b);
    var r := (pre + [c]) + ([' ', b[0]] + post);
    assert CollapseWhitespace(a + w + b) == r;
    assert r[|pre|..|pre| + 3] == [c, ' ', b[0]];
    assert OccursAt(r, [c, ' ', b[0]], |pre|);
  }

  lemma {:induction false} VisibleAppend(a: string, b: string)
    ensures Visible(a + b) == Visible(a) + Visible(b)
    decreases |a|
  {
    if a == [] {
      assert a + b == b;
    } else {
      assert (a + b)[1..] == a[1..] + b;
      VisibleAppend(a[1..], b);
    }
  }

  lemma {:induction false} VisibleOfWhitespace(w: string)
    requires AllWhitespace(w)
    ensures Visible(w) == []
    decreases |w|
  {
    if w != [] {
      VisibleOfWhitespace(w[1..]);
    }
  }

  /** Collapsing white space keeps every visible character, in order. */
  lemma {:induction false} CollapseKeepsVisible(s: string)
    ensures Visible(CollapseWhitespace(s)) == Visible(s)
    decreases |s|
  {
    if s == [] {
    } else if IsWhitespace(s[0]) {
      var rest := TrimStart(s);
      var w := s[..|s| - |rest|];
      assert s == w + rest;
      VisibleAppend(w, rest);
      VisibleOfWhitespace(w);
      CollapseKeepsVisible(rest);
      VisibleAppend(" ", CollapseWhitespace(rest));
    } else {
      CollapseKeepsVisible(s[1..]);
      VisibleAppend([s[0]], CollapseWhitespace(s[1..]));
    }
  }

  /** The cleaned page text: collapse, trim, cut. */
  function CleanText(text: string): (r: string)
    ensures |r| <= MaxContentLength
    ensures NoAdjacentWhitespace(r)
    ensures r == [] || !IsWhitespace(r[0])
  {
    var collapsed := CollapseWhitespace(text);
    var trimmed := Trim(collapsed);
    var a := |collapsed| - |TrimStart(collapsed)|;
    assert forall k | 0 <= k < |trimmed| :: trimmed[k] == collapsed[a + k];
    Take(trimmed, MaxContentLength)
  }

  /** Trimming removes no visible character. */
  lemma VisibleOfTrim(x: string)
    ensures Visible(Trim(x)) == Visible(x)
  {
    var t := Trim(x);
    var a := |x| - |TrimStart(x)|;
    var left, right := x[..a], x[a + |t|..];
    assert x == left + t + right;
    VisibleAppend(left + t, right);
    VisibleAppend(left, t);
    VisibleOfWhitespace(left);
    VisibleOfWhitespace(right);
  }

  /** The visible characters of a prefix are a prefix of the visible
      characters. */
  lemma VisibleOfPrefix(x: string, n: nat)
    requires n <= |x|
    ensures StartsWith(Visible(x), Visible(x[..n]))
  {
    assert x == x[..n] + x[n..];
    VisibleAppend(x[..n], x[n..]);
  }

  /** The cleaned text holds the page's visible characters, in order, up to
      the cut; all of them when the collapsed and trimmed text fits. */
  lemma CleanTextKeepsVisible(text: string)
    ensures StartsWith(Visible(text), Visible(CleanText(text)))
    ensures |Trim(CollapseWhitespace(text))| <= MaxContentLength ==>
              Visible(CleanText(text)) == Visible(text)
  {
    var trimmed := Trim(CollapseWhitespace(text));
    VisibleOfTrim(CollapseWhitespace(text));
    CollapseKeepsVisible(text);
    assert Visible(trimmed) == Visible(text);
    var r := CleanText(text);
    assert r == trimmed[..|r|];
    VisibleOfPrefix(trimmed, |r|);
  }

  /** `fetchWebContent(url)`: `page` stands for the HTTP request and the
      HTML parsing (None when either throws) and yields the body text with
      scripts and styles removed. */
  function FetchWebContent(page: string -> Option<string>, url: string): (r: Option<string>)
    ensures r.Some? <==> page(url).Some?
    ensures r.Some? ==> r.value == CleanText(page(url).value)
    ensures r.Some? ==> |r.value| <= MaxContentLength && NoAdjacentWhitespace(r.value)
  {
    match page(url)
    case None => None
    case Some(body) => Some(CleanText(body))
  }
}
