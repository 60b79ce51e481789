/** `formatAnswer` of the question page (frontend/src/pages/landing.jsx and
    the same code in frontend/src/App.jsx): the answer text is cut into
    lines and each line becomes one display block. The React elements are
    modelled by the `Block` values they are built from. */
module AnswerFormat {
  import opened Wrappers
  import opened JsString

  /** A piece of a heading line: shown as is, or in bold. */
  datatype Segment = Plain(text: string) | Bold(text: string)

  /** The element one line of the answer becomes. */
  datatype Block =
    | LineBreak
    | Heading(segments: seq<Segment>)
    | SubItem(title: string, description: Option<string>)
    | Numbered(text: string)
    | Bullet(text: string)
    | Paragraph(text: string)

  const BulletMark := "• "

  /** The line opens with `*` followed by white space (`/^\*\s+/`). */
  predicate StarBullet(line: string) {
    |line| >= 2 && line[0] == '*' && IsWhitespace(line[1])
  }

  /** `line.replace(/^\*\s+/, "• ")`: the star and all the white space
      after it become the bullet mark. */
  function StarToBullet(line: string): (r: string)
    ensures !StarBullet(line) ==> r == line
    ensures StarBullet(line) ==> StartsWith(r, BulletMark)
    ensures StarBullet(line) ==>
      var rest := r[|BulletMark|..];
      && |rest| < |line| - 1
      && line[|line| - |rest|..] == rest
      && AllWhitespace(line[1..|line| - |rest|])
      && (rest == [] || !IsWhitespace(rest[0]))
  {
    if StarBullet(line) then
      var rest := TrimStart(line[1..]);
      assert line[1..][..|line| - 1 - |rest|] == line[1..|line| - |rest|];
      assert (BulletMark + rest)[|BulletMark|..] == rest;
      BulletMark + rest
    else line
  }

  // Emojis

  /** The keywords in the order the emoji table lists them, each with its
      emoji. */
  const EmojiMap: seq<(string, string)> := [
    ("Key", "\U{1F511}"),
    ("Important", "⚠️"),
    ("Tip", "\U{1F4A1}"),
    ("Note", "\U{1F4DD}"),
    ("Example", "\U{1F4CC}"),
    ("Conclusion", "✅"),
    ("Question", "❓")
  ]

  /** `if (line.includes(key)) line = line.replace(key, emoji + " " + key)`:
      the emoji and a space go in front of the first occurrence. */
  function InsertEmoji(s: string, key: string, emoji: string): (r: string)
    requires key != []
    ensures !Contains(s, key) ==> r == s
    ensures Contains(s, key) ==>
      var i := IndexOf(s, key).value;
      r == s[..i] + (emoji + " ") + s[i..]
  {
    if Contains(s, key) then
      var i := IndexOf(s, key).value;
      assert s[i..] == key + s[i + |key|..];
      ReplaceFirst(s, key, emoji + " " + key)
    else s
  }

  /** The line after the first `n` keywords of the table were looked up. */
  function EmojisUpTo(line: string, n: nat): string
    requires n <= |EmojiMap|
  {
    if n == 0 then line
    else InsertEmoji(EmojisUpTo(line, n - 1), EmojiMap[n - 1].0, EmojiMap[n - 1].1)
  }

  /** `addEmojis`: the whole table, in order. */
  function Emojified(line: string): string {
    EmojisUpTo(line, |EmojiMap|)
  }

  /** `addEmojis`, as the loop over the table it is. */
  method AddEmojis(line: string) returns (r: string)
    ensures r == Emojified(line)
  {
    r := line;
    for n := 0 to |EmojiMap|
      invariant r == EmojisUpTo(line, n)
    {
      var (key, emoji) := EmojiMap[n];
      if Contains(r, key) {
        r := ReplaceFirst(r, key, emoji + " " + key);
      }
    }
  }

  predicate IsCapital(c: char) {
    'A' <= c <= 'Z'
  }

  /** No character of `p` but the first is `c`: an insertion made in front
      of a `c` never lands inside an occurrence of `p`. */
  predicate TailAvoids(p: string, c: char) {
    forall t | 0 < t < |p| :: p[t] != c
  }

  /** Every keyword is a capital followed by small letters; the capitals
      differ; no emoji holds a capital. */
  lemma EmojiMapShape()
    ensures forall m | 0 <= m < |EmojiMap| ::
      var key := EmojiMap[m].0;
      |key| >= 1 && IsCapital(key[0]) && forall t | 0 < t < |key| :: !IsCapital(key[t])
    ensures forall m | 0 <= m < |EmojiMap| ::
      var e := EmojiMap[m].1; forall t | 0 <= t < |e| :: !IsCapital(e[t])
    ensures forall m, q | 0 <= m < q < |EmojiMap| :: EmojiMap[m].0[0] != EmojiMap[q].0[0]
  {
  }

  /** Neither a keyword nor a keyword with its emoji in front holds the
      capital another keyword starts with, past its own first character. */
  lemma MarkedTailAvoids(m: nat, q: nat)
    requires m < |EmojiMap| && q < |EmojiMap| && m != q
    ensures TailAvoids(EmojiMap[m].0, EmojiMap[q].0[0])
    ensures TailAvoids(EmojiMap[m].1 + " " + EmojiMap[m].0, EmojiMap[q].0[0])
  {
    EmojiMapShape();
    var key, e, c := EmojiMap[m].0, EmojiMap[m].1, EmojiMap[q].0[0];
    var p := e + " " + key;
    forall t | 0 < t < |p|
      ensures p[t] != c
    {
      if t < |e| {
        assert p[t] == e[t];
      } else if t > |e| {
        assert p[t] == key[t - |e| - 1];
      }
    }
  }

  /** Text inserted away from an occurrence of `p` leaves an occurrence of
      `p`. */
  lemma InsertKeeps(s: string, j: nat, ins: string, p: string, i: nat)
    requires j <= |s| && OccursAt(s, p, i)
    requires j <= i || i + |p| <= j
    ensures Contains(s[..j] + ins + s[j..], p)
  {
    var r := s[..j] + ins + s[j..];
    if j <= i {
      assert r[j + |ins|..] == s[j..];
      assert r[i + |ins|..i + |ins| + |p|] == s[j..][i - j..i - j + |p|];
      assert OccursAt(r, p, i + |ins|);
    } else {
      assert r[..j] == s[..j];
      assert r[i..i + |p|] == s[..j][i..i + |p|];
      assert OccursAt(r, p, i);
    }
  }

  /** One emoji insertion keeps every `p` whose tail avoids the keyword's
      first letter. */
  lemma InsertEmojiKeeps(s: string, key: string, emoji: string, p: string)
    requires key != [] && Contains(s, p)
    requires TailAvoids(p, key[0])
    ensures Contains(InsertEmoji(s, key, emoji), p)
  {
    if Contains(s, key) {
      var i := IndexOf(s, p).value;
      var j := IndexOf(s, key).value;
      assert s[j] == s[j..j + |key|][0];
      assert forall x | i < x < i + |p| :: s[x] == s[i..i + |p|][x - i];
      InsertKeeps(s, j, emoji + " ", p, i);
    }
  }

  /** Keywords from `lo` to `n` leave every `p` whose tail avoids their first
      letters. */
  lemma {:induction false} SurvivesFrom(line: string, lo: nat, n: nat, p: string)
    requires lo <= n <= |EmojiMap|
    requires Contains(EmojisUpTo(line, lo), p)
    requires forall q | lo <= q < n :: TailAvoids(p, EmojiMap[q].0[0])
    ensures Contains(EmojisUpTo(line, n), p)
    decreases n
  {
    if n > lo {
      SurvivesFrom(line, lo, n - 1, p);
      InsertEmojiKeeps(EmojisUpTo(line, n - 1), EmojiMap[n - 1].0, EmojiMap[n - 1].1, p);
    }
  }

  /** Every keyword in the line comes out with its emoji and a space in
      front of it. */
  lemma KeywordMarked(line: string, m: nat)
    requires m < |EmojiMap| && Contains(line, EmojiMap[m].0)
    ensures Contains(Emojified(line), EmojiMap[m].1 + " " + EmojiMap[m].0)
  {
    var (key, emoji) := EmojiMap[m];
    KeywordMarkedAtStep(line, m);
    forall q | m + 1 <= q < |EmojiMap|
      ensures TailAvoids(emoji + " " + key, EmojiMap[q].0[0])
    {
      MarkedTailAvoids(m, q);
    }
    SurvivesFrom(line, m + 1, |EmojiMap|, emoji + " " + key);
  }

  /** The keyword reaches its own step of the table, which marks it. */
  lemma KeywordMarkedAtStep(line: string, m: nat)
    requires m < |EmojiMap| && Contains(line, EmojiMap[m].0)
    ensures Contains(EmojisUpTo(line, m + 1), EmojiMap[m].1 + " " + EmojiMap[m].0)
  {
    var (key, emoji) := EmojiMap[m];
    forall q | 0 <= q < m
      ensures TailAvoids(key, EmojiMap[q].0[0])
    {
      MarkedTailAvoids(m, q);
    }
    SurvivesFrom(line, 0, m, key);
    var s := EmojisUpTo(line, m);
    var i := IndexOf(s, key).value;
    var r := EmojisUpTo(line, m + 1);
    assert r == s[..i] + (emoji + " ") + s[i..];
    assert r[i..i + |emoji| + 1 + |key|] == emoji + " " + s[i..i + |key|];
    assert OccursAt(r, emoji + " " + key, i);
  }

  /** A line with none of the keywords is left as it is. */
  lemma {:induction false} NoKeywordUnchanged(line: string, n: nat)
    requires n <= |EmojiMap|
    requires forall m | 0 <= m < |EmojiMap| :: !Contains(line, EmojiMap[m].0)
    ensures EmojisUpTo(line, n) == line
  {
    if n > 0 {
      NoKeywordUnchanged(line, n - 1);
    }
  }

  /** The emojis never go in front of the bullet mark: the mark starts the
      line still. */
  lemma {:induction false} EmojisKeepBullet(line: string, n: nat)
    requires n <= |EmojiMap| && StartsWith(line, BulletMark)
    ensures StartsWith(EmojisUpTo(line, n), BulletMark)
  {
    if n > 0 {
      EmojisKeepBullet(line, n - 1);
      KeywordCapital(n - 1);
      InsertEmojiKeepsBullet(EmojisUpTo(line, n - 1), EmojiMap[n - 1].0, EmojiMap[n - 1].1);
    }
  }

  lemma KeywordCapital(m: nat)
    requires m < |EmojiMap|
    ensures |EmojiMap[m].0| >= 1 && IsCapital(EmojiMap[m].0[0])
  {
    EmojiMapShape();
  }

  /** A keyword starts with a capital, so its emoji never goes in front of
      the bullet mark. */
  lemma InsertEmojiKeepsBullet(s: string, key: string, emoji: string)
    requires StartsWith(s, BulletMark) && key != [] && IsCapital(key[0])
    ensures StartsWith(InsertEmoji(s, key, emoji), BulletMark)
  {
    if Contains(s, key) {
      var i := IndexOf(s, key).value;
      assert s[i] == s[i..i + |key|][0];
      assert s[0] == BulletMark[0] && s[1] == BulletMark[1];
      assert i >= 2;
      assert InsertEmoji(s, key, emoji)[..2] == s[..i][..2];
    }
  }

  // Bold text

  /** The end of the run of characters other than `*` that starts at `i`. */
  function StarFreeEnd(s: string, i: nat): (e: nat)
    requires i <= |s|
    ensures i <= e <= |s|
    ensures forall k | i <= k < e :: s[k] != '*'
    ensures e < |s| ==> s[e] == '*'
    decreases |s| - i
  {
    if i < |s| && s[i] != '*' then StarFreeEnd(s, i + 1) else i
  }

  /** Text that `\*\*[^*]+\*\*` matches as a whole. */
  predicate IsBoldMarkup(p: string) {
    && |p| >= 5
    && p[..2] == "**" && p[|p| - 2..] == "**"
    && forall k | 2 <= k < |p| - 2 :: p[k] != '*'
  }

  /** A match at `q` ending at `e` is `**`, the star-free run after it, and `**`. */
  lemma BoldMarkupRun(s: string, q: nat, e: nat)
    requires q < e <= |s| && IsBoldMarkup(s[q..e])
    ensures s[q] == s[q + 1] == s[e - 1] == '*'
    ensures StarFreeEnd(s, q + 2) == e - 2
  {
    var m := s[q..e];
    assert s[q] == m[..2][0] && s[q + 1] == m[..2][1];
    assert s[e - 2] == m[|m| - 2..][0] && s[e - 1] == m[|m| - 2..][1];
    assert forall k | q + 2 <= k < e - 2 :: s[k] == m[k - q];
  }

  /** Where `\*\*[^*]+\*\*` matching at `q` ends, if it matches there. */
  function BoldMatchEnd(s: string, q: nat): (r: Option<nat>)
    requires q <= |s|
    ensures r.Some? ==> q + 5 <= r.value <= |s| && IsBoldMarkup(s[q..r.value])
  {
    if q + 2 <= |s| && s[q] == '*' && s[q + 1] == '*' then
      var e := StarFreeEnd(s, q + 2);
      if e > q + 2 && e + 2 <= |s| && s[e + 1] == '*' then
        assert s[q..e + 2][..2] == "**";
        assert s[q..e + 2][e + 2 - q - 2..] == "**";
        Some(e + 2)
      else None
    else None
  }

  /** The match at `q` is found whenever there is one, and it is the only one
      starting there. */
  lemma BoldMatchEndFinds(s: string, q: nat, e: nat)
    requires q < e <= |s|
    ensures IsBoldMarkup(s[q..e]) <==> BoldMatchEnd(s, q) == Some(e)
  {
    if IsBoldMarkup(s[q..e]) {
      BoldMarkupRun(s, q, e);
    }
  }

  /** `s.split(/(\*\*[^*]+\*\*)/g)` scanned from `q`, the current piece
      starting at `p`: the text between matches, with every match kept as a
      piece of its own between them. */
  function BoldPieces(s: string, p: nat, q: nat): (pieces: seq<string>)
    requires p <= q <= |s|
    ensures |pieces| % 2 == 1
    ensures forall k | 0 <= k < |pieces| && k % 2 == 1 :: IsBoldMarkup(pieces[k])
    decreases |s| - q
  {
    if q == |s| then [s[p..]]
    else
      match BoldMatchEnd(s, q)
      case Some(e) =>
        var rest := BoldPieces(s, e, e);
        assert forall k | 2 <= k < 2 + |rest| :: ([s[p..q], s[q..e]] + rest)[k] == rest[k - 2];
        [s[p..q], s[q..e]] + rest
      case None => BoldPieces(s, p, q + 1)
  }

  /** No part of `t` is text that `\*\*[^*]+\*\*` matches. */
  predicate BoldFree(t: string) {
    forall a, b | 0 <= a < b <= |t| :: !IsBoldMarkup(t[a..b])
  }

  /** No match of `\*\*[^*]+\*\*` starts in `s[p..q]`. */
  predicate NoMatchFrom(s: string, p: nat, q: nat)
    requires p <= q <= |s|
  {
    forall j, e | p <= j < q && j < e <= |s| :: !IsBoldMarkup(s[j..e])
  }

  /** Text in which no match starts holds none. */
  lemma UnmatchedBoldFree(s: string, p: nat, q: nat)
    requires p <= q <= |s| && NoMatchFrom(s, p, q)
    ensures BoldFree(s[p..q])
  {
    forall a, b | 0 <= a < b <= |s[p..q]| ensures !IsBoldMarkup(s[p..q][a..b]) {
      SliceOfSlice(s, p, q, a, b);
    }
  }

  /** Passing a position where nothing matches keeps the piece match-free. */
  lemma NoMatchStep(s: string, p: nat, q: nat)
    requires p <= q < |s| && NoMatchFrom(s, p, q) && BoldMatchEnd(s, q).None?
    ensures NoMatchFrom(s, p, q + 1)
  {
    forall e | q < e <= |s| ensures !IsBoldMarkup(s[q..e]) {
      BoldMatchEndFinds(s, q, e);
    }
  }

  /** The split misses no match: once no match starts in the current piece
      before `q`, none of the text pieces holds one. */
  lemma {:induction false} BoldPiecesComplete(s: string, p: nat, q: nat)
    requires p <= q <= |s| && NoMatchFrom(s, p, q)
    ensures forall k | 0 <= k < |BoldPieces(s, p, q)| && k % 2 == 0 ::
      BoldFree(BoldPieces(s, p, q)[k])
    decreases |s| - q
  {
    if q == |s| {
      UnmatchedBoldFree(s, p, q);
      assert s[p..q] == s[p..];
    } else {
      match BoldMatchEnd(s, q)
      case Some(e) =>
        BoldPiecesComplete(s, e, e);
        UnmatchedBoldFree(s, p, q);
        var rest := BoldPieces(s, e, e);
        var pieces := BoldPieces(s, p, q);
        assert pieces == [s[p..q], s[q..e]] + rest;
        forall k | 0 <= k < |pieces| && k % 2 == 0 ensures BoldFree(pieces[k]) {
          if k > 0 {
            assert pieces[k] == rest[k - 2];
          }
        }
      case None =>
        NoMatchStep(s, p, q);
        BoldPiecesComplete(s, p, q + 1);
        assert BoldPieces(s, p, q) == BoldPieces(s, p, q + 1);
    }
  }

  /** A slice of a slice of `s` is a slice of `s`. */
  lemma SliceOfSlice(s: string, p: nat, q: nat, a: nat, b: nat)
    requires p <= q <= |s| && a <= b <= q - p
    ensures s[p..q][a..b] == s[p + a..p + b]
  {
    assert forall i | 0 <= i < b - a :: s[p..q][a..b][i] == s[p + a + i];
  }

  function Concat(pieces: seq<string>): string {
    if pieces == [] then [] else pieces[0] + Concat(pieces[1..])
  }

  /** The pieces put back together are the text they were cut from. */
  lemma {:induction false} BoldPiecesConcat(s: string, p: nat, q: nat)
    requires p <= q <= |s|
    ensures Concat(BoldPieces(s, p, q)) == s[p..]
    decreases |s| - q
  {
    if q == |s| {
      assert Concat([s[p..]]) == s[p..] + Concat([]);
    } else {
      match BoldMatchEnd(s, q)
      case Some(e) =>
        var rest := BoldPieces(s, e, e);
        BoldPiecesConcat(s, e, e);
        var ps := [s[p..q], s[q..e]] + rest;
        assert ps[1..] == [s[q..e]] + rest;
        assert ps[1..][1..] == rest;
        assert s[p..] == s[p..q] + s[q..e] + s[e..];
      case None =>
        BoldPiecesConcat(s, p, q + 1);
    }
  }

  /** `part.startsWith("**") && part.endsWith("**")` shows `part.slice(2, -2)`
      in bold; any other piece is shown as it is. */
  function ToSegment(part: string): Segment {
    if StartsWith(part, "**") && EndsWith(part, "**") then
      Bold(if |part| >= 4 then part[2..|part| - 2] else [])
    else Plain(part)
  }

  /** The segments of a heading line. */
  function HeadingSegments(f: string): (segments: seq<Segment>)
    ensures var pieces := BoldPieces(f, 0, 0);
      |segments| == |pieces| && forall k | 0 <= k < |pieces| :: segments[k] == ToSegment(pieces[k])
  {
    var pieces := BoldPieces(f, 0, 0);
    seq(|pieces|, k requires 0 <= k < |pieces| => ToSegment(pieces[k]))
  }

  /** Every `**…**` match of a heading line is shown in bold without its
      stars, and the line's pieces spell out the line. */
  lemma HeadingShowsBold(f: string, k: nat)
    requires k < |BoldPieces(f, 0, 0)| && k % 2 == 1
    ensures var piece := BoldPieces(f, 0, 0)[k];
      exists inner ::
        && |inner| >= 1 && piece == "**" + inner + "**"
        && (forall t | 0 <= t < |inner| :: inner[t] != '*')
        && HeadingSegments(f)[k] == Bold(inner)
    ensures Concat(BoldPieces(f, 0, 0)) == f
  {
    var piece := BoldPieces(f, 0, 0)[k];
    BoldMarkupInner(piece);
    BoldPiecesConcat(f, 0, 0);
  }

  /** The text inside a `**…**` match is what its segment shows in bold. */
  lemma BoldMarkupInner(piece: string)
    requires IsBoldMarkup(piece)
    ensures var inner := piece[2..|piece| - 2];
      && |inner| >= 1 && piece == "**" + inner + "**"
      && (forall t | 0 <= t < |inner| :: inner[t] != '*')
      && ToSegment(piece) == Bold(inner)
  {
    var inner := piece[2..|piece| - 2];
    assert piece == piece[..2] + inner + piece[|piece| - 2..];
    assert forall t | 0 <= t < |inner| :: inner[t] == piece[t + 2];
  }

  // Sub-items

  /** The title and the description of a `***` line: the stars go, the
      rest is trimmed and cut at its first colon; the description is the
      remainder, colons included, when there is one. */
  function SubItemParts(f: string): (r: (string, Option<string>))
  {
    var cleanLine := Trim(ReplaceAll(f, "***", ""));
    var parts := Split(cleanLine, ":");
    (parts[0], if |parts| > 1 then Some(Join(parts[1..], ":")) else None)
  }

  /** Title, colon and description give back the cleaned line. */
  lemma SubItemRebuilds(f: string)
    ensures var (title, description) := SubItemParts(f);
      var cleanLine := Trim(ReplaceAll(f, "***", ""));
      && !Contains(title, ":")
      && (description.None? ==> title == cleanLine)
      && (description.Some? ==> title + ":" + description.value == cleanLine)
  {
    var cleanLine := Trim(ReplaceAll(f, "***", ""));
    JoinSplit(cleanLine, ":");
  }

  // Numbered lines

  /** The end of the run of ASCII digits starting at `i`. */
  function DigitEnd(s: string, i: nat): (e: nat)
    requires i <= |s|
    ensures i <= e <= |s|
    ensures forall k | i <= k < e :: '0' <= s[k] <= '9'
    ensures e < |s| ==> !('0' <= s[e] <= '9')
    decreases |s| - i
  {
    if i < |s| && '0' <= s[i] <= '9' then DigitEnd(s, i + 1) else i
  }

  /** `/^\d+\./.test(s)` */
  predicate StartsNumbered(s: string) {
    var n := DigitEnd(s, 0);
    n >= 1 && n < |s| && s[n] == '.'
  }

  /** The regular expression's meaning: some digits, then a full stop. */
  lemma StartsNumberedMeans(s: string)
    ensures StartsNumbered(s) <==>
      exists n | 1 <= n < |s| :: s[n] == '.' && forall k | 0 <= k < n :: '0' <= s[k] <= '9'
  {
    if !StartsNumbered(s) {
      forall n | 1 <= n < |s| && s[n] == '.'
        ensures exists k | 0 <= k < n :: !('0' <= s[k] <= '9')
      {
        var e := DigitEnd(s, 0);
        assert e <= n;
      }
    }
  }

  // Lines

  lemma ThreeStarsHoldTwo(f: string)
    ensures Contains(f, "***") ==> Contains(f, "**")
  {
    if Contains(f, "***") {
      var i := IndexOf(f, "***").value;
      assert f[i..i + 2] == f[i..i + 3][..2];
      assert OccursAt(f, "**", i);
    }
  }

  /** The block of a line that is not blank, from the text left after the
      bullet and emoji rewrites, tested in the order the page tests. */
  function Classify(f: string): (b: Block)
    ensures !b.LineBreak?
    ensures b.Heading? <==> Contains(f, "**") && !Contains(f, "***")
    ensures b.SubItem? <==> Contains(f, "***")
    ensures b.Numbered? <==> !Contains(f, "**") && StartsNumbered(Trim(f))
    ensures b.Bullet? <==> !Contains(f, "**") && !StartsNumbered(Trim(f)) && StartsWith(f, BulletMark)
    ensures b.Numbered? ==> b.text == Trim(f)
    ensures b.Bullet? || b.Paragraph? ==> b.text == f
    ensures b.Heading? ==> b.segments == HeadingSegments(f)
    ensures b.SubItem? ==> (b.title, b.description) == SubItemParts(f)
  {
    ThreeStarsHoldTwo(f);
    if Contains(f, "**") && !Contains(f, "***") then Heading(HeadingSegments(f))
    else if Contains(f, "***") then
      var (title, description) := SubItemParts(f);
      SubItem(title, description)
    else if StartsNumbered(Trim(f)) then Numbered(Trim(f))
    else if StartsWith(f, BulletMark) then Bullet(f)
    else Paragraph(f)
  }

  /** The block one line of the answer becomes. */
  function FormatLine(line: string): Block {
    if IsBlank(line) then LineBreak
    else Classify(Emojified(StarToBullet(line)))
  }

  /** A `* ` line keeps its bullet mark through the emoji rewrite, so with no
      bold and no digits up front it is shown as a bullet. */
  lemma StarLineIsBullet(line: string)
    requires StarBullet(line) && !IsBlank(line)
    requires !Contains(Emojified(StarToBullet(line)), "**")
    ensures FormatLine(line).Bullet?
    ensures StartsWith(FormatLine(line).text, BulletMark)
  {
    var f := Emojified(StarToBullet(line));
    EmojisKeepBullet(StarToBullet(line), |EmojiMap|);
    assert f[0] == '•';
    assert !StartsNumbered(Trim(f)) by {
      assert TrimStart(f) == f;
      var t := Trim(f);
      assert t[0] == '•';
      assert DigitEnd(t, 0) == 0;
    }
  }

  /** Only a blank line becomes a line break. */
  lemma LineBreakIffBlank(line: string)
    ensures FormatLine(line).LineBreak? <==> IsBlank(line)
  {
  }

  /** Appending the block of the next line keeps the blocks in step with
      the lines. */
  lemma FormattedGrows(blocks: seq<Block>, lines: seq<string>, block: Block)
    requires |blocks| < |lines|
    requires forall k | 0 <= k < |blocks| :: blocks[k] == FormatLine(lines[k])
    requires block == FormatLine(lines[|blocks|])
    ensures forall k | 0 <= k <= |blocks| :: (blocks + [block])[k] == FormatLine(lines[k])
  {
  }

  /** `formatAnswer`: nothing for an empty answer, else one block per line,
      pushed in order. */
  method FormatAnswer(text: string) returns (r: Option<seq<Block>>)
    ensures r.None? <==> text == ""
    ensures r.Some? ==> |r.value| == |Split(text, "\n")| == CountChar(text, '\n') + 1
    ensures r.Some? ==> forall k | 0 <= k < |r.value| ::
      r.value[k] == FormatLine(Split(text, "\n")[k])
      && (r.value[k].LineBreak? <==> IsBlank(Split(text, "\n")[k]))
  {
    if text == "" {
      return None;
    }
    var lines := Split(text, "\n");
    var formattedContent: seq<Block> := [];
    for index := 0 to |lines|
      invariant |formattedContent| == index
      invariant forall k | 0 <= k < index :: formattedContent[k] == FormatLine(lines[k])
    {
      var line := lines[index];
      var block: Block;
      if IsBlank(line) {
        block := LineBreak;
      } else {
        var formattedLineText := StarToBullet(line);
        formattedLineText := AddEmojis(formattedLineText);
        block := Classify(formattedLineText);
      }
      assert block == FormatLine(line);
      FormattedGrows(formattedContent, lines, block);
      formattedContent := formattedContent + [block];
    }
    SplitCount(text, '\n');
    forall k | 0 <= k < |lines|
      ensures formattedContent[k].LineBreak? <==> IsBlank(lines[k])
    {
      LineBreakIffBlank(lines[k]);
    }
    return Some(formattedContent);
  }
}
