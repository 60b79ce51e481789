/** The prompt the reading-assistant page sends to `/ask` (`handleAsk` in
    frontend/src/pages/landing.jsx, the same code in frontend/src/App.jsx),
    the answer text it shows, and how the backend reads that prompt back. */
module AskComposer {
  import opened Wrappers
  import opened JsString
  import opened AskPrompt
  import WebContent

  /** The source toggle on the page: a URL or pasted text. */
  datatype InputMode = UrlMode | TextMode

  /** The marker lines the page appends: `"\nBased on this URL: "` and
      `"\nBased on this content: "`. */
  const UrlLine := "\n" + UrlMarker
  const ContentLine := "\n" + ContentMarker + " "

  const EmptyQuestionWarning := "⚠️ Please enter a question."
  const NoAnswer := "🤔 No answer returned."
  const RequestFailed := "❌ Something went wrong while contacting the AI."

  /** The trimmed question, followed by the marker line of the selected
      mode when that mode's input is not blank. */
  function ComposePrompt(mode: InputMode, url: string, content: string, question: string): (p: string)
    ensures StartsWith(p, Trim(question))
    ensures mode == UrlMode && !IsBlank(url) ==> p == Trim(question) + UrlLine + Trim(url)
    ensures mode == TextMode && !IsBlank(content) ==> p == Trim(question) + ContentLine + Trim(content)
    ensures (mode == UrlMode && IsBlank(url)) || (mode == TextMode && IsBlank(content)) ==> p == Trim(question)
  {
    var prompt := Trim(question);
    if mode == UrlMode && !IsBlank(url) then
      PrefixOfConcat(prompt, UrlLine + Trim(url));
      prompt + (UrlLine + Trim(url))
    else if mode == TextMode && !IsBlank(content) then
      PrefixOfConcat(prompt, ContentLine + Trim(content));
      prompt + (ContentLine + Trim(content))
    else prompt
  }

  /** What came back from `fetch`: a parsed body with its `answer` field, or
      a failure (an HTTP error status, a network error, a body that is not
      JSON). */
  datatype Reply = Answered(answer: Option<string>) | Failed

  /** The text the page shows once the request has settled. */
  function ReplyText(reply: Reply): (t: string)
    ensures reply.Failed? ==> t == RequestFailed
    ensures reply.Answered? && ChatHistory.Truthy(reply.answer) ==> t == reply.answer.value
    ensures reply.Answered? && !ChatHistory.Truthy(reply.answer) ==> t == NoAnswer
    ensures t != ""
  {
    match reply
    case Failed => RequestFailed
    case Answered(a) => if ChatHistory.Truthy(a) then a.value else NoAnswer
  }

  /** The request body the page posts: only `prompt` is set. */
  function PromptRequest(p: string): AskRequest {
    AskRequest(None, None, None, Some(p), None)
  }

  /** A prompt-only request is answered by the prompt branch. */
  lemma PromptDecides(p: string, page: string -> Option<string>)
    requires p != ""
    ensures SelectPrompt(PromptRequest(p), page) == PromptForm(p, page)
  {
    assert ChatHistory.Truthy(PromptRequest(p).prompt);
  }

  /** The backend finds a URL match only where the URL marker occurs. */
  lemma UrlMatchNeedsMarker(s: string)
    ensures FirstUrlMatch(s, 0).Some? ==> Contains(s, UrlMarker)
  {
    if FirstUrlMatch(s, 0).Some? {
      assert OccursAt(s, UrlMarker, FirstUrlMatch(s, 0).value);
    }
  }

  /** Neither marker line holds the URL marker where it could be matched:
      the only 'B' in each is the start of its own marker text. */
  lemma MarkerLinesAvoidUrlMarker()
    ensures !Contains(ContentLine, UrlMarker)
    ensures !Contains("\n", UrlMarker) && !Contains("\n", ContentMarker)
    ensures !Contains([], UrlMarker) && !Contains([], ContentMarker)
  {
    forall j | 0 <= j <= |ContentLine|
      ensures !OccursAt(ContentLine, UrlMarker, j)
    {
      if j + |UrlMarker| <= |ContentLine| {
        if j == 1 {
          assert ContentLine[j + 14] != UrlMarker[14];
        } else {
          assert ContentLine[j] != UrlMarker[0];
        }
      }
    }
  }

  /** The trimmed question followed by a line break holds no marker the
      question does not hold. */
  lemma QuestionLineAvoids(q: string, p: string)
    requires p == UrlMarker || p == ContentMarker
    requires !Contains(q, p)
    ensures !Contains(Trim(q) + "\n", p)
  {
    MarkerLinesAvoidUrlMarker();
    TrimAvoids(q, p);
    NoOccurrenceAround(Trim(q), "\n", [], p);
    assert Trim(q) + "\n" + [] == Trim(q) + "\n";
  }

  /** In a text-mode prompt the first content marker follows the question
      line. */
  lemma ContentMarkerAfterQuestion(q: string, c: string)
    requires !Contains(q + "\n", ContentMarker)
    ensures q + ContentLine + c == (q + "\n") + ContentMarker + (" " + c)
    ensures IndexOf(q + ContentLine + c, ContentMarker) == Some(|q| + 1)
  {
    calc {
      q + ContentLine + c;
      q + ("\n" + ContentMarker + " ") + c;
      (q + "\n") + ContentMarker + (" " + c);
    }
    MarkersStartOnce();
    FirstOccurrenceAfter(q + "\n", ContentMarker, " " + c);
  }

  /** The content-marker split of a text-mode prompt gives back the trimmed
      question and the trimmed content. */
  lemma ContentSplitRoundTrip(question: string, content: string)
    requires !Contains(question, ContentMarker) && !Contains(content, ContentMarker)
    ensures Contains(Trim(question) + ContentLine + Trim(content), ContentMarker)
    ensures SplitContentMarker(Trim(question) + ContentLine + Trim(content))
         == (Trim(question), Trim(content))
  {
    var q, c := Trim(question), Trim(content);
    ContentPromptShape(question, content);
    assert SplitContentMarker(q + ContentLine + c) == (Trim(q + "\n"), Trim(" " + c)) by {
      SplitSingleContentMarker(q + "\n", " " + c);
    }
    MarkerPaddingTrims(question, content);
  }

  /** The line break before the marker and the space after it are trimmed
      away from the question and the content. */
  lemma MarkerPaddingTrims(question: string, content: string)
    ensures Trim(Trim(question) + "\n") == Trim(question)
    ensures Trim(" " + Trim(content)) == Trim(content)
  {
    assert AllWhitespace("\n") && AllWhitespace(" ");
    TrimTrailing(question, "\n");
    TrimLeading(" ", content);
  }

  /** A text-mode prompt is the question line, the marker, and the content
      after a space, and the marker is found right after the question
      line. */
  lemma ContentPromptShape(question: string, content: string)
    requires !Contains(question, ContentMarker) && !Contains(content, ContentMarker)
    ensures var q, c := Trim(question), Trim(content);
      && q + ContentLine + c == (q + "\n") + ContentMarker + (" " + c)
      && IndexOf((q + "\n") + ContentMarker + (" " + c), ContentMarker) == Some(|q + "\n"|)
      && !Contains(" " + c, ContentMarker)
  {
    var q, c := Trim(question), Trim(content);
    QuestionLineAvoids(question, ContentMarker);
    ContentMarkerAfterQuestion(q, c);
    TrimAvoids(content, ContentMarker);
    ConsAvoids(' ', c, ContentMarker);
  }

  /** Text mode round trip: the backend splits the page's prompt back into
      the trimmed question and the trimmed content, as long as neither holds
      a marker. */
  lemma TextModeRoundTrip(mode: InputMode, url: string, content: string, question: string,
                          page: string -> Option<string>)
    requires mode == TextMode && !IsBlank(question) && !IsBlank(content)
    requires !Contains(question, ContentMarker) && !Contains(content, ContentMarker)
    requires !Contains(question, UrlMarker) && !Contains(content, UrlMarker)
    ensures SelectPrompt(PromptRequest(ComposePrompt(mode, url, content, question)), page)
         == ContentAnswer(Trim(content), Trim(question))
  {
    var q, c := Trim(question), Trim(content);
    var p := ComposePrompt(mode, url, content, question);
    assert p == q + ContentLine + c;
    MarkerLinesAvoidUrlMarker();
    TrimAvoids(question, UrlMarker);
    TrimAvoids(content, UrlMarker);
    NoOccurrenceAround(q, ContentLine, c, UrlMarker);
    UrlMatchNeedsMarker(p);
    ContentSplitRoundTrip(question, content);
    assert PromptForm(p, page) == ContentAnswer(c, q);
    PromptDecides(p, page);
  }

  /** A run of non-white-space characters reaching the end of `s` ends the
      match at the end of `s`. */
  lemma RunEndAtEnd(s: string, i: nat)
    requires i <= |s|
    requires forall k | i <= k < |s| :: !IsWhitespace(s[k])
    ensures RunEnd(s, i) == |s|
  {
  }

  /** A trimmed URL the way the backend pattern accepts it: an `http://` or
      `https://` scheme, at least one more character, and no white space. */
  predicate WellFormedUrl(u: string) {
    && SchemeLength(u, 0) > 0 && |u| > SchemeLength(u, 0)
    && forall k | 0 <= k < |u| :: !IsWhitespace(u[k])
  }

  /** A well-formed URL at the end of the text is matched from its scheme
      to its last character. */
  lemma UrlAtEnd(p: string, start: nat)
    requires start <= |p| && WellFormedUrl(p[start..])
    ensures var n := SchemeLength(p, start);
      n > 0 && start + n < |p| && !IsWhitespace(p[start + n])
    ensures RunEnd(p, start) == |p|
  {
    var u := p[start..];
    if start + 8 <= |p| {
      assert p[start..start + 8] == u[0..8];
    }
    if start + 7 <= |p| {
      assert p[start..start + 7] == u[0..7];
    }
    assert SchemeLength(p, start) == SchemeLength(u, 0);
    var n := SchemeLength(p, start);
    assert p[start + n] == u[n];
    assert forall k | start <= k < |p| :: p[k] == u[k - start];
    RunEndAtEnd(p, start);
  }

  lemma UrlPromptShape(q: string, u: string)
    ensures q + UrlLine + u == q + "\n" + UrlMarker + u
  {
  }

  /** After text free of the URL marker, the marker and a well-formed URL
      are the first match, and the match extracts that URL. */
  lemma UrlMatchAfter(a: string, u: string)
    requires !Contains(a, UrlMarker) && WellFormedUrl(u)
    ensures FirstUrlMatch(a + UrlMarker + u, 0) == Some(|a|)
    ensures MatchedUrl(a + UrlMarker + u, |a|) == u
    ensures RunEnd(a + UrlMarker + u, |a| + |UrlMarker|) == |a + UrlMarker + u|
  {
    var p := a + UrlMarker + u;
    MarkersStartOnce();
    FirstOccurrenceAfter(a, UrlMarker, u);
    var start := |a| + |UrlMarker|;
    assert p[start..] == u;
    UrlAtEnd(p, start);
    assert UrlMatchAt(p, |a|);
    forall j | 0 <= j < |a|
      ensures !UrlMatchAt(p, j)
    {
      assert !OccursAt(p, UrlMarker, j);
    }
    FirstUrlMatchIs(p, |a|);
  }

  /** The line-removing pattern takes the URL line of a URL-mode prompt. */
  lemma UrlLineRemoved(q: string, u: string)
    requires !Contains(q + "\n", UrlMarker) && WellFormedUrl(u)
    ensures RemoveUrlLine(q + "\n" + UrlMarker + u) == q
  {
    var p := q + "\n" + UrlMarker + u;
    UrlMatchAfter(q + "\n", u);
    assert p[|q|] == '\n';
    assert LineUrlMatchAt(p, |q|);
    forall k | 0 <= k < |q|
      ensures !LineUrlMatchAt(p, k)
    {
      assert !UrlMatchAt(p, k + 1);
    }
    FirstLineUrlMatchIs(p, |q|);
    assert p[..|q|] == q;
  }

  /** URL mode round trip: the backend extracts exactly the trimmed URL,
      fetches it, and asks about exactly the trimmed question; when the page
      cannot be fetched it sends the prompt with the note. */
  lemma UrlModeRoundTrip(mode: InputMode, url: string, content: string, question: string,
                         page: string -> Option<string>)
    requires mode == UrlMode && !IsBlank(question)
    requires !Contains(question, UrlMarker)
    requires WellFormedUrl(Trim(url))
    ensures var p := ComposePrompt(mode, url, content, question);
      SelectPrompt(PromptRequest(p), page)
        == match page(Trim(url))
           case Some(body) => PageAnswer(WebContent.CleanText(body), Trim(question))
           case None => UnfetchedPrompt(p)
  {
    var q, u := Trim(question), Trim(url);
    assert !IsBlank(url);
    var p := ComposePrompt(mode, url, content, question);
    UrlPromptShape(q, u);
    assert p == q + "\n" + UrlMarker + u;
    QuestionLineAvoids(question, UrlMarker);
    UrlMatchAfter(q + "\n", u);
    UrlLineRemoved(q, u);
    PromptDecides(p, page);
  }

  /** Without a marker line, a question free of both markers reaches the
      model exactly as typed, trimmed. */
  lemma PlainPromptRoundTrip(mode: InputMode, url: string, content: string, question: string,
                             page: string -> Option<string>)
    requires !IsBlank(question)
    requires (mode == UrlMode && IsBlank(url)) || (mode == TextMode && IsBlank(content))
    requires !Contains(question, UrlMarker) && !Contains(question, ContentMarker)
    ensures SelectPrompt(PromptRequest(ComposePrompt(mode, url, content, question)), page)
         == Verbatim(Trim(question))
  {
    TrimAvoids(question, UrlMarker);
    TrimAvoids(question, ContentMarker);
    UrlMatchNeedsMarker(Trim(question));
  }
}
