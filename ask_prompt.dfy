/** How `POST /ask` (backend/routes/ask.js) turns a request body into the
    prompt sent to the model: the 400 check, the choice among the prompt
    forms, the two text markers a prompt may carry, and the history prefix. */
module AskPrompt {
  import opened Wrappers
  import opened JsString
  import opened ChatHistory
  import WebContent

  /** The fields of the request body `/ask` reads. */
  datatype AskRequest = AskRequest(
    question: Option<string>,
    url: Option<string>,
    content: Option<string>,
    prompt: Option<string>,
    sessionId: Option<string>)

  /** The request passes the 400 check: a question or a prompt is given. */
  predicate AskAccepted(req: AskRequest) {
    Truthy(req.question) || Truthy(req.prompt)
  }

  const UrlMarker := "Based on this URL: "
  const ContentMarker := "Based on this content:"
  const UnfetchedNote := "\n(Note: Unable to fetch webpage content)"

  /** Length of the `https?:\/\/` scheme at index `i` of `s`, 0 when there is
      none. */
  function SchemeLength(s: string, i: nat): (n: nat)
    ensures n == 0 || n == 7 || n == 8
    ensures n == 8 ==> OccursAt(s, "https://", i)
    ensures n == 7 ==> OccursAt(s, "http://", i)
  {
    if OccursAt(s, "https://", i) then 8 else if OccursAt(s, "http://", i) then 7 else 0
  }

  /** End of the longest run of non-white-space characters starting at `i`. */
  function RunEnd(s: string, i: nat): (e: nat)
    requires i <= |s|
    ensures i <= e <= |s|
    ensures forall k | i <= k < e :: !IsWhitespace(s[k])
    ensures e == |s| || IsWhitespace(s[e])
    decreases |s| - i
  {
    if i < |s| && !IsWhitespace(s[i]) then RunEnd(s, i + 1) else i
  }

  /** A run of visible characters from `i` to `j` ends no earlier than
      `j`. */
  lemma RunEndPast(s: string, i: nat, j: nat)
    requires i <= j <= |s|
    requires forall k | i <= k < j :: !IsWhitespace(s[k])
    ensures RunEnd(s, i) >= j
  {
  }

  /** `/Based on this URL: (https?:\/\/[^\s\n]+)/` matches at index `i`. */
  predicate UrlMatchAt(s: string, i: int) {
    && OccursAt(s, UrlMarker, i)
    && var u := i + |UrlMarker|;
       var n := SchemeLength(s, u);
       n > 0 && u + n < |s| && !IsWhitespace(s[u + n])
  }

  /** The leftmost URL match at or after `from`. */
  function FirstUrlMatch(s: string, from: nat): (r: Option<nat>)
    ensures r.Some? ==> from <= r.value && UrlMatchAt(s, r.value)
    ensures forall j :: from <= j && (r.None? || j < r.value) ==> !UrlMatchAt(s, j)
    decreases |s| - from
  {
    if from >= |s| then None
    else if UrlMatchAt(s, from) then Some(from)
    else FirstUrlMatch(s, from + 1)
  }

  /** A match with none before it is the leftmost one. */
  lemma FirstUrlMatchIs(s: string, i: nat)
    requires UrlMatchAt(s, i)
    requires forall j | 0 <= j < i :: !UrlMatchAt(s, j)
    ensures FirstUrlMatch(s, 0) == Some(i)
  {
  }

  /** Only the first character of each marker is a 'B'. */
  lemma MarkersStartOnce()
    ensures forall k | 0 < k < |UrlMarker| :: UrlMarker[k] != UrlMarker[0]
    ensures forall k | 0 < k < |ContentMarker| :: ContentMarker[k] != ContentMarker[0]
  {
  }

  /** `urlMatch[1]`: the scheme and the longest run of non-white-space
      characters after it. */
  function MatchedUrl(s: string, i: nat): (url: string)
    requires UrlMatchAt(s, i)
    ensures StartsWith(url, "http://") || StartsWith(url, "https://")
    ensures |url| > SchemeLength(s, i + |UrlMarker|)
    ensures forall k | 0 <= k < |url| :: !IsWhitespace(url[k])
    ensures var u := i + |UrlMarker|;
      && u + |url| <= |s| && url == s[u..u + |url|]
      && (u + |url| == |s| || IsWhitespace(s[u + |url|]))
  {
    var u := i + |UrlMarker|;
    RunAfterScheme(s, u);
    s[u..RunEnd(s, u)]
  }

  /** The run of visible characters after a marker starts with the scheme
      and reaches past it. */
  lemma RunAfterScheme(s: string, u: nat)
    requires SchemeLength(s, u) > 0 && u + SchemeLength(s, u) < |s|
    requires !IsWhitespace(s[u + SchemeLength(s, u)])
    ensures RunEnd(s, u) > u + SchemeLength(s, u)
    ensures var url := s[u..RunEnd(s, u)];
      StartsWith(url, "http://") || StartsWith(url, "https://")
  {
    var n := SchemeLength(s, u);
    SchemeVisible(s, u);
    assert forall k | u <= k < u + n + 1 :: !IsWhitespace(s[k]);
    RunEndPast(s, u, u + n + 1);
    var url := s[u..RunEnd(s, u)];
    assert url[..n] == s[u..u + n];
  }

  /** The scheme of a match holds no white space. */
  lemma SchemeVisible(s: string, u: nat)
    requires SchemeLength(s, u) > 0
    ensures forall k | u <= k < u + SchemeLength(s, u) :: !IsWhitespace(s[k])
  {
    var n := SchemeLength(s, u);
    var w := s[u..u + n];
    assert w == "https://" || w == "http://";
    forall k | u <= k < u + n
      ensures !IsWhitespace(s[k])
    {
      assert s[k] == w[k - u];
    }
  }

  /** `/\nBased on this URL: https?:\/\/[^\s\n]+/` matches at index `k`. */
  predicate LineUrlMatchAt(s: string, k: int) {
    0 <= k < |s| && s[k] == '\n' && UrlMatchAt(s, k + 1)
  }

  function FirstLineUrlMatch(s: string, from: nat): (r: Option<nat>)
    ensures r.Some? ==> from <= r.value && LineUrlMatchAt(s, r.value)
    ensures forall j :: from <= j && (r.None? || j < r.value) ==> !LineUrlMatchAt(s, j)
    decreases |s| - from
  {
    if from >= |s| then None
    else if LineUrlMatchAt(s, from) then Some(from)
    else FirstLineUrlMatch(s, from + 1)
  }

  lemma FirstLineUrlMatchIs(s: string, i: nat)
    requires LineUrlMatchAt(s, i)
    requires forall j | 0 <= j < i :: !LineUrlMatchAt(s, j)
    ensures FirstLineUrlMatch(s, 0) == Some(i)
  {
  }

  /** `prompt.replace(/\nBased on this URL: https?:\/\/[^\s\n]+/, '')`: the
      first line break followed by a URL marker and its URL is cut out. */
  function RemoveUrlLine(s: string): (r: string)
    ensures FirstLineUrlMatch(s, 0).None? ==> r == s
    ensures FirstLineUrlMatch(s, 0).Some? ==>
      var k := FirstLineUrlMatch(s, 0).value;
      var e := RunEnd(s, k + 1 + |UrlMarker|);
      r == s[..k] + s[e..] && |r| < |s|
  {
    match FirstLineUrlMatch(s, 0)
    case None => s
    case Some(k) => s[..k] + s[RunEnd(s, k + 1 + |UrlMarker|)..]
  }

  /** `prompt.split("Based on this content:")`, trimmed: the question is the
      text before the first marker and the content the text between the first
      marker and the second one, if any. */
  function SplitContentMarker(p: string): (r: (string, string))
    requires Contains(p, ContentMarker)
    ensures var i := IndexOf(p, ContentMarker).value;
      var rest := p[i + |ContentMarker|..];
      && r.0 == Trim(p[..i])
      && r.1 == Trim(if Contains(rest, ContentMarker) then rest[..IndexOf(rest, ContentMarker).value] else rest)
      && !Contains(r.0, ContentMarker) && !Contains(r.1, ContentMarker)
  {
    var i := IndexOf(p, ContentMarker).value;
    SplitSecond(p, ContentMarker);
    var rest := p[i + |ContentMarker|..];
    SplitHead(rest, ContentMarker);
    var parts := Split(p, ContentMarker);
    TrimAvoids(parts[0], ContentMarker);
    TrimAvoids(parts[1], ContentMarker);
    (Trim(parts[0]), Trim(parts[1]))
  }

  /** With a single marker, the split gives the trimmed text on either side
      of it. */
  lemma SplitSingleContentMarker(a: string, rest: string)
    requires IndexOf(a + ContentMarker + rest, ContentMarker) == Some(|a|)
    requires !Contains(rest, ContentMarker)
    ensures Contains(a + ContentMarker + rest, ContentMarker)
    ensures SplitContentMarker(a + ContentMarker + rest) == (Trim(a), Trim(rest))
  {
    var p := a + ContentMarker + rest;
    assert p[..|a|] == a;
    assert p[|a| + |ContentMarker|..] == rest;
  }

  /** A slice of a string free of `p` is free of `p`. */
  lemma TrimAvoids(s: string, p: string)
    requires !Contains(s, p)
    ensures !Contains(Trim(s), p)
  {
    var a := |s| - |TrimStart(s)|;
    SliceAvoids(s, p, a, a + |Trim(s)|);
  }

  /** The prompt forms `/ask` can send, each holding the values it
      interpolates. */
  datatype FinalPrompt =
    | ZeroShot(question: string)
    | PageAnswer(webContent: string, userQuestion: string)
    | UnfetchedPrompt(prompt: string)
    | ContentAnswer(providedContent: string, userQuestion: string)
    | Verbatim(prompt: string)
    | PlainQuestion(question: string)
    | PageQuestion(webContent: string, question: string)
    | UnfetchedUrl(question: string, url: string)
    | PastedContent(content: string, question: string)

  /** The template text of each form, white space of the source's template
      literals included. */
  function Render(f: FinalPrompt): string {
    match f
    case ZeroShot(q) =>
      "Answer the following question clearly and concisely, using unordered (•) and ordered (1., 2., 3.) lists when appropriate. \n"
      + "      Use minimal and relevant emojis to highlight points. \n"
      + "      Question: " + q
    case PageAnswer(wc, q) =>
      "Read the following webpage content and answer the question clearly. \n"
      + "          Use unordered (•) and ordered (1., 2., 3.) lists for readability, and sprinkle minimal, relevant emojis. \n"
      + "          Do not invent false or fake information but certainly add relevant information and details if needed.\n"
      + "          Webpage Content: " + wc + "\n"
      + "          Question: " + q
    case UnfetchedPrompt(p) => p + UnfetchedNote
    case ContentAnswer(c, q) =>
      "Use the following content to answer the question clearly and in a structured way. \n"
      + "        Use unordered (•) and ordered (1., 2., 3.) lists, and minimal relevant emojis to make the answer easier to read. \n"
      + "        Content: " + c + "\n"
      + "        Question: " + q
    case Verbatim(p) => p
    case PlainQuestion(q) => "Question: " + q
    case PageQuestion(wc, q) =>
      "Read the following webpage content and answer the question clearly. \n"
      + "          Use unordered (•) and ordered (1., 2., 3.) lists, with minimal emojis to highlight important points. \n"
      + "          Webpage Content: " + wc + "\n"
      + "          Question: " + q
    case UnfetchedUrl(q, url) =>
      "Question: " + q + "\n"
      + "        (Note: Unable to fetch webpage content from " + url + ")"
    case PastedContent(c, q) =>
      "Use the following content to answer the question clearly. \n"
      + "                Structure your answer with unordered (•) and ordered (1., 2., 3.) lists. \n"
      + "                Add minimal, relevant emojis to make key points stand out. \n"
      + "                Content: " + c + "\n"
      + "                Question: " + q
  }

  /** The branch for a request that carries a prompt: a URL marker first, then
      a content marker, else the prompt as it is. */
  function PromptForm(p: string, page: string -> Option<string>): (r: FinalPrompt)
    ensures r.PageAnswer? || r.UnfetchedPrompt? || r.ContentAnswer? || r.Verbatim?
    ensures FirstUrlMatch(p, 0).Some? ==>
      r == match page(MatchedUrl(p, FirstUrlMatch(p, 0).value))
           case Some(body) => PageAnswer(WebContent.CleanText(body), RemoveUrlLine(p))
           case None => UnfetchedPrompt(p)
    ensures r.UnfetchedPrompt? ==> r.prompt == p
    ensures r.PageAnswer? ==> |r.webContent| <= WebContent.MaxContentLength
    ensures FirstUrlMatch(p, 0).None? ==> (r.ContentAnswer? <==> Contains(p, ContentMarker))
    ensures r.ContentAnswer? ==>
      Contains(p, ContentMarker) && (r.userQuestion, r.providedContent) == SplitContentMarker(p)
    ensures r.Verbatim? <==> FirstUrlMatch(p, 0).None? && !Contains(p, ContentMarker)
    ensures r.Verbatim? ==> r.prompt == p
  {
    match FirstUrlMatch(p, 0)
    case Some(i) =>
      (match WebContent.FetchWebContent(page, MatchedUrl(p, i))
       case Some(webContent) => PageAnswer(webContent, RemoveUrlLine(p))
       case None => UnfetchedPrompt(p))
    case None =>
      if Contains(p, ContentMarker) then
        var (userQuestion, providedContent) := SplitContentMarker(p);
        ContentAnswer(providedContent, userQuestion)
      else Verbatim(p)
  }

  /** The branch for a request without a prompt: the fetched page when a URL
      is given, overridden by pasted content when it is given. */
  function FieldsForm(question: string, url: Option<string>, content: Option<string>,
                      page: string -> Option<string>): (r: FinalPrompt)
    ensures Truthy(content) ==> r == PastedContent(content.value, question)
    ensures !Truthy(content) && !Truthy(url) ==> r == PlainQuestion(question)
    ensures !Truthy(content) && Truthy(url) ==>
      r == match page(url.value)
           case Some(body) => PageQuestion(WebContent.CleanText(body), question)
           case None => UnfetchedUrl(question, url.value)
    ensures r.PageQuestion? ==> r.question == question && |r.webContent| <= WebContent.MaxContentLength
  {
    var contextPrompt :=
      if Truthy(url) then
        match WebContent.FetchWebContent(page, url.value)
        case Some(webContent) => PageQuestion(webContent, question)
        case None => UnfetchedUrl(question, url.value)
      else PlainQuestion(question);
    if Truthy(content) then PastedContent(content.value, question) else contextPrompt
  }

  /** The prompt form `/ask` chooses for an accepted request. */
  function SelectPrompt(req: AskRequest, page: string -> Option<string>): (r: FinalPrompt)
    requires AskAccepted(req)
    ensures r.ZeroShot? <==>
      Truthy(req.question) && !Truthy(req.url) && !Truthy(req.content) && !Truthy(req.prompt)
    ensures r.ZeroShot? ==> r.question == req.question.value
    ensures Truthy(req.prompt) ==> r == PromptForm(req.prompt.value, page)
    ensures !Truthy(req.prompt) && Truthy(req.content) ==>
      r == PastedContent(req.content.value, req.question.value)
    ensures !Truthy(req.prompt) && !r.ZeroShot? ==>
      r == FieldsForm(req.question.value, req.url, req.content, page)
    ensures !Truthy(req.prompt) && !Truthy(req.content) && Truthy(req.url) ==>
      r == match page(req.url.value)
           case Some(body) => PageQuestion(WebContent.CleanText(body), req.question.value)
           case None => UnfetchedUrl(req.question.value, req.url.value)
  {
    if Truthy(req.question) && !Truthy(req.url) && !Truthy(req.content) && !Truthy(req.prompt) then
      ZeroShot(req.question.value)
    else if Truthy(req.prompt) then
      PromptForm(req.prompt.value, page)
    else
      FieldsForm(req.question.value, req.url, req.content, page)
  }

  /** A prompt decides alone: question, URL and content fields do not matter
      once a prompt is given. */
  lemma PromptOverridesFields(req: AskRequest, question: Option<string>, url: Option<string>,
                              content: Option<string>, page: string -> Option<string>)
    requires Truthy(req.prompt)
    ensures SelectPrompt(req, page)
         == SelectPrompt(req.(question := question, url := url, content := content), page)
  {
  }

  /** Pasted content wins over the URL whatever the fetch does. */
  lemma ContentOverridesUrl(req: AskRequest, page1: string -> Option<string>,
                            page2: string -> Option<string>)
    requires AskAccepted(req) && !Truthy(req.prompt) && Truthy(req.content)
    ensures SelectPrompt(req, page1) == SelectPrompt(req, page2)
    ensures Render(SelectPrompt(req, page1))
         == Render(PastedContent(req.content.value, req.question.value))
  {
  }

  /** A prompt with a URL the page cannot be fetched from is sent as it is,
      followed by the note. */
  lemma UnfetchedPromptKeepsPrompt(req: AskRequest, page: string -> Option<string>)
    requires Truthy(req.prompt)
    requires FirstUrlMatch(req.prompt.value, 0).Some?
    requires page(MatchedUrl(req.prompt.value, FirstUrlMatch(req.prompt.value, 0).value)).None?
    ensures Render(SelectPrompt(req, page)) == req.prompt.value + UnfetchedNote
  {
  }

  /** The text sent to the model: the history block, then the chosen form. */
  function CombinedPrompt(req: AskRequest, page: string -> Option<string>,
                          sessions: map<string, seq<Turn>>): string
    requires AskAccepted(req)
  {
    HistoryContext(req.sessionId, sessions) + Render(SelectPrompt(req, page))
  }

  /** `question || prompt || ""`: the user turn recorded after an answer. */
  function UserMessage(req: AskRequest): (m: string)
    ensures Truthy(req.question) ==> m == req.question.value
    ensures !Truthy(req.question) && Truthy(req.prompt) ==> m == req.prompt.value
    ensures AskAccepted(req) ==> m != ""
  {
    if Truthy(req.question) then req.question.value
    else if Truthy(req.prompt) then req.prompt.value
    else ""
  }
}
