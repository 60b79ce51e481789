/** `POST /quiz` (backend/routes/ask.js): the 400 check, the article text,
    the quiz prompt, and the recovery of a JSON array from the model's free
    text. */
module QuizRoute {
  import opened Wrappers
  import opened JsString
  import opened ChatHistory
  import WebContent
  import AiService

  /** A JSON value, as `JSON.parse` returns it. */
  datatype Json =
    | JNull
    | JBool(b: bool)
    | JNumber(n: int)
    | JString(s: string)
    | JArray(items: seq<Json>)
    | JObject(members: seq<(string, Json)>)

  /** The fields of the request body `/quiz` reads; `numQuestions` is kept as
      the text it is interpolated as. */
  datatype QuizRequest = QuizRequest(url: Option<string>, content: Option<string>, numQuestions: Option<string>)

  datatype QuizReply =
    | QuizOk(quiz: seq<Json>, totalQuestions: nat, note: string)
    | QuizBadRequest(error: string)
    | FetchFailed(error: string)
    | InvalidQuiz(error: string, rawResponse: string)
    | QuizServerError

  const MissingSourceMessage := "Either URL or content is required to generate a quiz."
  const FetchFailedMessage := "Failed to fetch content from the provided URL."
  const InvalidQuizMessage := "Failed to generate valid quiz questions."
  const QuizNote := "Questions are randomized each time."
  const DefaultQuestionCount := "5"
  const ArticleLimit: nat := 8000

  /** The request passes the 400 check: a URL or content is given. */
  predicate QuizAccepted(req: QuizRequest) {
    Truthy(req.url) || Truthy(req.content)
  }

  /** The article the quiz is about: the fetched page when a URL is given
      (`None` when the fetch fails), else the pasted content. */
  function ArticleText(req: QuizRequest, page: string -> Option<string>): (r: Option<string>)
    requires QuizAccepted(req)
    ensures Truthy(req.url) ==> r == WebContent.FetchWebContent(page, req.url.value)
    ensures !Truthy(req.url) ==> r == Some(req.content.value)
  {
    var webContent := if Truthy(req.content) then req.content.value else "";
    if Truthy(req.url) then WebContent.FetchWebContent(page, req.url.value)
    else Some(webContent)
  }

  const QuizPromptHead :=
    "\nYou are a quiz master. Based on the following article, create "
  const QuizPromptBody :=
    " multiple-choice questions.\n"
    + "Each question should have exactly 4 options (A, B, C, D) and one correct answer.\n"
    + "Vary the difficulty and topics randomly each time, and do not repeat identical questions between runs.\n"
    + "Format the output strictly as JSON like this:\n"
    + "\n"
    + "[\n"
    + "  {\n"
    + "    \"question\": \"What is ...?\",\n"
    + "    \"options\": [\"Option A\", \"Option B\", \"Option C\", \"Option D\"],\n"
    + "    \"answer\": \"Option B\"\n"
    + "  },\n"
    + "  ...\n"
    + "]\n"
    + "\n"
    + "Random seed: "
  /** The text after the article: the template literal holds the words of a
      comment, which are therefore sent to the model. */
  const QuizPromptTail := "  // keep token limit safe\n"

  /** The quiz prompt, with at most the first 8000 characters of the
      article. */
  function QuizPrompt(numQuestions: Option<string>, seed: string, webContent: string): (p: string)
    ensures var article := Take(webContent, ArticleLimit);
      && |article| <= ArticleLimit
      && StartsWith(webContent, article)
      && EndsWith(p, article + QuizPromptTail)
      && StartsWith(p, QuizPromptHead + numQuestions.GetOr(DefaultQuestionCount) + QuizPromptBody + seed + "\n")
  {
    var head := QuizPromptHead + numQuestions.GetOr(DefaultQuestionCount) + QuizPromptBody + seed + "\n";
    var tail := "Article Content:\n" + Take(webContent, ArticleLimit) + QuizPromptTail;
    assert (head + tail)[..|head|] == head;
    assert (head + tail)[|head + tail| - |Take(webContent, ArticleLimit) + QuizPromptTail|..]
        == Take(webContent, ArticleLimit) + QuizPromptTail;
    head + tail
  }

  /** Index of the last occurrence of `c` in `s`. */
  function LastIndexOfChar(s: string, c: char): (r: Option<nat>)
    ensures r.Some? ==> r.value < |s| && s[r.value] == c
    ensures forall k | 0 <= k < |s| && (r.None? || r.value < k) :: s[k] != c
    decreases |s|
  {
    if s == [] then None
    else if s[|s| - 1] == c then Some(|s| - 1)
    else LastIndexOfChar(s[..|s| - 1], c)
  }

  /** Index of the first occurrence of `c` in `s`. */
  function IndexOfChar(s: string, c: char): (r: Option<nat>)
    ensures r.Some? ==> r.value < |s| && s[r.value] == c
    ensures forall k | 0 <= k < |s| && (r.None? || k < r.value) :: s[k] != c
    decreases |s|
  {
    if s == [] then None
    else if s[0] == c then Some(0)
    else match IndexOfChar(s[1..], c)
      case None => None
      case Some(i) => Some(i + 1)
  }

  /** `/\[[\s\S]*\]/`: from the first `[` to the last `]`, when that `]`
      comes after the `[`. */
  function BracketSpan(s: string): (r: Option<(nat, nat)>)
    ensures r.Some? ==> var (i, j) := r.value;
      && i < j < |s| && s[i] == '[' && s[j] == ']'
      && (forall k | 0 <= k < i :: s[k] != '[')
      && (forall k | j < k < |s| :: s[k] != ']')
    ensures r.None? <==> !exists i, j | 0 <= i < j < |s| :: s[i] == '[' && s[j] == ']'
  {
    match (IndexOfChar(s, '['), LastIndexOfChar(s, ']'))
    case (Some(i), Some(j)) => if i < j then Some((i, j)) else None
    case _ => None
  }

  /** The quiz data: the direct parse, else the parse of the bracketed span,
      else `[]` when there is no span; `None` when the second parse
      throws. */
  function RecoverQuizData(aiResponse: string, parse: string -> Option<Json>): (r: Option<Json>)
    ensures parse(aiResponse).Some? ==> r == parse(aiResponse)
    ensures parse(aiResponse).None? && BracketSpan(aiResponse).None? ==> r == Some(JArray([]))
    ensures parse(aiResponse).None? && BracketSpan(aiResponse).Some? ==>
      var (i, j) := BracketSpan(aiResponse).value;
      r == parse(aiResponse[i..j + 1])
  {
    match parse(aiResponse)
    case Some(quizData) => Some(quizData)
    case None =>
      match BracketSpan(aiResponse)
      case Some((i, j)) => parse(aiResponse[i..j + 1])
      case None => Some(JArray([]))
  }

  /** The data is accepted only as a non-empty array. */
  predicate ValidQuiz(quizData: Json) {
    quizData.JArray? && |quizData.items| > 0
  }

  /** The reply of `/quiz`; the fetched page, the model and `JSON.parse` are
      inputs, and `seed` is the random seed text. */
  function HandleQuiz(req: QuizRequest, page: string -> Option<string>, generate: string -> Option<string>,
                      parse: string -> Option<Json>, seed: string): (r: QuizReply)
    ensures !QuizAccepted(req) <==> r == QuizBadRequest(MissingSourceMessage)
    ensures r.FetchFailed? <==>
      QuizAccepted(req) && Truthy(req.url) && page(req.url.value).None?
    ensures r.FetchFailed? ==> r.error == FetchFailedMessage
    ensures r.QuizOk? ==> r.totalQuestions == |r.quiz| >= 1 && r.note == QuizNote
    ensures r.InvalidQuiz? ==> r.error == InvalidQuizMessage
    ensures QuizAccepted(req) && ArticleText(req, page).Some? ==>
      var aiResponse := AiService.AskGemini(generate, QuizPrompt(req.numQuestions, seed, ArticleText(req, page).value));
      var quizData := if aiResponse.Some? then RecoverQuizData(aiResponse.value, parse) else None;
      && (r == QuizServerError <==> quizData.None?)
      && (r.QuizOk? <==> quizData.Some? && ValidQuiz(quizData.value))
      && (r.QuizOk? ==> r.quiz == quizData.value.items)
      && (r.InvalidQuiz? <==> quizData.Some? && !ValidQuiz(quizData.value))
      && (r.InvalidQuiz? ==> r.rawResponse == aiResponse.value)
  {
    if !QuizAccepted(req) then QuizBadRequest(MissingSourceMessage)
    else
      match ArticleText(req, page)
      case None => FetchFailed(FetchFailedMessage)
      case Some(webContent) =>
        match AiService.AskGemini(generate, QuizPrompt(req.numQuestions, seed, webContent))
        case None => QuizServerError
        case Some(aiResponse) =>
          match RecoverQuizData(aiResponse, parse)
          case None => QuizServerError
          case Some(quizData) =>
            if ValidQuiz(quizData) then QuizOk(quizData.items, |quizData.items|, QuizNote)
            else InvalidQuiz(InvalidQuizMessage, aiResponse)
  }

  /** Model text that parses straight to a non-empty array is returned as
      the quiz, with its length as the count. */
  lemma ParsedQuizReturned(req: QuizRequest, page: string -> Option<string>, generate: string -> Option<string>,
                           parse: string -> Option<Json>, seed: string, items: seq<Json>)
    requires QuizAccepted(req) && ArticleText(req, page).Some?
    requires var aiResponse := AiService.AskGemini(generate, QuizPrompt(req.numQuestions, seed, ArticleText(req, page).value));
      aiResponse.Some? && parse(aiResponse.value) == Some(JArray(items))
    requires items != []
    ensures HandleQuiz(req, page, generate, parse, seed) == QuizOk(items, |items|, QuizNote)
  {
  }

  /** A given URL decides the article: pasted content is then ignored. */
  lemma UrlOverridesContent(req: QuizRequest, content: Option<string>, page: string -> Option<string>,
                            generate: string -> Option<string>, parse: string -> Option<Json>, seed: string)
    requires Truthy(req.url)
    ensures HandleQuiz(req, page, generate, parse, seed)
         == HandleQuiz(req.(content := content), page, generate, parse, seed)
  {
  }

  /** Model text with no array in it, not even inside brackets, is reported
      as invalid together with the raw text. */
  lemma NoBracketsRejected(aiResponse: string, parse: string -> Option<Json>)
    requires parse(aiResponse).None?
    requires forall k | 0 <= k < |aiResponse| :: aiResponse[k] != '['
    ensures RecoverQuizData(aiResponse, parse) == Some(JArray([]))
    ensures !ValidQuiz(RecoverQuizData(aiResponse, parse).value)
  {
  }

  /** Text wrapped around one bracketed array parses to that array when the
      text around it holds no brackets. */
  lemma {:induction false} WrappedArrayRecovered(before: string, inner: string, after: string,
                                                 parse: string -> Option<Json>)
    requires parse(before + "[" + inner + "]" + after).None?
    requires forall k | 0 <= k < |before| :: before[k] != '['
    requires forall k | 0 <= k < |after| :: after[k] != ']'
    ensures RecoverQuizData(before + "[" + inner + "]" + after, parse) == parse("[" + inner + "]")
  {
    var s := before + "[" + inner + "]" + after;
    var i, j := |before|, |before| + 1 + |inner|;
    assert s[i] == '[' && s[j] == ']';
    assert forall k | 0 <= k < i :: s[k] == before[k];
    assert forall k | j < k < |s| :: s[k] == after[k - j - 1];
    assert BracketSpan(s) == Some((i, j));
    assert s[i..j + 1] == "[" + inner + "]";
  }
}
