# Reading assistant core, modelled in Dafny

The system is a reading assistant. A React front end sends a question, and
optionally a web page URL or pasted text, to an Express back end. The back
end builds a prompt for a generative model and keeps per-session chat
histories in memory. It can also turn an article into a multiple-choice quiz,
and a middleware guards routes with a bearer token. This project models the
logic of that core and proves what it promises:

- `js_string.dfy` (`JsString`): the JavaScript string operations the code
  relies on.
  - `trim`, `includes` and `indexOf`.
  - `split`/`join` with a literal separator.
  - `replace` (first occurrence and global) and `substring`.
  - The `\s` whitespace class.
- `web_content.dfy` (`WebContent`): the clean-up tail of `fetchWebContent`.
  White-space runs collapse to one space, the text is trimmed, then cut at
  10000 characters. The fetched page text is an input.
- `ai_service.dfy` (`AiService`): the fallback answer of `askGemini`. The
  model call itself is an input.
- `chat_history.dfy` (`ChatHistory`): session turns, the 25-turn window and
  the rendering of a history into the prompt.
- `ask_prompt.dfy` (`AskPrompt`): the prompt-mode selection of `POST /ask`.
  - Zero-shot, prompt with URL marker, prompt with content marker, verbatim
    prompt, URL field, content field.
  - The exact template texts the model receives.
- `ask_routes.dfy` (`AskRoutes`): the in-memory session store `chatSessions`
  as the class `ChatSessions`.
  - `saveToChat`, `/start`, `/history`, `/clear` and `/ask` are its methods.
  - `/ask` is specified by a pure outcome function.
- `quiz_route.dfy` (`QuizRoute`): `POST /quiz`.
  - Validation and the article source.
  - The quiz prompt.
  - The recovery of a JSON array from free model text.
- `ask_composer.dfy` (`AskComposer`): the prompt the question page builds,
  the text it shows for a reply, and round-trip lemmas. The back end recovers
  the question, the URL or the content that the page put into the prompt.
- `ask_page.dfy` (`AskPage`): the question page's state and `handleAsk`, as
  the class `QuestionPage`. The page exists twice, in
  frontend/src/pages/landing.jsx and frontend/src/App.jsx; both hold the
  same `handleAsk` and `formatAnswer`, so one model serves both.
- `answer_format.dfy` (`AnswerFormat`): `formatAnswer`. Each line of the
  answer becomes one block: line break, heading with bold segments, sub-item,
  numbered line, bullet or paragraph. It includes the emoji insertion loop.
- `quiz_page.dfy` (`QuizPage`): the quiz page's question table and its state
  machine (`Quiz`): answer, next, score, restart, and exit from full screen.
- `auth_middleware.dfy` (`AuthMiddleware`): the bearer-header check and
  the 401/403/next decision.

Calls the model cannot see are parameters of the operations that need them:
- the fetched page text: `page: string -> Option<string>`, where `None`
  means the request or the parse throws;
- the generative model: `generate: string -> Option<string>`;
- `JSON.parse`: `parse: string -> Option<Json>`;
- `jwt.verify` with the server secret: `verify: string -> Option<C>`;
- `Date.now()`: a `stamp: nat`;
- the random id suffix and the quiz seed: strings.

Request fields the code tests for truthiness are `Option<string>` values.
A field is truthy when it is present and not empty.

## Model

| member | source | states |
|---|---|---|
| JsString.SplitCount | frontend/src/pages/landing.jsx:86 | splitting on `"\n"` yields one more line than the text has line breaks |
| ChatHistory.Window | backend/routes/ask.js:17-19 | the kept history is the most recent min(25, n) turns, in their order |
| ChatHistory.WindowAppend | backend/routes/ask.js:14-19 | trimming after each push is the same as trimming once after pushing |
| ChatHistory.SaveAllIsWindow | backend/routes/ask.js:12-20 | saving turns one by one leaves the last 25 of the old history followed by the new turns |
| ChatHistory.WindowOfLonger | backend/routes/ask.js:17-19 | a window of a window with more turns is the window of the whole log |
| ChatHistory.HistoryContext | backend/routes/ask.js:148-154 | the history block is empty without a session id or an entry, and otherwise is the framing text around the rendered turns, even for an empty entry |
| ChatHistory.HistoryLines | backend/routes/ask.js:150-152 | for a non-empty history in which no message contains a line break, the rendered history has one `User: m` or `AI: m` line per turn, in stored order |
| WebContent.CollapseWhitespace | backend/routes/ask.js:269 | after collapsing, no two white-space characters are adjacent and every white space left is a single space |
| WebContent.CollapseRunByRun | backend/routes/ask.js:269 | collapsing equals a character-by-character reading of `/\s+/g`: the first white-space character of each run becomes one space, the rest of the run is dropped, everything else is kept |
| WebContent.CollapseKeepsSeparator | backend/routes/ask.js:269 | two words with white space between them come out as the two words with exactly one space between them |
| WebContent.CollapseKeepsVisible | backend/routes/ask.js:269 | collapsing keeps every visible character, in order |
| WebContent.CleanText | backend/routes/ask.js:268-271 | the cleaned text has at most 10000 characters, no adjacent white space and no leading white space |
| WebContent.CleanTextKeepsVisible | backend/routes/ask.js:268-271 | the cleaned text's visible characters are a prefix of the page's, and all of them when nothing was cut |
| WebContent.FetchWebContent | backend/routes/ask.js:247-272 | a page yields text exactly when it could be fetched; that text is the cleaned body text (`CleanText`), so it is bounded and has no adjacent white space |
| AiService.AskGemini | backend/services/aiService.js:12-29 | a failure of the model call propagates; otherwise the answer is the model text, or the fallback sentence when that text is empty; never empty |
| AskPrompt.FirstUrlMatch | backend/routes/ask.js:90 | the URL regular expression matches at the leftmost position where the marker, `http://` or `https://` and a non-space character follow |
| AskPrompt.MatchedUrl | backend/routes/ask.js:90-92 | the extracted URL is the text right after the marker, starts with its scheme, goes past it, holds no white space, and ends at white space or at the end of the prompt (the longest such run) |
| AskPrompt.RemoveUrlLine | backend/routes/ask.js:95 | the first newline-marker-URL line is cut out up to the URL's end; without one the prompt is unchanged |
| AskPrompt.SplitContentMarker | backend/routes/ask.js:105-108 | the question is the trimmed text before the first content marker, the content the trimmed text between it and any second one |
| AskPrompt.SplitSingleContentMarker | backend/routes/ask.js:106-108 | with a single marker the split gives back the trimmed text on either side |
| AskPrompt.PromptForm | backend/routes/ask.js:89-117 | a URL match comes first: the cleaned page text with the URL line removed from the prompt, or the prompt with the note when the fetch fails; then the content marker, whose question and content are the split of the prompt at the marker; else the prompt verbatim |
| AskPrompt.FieldsForm | backend/routes/ask.js:119-145 | pasted content wins over the URL whatever the fetch did; a URL alone gives the cleaned page text when the page is fetched and the unfetched note with the URL when it is not; otherwise the plain question |
| AskPrompt.SelectPrompt | backend/routes/ask.js:82-145 | zero-shot exactly when only the question is set; a prompt decides alone; without a prompt every other request takes the fields branch, where content decides and a URL alone gives the cleaned page or the unfetched note |
| AskPrompt.PromptOverridesFields | backend/routes/ask.js:88-117 | with a prompt present, the question, URL and content fields change nothing |
| AskPrompt.ContentOverridesUrl | backend/routes/ask.js:136-142 | without a prompt, pasted content makes the page fetch irrelevant |
| AskPrompt.UnfetchedPromptKeepsPrompt | backend/routes/ask.js:101-104 | a prompt whose URL cannot be fetched is sent as it is plus the note line |
| AskPrompt.UserMessage | backend/routes/ask.js:163 | the recorded user turn is the question, else the prompt; never empty for an accepted request |
| AskComposer.ComposePrompt | frontend/src/pages/landing.jsx:60-62 | the prompt is the trimmed question, plus the URL line only in URL mode with a URL, plus the content line only in text mode with content |
| AskComposer.ReplyText | frontend/src/App.jsx:36-46 | a failed request shows the error text, an empty answer the no-answer text, otherwise the answer; never empty |
| AskComposer.PromptDecides | frontend/src/App.jsx:30-34 | the page's body carries only `prompt`, so the back end takes the prompt branch |
| AskComposer.ContentSplitRoundTrip | frontend/src/pages/landing.jsx:62 | the back-end split of a text-mode prompt recovers exactly the trimmed question and the trimmed content |
| AskComposer.TextModeRoundTrip | backend/routes/ask.js:105-113 | a text-mode prompt is answered from the trimmed content with the trimmed question |
| AskComposer.UrlLineRemoved | backend/routes/ask.js:95 | removing the URL line from a URL-mode prompt leaves the question |
| AskComposer.UrlMatchAfter | backend/routes/ask.js:90-92 | the URL the page appended is the one the back end extracts |
| AskComposer.UrlModeRoundTrip | backend/routes/ask.js:90-100 | a URL-mode prompt is answered from the cleaned page text with the trimmed question, or sent with the note when the fetch fails |
| AskComposer.PlainPromptRoundTrip | backend/routes/ask.js:114-116 | a prompt without a marker is sent verbatim |
| AskRoutes.DecimalRoundTrip | backend/routes/ask.js:27 | the decimal rendering of the time stamp reads back as the stamp |
| AskRoutes.NewSessionId | backend/routes/ask.js:27 | a new id is `session_`, the stamp in decimal, `_` and the random suffix |
| AskRoutes.ChatSessions.constructor | backend/routes/ask.js:9 | the store starts empty |
| AskRoutes.ChatSessions.SaveToChat | backend/routes/ask.js:12-20 | the entry is created when absent and becomes the window of the old history plus the turn; nothing else changes; every entry stays within 25 turns |
| AskRoutes.ChatSessions.Start | backend/routes/ask.js:23-34 | without an id a new `session_` id gets an empty entry; with one, an existing entry is left alone and a missing one is created empty |
| AskRoutes.ChatSessions.History | backend/routes/ask.js:37-41 | the reply is the stored list exactly when an entry exists, otherwise `Session not found` |
| AskRoutes.ChatSessions.Clear | backend/routes/ask.js:44-48 | only that entry is removed, present or not, and the reply names it |
| AskRoutes.ChatSessions.Ask | backend/routes/ask.js:51-171 | the reply and the new store are the outcome of the request against the old store |
| AskRoutes.Outcome | backend/routes/ask.js:74-167 | a request without question and prompt is rejected before anything else; an accepted request whose model call fails gets the 500 reply and leaves the store alone; an answered one replies with the answer and the session id and records the user turn and the answer under that id; no other session changes and every entry stays within 25 turns |
| AskRoutes.RecordIsTwoSaves | backend/routes/ask.js:162-165 | recording a question and answer is saving the user turn and then the AI turn |
| AskRoutes.AskAppendsTwoTurns | backend/routes/ask.js:161-165 | after an answer with a session id the history ends with the user turn then the AI turn, appended to the old history while it fits |
| AskRoutes.AskOutcomeAnswered | backend/routes/ask.js:156-167 | an answered request replies with the answer and the session id and records both turns only under a session id |
| AskRoutes.WindowTwice | backend/routes/ask.js:163-164 | two saves keep the window of the history with both turns |
| AskRoutes.SessionKeepsLatest | backend/routes/ask.js:12-20 | after any number of saves the history holds min(25, n) turns, the most recent ones |
| QuizRoute.ArticleText | backend/routes/ask.js:181-190 | a URL decides the article (the cleaned page, or a failure); otherwise the pasted content |
| QuizRoute.QuizPrompt | backend/routes/ask.js:193-214 | the prompt opens with the instructions, question count (5 by default) and seed, and ends with at most the first 8000 characters of the article and the trailing comment text |
| QuizRoute.BracketSpan | backend/routes/ask.js:224 | the candidate runs from the first `[` to the last `]`, and there is none exactly when no `[` comes before a `]` |
| QuizRoute.RecoverQuizData | backend/routes/ask.js:219-226 | a direct parse wins; otherwise the bracketed span is parsed (a failure is an error); with no span the data is `[]` |
| QuizRoute.HandleQuiz | backend/routes/ask.js:174-242 | 400 exactly without URL and content; the fetch error exactly when the URL's page fails; otherwise the reply is the quiz exactly when the data recovered from the model's text is a non-empty array, and then the quiz is that array with its length; the invalid-quiz reply with the raw model text exactly when the recovered data is anything else; the 500 reply exactly when the model call or the fallback parse fails |
| QuizRoute.ParsedQuizReturned | backend/routes/ask.js:219-242 | model text that parses to a non-empty array is returned as the quiz with its length |
| QuizRoute.UrlOverridesContent | backend/routes/ask.js:182-190 | with a URL the pasted content changes nothing |
| QuizRoute.NoBracketsRejected | backend/routes/ask.js:225-234 | model text without any array recovers to `[]`, which is rejected |
| QuizRoute.WrappedArrayRecovered | backend/routes/ask.js:222-225 | an array with bracket-free text around it is recovered and parsed alone |
| AskPage.QuestionPage.constructor | frontend/src/pages/landing.jsx:5-10 | the page starts in URL mode with empty inputs and no answer |
| AskPage.QuestionPage.HandleAsk | frontend/src/pages/landing.jsx:50-62 | a blank question shows the warning and sends nothing; otherwise the answer is cleared, loading starts and the composed prompt is sent |
| AskPage.QuestionPage.Settle | frontend/src/pages/landing.jsx:70-79 | the reply's text is shown and loading ends |
| AskPage.SentPromptHoldsQuestion | frontend/src/App.jsx:11-22 | a sent prompt starts with the trimmed question and is never blank |
| AskPage.AtMostOneMarker | frontend/src/App.jsx:22-28 | the URL line appears exactly in URL mode with a URL, the content line exactly in text mode with content, never both |
| AnswerFormat.StarToBullet | frontend/src/pages/landing.jsx:111 | a leading star and the white space after it become the bullet mark; the rest of the line, stars included, is kept |
| AnswerFormat.InsertEmoji | frontend/src/pages/landing.jsx:100 | the emoji and a space go in front of the keyword's first occurrence; a line without it is unchanged |
| AnswerFormat.AddEmojis | frontend/src/pages/landing.jsx:98-103 | the loop applies the table's keywords in order |
| AnswerFormat.EmojiMapShape | frontend/src/pages/landing.jsx:88-96 | the keywords start with distinct capitals followed by small letters, and no emoji holds a capital |
| AnswerFormat.KeywordMarked | frontend/src/pages/landing.jsx:88-103 | every keyword present in the line ends up with its emoji and a space in front of it |
| AnswerFormat.NoKeywordUnchanged | frontend/src/App.jsx:70-77 | a line with none of the keywords is unchanged |
| AnswerFormat.EmojisKeepBullet | frontend/src/App.jsx:86-89 | the emoji pass never puts anything in front of a bullet mark |
| AnswerFormat.BoldMatchEnd | frontend/src/pages/landing.jsx:115 | a match is `**`, at least one non-star character and `**` |
| AnswerFormat.BoldMatchEndFinds | frontend/src/pages/landing.jsx:115 | a match starting at a position is found there, and it is the only one starting there |
| AnswerFormat.BoldPieces | frontend/src/pages/landing.jsx:115 | the split alternates text and matches, and every piece in a match position is bold markup |
| AnswerFormat.BoldPiecesComplete | frontend/src/pages/landing.jsx:115 | the split misses no match: no text piece holds any `**…**` markup |
| AnswerFormat.BoldPiecesConcat | frontend/src/App.jsx:93 | the pieces spell out the line |
| AnswerFormat.HeadingSegments | frontend/src/pages/landing.jsx:115-125 | a heading has one segment per piece of the split |
| AnswerFormat.HeadingShowsBold | frontend/src/App.jsx:94-103 | every piece in a match position is shown in bold without its stars, and the pieces spell out the line; with BoldPiecesComplete, no `**…**` markup is left in plain text |
| AnswerFormat.SubItemRebuilds | frontend/src/pages/landing.jsx:132-138 | the title has no colon, and title, colon and description give back the cleaned line when there is a description |
| AnswerFormat.ThreeStarsHoldTwo | frontend/src/App.jsx:92-111 | a `***` line also contains `**`, so the heading test must exclude it for the sub-item branch to be reachable |
| AnswerFormat.StartsNumberedMeans | frontend/src/App.jsx:124 | the numbered test holds exactly when the trimmed line is digits followed by a full stop |
| AnswerFormat.Classify | frontend/src/pages/landing.jsx:114-160 | heading, sub-item, numbered, bullet and paragraph are tested in that order, each with the text it shows: the bold-split segments of a heading, the title and description of a sub-item, the trimmed line of a numbered item, the line itself otherwise |
| AnswerFormat.StarLineIsBullet | frontend/src/App.jsx:86-137 | a `* ` line without bold shows as a bullet |
| AnswerFormat.FormatAnswer | frontend/src/pages/landing.jsx:83-164 | no blocks for an empty answer; otherwise one block per line in order, a line break exactly for a blank line |
| QuizPage.QuestionsWellFormed | frontend/src/pages/quiz.jsx:12-43 | five questions, each with four distinct non-empty options, one of them correct |
| QuizPage.CorrectCount | frontend/src/pages/quiz.jsx:93-97 | the count never exceeds the number of questions counted |
| QuizPage.CorrectCountIsCardinality | frontend/src/pages/quiz.jsx:95-97 | the score is the number of questions whose recorded answer is the correct one |
| QuizPage.PerfectScoreIff | frontend/src/pages/quiz.jsx:93-98 | full marks exactly when every question is answered correctly |
| QuizPage.CountIgnoresOthers | frontend/src/pages/quiz.jsx:95-96 | answers under keys past the questions do not change the score |
| QuizPage.AllCorrectScoresFull | frontend/src/pages/quiz.jsx:93-98 | the correct answers score five |
| QuizPage.OfferedOptionEnablesNext | frontend/src/pages/quiz.jsx:202-219 | picking an offered option enables the Next/Finish button |
| QuizPage.Quiz.constructor | frontend/src/pages/quiz.jsx:5-9 | the quiz starts at the first question, with no answers and no score |
| QuizPage.Quiz.HandleAnswer | frontend/src/pages/quiz.jsx:81-83 | only the current question's answer is set; the rest of the state is unchanged |
| QuizPage.Quiz.HandleNext | frontend/src/pages/quiz.jsx:85-91 | below the last question the index goes up by one; at the last the score is computed; the index stays within the questions |
| QuizPage.Quiz.CalculateScore | frontend/src/pages/quiz.jsx:93-100 | the score is the number of correctly answered questions |
| QuizPage.Quiz.HandleRestart | frontend/src/pages/quiz.jsx:102-106 | no answers, no score, first question |
| QuizPage.Quiz.HandleFullscreenChange | frontend/src/pages/quiz.jsx:58-63 | leaving full screen before a score exists exits the quiz with score 0; otherwise nothing changes |
| AuthMiddleware.TokenOf | backend/middleware/auth.js:15 | the token is the text after `Bearer ` up to the next space or the end, possibly empty |
| AuthMiddleware.Decide | backend/middleware/auth.js:9-25 | 401 exactly for a missing header or one not starting with `Bearer `; 403 exactly when the token does not verify; otherwise the decoded identity |
| AuthMiddleware.SchemeIsExact | backend/middleware/auth.js:12-13 | the scheme test is case-sensitive and needs the space |
| AuthMiddleware.WellFormedHeaderProceeds | backend/middleware/auth.js:15-20 | a one-word token that verifies passes with its identity |
| AuthMiddleware.Exchange.Run | backend/middleware/auth.js:9-25 | exactly one of a reply and a call of `next()`; `req.user` is set only when passing |

## Left out

- ChatHistory.HistoryLines: a model answer usually spans several lines, and `.join("\n")` then spreads it over several lines of the history text; the lemma covers only histories whose messages hold no line break.
- Strings are sequences of Unicode code points. JavaScript counts UTF-16 code units, so `substring(0, 10000)`, `substring(0, 8000)` and lengths differ for text outside the Basic Multilingual Plane. The emojis 🔑 💡 📝 📌 are such characters.
- The HTTP fetch, the HTML parse and the removal of script and style nodes in `fetchWebContent` use the network and a DOM library. The page's text is an input; only the clean-up is modelled.
- The generative model call, `JSON.parse` and `jwt.verify` are library calls. They are partial-function inputs; the content and the error message of what they throw are not modelled, so a 500 reply carries no message.
- `Date.now()` and `Math.random()` are inputs. Ids are not claimed to be unique, and the code does not make them so.
- The `messages`-array block of `/ask` writes `req.body` after the fields were already read, so for a well-formed array it cannot change the reply. A malformed array (a `null` element, or a system message whose `content` is not a string) makes the handler throw before any reply is sent; that path is not modelled.
- Keys such as `__proto__` or `toString` behave specially on a plain JavaScript object. The session store is modelled as a map without that behaviour.
- Requests are handled one at a time. Interleaving of concurrent `/ask` requests at their `await` points is not modelled.
- The controller for users, the server wiring, the auth routes and the login page are not part of this model.
- React effects are not modelled: local storage, the welcome timer, navigation, the Fullscreen API calls, the three-second exit timer and all markup and styling. The fullscreen handler's state update is kept, with whether the page is in full screen as a parameter. Input `onChange` setters are plain field writes and are not modelled either.
- `QuestionPage` models the `try` block's outcome as a `Reply` value: an HTTP error status, a network error or a body that is not JSON all become `Failed`.
- AskComposer.TextModeRoundTrip: proved only when neither marker occurs in the question or the content. With a marker inside the user's own text, the back end legitimately splits elsewhere.
- AskComposer.UrlModeRoundTrip: proved for a trimmed URL that has a scheme, something after it and no white space, and for a question without the URL marker. Other inputs may be matched differently by the back end.
- AskComposer.PlainPromptRoundTrip: proved only for a question containing neither marker.
- QuizRoute.HandleQuiz: `numQuestions` is taken as the text interpolated into the prompt. A non-string JSON value is not modelled.
- CollapseWhitespace: its own contract states only the shape of the result (single spaces, never two white-space characters in a row). That each run becomes exactly one space and nothing else changes is stated by CollapseRunByRun and CollapseKeepsSeparator.
