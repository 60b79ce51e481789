/** The in-memory chat store of backend/routes/ask.js and the handlers that
    read and change it: `saveToChat`, `POST /start`, `GET /history/:id`,
    `DELETE /clear/:id` and `POST /ask`. */
module AskRoutes {
  import opened Wrappers
  import opened JsString
  import opened ChatHistory
  import opened AskPrompt
  import AiService

  /** `String(n)` for a non-negative integer: its decimal digits. */
  function Decimal(n: nat): (r: string)
    ensures |r| >= 1
    ensures forall k | 0 <= k < |r| :: '0' <= r[k] <= '9'
    ensures n < 10 ==> r == ['0' + n as char]
  {
    if n < 10 then ['0' + n as char] else Decimal(n / 10) + ['0' + (n % 10) as char]
  }

  /** The digits of `Decimal(n)`, read back, give `n`. */
  function DigitsValue(s: string): int {
    if s == [] then 0 else DigitsValue(s[..|s| - 1]) * 10 + (s[|s| - 1] as int - '0' as int)
  }

  lemma {:induction false} DecimalRoundTrip(n: nat)
    ensures DigitsValue(Decimal(n)) == n
    decreases n
  {
    if n >= 10 {
      DecimalRoundTrip(n / 10);
      var r := Decimal(n);
      assert r[..|r| - 1] == Decimal(n / 10);
    }
  }

  const SessionPrefix := "session_"

  /** The id `/start` makes up: `"session_" + Date.now() + "_" + suffix`,
      where the clock reading and the random suffix are inputs. */
  function NewSessionId(stamp: nat, suffix: string): (id: string)
    ensures StartsWith(id, SessionPrefix)
    ensures id[|SessionPrefix|..] == Decimal(stamp) + "_" + suffix
  {
    SessionPrefix + Decimal(stamp) + "_" + suffix
  }

  datatype StartReply = StartReply(sessionId: string, message: string)

  datatype HistoryReply =
    | Found(sessionId: string, history: seq<Turn>)
    | NotFound(error: string)

  /** The answers of `/ask`: the model's answer with the session id echoed,
      a 400 with its message, or a 500 when the model call throws. */
  datatype AskReply =
    | Answer(answer: string, sessionId: Option<string>)
    | BadRequest(error: string)
    | ServerError

  const NewSessionMessage := "New chat session started."
  const ResumedMessage := "Chat session resumed."
  const NotFoundMessage := "Session not found"
  const MissingInputMessage := "Question or prompt is required"

  /** Every stored history holds at most 25 turns. */
  predicate Bounded(sessions: map<string, seq<Turn>>) {
    forall id | id in sessions :: |sessions[id]| <= MaxTurns
  }

  /** The module-level `chatSessions` object. */
  class ChatSessions {
    var sessions: map<string, seq<Turn>>

    /** Every stored history is a window of at most 25 turns. */
    ghost predicate Valid()
      reads this
    {
      Bounded(sessions)
    }

    constructor()
      ensures sessions == map[] && Valid()
    {
      sessions := map[];
    }

    /** `saveToChat`: create the history when absent, push the turn, keep
        the last 25. */
    method SaveToChat(sessionId: string, role: Role, message: string)
      requires Valid()
      modifies this
      ensures Valid()
      ensures sessionId in sessions
      ensures sessions == Saved(old(sessions), sessionId, Turn(role, message))
    {
      if sessionId !in sessions {
        sessions := sessions[sessionId := []];
      }
      ghost var pushed := HistoryOf(old(sessions), sessionId) + [Turn(role, message)];
      sessions := sessions[sessionId := sessions[sessionId] + [Turn(role, message)]];
      assert sessions == old(sessions)[sessionId := pushed];
      if |sessions[sessionId]| > MaxTurns {
        var h := sessions[sessionId];
        sessions := sessions[sessionId := h[|h| - MaxTurns..]];
      }
      assert sessions == old(sessions)[sessionId := Window(pushed)];
    }

    /** `POST /start`: a given id is resumed, with an empty history only when
        it has none; without one a fresh id is stored with an empty
        history. */
    method Start(sessionId: Option<string>, stamp: nat, suffix: string) returns (reply: StartReply)
      requires Valid()
      modifies this
      ensures Valid()
      ensures !Truthy(sessionId) ==>
        && reply == StartReply(NewSessionId(stamp, suffix), NewSessionMessage)
        && sessions == old(sessions)[reply.sessionId := []]
      ensures Truthy(sessionId) ==>
        && reply == StartReply(sessionId.value, ResumedMessage)
        && sessions == if sessionId.value in old(sessions) then old(sessions)
                       else old(sessions)[sessionId.value := []]
    {
      if !Truthy(sessionId) {
        var newSessionId := NewSessionId(stamp, suffix);
        sessions := sessions[newSessionId := []];
        return StartReply(newSessionId, NewSessionMessage);
      } else {
        if sessionId.value !in sessions {
          sessions := sessions[sessionId.value := []];
        }
        return StartReply(sessionId.value, ResumedMessage);
      }
    }

    /** `GET /history/:sessionId`: the stored turns, or 404 when there is no
        entry (an empty entry is found). */
    method History(sessionId: string) returns (reply: HistoryReply)
      ensures reply.Found? <==> sessionId in sessions
      ensures reply.Found? ==> reply == Found(sessionId, sessions[sessionId])
      ensures reply.NotFound? ==> reply.error == NotFoundMessage
    {
      if sessionId !in sessions {
        return NotFound(NotFoundMessage);
      }
      return Found(sessionId, sessions[sessionId]);
    }

    /** `DELETE /clear/:sessionId`: drop that entry, present or not. */
    method Clear(sessionId: string) returns (message: string)
      requires Valid()
      modifies this
      ensures Valid()
      ensures sessions == old(sessions) - {sessionId}
      ensures message == "Session " + sessionId + " cleared."
    {
      sessions := sessions - {sessionId};
      message := "Session " + sessionId + " cleared.";
    }

    /** `POST /ask`: reject a request without question and prompt before
        touching anything; otherwise ask the model with the history block in
        front of the chosen prompt, and on an answer with a session id record
        the user turn and then the answer. */
    method Ask(req: AskRequest, page: string -> Option<string>, generate: string -> Option<string>)
      returns (reply: AskReply)
      requires Valid()
      modifies this
      ensures Valid()
      ensures (reply, sessions) == AskOutcome(req, page, generate, old(sessions))
    {
      if !(Truthy(req.question) || Truthy(req.prompt)) {
        return BadRequest(MissingInputMessage);
      }
      var finalPrompt := Render(SelectPrompt(req, page));
      var historyContext := HistoryContext(req.sessionId, sessions);
      var combinedPrompt := historyContext + finalPrompt;
      assert combinedPrompt == CombinedPrompt(req, page, old(sessions));
      var answer := AiService.AskGemini(generate, combinedPrompt);
      if answer.None? {
        return ServerError;
      }
      AskOutcomeAnswered(req, page, generate, old(sessions), answer.value);
      if Truthy(req.sessionId) {
        var id := req.sessionId.value;
        SaveToChat(id, User, UserMessage(req));
        SaveToChat(id, Ai, answer.value);
        RecordIsTwoSaves(old(sessions), id, UserMessage(req), answer.value);
      }
      reply := Answer(answer.value, req.sessionId);
    }
  }

  /** The store after `saveToChat(id, turn)`. */
  function Saved(sessions: map<string, seq<Turn>>, id: string, turn: Turn): map<string, seq<Turn>> {
    sessions[id := Window(HistoryOf(sessions, id) + [turn])]
  }

  /** Recording a question and its answer is saving the two turns in order. */
  lemma RecordIsTwoSaves(sessions: map<string, seq<Turn>>, id: string, question: string, answer: string)
    ensures Saved(Saved(sessions, id, Turn(User, question)), id, Turn(Ai, answer))
         == Record(sessions, id, question, answer)
  {
    WindowTwice(HistoryOf(sessions, id), Turn(User, question), Turn(Ai, answer));
  }

  /** The store after `/ask` records a question and its answer under `id`. */
  function Record(sessions: map<string, seq<Turn>>, id: string, question: string, answer: string)
    : map<string, seq<Turn>>
  {
    sessions[id := Window(HistoryOf(sessions, id) + [Turn(User, question), Turn(Ai, answer)])]
  }

  /** The model's answer to an accepted `/ask` request: `None` when the
      call throws. */
  function ModelAnswer(req: AskRequest, page: string -> Option<string>, generate: string -> Option<string>,
                       sessions: map<string, seq<Turn>>): Option<string>
    requires AskAccepted(req)
  {
    AiService.AskGemini(generate, CombinedPrompt(req, page, sessions))
  }

  /** What `/ask` answers and what the store holds afterwards, given the
      model's answer: nothing is stored for a rejected request or a failed
      model call, the answer is never empty, the bound on histories is kept,
      and no other session is touched. */
  function Outcome(req: AskRequest, answer: Option<string>, sessions: map<string, seq<Turn>>)
    : (r: (AskReply, map<string, seq<Turn>>))
    requires answer.Some? ==> answer.value != ""
    ensures !AskAccepted(req) ==> r == (BadRequest(MissingInputMessage), sessions)
    ensures AskAccepted(req) && answer.None? ==> r == (ServerError, sessions)
    ensures AskAccepted(req) && answer.Some? ==> r.0 == Answer(answer.value, req.sessionId)
    ensures AskAccepted(req) && answer.Some? && Truthy(req.sessionId) ==>
      r.1 == Record(sessions, req.sessionId.value, UserMessage(req), answer.value)
    ensures r.0.ServerError? || r.0.BadRequest? ==> r.1 == sessions
    ensures r.0.Answer? ==> answer.Some? && r.0 == Answer(answer.value, req.sessionId) && r.0.answer != ""
    ensures r.0.Answer? && !Truthy(req.sessionId) ==> r.1 == sessions
    ensures Bounded(sessions) ==> Bounded(r.1)
    ensures forall id | id in sessions && !(Truthy(req.sessionId) && id == req.sessionId.value) ::
      id in r.1 && r.1[id] == sessions[id]
    ensures r.1.Keys <= sessions.Keys + (if Truthy(req.sessionId) then {req.sessionId.value} else {})
  {
    if !AskAccepted(req) then (BadRequest(MissingInputMessage), sessions)
    else
      match answer
      case None => (ServerError, sessions)
      case Some(a) =>
        (Answer(a, req.sessionId),
         if Truthy(req.sessionId) then Record(sessions, req.sessionId.value, UserMessage(req), a)
         else sessions)
  }

  /** What `/ask` answers and what the store holds afterwards. */
  function AskOutcome(req: AskRequest, page: string -> Option<string>, generate: string -> Option<string>,
                      sessions: map<string, seq<Turn>>): (AskReply, map<string, seq<Turn>>)
  {
    Outcome(req, if AskAccepted(req) then ModelAnswer(req, page, generate, sessions) else None, sessions)
  }

  /** An answered `/ask` with a session id leaves that session ending in the
      user's turn followed by the answer, after the most recent earlier turns
      that fit in the window. */
  lemma {:induction false} AskAppendsTwoTurns(req: AskRequest, page: string -> Option<string>,
                                              generate: string -> Option<string>,
                                              sessions: map<string, seq<Turn>>)
    requires AskOutcome(req, page, generate, sessions).0.Answer? && Truthy(req.sessionId)
    ensures var id := req.sessionId.value;
      var after := AskOutcome(req, page, generate, sessions).1;
      var h := HistoryOf(sessions, id);
      && id in after && |after[id]| >= 2
      && after[id][|after[id]| - 2..]
         == [Turn(User, UserMessage(req)), Turn(Ai, AskOutcome(req, page, generate, sessions).0.answer)]
      && (|h| + 2 <= MaxTurns ==> after[id] == h + after[id][|after[id]| - 2..])
  {
    var id := req.sessionId.value;
    var answer := AskOutcome(req, page, generate, sessions).0.answer;
    var h := HistoryOf(sessions, id);
    var log := h + [Turn(User, UserMessage(req)), Turn(Ai, answer)];
    var after := AskOutcome(req, page, generate, sessions).1;
    assert after[id] == Window(log);
    assert log[|log| - 2..] == [Turn(User, UserMessage(req)), Turn(Ai, answer)];
  }

  lemma AskOutcomeAnswered(req: AskRequest, page: string -> Option<string>,
                           generate: string -> Option<string>, sessions: map<string, seq<Turn>>,
                           answer: string)
    requires AskAccepted(req)
    requires AiService.AskGemini(generate, CombinedPrompt(req, page, sessions)) == Some(answer)
    ensures AskOutcome(req, page, generate, sessions)
         == (Answer(answer, req.sessionId),
             if Truthy(req.sessionId) then Record(sessions, req.sessionId.value, UserMessage(req), answer)
             else sessions)
  {
  }

  /** Saving two turns one after the other keeps the window of both. */
  lemma WindowTwice(h: seq<Turn>, first: Turn, second: Turn)
    ensures Window(Window(h + [first]) + [second]) == Window(h + [first, second])
  {
    WindowAppend(h + [first], second);
    assert h + [first] + [second] == h + [first, second];
  }

  /** However many answers a session records, it keeps the last 25 turns of
      its whole conversation, oldest first. */
  lemma SessionKeepsLatest(h: seq<Turn>, turns: seq<Turn>)
    requires |h| <= MaxTurns
    ensures |SaveAll(h, turns)| == if |h + turns| <= MaxTurns then |h + turns| else MaxTurns
    ensures SaveAll(h, turns) == (h + turns)[|h + turns| - |SaveAll(h, turns)|..]
  {
    SaveAllIsWindow(h, turns);
  }
}
