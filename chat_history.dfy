/** Chat turns as the session store keeps them (backend/routes/ask.js): the
    sliding window of the most recent turns and the history text that `/ask`
    puts in front of the prompt. */
module ChatHistory {
  import opened Wrappers
  import opened JsString

  /** The two roles `saveToChat` is ever called with. */
  datatype Role = User | Ai

  datatype Turn = Turn(role: Role, message: string)

  /** How many turns a session keeps. */
  const MaxTurns: nat := 25

  /** JavaScript truthiness of an optional string taken from a request. */
  predicate Truthy(field: Option<string>) {
    field.Some? && field.value != ""
  }

  /** The turns stored under `id`, `[]` when there is no entry. */
  function HistoryOf(sessions: map<string, seq<Turn>>, id: string): seq<Turn> {
    if id in sessions then sessions[id] else []
  }

  /** `history.slice(-25)` applied when the history grew past 25 turns: the
      most recent `min(25, |h|)` turns, in order. */
  function Window(h: seq<Turn>): (r: seq<Turn>)
    ensures |r| == if |h| <= MaxTurns then |h| else MaxTurns
    ensures r == h[|h| - |r|..]
  {
    if |h| > MaxTurns then h[|h| - MaxTurns..] else h
  }

  /** Windowing after every push keeps exactly what windowing the whole log
      once would keep. */
  lemma WindowAppend(h: seq<Turn>, t: Turn)
    ensures Window(Window(h) + [t]) == Window(h + [t])
  {
    var w := Window(h);
    if |h| > MaxTurns {
      assert (w + [t])[1..] == (h + [t])[|h| + 1 - MaxTurns..];
    }
  }

  /** The history after saving `turns` one by one, starting from `h`. */
  function SaveAll(h: seq<Turn>, turns: seq<Turn>): seq<Turn>
    decreases |turns|
  {
    if turns == [] then h else SaveAll(Window(h + [turns[0]]), turns[1..])
  }

  /** Whatever was saved, a session holds the most recent 25 turns of its
      whole log. */
  lemma {:induction false} SaveAllIsWindow(h: seq<Turn>, turns: seq<Turn>)
    requires |h| <= MaxTurns
    ensures SaveAll(h, turns) == Window(h + turns)
    decreases |turns|
  {
    if turns == [] {
      assert h + turns == h;
    } else {
      var log, rest := h + [turns[0]], turns[1..];
      calc {
        SaveAll(h, turns);
        SaveAll(Window(log), rest);
        { SaveAllIsWindow(Window(log), rest); }
        Window(Window(log) + rest);
        { WindowOfLonger(log, rest); }
        Window(log + rest);
        { assert log + rest == h + turns; }
        Window(h + turns);
      }
    }
  }

  /** Dropping old turns before appending more changes nothing in the
      window. */
  lemma WindowOfLonger(log: seq<Turn>, more: seq<Turn>)
    ensures Window(Window(log) + more) == Window(log + more)
  {
    var w := Window(log);
    var n := |log + more|;
    if |log| > MaxTurns {
      assert w + more == (log + more)[|log| - MaxTurns..];
      if n - MaxTurns >= |log| - MaxTurns {
        assert (w + more)[|w + more| - MaxTurns..] == (log + more)[n - MaxTurns..];
      }
    }
  }

  /** One turn as the history text shows it. */
  function RenderTurn(t: Turn): string {
    (if t.role == User then "User" else "AI") + ": " + t.message
  }

  /** `history.map(...).join("\n")` */
  function RenderHistory(turns: seq<Turn>): string {
    Join(seq(|turns|, i requires 0 <= i < |turns| => RenderTurn(turns[i])), "\n")
  }

  /** The history block prepended to the prompt: empty unless a session id is
      given and has an entry (even an empty one). */
  function HistoryContext(sessionId: Option<string>, sessions: map<string, seq<Turn>>): (r: string)
    ensures !Truthy(sessionId) || sessionId.value !in sessions ==> r == ""
    ensures Truthy(sessionId) && sessionId.value in sessions ==>
      r == HistoryIntro + RenderHistory(sessions[sessionId.value]) + HistoryOutro
  {
    if Truthy(sessionId) && sessionId.value in sessions then
      HistoryIntro + RenderHistory(sessions[sessionId.value]) + HistoryOutro
    else ""
  }

  const HistoryIntro := "This is an ongoing chat. Previous messages:\n"
  const HistoryOutro := "\nNow, continue the conversation below:\n"

  /** The history text has one line per turn, in stored order, when no
      message spans several lines. */
  lemma HistoryLines(turns: seq<Turn>)
    requires |turns| >= 1
    requires forall k | 0 <= k < |turns| :: !Contains(turns[k].message, "\n")
    ensures var lines := Split(RenderHistory(turns), "\n");
      |lines| == |turns| && forall k | 0 <= k < |turns| :: lines[k] == RenderTurn(turns[k])
  {
    var rendered := seq(|turns|, i requires 0 <= i < |turns| => RenderTurn(turns[i]));
    forall k | 0 <= k < |turns|
      ensures !Contains(rendered[k], "\n")
    {
      var t := turns[k];
      var prefix := (if t.role == User then "User" else "AI") + ": ";
      assert rendered[k] == prefix + t.message;
      AvoidsChar(prefix, '\n');
      ConcatAvoids(prefix, t.message, "\n");
    }
    SplitJoin(rendered, "\n");
  }
}
