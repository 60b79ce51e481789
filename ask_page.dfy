/** The state of the question page (frontend/src/pages/landing.jsx, and
    frontend/src/App.jsx, which holds the same component): the inputs, the
    answer shown and the loading flag, and what `handleAsk` does to them. */
module AskPage {
  import opened Wrappers
  import opened JsString
  import opened AskComposer

  class QuestionPage {
    var mode: InputMode
    var url: string
    var content: string
    var question: string
    var answer: string
    var loading: bool

    /** The state a freshly mounted page starts with. */
    constructor ()
      ensures mode == UrlMode && url == "" && content == "" && question == ""
      ensures answer == "" && !loading
    {
      mode := UrlMode;
      url := "";
      content := "";
      question := "";
      answer := "";
      loading := false;
    }

    /** `handleAsk` up to the request: a blank question shows the warning
        and sends nothing; otherwise the answer is cleared, the page starts
        loading, and the prompt is built and sent. The inputs stay as they
        are. */
    method HandleAsk() returns (sent: Option<string>)
      modifies this
      ensures mode == old(mode) && url == old(url) && content == old(content) && question == old(question)
      ensures IsBlank(question) ==> sent.None? && answer == EmptyQuestionWarning && loading == old(loading)
      ensures !IsBlank(question) ==>
        sent == Some(ComposePrompt(mode, url, content, question)) && answer == "" && loading
    {
      var m, u, c, q := mode, url, content, question;
      if IsBlank(q) {
        answer := EmptyQuestionWarning;
        return None;
      }
      loading := true;
      answer := "";
      var prompt := Trim(q);
      if m == UrlMode && !IsBlank(u) {
        prompt := prompt + UrlLine + Trim(u);
      }
      if m == TextMode && !IsBlank(c) {
        prompt := prompt + ContentLine + Trim(c);
      }
      assert prompt == ComposePrompt(m, u, c, q);
      sent := Some(prompt);
    }

    /** The rest of `handleAsk`, once the request settles: the answer (or
        the fallback text) is shown and loading ends. */
    method Settle(reply: Reply)
      modifies this
      ensures mode == old(mode) && url == old(url) && content == old(content) && question == old(question)
      ensures answer == ReplyText(reply) && !loading
    {
      answer := ReplyText(reply);
      loading := false;
    }
  }

  /** A sent prompt always carries the question: it is never blank, and it
      starts with the trimmed question. */
  lemma SentPromptHoldsQuestion(mode: InputMode, url: string, content: string, question: string)
    requires !IsBlank(question)
    ensures var p := ComposePrompt(mode, url, content, question);
      StartsWith(p, Trim(question)) && p != [] && !IsWhitespace(p[0])
  {
  }

  /** The prompt carries at most one marker line: the URL line exactly in
      URL mode with a URL, the content line exactly in text mode with
      content. */
  lemma AtMostOneMarker(mode: InputMode, url: string, content: string, question: string)
    ensures var p := ComposePrompt(mode, url, content, question);
      && (p == Trim(question) + UrlLine + Trim(url) <==> mode == UrlMode && !IsBlank(url))
      && (p == Trim(question) + ContentLine + Trim(content) <==> mode == TextMode && !IsBlank(content))
  {
    MarkerLinesDiffer(Trim(question), Trim(url), Trim(content));
  }

  /** The two marker lines part ways at `URL` against `content`. */
  lemma MarkerLinesDiffer(q: string, a: string, b: string)
    ensures q + UrlLine + a != q + ContentLine + b
  {
    var i := |q| + 15;
    assert (q + UrlLine + a)[i] == UrlLine[15] == 'U';
    assert (q + ContentLine + b)[i] == ContentLine[15] == 'c';
  }
}
