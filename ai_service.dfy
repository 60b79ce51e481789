/** `askGemini` (backend/services/aiService.js): the model call itself is
    outside the model and arrives as `generate` (None when it throws); what
    remains is the fallback for an empty answer. */
module AiService {
  import opened Wrappers

  const FallbackAnswer := "Sorry, I couldn’t generate a response."

  function AskGemini(generate: string -> Option<string>, prompt: string): (r: Option<string>)
    ensures r.None? <==> generate(prompt).None?
    ensures r.Some? ==> r.value != ""
    ensures r.Some? && generate(prompt).value != "" ==> r.value == generate(prompt).value
    ensures r.Some? && generate(prompt).value == "" ==> r.value == FallbackAnswer
  {
    match generate(prompt)
    case None => None
    case Some(text) => Some(if text != "" then text else FallbackAnswer)
  }
}
