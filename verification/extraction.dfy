/** _extract_text (analyze.py:22-30): the output text is taken from the provider's
    response envelope by trying two access paths in priority order. */
module Extraction {
  import opened Wrappers
  import opened Json
  import opened Errors

  /** An access path into the envelope; `None` where Python's indexing would raise. */
  type Path = Json -> Option<Json>

  /** The chat-style path `resp["choices"][0]["message"]["content"]`. */
  function ChatContent(resp: Json): (r: Option<Json>)
    ensures r.Some? <==>
      && resp.JObj? && "choices" in resp.fields
      && var choices := resp.fields["choices"];
      && choices.JArr? && |choices.items| > 0 && choices.items[0].JObj?
      && "message" in choices.items[0].fields
      && var message := choices.items[0].fields["message"];
      && message.JObj? && "content" in message.fields
    ensures r.Some? ==>
      r.value == resp.fields["choices"].items[0].fields["message"].fields["content"]
  {
    var choices :- Member(resp, "choices");
    var first :- Element(choices, 0);
    var message :- Member(first, "message");
    Member(message, "content")
  }

  /** The completion-style path `resp["choices"][0]["text"]`. */
  function CompletionText(resp: Json): (r: Option<Json>)
    ensures r.Some? <==>
      && resp.JObj? && "choices" in resp.fields
      && var choices := resp.fields["choices"];
      && choices.JArr? && |choices.items| > 0 && choices.items[0].JObj?
      && "text" in choices.items[0].fields
    ensures r.Some? ==> r.value == resp.fields["choices"].items[0].fields["text"]
  {
    var choices :- Member(resp, "choices");
    var first :- Element(choices, 0);
    Member(first, "text")
  }

  /** `paths[i]` is the first path that reaches a value in `resp`. */
  predicate FirstHit(paths: seq<Path>, resp: Json, i: int) {
    && 0 <= i < |paths|
    && paths[i](resp).Some?
    && forall j :: 0 <= j < i ==> paths[j](resp).None?
  }

  /** Tries the paths in order and keeps the first value reached. */
  function FirstSuccess(paths: seq<Path>, resp: Json): (r: Option<Json>)
    ensures r.None? <==> forall i :: 0 <= i < |paths| ==> paths[i](resp).None?
    ensures r.Some? ==> exists i :: FirstHit(paths, resp, i) && r == paths[i](resp)
  {
    if paths == [] then None
    else
      match paths[0](resp)
      case Some(v) =>
        assert FirstHit(paths, resp, 0);
        Some(v)
      case None =>
        var r := FirstSuccess(paths[1..], resp);
        if r.Some? then
          var i :| FirstHit(paths[1..], resp, i) && r == paths[1..][i](resp);
          assert FirstHit(paths, resp, i + 1);
          r
        else
          r
  }

  /** The extraction strategies in priority order. */
  const Strategies: seq<Path> := [ChatContent, CompletionText]

  /** The chat path wins whenever it reaches a value, even when the completion path
      does too; the completion path is the fallback; when both fail the envelope is
      rejected as having an unexpected format. Whatever value is reached is returned
      as it is: it need not be a string. */
  function ExtractText(resp: Json): (r: Result<Json, Error>)
    ensures ChatContent(resp).Some? ==> r == Success(ChatContent(resp).value)
    ensures ChatContent(resp).None? && CompletionText(resp).Some? ==> r == Success(CompletionText(resp).value)
    ensures r.Failure? <==> ChatContent(resp).None? && CompletionText(resp).None?
    ensures r.Failure? ==> r.error == UnexpectedFormat
  {
    var found := FirstSuccess(Strategies, resp);
    if found.Some? then
      var i :| FirstHit(Strategies, resp, i) && found == Strategies[i](resp);
      assert Strategies[0] == ChatContent && Strategies[1] == CompletionText;
      Success(found.value)
    else
      assert Strategies[0] == ChatContent && Strategies[1] == CompletionText;
      Failure(UnexpectedFormat)
  }

  /** An envelope with one choice whose fields are `choice`. */
  function Envelope(choice: map<string, Json>): Json {
    JObj(map["choices" := JArr([JObj(choice)])])
  }

  /** A choice carrying both a chat message and a completion text yields the message
      content. */
  lemma ChatWinsOverCompletion(content: Json, text: Json)
    ensures ExtractText(Envelope(map["message" := JObj(map["content" := content]), "text" := text]))
         == Success(content)
  {
    var resp := Envelope(map["message" := JObj(map["content" := content]), "text" := text]);
    assert Member(resp, "choices") == Some(JArr([JObj(map["message" := JObj(map["content" := content]), "text" := text])]));
  }

  /** A choice whose message has no content falls back to the completion text. */
  lemma MessageWithoutContentFallsBack(message: map<string, Json>, text: Json)
    requires "content" !in message
    ensures ExtractText(Envelope(map["message" := JObj(message), "text" := text])) == Success(text)
  {
    var resp := Envelope(map["message" := JObj(message), "text" := text]);
    assert Member(resp, "choices") == Some(JArr([JObj(map["message" := JObj(message), "text" := text])]));
  }

  /** An envelope whose only choice is empty has no output text. */
  lemma EmptyChoiceIsUnexpected()
    ensures ExtractText(Envelope(map[])) == Failure(UnexpectedFormat)
  {
    assert Member(Envelope(map[]), "choices") == Some(JArr([JObj(map[])]));
  }
}
