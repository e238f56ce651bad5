/** get_itinerary (analyze.py:50-86): credential, one completion call, extraction,
    normalisation, parsing and schema validation, in that order; the first failing
    stage decides the error and nothing is returned on failure. */
module Pipeline {
  import opened Wrappers
  import opened Json
  import opened Text
  import opened Errors
  import opened ApiKey
  import opened Extraction
  import opened Normalize
  import opened Schema

  /** The completion call, given the credential and the destination; it answers the
      response envelope or the provider's failure message. */
  type Completion = (string, string) -> Result<Json, string>

  /** A JSON parser: the parsed value, or `None` where `json.loads` would raise. */
  type Parser = string -> Option<Json>

  /** The whole request/response cycle for one destination: on success, the dump of
      the validated itinerary. */
  function GetItinerary(env: Option<string>, destination: string, complete: Completion, parse: Parser)
    : (r: Result<Json, Error>)
    ensures GetApiKey(env).Failure? ==> r == Failure(MissingApiKey)
    ensures GetApiKey(env).Success? && complete(env.value, destination).Failure? ==>
      r == Failure(ProviderFailure(complete(env.value, destination).error))
    ensures GetApiKey(env).Success? && complete(env.value, destination).Success? ==>
      var resp := complete(env.value, destination).value;
      && (ExtractText(resp).Failure? ==> r == Failure(UnexpectedFormat))
      && (ExtractText(resp).Success? && ParseJson(ExtractText(resp).value, parse).Failure? ==>
            r == Failure(ParseJson(ExtractText(resp).value, parse).error))
    ensures r.Success? ==> Conforms(r.value) && r.value.fields.Keys == SchemaKeys
  {
    var key :- GetApiKey(env);
    var resp :- match complete(key, destination)
                case Success(v) => Success(v)
                case Failure(reason) => Failure(ProviderFailure(reason));
    var payload :- ExtractText(resp);
    var obj :- ParseJson(payload, parse);
    var it :- Validate(obj);
    DumpConforms(it);
    Success(Dump(it))
  }

  /** A missing or empty credential fails before the provider is consulted: the
      result is the same whatever the completion call would do. */
  lemma MissingKeyNeverCallsProvider(env: Option<string>, destination: string,
                                     complete1: Completion, complete2: Completion, parse: Parser)
    requires env == None || env == Some("")
    ensures GetItinerary(env, destination, complete1, parse) == Failure(MissingApiKey)
    ensures GetItinerary(env, destination, complete1, parse) == GetItinerary(env, destination, complete2, parse)
  {
  }

  /** A success means every stage succeeded: the returned object is the schema's
      part of the parsed model output, so its destination is the one the model
      wrote, not necessarily the one asked for. */
  lemma SuccessComesFromModelOutput(env: Option<string>, destination: string, complete: Completion,
                                    parse: Parser)
    ensures var r := GetItinerary(env, destination, complete, parse);
      r.Success? ==>
      && env.Some? && complete(env.value, destination).Success?
      && var resp := complete(env.value, destination).value;
      && ExtractText(resp).Success?
      && ParseJson(ExtractText(resp).value, parse).Success?
      && var obj := ParseJson(ExtractText(resp).value, parse).value;
         && Conforms(obj)
         && r.value == JObj(SchemaFields(obj))
  {
  }

  /** The chat envelope whose message content is `content`. */
  function ChatAnswer(content: string): Json {
    Envelope(map["message" := JObj(map["content" := JStr(content)])])
  }

  /** A JSON object answered inside a fence tagged `json` yields the itinerary the
      parser reads from the object text. */
  lemma FencedObjectAnswer(key: string, destination: string, complete: Completion, parse: Parser,
                           json: string, it: Itinerary)
    requires key != []
    requires |json| >= 2 && json[0] == '{' && json[|json| - 1] == '}'
    requires complete(key, destination) == Success(ChatAnswer(Fenced(Fence + "json", json, Fence)))
    requires parse(json) == Some(Dump(it)) && WellFormed(it)
    ensures GetItinerary(Some(key), destination, complete, parse) == Success(Dump(it))
  {
    var answer := Fenced(Fence + "json", json, Fence);
    assert ExtractText(ChatAnswer(answer)) == Success(JStr(answer)) by {
      assert Member(ChatAnswer(answer), "choices")
          == Some(JArr([JObj(map["message" := JObj(map["content" := JStr(answer)])])]));
    }
    assert ParseJson(JStr(answer), parse) == Success(Dump(it)) by {
      FencedObjectNormalizes(json);
    }
    ValidateDump(it);
    ValidatedStage(key, destination, complete, parse, JStr(answer), Dump(it));
  }

  /** Once the parser has produced `obj`, validation alone decides the outcome. */
  lemma ValidatedStage(key: string, destination: string, complete: Completion, parse: Parser,
                       payload: Json, obj: Json)
    requires key != [] && complete(key, destination).Success?
    ensures (ExtractText(complete(key, destination).value) == Success(payload)
             && ParseJson(payload, parse) == Success(obj)) ==>
      GetItinerary(Some(key), destination, complete, parse)
      == if Validate(obj).Success? then Success(Dump(Validate(obj).value)) else Failure(Validate(obj).error)
  {
  }

  /** A fenced object normalises to the object text. */
  lemma FencedObjectNormalizes(json: string)
    requires |json| >= 2 && json[0] == '{' && json[|json| - 1] == '}'
    ensures NormalizedText(JStr(Fenced(Fence + "json", json, Fence))) == Success(json)
  {
    assert Trimmed(json) by {
      assert !IsWhitespace('{') && !IsWhitespace('}');
    }
    assert !StartsWith(json, Fence) by {
      NoFenceMarker(json);
    }
    FencedTextNormalizesAlike("json", json);
    BareObjectNormalizes(json);
  }

  /** The Tokyo answer: two ideal visit times are accepted, since the list lengths
      are not constrained. */
  lemma FencedTokyoAnswer(complete: Completion, parse: Parser, json: string)
    requires |json| >= 2 && json[0] == '{' && json[|json| - 1] == '}'
    requires complete("k", "Tokyo") == Success(ChatAnswer(Fenced(Fence + "json", json, Fence)))
    requires parse(json) == Some(Dump(TokyoItinerary))
    ensures GetItinerary(Some("k"), "Tokyo", complete, parse) == Success(Dump(TokyoItinerary))
    ensures |TokyoItinerary.idealVisitTimes| == 2
  {
    FencedObjectAnswer("k", "Tokyo", complete, parse, json, TokyoItinerary);
  }

  const TokyoItinerary := Itinerary("Tokyo", "$$", ["Spring", "Fall"],
                                    ["Shibuya", "Senso-ji", "Shinjuku", "Akihabara", "Ueno"])
}
