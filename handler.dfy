/**
  `GeminiAnalyzeAPI`: the request handler and the generate-and-parse step.
  The remote model call, the JSON decoder, the two template files and
  Python's `str()` of a non-string `content` are the collaborators; they
  are parameters here.
 */
module Handler {
  import opened Outcomes
  import opened PyJson
  import opened ErrorEnvelope
  import opened Validator
  import opened Extractor
  import opened PromptTemplate

  /** `self.model.generate_content(prompt).text` with the fixed generation
      settings: the reply text, or `str(e)` of the exception it raised. */
  type Model = string -> Result<string, string>

  const WrapPrefix: string := "generate_and_parse_json: "
  const InvalidFormat: string := "Invalid GenAI output format"
  const ContentRequired: Envelope := Envelope(BadRequest, "content is required")

  /** The body of the `try` block in `generate_and_parse_json`: it yields a
      value exactly when the model answered, the cleaned answer decoded, and
      the decoded value has the analysis shape; the value is the decoded one. */
  function GenerateAndParseAttempt(prompt: string, model: Model, decode: Decoder): (r: Result<Json, Exc>)
    ensures r.Success? <==> model(prompt).Success?
                            && decode(CleanFences(model(prompt).value)).Success?
                            && WellFormedAnalysis(decode(CleanFences(model(prompt).value)).value)
    ensures r.Success? ==> r.value == decode(CleanFences(model(prompt).value)).value
  {
    match model(prompt)
    case Failure(message) => Failure(Foreign(message))
    case Success(text) =>
      var data :- ExtractJsonFromMarkdown(text, decode);
      if IsValidGenAIFormat(data) then Success(data)
      else Failure(Raised(Envelope(InternalServerError, InvalidFormat)))
  }

  /** `generate_and_parse_json(prompt)`: the value comes back only when it
      has the analysis shape; every failure is re-raised as a 500 envelope
      whose message is the prefix followed by the text of the inner
      exception. */
  function GenerateAndParseJson(prompt: string, model: Model, decode: Decoder): (r: Result<Json, Exc>)
    ensures r.Success? ==> WellFormedAnalysis(r.value)
    ensures r.Failure? ==> r.error.Raised? && r.error.env.statusCode == InternalServerError
                           && WrapPrefix <= r.error.env.error
  {
    match GenerateAndParseAttempt(prompt, model, decode)
    case Success(data) => Success(data)
    case Failure(e) => Failure(Raised(Envelope(InternalServerError, WrapPrefix + Str(e))))
  }

  /** Success exactly when the model answered, the cleaned answer decoded,
      and the decoded value passed the validator; the value is returned
      unchanged. */
  lemma GenerateSucceedsIff(prompt: string, model: Model, decode: Decoder, v: Json)
    ensures GenerateAndParseJson(prompt, model, decode) == Success(v)
        <==> model(prompt).Success?
             && decode(CleanFences(model(prompt).value)) == Success(v)
             && WellFormedAnalysis(v)
  {
  }

  /** The message of a wrapped failure is the prefix and the serialised
      inner envelope, not the bare inner message: for a decode error and
      for a rejected shape, the text after the prefix reads back as the
      inner 500 envelope. A failed model call leaves its own text there. */
  lemma WrappedFailureMessages(prompt: string, model: Model, decode: Decoder)
    ensures model(prompt).Failure?
        ==> GenerateAndParseJson(prompt, model, decode)
            == Failure(Raised(Envelope(InternalServerError, WrapPrefix + model(prompt).error)))
    ensures model(prompt).Success? && decode(CleanFences(model(prompt).value)).Failure?
            && decode(CleanFences(model(prompt).value)).error.JSONDecodeError?
        ==> var m := decode(CleanFences(model(prompt).value)).error.message;
            var r := GenerateAndParseJson(prompt, model, decode);
            r.Failure?
            && r.error.env.error == WrapPrefix + Dumps(Envelope(InternalServerError, DecodeErrorMessage(m)))
            && ParseEnvelope(r.error.env.error[|WrapPrefix|..])
               == Some(Envelope(InternalServerError, DecodeErrorMessage(m)))
    ensures model(prompt).Success? && decode(CleanFences(model(prompt).value)).Failure?
            && decode(CleanFences(model(prompt).value)).error.DecoderCrash?
        ==> GenerateAndParseJson(prompt, model, decode)
            == Failure(Raised(Envelope(InternalServerError,
                                       WrapPrefix + decode(CleanFences(model(prompt).value)).error.message)))
    ensures model(prompt).Success? && decode(CleanFences(model(prompt).value)).Success?
            && !WellFormedAnalysis(decode(CleanFences(model(prompt).value)).value)
        ==> var r := GenerateAndParseJson(prompt, model, decode);
            r.Failure?
            && r.error.env.error == WrapPrefix + Dumps(Envelope(InternalServerError, InvalidFormat))
            && ParseEnvelope(r.error.env.error[|WrapPrefix|..])
               == Some(Envelope(InternalServerError, InvalidFormat))
  {
    if model(prompt).Success? {
      var r := GenerateAndParseJson(prompt, model, decode);
      var attempt := GenerateAndParseAttempt(prompt, model, decode);
      if attempt.Failure? && attempt.error.Raised? {
        DumpsRoundTrip(attempt.error.env);
        assert r.error.env.error[|WrapPrefix|..] == Dumps(attempt.error.env);
      }
    }
  }

  /** The text spliced into the prompt for the request's `content`: a string
      as it is, any other value as Python's `str()` writes it. */
  function ContentText(content: Json, show: Json -> string): (r: string)
    ensures content.JString? ==> r == content.s
    ensures !content.JString? ==> r == show(content)
  {
    if content.JString? then content.s else show(content)
  }

  /** The `content` check of `handle_request`, with its three outcomes: the
      400 envelope, an error Python raises on a request that is not a dict
      (`in` on a number or `true`, `.get` on a list or string), or the
      content value. */
  function RequestContent(request: Json): (r: Result<Json, Exc>)
    ensures r.Success? <==> request.JObject? && "content" in request.members
    ensures r.Success? ==> r.value == request.members["content"]
    ensures r.Failure? ==> r.error == Raised(ContentRequired) || r.error.PyFault?
    ensures r == Failure(Raised(ContentRequired)) <==> !Truthy(request) || PyIn("content", request) == Success(false)
  {
    if !Truthy(request) then Failure(Raised(ContentRequired))
    else
      var present :- PyIn("content", request).MapFailure(e => PyFault(e));
      if !present then Failure(Raised(ContentRequired))
      else GetOr(request, "content", JString("")).MapFailure(e => PyFault(e))
  }

  /** `handle_request(request_json)`, with the two template files already
      read: a success is a well-formed analysis, and every raised envelope
      is either the missing-content one, the only 400, or a wrapped 500. */
  function HandleRequest(request: Json, systemPrompt: string, aiPrompt: string,
                         show: Json -> string, model: Model, decode: Decoder): (r: Result<Json, Exc>)
    ensures r.Success? ==> WellFormedAnalysis(r.value)
    ensures r.Failure? && r.error.Raised?
        ==> r.error == Raised(ContentRequired)
            || (r.error.env.statusCode == InternalServerError && WrapPrefix <= r.error.env.error)
  {
    var content :- RequestContent(request);
    GenerateAndParseJson(BuildPrompt(systemPrompt, aiPrompt, ContentText(content, show)), model, decode)
  }

  /** The 400 envelope comes out exactly when the request is falsy or
      `content` is not `in` it, and then whatever the templates, the model
      and the decoder are: nothing else is consulted. */
  lemma ContentRequiredIff(request: Json, systemPrompt: string, aiPrompt: string,
                           show: Json -> string, model: Model, decode: Decoder,
                           systemPrompt': string, aiPrompt': string,
                           show': Json -> string, model': Model, decode': Decoder)
    ensures HandleRequest(request, systemPrompt, aiPrompt, show, model, decode) == Failure(Raised(ContentRequired))
        <==> !Truthy(request) || PyIn("content", request) == Success(false)
    ensures !Truthy(request) || PyIn("content", request) == Success(false)
        ==> HandleRequest(request, systemPrompt, aiPrompt, show, model, decode)
            == HandleRequest(request, systemPrompt', aiPrompt', show', model', decode')
  {
  }

  /** For a dict request: no `content` key gives the 400 envelope; a present
      `content`, even the empty string, is spliced into the prompt and the
      result is that of generate-and-parse on it. */
  lemma DictRequest(members: map<string, Json>, systemPrompt: string, aiPrompt: string,
                    show: Json -> string, model: Model, decode: Decoder)
    ensures "content" !in members
        ==> HandleRequest(JObject(members), systemPrompt, aiPrompt, show, model, decode)
            == Failure(Raised(ContentRequired))
    ensures "content" in members
        ==> HandleRequest(JObject(members), systemPrompt, aiPrompt, show, model, decode)
            == GenerateAndParseJson(BuildPrompt(systemPrompt, aiPrompt, ContentText(members["content"], show)),
                                    model, decode)
    ensures HandleRequest(JObject(map["content" := JString("")]), systemPrompt, aiPrompt, show, model, decode)
         == GenerateAndParseJson(BuildPrompt(systemPrompt, aiPrompt, ""), model, decode)
  {
    assert "content" in members ==> Truthy(JObject(members)) by {
      if "content" in members {
        assert members != map[];
      }
    }
    var single := map["content" := JString("")];
    assert "content" in single && single != map[];
  }

  /** A truthy request that is not a dict never reaches the model: a list or
      string holding "content" fails on `.get`, one without it gets the 400
      envelope, and a number or `true` fails on `in`. These failures escape
      without an envelope. */
  lemma NonDictRequest(request: Json, systemPrompt: string, aiPrompt: string,
                       show: Json -> string, model: Model, decode: Decoder)
    requires Truthy(request) && !request.JObject?
    ensures var r := HandleRequest(request, systemPrompt, aiPrompt, show, model, decode);
            r.Failure?
            && (r.error.PyFault? || r.error == Raised(ContentRequired))
            && (r.error == Raised(ContentRequired) <==> IsContainer(request) && !Member("content", request))
            && (!IsContainer(request) ==> r.error.err.TypeError?)
            && (IsContainer(request) && Member("content", request) ==> r.error.err.AttributeError?)
  {
  }

  /** What the POST route sends back: the result as JSON with status 200, or
      the exception's text with status 500, whatever the envelope says. */
  datatype Response = JsonReply(data: Json) | ErrorReply(status: nat, body: string)

  function Respond(r: Result<Json, Exc>): (reply: Response)
    ensures reply.JsonReply? <==> r.Success?
    ensures r.Success? ==> reply.data == r.value
    ensures r.Failure? ==> reply == ErrorReply(500, Str(r.error))
    ensures r.Failure? && r.error.Raised? ==> ParseEnvelope(reply.body) == Some(r.error.env)
  {
    match r
    case Success(data) => JsonReply(data)
    case Failure(e) => ErrorReply(500, Str(e))
  }

  /** The missing-content envelope says 400 in its body, yet travels with
      transport status 500. */
  lemma ContentRequiredSentAs500(request: Json, systemPrompt: string, aiPrompt: string,
                                 show: Json -> string, model: Model, decode: Decoder)
    requires !Truthy(request) || PyIn("content", request) == Success(false)
    ensures var reply := Respond(HandleRequest(request, systemPrompt, aiPrompt, show, model, decode));
            reply.ErrorReply? && reply.status == 500
            && ParseEnvelope(reply.body) == Some(Envelope(BadRequest, "content is required"))
  {
    var r := HandleRequest(request, systemPrompt, aiPrompt, show, model, decode);
    assert r == Failure(Raised(ContentRequired));
  }
}
