/**
 * The `/generate` request handler: pick the optional strings out of the
 * request, build the two instructions, ask the completion provider, and
 * split its reply. The provider, `json.loads` and the text of a re-raised
 * exception are parameters.
 */
module Service {
  import opened Wrappers
  import opened PyStr
  import opened Prompt
  import opened ResponseParser

  datatype PreviousData = PreviousData(loyaltyProgramDesign: Option<string>)

  datatype CurrentPromptData = CurrentPromptData(existingGeneratedOutput: string, userFeedback: string)

  datatype FinancialModelRequest = FinancialModelRequest(
    companyName: string,
    previousData: Option<PreviousData>,
    currentPromptData: Option<CurrentPromptData>)

  /** The response body; the structured data is whatever the decoder produced. */
  datatype FinancialModelResponse<J> = FinancialModelResponse(generatedOutput: string, structuredData: J)

  /** The three optional strings handed to the prompt builder. */
  datatype PromptFields = PromptFields(
    programDesign: Option<string>,
    existingOutput: Option<string>,
    feedback: Option<string>)

  /**
   * The chat-completion call: from the system and user instructions to the
   * reply text, or to the message of the exception it raised.
   */
  type Completion = (string, string) -> Result<string, string>

  /**
   * The field extraction at the top of `generate_model`: the design comes
   * from `previous_data` when that is present; the earlier output and the
   * feedback come together from `current_prompt_data` or not at all.
   */
  function ExtractPromptFields(request: FinancialModelRequest): (f: PromptFields)
    ensures f.existingOutput.Some? <==> request.currentPromptData.Some?
    ensures f.feedback.Some? <==> request.currentPromptData.Some?
    ensures request.currentPromptData.Some? ==>
              && f.existingOutput.value == request.currentPromptData.value.existingGeneratedOutput
              && f.feedback.value == request.currentPromptData.value.userFeedback
    ensures request.previousData.None? ==> f.programDesign.None?
    ensures request.previousData.Some? ==>
              f.programDesign == request.previousData.value.loyaltyProgramDesign
  {
    var programDesign :=
      if request.previousData.Some? then request.previousData.value.loyaltyProgramDesign else None;
    match request.currentPromptData
    case Some(data) => PromptFields(programDesign, Some(data.existingGeneratedOutput), Some(data.userFeedback))
    case None => PromptFields(programDesign, None, None)
  }

  /**
   * The user instruction a request leads to: the opening sentence, then the
   * clause for a non-empty design from `previous_data`, and last the clause
   * for a complete `current_prompt_data` whose two fields are non-empty.
   */
  function RequestPrompt(request: FinancialModelRequest): (r: string)
    ensures Opening(request.companyName) <= r
    ensures request.previousData.Some? && Truthy(request.previousData.value.loyaltyProgramDesign) ==>
              Opening(request.companyName) + DesignClause(request.previousData.value.loyaltyProgramDesign.value) <= r
    ensures request.currentPromptData.Some?
            && request.currentPromptData.value.existingGeneratedOutput != ""
            && request.currentPromptData.value.userFeedback != "" ==>
              var data := request.currentPromptData.value;
              var clause := RefinementClause(data.existingGeneratedOutput, data.userFeedback);
              |clause| <= |r| && r[|r| - |clause|..] == clause
  {
    var f := ExtractPromptFields(request);
    ConstructUserPrompt(request.companyName, f.programDesign, f.existingOutput, f.feedback)
  }

  /**
   * The body of `generate_financial_model` after the provider call, as
   * written: the analysis and the decoded segment of the reply, with no
   * check that the markers are there. Every failure, the provider's or the
   * parser's, is re-raised as a 500 whose detail is the text of the caught
   * exception.
   */
  function HandleReply<J>(
    reply: Result<string, string>,
    decode: string -> Result<J, string>,
    describe: HttpError -> string
  ): (r: Result<(string, J), HttpError>)
    ensures r.Failure? ==> r.error.status == 500
    ensures reply.Failure? ==> r == Failure(HttpError(500, reply.error))
    ensures reply.Success? && decode(JsonSegment(reply.value)).Failure? ==>
              r == Failure(HttpError(500, describe(ParseError(decode(JsonSegment(reply.value)).error))))
    ensures reply.Success? && decode(JsonSegment(reply.value)).Success? ==>
              r == Success((Analysis(reply.value), decode(JsonSegment(reply.value)).value))
    ensures r.Success? ==>
              && reply.Success?
              && r.value.0 == Analysis(reply.value)
              && decode(JsonSegment(reply.value)) == Success(r.value.1)
  {
    match reply
    case Failure(message) => Failure(HttpError(500, message))
    case Success(fullResponse) =>
      var analysis := Analysis(fullResponse);
      match ExtractJson(fullResponse, decode)
      case Failure(e) => Failure(HttpError(500, describe(e)))
      case Success(data) => Success((analysis, data))
  }

  /**
   * The same step with the corrected parser `ExtractJsonStrict`: a reply
   * that is not well delimited is refused before anything is decoded, and a
   * well-delimited one is handled exactly as `HandleReply` handles it.
   */
  function HandleReplyStrict<J>(
    reply: Result<string, string>,
    decode: string -> Result<J, string>,
    describe: HttpError -> string
  ): (r: Result<(string, J), HttpError>)
    ensures r.Failure? ==> r.error.status == 500
    ensures reply.Failure? ==> r == Failure(HttpError(500, reply.error))
    ensures reply.Success? && !WellDelimited(reply.value) ==>
              r == Failure(HttpError(500, describe(ParseError(MarkersMissing))))
    ensures reply.Success? && WellDelimited(reply.value) ==> r == HandleReply(reply, decode, describe)
    ensures r.Success? ==>
              && reply.Success?
              && WellDelimited(reply.value)
              && r.value.0 == Analysis(reply.value)
              && decode(JsonSegment(reply.value)) == Success(r.value.1)
  {
    match reply
    case Failure(message) => Failure(HttpError(500, message))
    case Success(fullResponse) =>
      var analysis := Analysis(fullResponse);
      match ExtractJsonStrict(fullResponse, decode)
      case Failure(e) => Failure(HttpError(500, describe(e)))
      case Success(data) => Success((analysis, data))
  }

  /**
   * `generate_financial_model`: one call to the provider with the system
   * instruction and the user instruction, then `HandleReply`.
   */
  function GenerateFinancialModel<J>(
    companyName: string,
    programDesign: Option<string>,
    existingOutput: Option<string>,
    feedback: Option<string>,
    complete: Completion,
    decode: string -> Result<J, string>,
    describe: HttpError -> string
  ): (r: Result<(string, J), HttpError>)
    ensures r.Failure? ==> r.error.status == 500
    ensures var reply := complete(SystemPrompt(), ConstructUserPrompt(companyName, programDesign, existingOutput, feedback));
            && (reply.Failure? ==> r == Failure(HttpError(500, reply.error)))
            && (reply.Success? && decode(JsonSegment(reply.value)).Failure? ==>
                  r == Failure(HttpError(500, describe(ParseError(decode(JsonSegment(reply.value)).error)))))
            && (reply.Success? && decode(JsonSegment(reply.value)).Success? ==>
                  r == Success((Analysis(reply.value), decode(JsonSegment(reply.value)).value)))
            && (r.Success? ==>
                  && reply.Success?
                  && r.value.0 == Analysis(reply.value)
                  && decode(JsonSegment(reply.value)) == Success(r.value.1))
  {
    var reply := complete(SystemPrompt(), ConstructUserPrompt(companyName, programDesign, existingOutput, feedback));
    HandleReply(reply, decode, describe)
  }

  /** `generate_model`: extract the fields, generate, and wrap the pair in a response. */
  function GenerateModel<J>(
    request: FinancialModelRequest,
    complete: Completion,
    decode: string -> Result<J, string>,
    describe: HttpError -> string
  ): (r: Result<FinancialModelResponse<J>, HttpError>)
    ensures r.Failure? ==> r.error.status == 500
    ensures var reply := complete(SystemPrompt(), RequestPrompt(request));
            && (reply.Failure? ==> r == Failure(HttpError(500, reply.error)))
            && (reply.Success? && decode(JsonSegment(reply.value)).Failure? ==>
                  r == Failure(HttpError(500, describe(ParseError(decode(JsonSegment(reply.value)).error)))))
            && (reply.Success? && decode(JsonSegment(reply.value)).Success? ==>
                  r == Success(FinancialModelResponse(Analysis(reply.value), decode(JsonSegment(reply.value)).value)))
    ensures r.Success? ==>
              var reply := complete(SystemPrompt(), RequestPrompt(request));
              && reply.Success?
              && r.value.generatedOutput == Analysis(reply.value)
              && decode(JsonSegment(reply.value)) == Success(r.value.structuredData)
  {
    var f := ExtractPromptFields(request);
    match GenerateFinancialModel(request.companyName, f.programDesign, f.existingOutput, f.feedback,
                                 complete, decode, describe)
    case Success((text, data)) => Success(FinancialModelResponse(text, data))
    case Failure(e) => Failure(e)
  }

  /** A request carrying only the company name asks for the opening sentence alone. */
  lemma CompanyOnlyRequest(request: FinancialModelRequest)
    requires request.previousData.None? && request.currentPromptData.None?
    ensures RequestPrompt(request) == Opening(request.companyName)
  {
    OpeningOnly(request.companyName, None, None, None);
  }

  /** A non-empty design in `previous_data` reaches the user instruction verbatim. */
  lemma RequestDesignInPrompt(request: FinancialModelRequest, design: string)
    requires request.previousData == Some(PreviousData(Some(design))) && design != ""
    ensures OccursAt(RequestPrompt(request), design, |Opening(request.companyName)| + |DesignHeader|)
  {
    var f := ExtractPromptFields(request);
    DesignInPrompt(request.companyName, f.programDesign, f.existingOutput, f.feedback);
  }

  /** A complete `current_prompt_data` with non-empty fields reaches the user instruction verbatim. */
  lemma RequestRefinementInPrompt(request: FinancialModelRequest, output: string, feedback: string)
    requires request.currentPromptData == Some(CurrentPromptData(output, feedback))
    requires output != "" && feedback != ""
    ensures Contains(RequestPrompt(request), output) && Contains(RequestPrompt(request), feedback)
  {
    var f := ExtractPromptFields(request);
    RefinementInputsInPrompt(request.companyName, f.programDesign, f.existingOutput, f.feedback);
  }

  /**
   * A well-formed reply `a + "[JSON_START]" + j + "[JSON_END]" + b` whose
   * stripped `j` decodes to `v` yields the stripped `a` and `v`.
   */
  lemma {:induction false} WellFormedReply<J>(
    decode: string -> Result<J, string>, describe: HttpError -> string,
    a: string, j: string, b: string, v: J)
    requires !Contains(a, StartMarker)
    requires !Contains(a + StartMarker + j, EndMarker)
    requires decode(Strip(j)) == Success(v)
    ensures HandleReply(Success(a + StartMarker + j + EndMarker + b), decode, describe)
              == Success((Strip(a), v))
  {
    RoundTrip(a, j, b);
    ExtractJsonRoundTrip(a, j, b, decode);
  }

  /**
   * A well-formed reply whose segment does not decode fails as a whole:
   * the parse error is re-raised as a 500 and no analysis is returned.
   */
  lemma {:induction false} UndecodableReply<J>(
    decode: string -> Result<J, string>, describe: HttpError -> string,
    a: string, j: string, b: string, message: string)
    requires !Contains(a, StartMarker)
    requires !Contains(a + StartMarker + j, EndMarker)
    requires decode(Strip(j)) == Failure(message)
    ensures HandleReply(Success(a + StartMarker + j + EndMarker + b), decode, describe)
              == Failure(HttpError(500, describe(ParseError(message))))
  {
    ExtractJsonRoundTrip(a, j, b, decode);
  }

  /**
   * As written, the handler accepts the reply `"[JSON_START]{}\n"`, which has
   * no end marker, with an empty analysis and the value `{}` decodes to; the
   * corrected handler refuses it.
   */
  lemma {:induction false} MissingEndReplyAccepted<J>(
    decode: string -> Result<J, string>, describe: HttpError -> string, v: J)
    requires decode("{}") == Success(v)
    ensures HandleReply(Success(StartMarker + "{}\n"), decode, describe) == Success(("", v))
    ensures HandleReplyStrict(Success(StartMarker + "{}\n"), decode, describe)
              == Failure(HttpError(500, describe(ParseError(MarkersMissing))))
  {
    var text := StartMarker + "{}\n";
    MissingEndAccepted(decode, v);
    assert OccursAt(text, StartMarker, 0);
    assert text[..0] == [];
    assert StrippedAt([], [], 0);
    StripOfUnique(Analysis(text), [], []);
  }

  /** With the corrected parser, a reply missing either marker always fails with a 500. */
  lemma MalformedReply<J>(
    decode: string -> Result<J, string>, describe: HttpError -> string, text: string)
    requires !Contains(text, StartMarker) || !Contains(text, EndMarker)
    ensures HandleReplyStrict(Success(text), decode, describe)
              == Failure(HttpError(500, describe(ParseError(MarkersMissing))))
  {
    StrictRejectsMissingMarker(text, decode);
  }

  /**
   * End to end: when the provider answers the request's instructions with a
   * well-formed reply whose JSON part decodes to `v`, the response holds the
   * stripped analysis and `v`.
   */
  lemma {:induction false} RequestRoundTrip<J>(
    request: FinancialModelRequest, complete: Completion,
    decode: string -> Result<J, string>, describe: HttpError -> string,
    a: string, j: string, b: string, v: J)
    requires complete(SystemPrompt(), RequestPrompt(request)) == Success(a + StartMarker + j + EndMarker + b)
    requires !Contains(a, StartMarker)
    requires !Contains(a + StartMarker + j, EndMarker)
    requires decode(Strip(j)) == Success(v)
    ensures GenerateModel(request, complete, decode, describe)
              == Success(FinancialModelResponse(Strip(a), v))
  {
    WellFormedReply(decode, describe, a, j, b, v);
  }

  /** A failing provider call fails the request with status 500 and the provider's message. */
  lemma ProviderFailure<J>(
    request: FinancialModelRequest, complete: Completion,
    decode: string -> Result<J, string>, describe: HttpError -> string, message: string)
    requires complete(SystemPrompt(), RequestPrompt(request)) == Failure(message)
    ensures GenerateModel(request, complete, decode, describe) == Failure(HttpError(500, message))
  {
  }
}
