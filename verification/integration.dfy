/** The editor's pieces put together: the language table against the Piston-id
    table, and the execution service posting to the mock `/api/execute` route. */
module Integration {
  import opened Wrappers
  import opened Text
  import Templates
  import Execution
  import ApiRoute

  /** Every language the selector offers has a Piston id, so the service's
      "is not supported by Piston" answer never reaches the editor. */
  lemma SelectorLanguagesKnown(code: string, input: Option<string>, reply: Execution.Reply)
    ensures forall k :: 0 <= k < |Templates.SupportedLanguages| ==>
      Templates.SupportedLanguages[k].id in Execution.PistonIds
    ensures forall k :: 0 <= k < |Templates.SupportedLanguages| ==>
      Execution.RunWithPiston(code, Templates.SupportedLanguages[k].id, input, reply).request.Some?
  {
  }

  /** The JSON body the service posts, as the route reads it back: an absent input is
      dropped by serialisation. */
  function BodyOf(req: Execution.ApiRequest): (b: ApiRoute.Body)
    ensures b.Object? && b.code == ApiRoute.Str(req.code) && b.language == ApiRoute.Str(req.language)
    ensures req.input.None? <==> b.input == ApiRoute.Absent
  {
    ApiRoute.Object(ApiRoute.Str(req.code), ApiRoute.Str(req.language),
      match req.input
      case Some(s) => ApiRoute.Str(s)
      case None => ApiRoute.Absent)
  }

  /** How the service sees a route response: a 2xx body's `output`, or an HTTP error
      whose body carries `error`. */
  function ReplyOf(response: ApiRoute.Response): (r: Execution.Reply)
    ensures r.Ok? <==> response.payload.Output?
    ensures r.HttpError? ==> r.error == Some(response.payload.error)
    ensures !r.OtherError?
  {
    match response.payload
    case Output(o) => Execution.Ok(o)
    case Failure(e) => Execution.HttpError(Some(e))
  }

  /** The reply the mock route gives a request. */
  function MockReply(code: string, language: string, input: Option<string>): Execution.Reply
  {
    ReplyOf(ApiRoute.Post(BodyOf(Execution.ApiRequest(code, language, input))))
  }

  /** `executeCode` called from the editor page, with the endpoint answered by the
      mock route. The page is a client component and runs code from a click
      handler, so a `window` always exists and the relative `/api/execute` URL
      resolves against the page's origin. */
  function RunAgainstMock(code: string, language: string, input: Option<string>,
                          program: string -> seq<Execution.Event>): (r: Execution.Outcome)
    ensures r.request.Some? ==> r.request.value == Execution.ApiRequest(code, language, input)
    ensures r.request.None? <==> language in {"javascript", "typescript"} || language !in Execution.PistonIds
  {
    Execution.ExecuteCode(code, language, input,
      Execution.Environment(true, program, MockReply(code, language, input)))
  }

  /** In the browser, a selector language that is not run in the page reaches the
      mock: empty code is
      refused with the route's message, any other code comes back ending in the
      mock's greeting. The mock never answers with a `null` body, so the run never
      rejects. */
  lemma SelectorRunsReachMock(k: nat, code: string, input: Option<string>,
                              program: string -> seq<Execution.Event>)
    requires k < |Templates.SupportedLanguages|
    requires var id := Templates.SupportedLanguages[k].id; id != "javascript" && id != "typescript"
    ensures var r := RunAgainstMock(code, Templates.SupportedLanguages[k].id, input, program);
      && r.request.Some?
      && (code == "" ==> r.settled == Execution.Resolved("Error: " + ApiRoute.MissingFields))
      && (code != "" ==> r.settled.Resolved? && EndsWith(r.settled.text, ApiRoute.Greeting))
  {
    var id := Templates.SupportedLanguages[k].id;
    assert id in Execution.PistonIds;
    assert Execution.Dispatch(id, true) == Execution.Piston;
    var response := ApiRoute.Post(BodyOf(Execution.ApiRequest(code, id, input)));
    if code == "" {
      assert response == ApiRoute.Response(400, ApiRoute.Failure(ApiRoute.MissingFields));
      assert ApiRoute.MissingFields != "";
    } else {
      assert response.status == 200;
    }
  }

  /** Python code echoes its first line through the service unchanged. */
  lemma PythonEchoThroughService(code: string, input: Option<string>,
                                 program: string -> seq<Execution.Event>)
    requires code != ""
    ensures RunAgainstMock(code, "python", input, program).settled ==
      Execution.Resolved("Executed " + "Python" + " code:\n" + ApiRoute.FirstLineOf(code) + "\n" + ApiRoute.Greeting)
  {
    assert Execution.Dispatch("python", true) == Execution.Piston;
    assert "python" in Execution.PistonIds;
  }
}
