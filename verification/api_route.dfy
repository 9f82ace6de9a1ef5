/** The `POST /api/execute` handler: a mock that validates the body and echoes a
    fixed, language-dependent output text. Reading the request body (`request.json()`)
    is abstracted into the `Body` it produces, and the 500 ms delay is left out. */
module ApiRoute {
  import opened Wrappers
  import opened Text

  /** A field of the parsed body: missing (or `null`), a string, or any other JSON
      value, given by whether it is truthy and how a template literal renders it.
      The rendering is `None` when it throws: an object whose `toString` member is
      not a function, such as `{"toString": 1}`, has no primitive value. */
  datatype Field = Absent | Str(s: string) | NonString(truthy: bool, rendered: Option<string>)

  /** ECMAScript truthiness of a field. */
  predicate Truthy(f: Field)
  {
    match f
    case Absent => false
    case Str(s) => s != ""
    case NonString(t, _) => t
  }

  /** `${f}` inside a template literal, or `None` when the conversion throws. */
  function Render(f: Field): Option<string>
  {
    match f
    case Absent => Some("undefined")
    case Str(s) => Some(s)
    case NonString(_, r) => r
  }

  /** What `await request.json()` and the destructuring produce: `Malformed` when the
      body does not parse or is `null` (both throw inside the `try`), otherwise the
      three fields (a non-object body leaves them all `Absent`). */
  datatype Body = Malformed | Object(code: Field, language: Field, input: Field)

  datatype Payload = Output(output: string) | Failure(error: string)
  datatype Response = Response(status: nat, payload: Payload)

  const Greeting: string := "Output: Hello, World!"
  const MissingFields: string := "Code and language are required"
  const InternalFailure: string := "Failed to execute code"

  /** `code.split('\n')[0]`. */
  function FirstLineOf(code: string): string
  {
    Split(code, '\n')[0]
  }

  /** A 200 reply: `head` followed by the greeting. */
  function Greeted(head: string): (r: Response)
    ensures r == Response(200, Output(head + Greeting))
    ensures EndsWith(r.payload.output, Greeting)
  {
    var text := head + Greeting;
    assert text[|text| - |Greeting|..] == Greeting;
    Response(200, Output(text))
  }

  /** The reply once both fields are truthy. Everything that throws here lands in
      the handler's `catch` and becomes a 500: `code.split` on a non-string code for
      the two echoing languages, and `${language}` for a language value that has no
      text form. */
  function MockOutput(code: Field, language: Field): (r: Response)
    requires Truthy(code) && Truthy(language)
    ensures r.status == 200 ==> r.payload.Output? && EndsWith(r.payload.output, Greeting)
    ensures r.status != 200 ==> r == Response(500, Failure(InternalFailure))
    ensures language != Str("javascript") && language != Str("python") && Render(language).Some? ==>
      r == Response(200, Output("Executed " + Render(language).value + " code successfully.\n" + Greeting))
    ensures language != Str("javascript") && language != Str("python") && Render(language).None? ==>
      r.status == 500
    ensures language == Str("javascript") && code.Str? ==>
      r == Response(200, Output("Executed " + "JavaScript" + " code:\n" + FirstLineOf(code.s) + "\n" + Greeting))
    ensures language == Str("python") && code.Str? ==>
      r == Response(200, Output("Executed " + "Python" + " code:\n" + FirstLineOf(code.s) + "\n" + Greeting))
    ensures (language == Str("javascript") || language == Str("python")) && !code.Str? ==>
      r.status == 500
  {
    if language == Str("javascript") || language == Str("python") then
      if !code.Str? then Response(500, Failure(InternalFailure))
      else
        var name := if language == Str("javascript") then "JavaScript" else "Python";
        Greeted("Executed " + name + " code:\n" + FirstLineOf(code.s) + "\n")
    else
      if Render(language).None? then Response(500, Failure(InternalFailure))
      else Greeted("Executed " + Render(language).value + " code successfully.\n")
  }

  /** The handler. */
  function Post(body: Body): (r: Response)
    ensures r.status in {200, 400, 500}
    ensures r.status == 200 <==> r.payload.Output?
    ensures body.Malformed? ==> r == Response(500, Failure(InternalFailure))
    ensures body.Object? && (!Truthy(body.code) || !Truthy(body.language)) ==>
      r == Response(400, Failure(MissingFields))
    ensures r.status == 400 ==> body.Object? && (!Truthy(body.code) || !Truthy(body.language))
    ensures r.status == 200 ==> EndsWith(r.payload.output, Greeting)
  {
    match body
    case Malformed => Response(500, Failure(InternalFailure))
    case Object(code, language, _) =>
      if !Truthy(code) || !Truthy(language) then Response(400, Failure(MissingFields))
      else MockOutput(code, language)
  }

  /** The echoed line is the part of the code before its first newline: a prefix of
      the code without a newline, followed by one unless it is the whole code. */
  lemma EchoedLine(code: string)
    ensures StartsWith(code, FirstLineOf(code))
    ensures '\n' !in FirstLineOf(code)
    ensures |FirstLineOf(code)| < |code| ==> code[|FirstLineOf(code)|] == '\n'
  {
    SplitHead(code, '\n');
  }

  /** For any language other than the two echoed ones, the reply does not depend on
      the code (nor on the input), as long as the code is truthy. */
  lemma OtherLanguagesIgnoreCode(c1: Field, c2: Field, language: Field, i1: Field, i2: Field)
    requires Truthy(c1) && Truthy(c2)
    requires language != Str("javascript") && language != Str("python")
    ensures Post(Object(c1, language, i1)) == Post(Object(c2, language, i2))
  {
  }

  /** The input field never influences the reply. */
  lemma InputIgnored(code: Field, language: Field, i1: Field, i2: Field)
    ensures Post(Object(code, language, i1)) == Post(Object(code, language, i2))
  {
  }
}
