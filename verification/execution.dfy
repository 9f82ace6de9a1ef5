/** The client-side execution service: the choice between running JavaScript and
    TypeScript in the page and posting everything else to the execution endpoint,
    the textual TypeScript stripping, the console-capturing harness with its
    `readline`/`prompt` cursor, and the mapping of endpoint replies to output text.

    The user's program cannot be evaluated here. It is a parameter: a function from
    the (preprocessed) source text to the trace of harness-visible events it
    performs. The endpoint's reply is a parameter too. */
module Execution {
  import opened Wrappers
  import opened Text
  import opened Regex

  // ---------------------------------------------------------------------------
  // Piston language ids and dispatch

  /** The fourteen languages the service knows a Piston id for. */
  const PistonIds: map<string, string> := map[
    "javascript" := "nodejs",
    "typescript" := "typescript",
    "python" := "python3",
    "python2" := "python2",
    "java" := "java",
    "c" := "c",
    "cpp" := "cpp",
    "csharp" := "csharp",
    "ruby" := "ruby",
    "go" := "go",
    "rust" := "rust",
    "php" := "php",
    "swift" := "swift",
    "kotlin" := "kotlin"
  ]

  /** The members every plain object literal inherits from `Object.prototype`; reading
      any of them from the id table yields a function, which is truthy. */
  const ObjectPrototypeNames: set<string> := {
    "constructor", "hasOwnProperty", "isPrototypeOf", "propertyIsEnumerable",
    "toLocaleString", "toString", "valueOf", "__proto__",
    "__defineGetter__", "__defineSetter__", "__lookupGetter__", "__lookupSetter__"
  }

  /** Where a request is evaluated. */
  datatype Route = InBrowser | Piston

  /** JavaScript and TypeScript run in the page when there is a `window`; everything
      else, and those two during server rendering, goes through the Piston path. */
  function Dispatch(language: string, hasWindow: bool): (r: Route)
    ensures r == InBrowser <==> hasWindow && language in {"javascript", "typescript"}
  {
    if (language == "javascript" || language == "typescript") && hasWindow then InBrowser
    else Piston
  }

  // ---------------------------------------------------------------------------
  // TypeScript stripping

  /** The three textual rewrites, in source order: basic annotations before `,=;)`,
      function return types, then every `<…>` run. Stripping never lengthens the
      source and leaves no `<…>` run with a non-`>` character inside behind. */
  function StripTypes(code: string): (r: string)
    ensures |r| <= |code|
    ensures NoMatch(GenericParams, r)
  {
    var returned := ReplaceAll(ReturnType, ReplaceAll(TypeAnnotation, code));
    GenericParamsGone(returned);
    ReplaceAll(GenericParams, returned)
  }

  /** The text handed to evaluation: stripped only for TypeScript. */
  function Preprocess(code: string, language: string): (r: string)
    ensures |r| <= |code|
    ensures language != "typescript" ==> r == code
    ensures language == "typescript" ==> NoMatch(GenericParams, r)
  {
    if language == "typescript" then StripTypes(code) else code
  }

  /** Source with neither `:` nor `<` passes through the stripping unchanged, and
      non-TypeScript source is never touched. */
  lemma PreprocessIdentity(code: string, language: string)
    requires language != "typescript" || (':' !in code && '<' !in code)
    ensures Preprocess(code, language) == code
  {
    if language == "typescript" {
      NoAnchorNoMatch(TypeAnnotation, code);
      ReplaceAllNoMatch(TypeAnnotation, code);
      NoAnchorNoMatch(ReturnType, code);
      ReplaceAllNoMatch(ReturnType, code);
      NoAnchorNoMatch(GenericParams, code);
      ReplaceAllNoMatch(GenericParams, code);
    }
  }

  // ---------------------------------------------------------------------------
  // The in-page harness

  /** What the harness's `catch` makes of the exception that ends evaluation:
      `error.message` for an `Error`, `String(error)` for any other value. That
      conversion can throw in turn (a thrown `Object.create(null)` has no
      `toString`); `Unconvertible` carries the message of the error it throws. */
  datatype Thrown = Described(message: string) | Unconvertible(failure: string)

  /** What the evaluated program does that the harness can see. `Log` carries the
      arguments already converted to text as `Array.prototype.join` converts them;
      `Throw` ends evaluation. */
  datatype Event = Log(args: seq<string>) | ReadLine | Prompt | Throw(thrown: Thrown)

  /** Which `console.log` is installed: the page's own, or the harness's capturing one. */
  datatype Console = Original | Capturing

  /** The harness during evaluation: the capture buffer, the input lines, the shared
      `readline`/`prompt` cursor, every value those two returned so far, and the
      installed `console.log`. */
  datatype Harness = Harness(output: string, lines: seq<string>, cursor: nat, answers: seq<string>,
                             console: Console)

  /** How a promise settles. */
  datatype Settled = Resolved(text: string) | Rejected(message: string)

  const InputBanner: string := "// Input functions available: readline() and prompt()\n"
  /** The text of a run with no output. It is written as two clauses so that the
      verifier reaches its first character in a few steps (see NoOutputMessageShape). */
  const NoOutputMessage: string := "Program executed successfully, " + "but no output was produced."

  /** What one captured `console.log(...args)` appends. */
  function LogLine(args: seq<string>): string
  {
    Join(args, " ") + "\n"
  }

  /** One `console.log(...args)`: the buffer grows only while the capturing function
      is installed. */
  function Capture(h: Harness, args: seq<string>): Harness
  {
    if h.console == Capturing then h.(output := h.output + LogLine(args)) else h
  }

  /** The `k`-th value `readline`/`prompt` returns over `lines`. */
  function Answer(lines: seq<string>, k: nat): string
  {
    if k < |lines| then lines[k] else ""
  }

  /** One `readline()` or `prompt()` call. */
  function Read(h: Harness): Harness
  {
    if h.cursor < |h.lines| then
      h.(cursor := h.cursor + 1, answers := h.answers + [h.lines[h.cursor]])
    else
      h.(answers := h.answers + [""])
  }

  /** All text the program logs before it throws (if it throws), in call order. */
  function Logged(trace: seq<Event>): string
  {
    if |trace| == 0 then ""
    else match trace[0]
      case Log(args) => LogLine(args) + Logged(trace[1..])
      case Throw(_) => ""
      case _ => Logged(trace[1..])
  }

  /** How many `readline`/`prompt` calls happen before the program throws. */
  function ReadCount(trace: seq<Event>): nat
  {
    if |trace| == 0 then 0
    else match trace[0]
      case Throw(_) => 0
      case Log(_) => ReadCount(trace[1..])
      case _ => 1 + ReadCount(trace[1..])
  }

  /** The exception that ends evaluation, if any. */
  function FirstThrow(trace: seq<Event>): Option<Thrown>
  {
    if |trace| == 0 then None
    else match trace[0]
      case Throw(t) => Some(t)
      case _ => FirstThrow(trace[1..])
  }

  /** Whether the program logs anything before it throws. */
  predicate LogsBeforeThrow(trace: seq<Event>)
  {
    exists k :: 0 <= k < |trace| && trace[k].Log? && forall j :: 0 <= j < k ==> !trace[j].Throw?
  }

  function Min(a: nat, b: nat): nat
  {
    if a <= b then a else b
  }

  /** Runs the events against the harness until the first `Throw`. With the
      capturing console installed, logged text is appended in order (with the
      page's own console, nothing is captured); the k-th read returns line k while
      lines remain and "" after; the cursor never passes the line count; the
      installed console stays; the first `Throw` is reported. */
  function Replay(trace: seq<Event>, h: Harness): (r: (Harness, Option<Thrown>))
    requires h.cursor <= |h.lines|
    ensures r.0.output == h.output + (if h.console == Capturing then Logged(trace) else "")
    ensures r.0.lines == h.lines && r.0.console == h.console
    ensures r.0.cursor == Min(h.cursor + ReadCount(trace), |h.lines|)
    ensures |r.0.answers| == |h.answers| + ReadCount(trace)
    ensures r.0.answers[..|h.answers|] == h.answers
    ensures forall k :: |h.answers| <= k < |r.0.answers| ==>
      r.0.answers[k] == Answer(h.lines, h.cursor + (k - |h.answers|))
    ensures r.1 == FirstThrow(trace)
    decreases |trace|
  {
    if |trace| == 0 then
      assert h.answers[..|h.answers|] == h.answers;
      (h, None)
    else match trace[0]
      case Throw(t) =>
        assert h.answers[..|h.answers|] == h.answers;
        (h, Some(t))
      case Log(args) =>
        var h' := Capture(h, args);
        var r := Replay(trace[1..], h');
        assert h'.answers == h.answers && h'.cursor == h.cursor && h'.lines == h.lines;
        assert Logged(trace) == LogLine(args) + Logged(trace[1..]);
        assert h.console == Capturing ==> h'.output + Logged(trace[1..]) == h.output + Logged(trace);
        r
      case ReadLine => ReplayRead(trace, h)
      case Prompt => ReplayRead(trace, h)
  }

  /** The read step of `Replay`, shared by `readline` and `prompt`. */
  function ReplayRead(trace: seq<Event>, h: Harness): (r: (Harness, Option<Thrown>))
    requires |trace| > 0 && (trace[0].ReadLine? || trace[0].Prompt?)
    requires h.cursor <= |h.lines|
    ensures r.0.output == h.output + (if h.console == Capturing then Logged(trace) else "")
    ensures r.0.lines == h.lines && r.0.console == h.console
    ensures r.0.cursor == Min(h.cursor + ReadCount(trace), |h.lines|)
    ensures |r.0.answers| == |h.answers| + ReadCount(trace)
    ensures r.0.answers[..|h.answers|] == h.answers
    ensures forall k :: |h.answers| <= k < |r.0.answers| ==>
      r.0.answers[k] == Answer(h.lines, h.cursor + (k - |h.answers|))
    ensures r.1 == FirstThrow(trace)
    decreases |trace|, 0
  {
    var h' := Read(h);
    var r := Replay(trace[1..], h');
    assert r.0.answers[..|h'.answers|] == h'.answers;
    assert r.0.answers[..|h.answers|] == h'.answers[..|h.answers|];
    forall k | |h.answers| <= k < |r.0.answers|
      ensures r.0.answers[k] == Answer(h.lines, h.cursor + (k - |h.answers|))
    {
      if k == |h.answers| {
        assert r.0.answers[k] == r.0.answers[..|h'.answers|][k];
      } else {
        assert r.0.answers[k] == Answer(h'.lines, h'.cursor + (k - |h'.answers|));
      }
    }
    r
  }

  /** `input` is truthy, so the harness installs `readline`/`prompt` and the banner. */
  predicate HasInput(input: Option<string>)
  {
    input.Some? && input.value != ""
  }

  /** The lines the read cursor walks: `input.split('\n')`, or none when nothing was
      installed. */
  function InputLines(input: Option<string>): seq<string>
  {
    if HasInput(input) then Split(input.value, '\n') else []
  }

  /** The prefix of the capture buffer before evaluation starts. */
  function BannerFor(input: Option<string>): string
  {
    if HasInput(input) then InputBanner else ""
  }

  /** The language word in the error prefix. */
  function ErrorLanguage(language: string): string
  {
    if language == "typescript" then "TypeScript" else "JavaScript"
  }

  /** What one in-page run leaves behind: how its promise settles, the installed
      console function, the values the reads returned, and the text that was
      evaluated. */
  datatype BrowserRun = BrowserRun(settled: Settled, console: Console, answers: seq<string>, evaluated: string)

  /** `executeInBrowser`, entered with `entry` as the installed `console.log`: save it,
      install the capturing function, install the read cursor when there is input,
      evaluate the preprocessed text, and put the saved function back on either exit.
      The promise resolves, except when turning the thrown value into text throws:
      that error escapes the executor and rejects it. */
  function RunInBrowser(code: string, language: string, input: Option<string>,
                        program: string -> seq<Event>, entry: Console): (r: BrowserRun)
    ensures r.console == entry
    ensures r.evaluated == Preprocess(code, language)
    ensures var thrown := FirstThrow(program(r.evaluated));
      thrown.None? ==>
        var captured := BannerFor(input) + Logged(program(r.evaluated));
        r.settled == Resolved(if captured == "" then NoOutputMessage else captured)
    ensures var thrown := FirstThrow(program(r.evaluated));
      thrown.Some? && thrown.value.Described? ==>
        r.settled == Resolved(ErrorLanguage(language) + " Error: " + thrown.value.message)
    ensures var thrown := FirstThrow(program(r.evaluated));
      r.settled.Rejected? <==> thrown.Some? && thrown.value.Unconvertible?
    ensures var thrown := FirstThrow(program(r.evaluated));
      thrown.Some? && thrown.value.Unconvertible? ==> r.settled.message == thrown.value.failure
    ensures |r.answers| == ReadCount(program(r.evaluated))
    ensures forall k :: 0 <= k < |r.answers| ==> r.answers[k] == Answer(InputLines(input), k)
  {
    var saved := entry;
    var evaluated := Preprocess(code, language);
    var start := Harness(BannerFor(input), InputLines(input), 0, [], Capturing);
    var trace := program(evaluated);
    var (h, thrown) := Replay(trace, start);
    assert forall k :: 0 <= k < |h.answers| ==> h.answers[k] == Answer(InputLines(input), k);
    BrowserRun(SettleEvaluation(thrown, h.output, language), saved, h.answers, evaluated)
  }

  /** The `try`/`catch` around the evaluation: the captured text (or the no-output
      message) when nothing was thrown, the language-prefixed message of a thrown
      value that converts to text, and a rejection when the conversion throws. */
  function SettleEvaluation(thrown: Option<Thrown>, output: string, language: string): (r: Settled)
    ensures thrown.None? ==> r == Resolved(if output == "" then NoOutputMessage else output)
    ensures thrown.Some? && thrown.value.Described? ==>
      r == Resolved(ErrorLanguage(language) + " Error: " + thrown.value.message)
    ensures r.Rejected? <==> thrown.Some? && thrown.value.Unconvertible?
    ensures r.Rejected? ==> r.message == thrown.value.failure
  {
    match thrown
    case None => Resolved(if output == "" then NoOutputMessage else output)
    case Some(Described(m)) => Resolved(ErrorLanguage(language) + " Error: " + m)
    case Some(Unconvertible(f)) => Rejected(f)
  }

  /** Every captured log contributes at least its newline, so nothing was captured
      exactly when nothing was logged. */
  lemma {:induction false} LoggedEmpty(trace: seq<Event>)
    ensures Logged(trace) == "" <==> !LogsBeforeThrow(trace)
  {
    if |trace| > 0 {
      LoggedEmpty(trace[1..]);
      match trace[0]
      case Log(args) =>
        assert trace[0].Log?;
      case Throw(_) =>
        assert !LogsBeforeThrow(trace) by {
          forall k | 0 <= k < |trace| && trace[k].Log?
            ensures exists j :: 0 <= j < k && trace[j].Throw?
          {
            assert trace[0].Throw?;
          }
        }
      case _ =>
        if LogsBeforeThrow(trace) {
          var k :| 0 <= k < |trace| && trace[k].Log? && forall j :: 0 <= j < k ==> !trace[j].Throw?;
          assert k > 0;
          assert trace[1..][k - 1].Log?;
          assert forall j :: 0 <= j < k - 1 ==> !trace[1..][j].Throw?;
        }
        if LogsBeforeThrow(trace[1..]) {
          var k :| 0 <= k < |trace[1..]| && trace[1..][k].Log? && forall j :: 0 <= j < k ==> !trace[1..][j].Throw?;
          assert trace[k + 1].Log?;
          assert forall j :: 0 <= j < k + 1 ==> !trace[j].Throw?;
        }
    }
  }

  /** The "no output" message appears exactly when the program finished, no input was
      given (so no banner), and nothing was logged. */
  lemma NoOutputExactly(code: string, language: string, input: Option<string>,
                        program: string -> seq<Event>, entry: Console)
    ensures var r := RunInBrowser(code, language, input, program, entry);
      var trace := program(r.evaluated);
      r.settled == Resolved(NoOutputMessage) <==>
        FirstThrow(trace).None? && !HasInput(input) && !LogsBeforeThrow(trace)
  {
    var r := RunInBrowser(code, language, input, program, entry);
    var trace := program(r.evaluated);
    LoggedEmpty(trace);
    if FirstThrow(trace).Some? {
      if FirstThrow(trace).value.Described? {
        var prefix := ErrorLanguage(language) + " Error: ";
        assert r.settled.text == prefix + FirstThrow(trace).value.message;
        assert r.settled.text[0] == prefix[0] && prefix[0] in "TJ";
        NoOutputMessageShape();
      }
    } else {
      var captured := BannerFor(input) + Logged(trace);
      if captured != "" {
        CapturedEndsWithNewline(input, trace);
        assert r.settled.text == captured;
        NoOutputMessageShape();
      }
    }
  }

  lemma NoOutputMessageShape()
    ensures NoOutputMessage[0] == 'P'
    ensures NoOutputMessage[|NoOutputMessage| - 1] == '.'
  {
  }

  /** A non-empty capture buffer always ends with a newline. */
  lemma {:induction false} CapturedEndsWithNewline(input: Option<string>, trace: seq<Event>)
    requires BannerFor(input) + Logged(trace) != ""
    ensures var c := BannerFor(input) + Logged(trace); c[|c| - 1] == '\n'
  {
    LoggedEndsWithNewline(trace);
  }

  lemma {:induction false} LoggedEndsWithNewline(trace: seq<Event>)
    ensures Logged(trace) != "" ==> Logged(trace)[|Logged(trace)| - 1] == '\n'
  {
    if |trace| > 0 {
      LoggedEndsWithNewline(trace[1..]);
    }
  }

  /** With input, the banner opens the text of every run that does not throw. */
  lemma BannerFirst(code: string, language: string, input: Option<string>,
                    program: string -> seq<Event>, entry: Console)
    requires HasInput(input)
    ensures var r := RunInBrowser(code, language, input, program, entry);
      FirstThrow(program(r.evaluated)).None? ==> r.settled.Resolved? && StartsWith(r.settled.text, InputBanner)
  {
    var r := RunInBrowser(code, language, input, program, entry);
    var captured := BannerFor(input) + Logged(program(r.evaluated));
    assert captured[..|InputBanner|] == InputBanner;
  }

  // ---------------------------------------------------------------------------
  // The Piston path

  /** The body posted to the execution endpoint. */
  datatype ApiRequest = ApiRequest(code: string, language: string, input: Option<string>)

  /** How the POST settles:
      - `Ok`: a response whose body's `output` is read;
      - `HttpError`: an HTTP error whose response body may carry an `error` field;
      - `HttpErrorWithoutBody`: an HTTP error whose response body is `null`, so
        reading its `error` field throws a `TypeError` with message `failure`;
      - `OtherError`: any other failure, with the message of an `Error` object, or
        none for other thrown values. */
  datatype Reply =
    | Ok(output: string)
    | HttpError(error: Option<string>)
    | HttpErrorWithoutBody(failure: string)
    | OtherError(message: Option<string>)

  /** How a run settles, and the request it posted, if any. */
  datatype Outcome = Outcome(settled: Settled, request: Option<ApiRequest>)

  const PistonFailure: string := "Failed to execute code with Piston"
  const UnexpectedFailure: string := "An unexpected error occurred"

  /** How `executeCodeWithPiston` settles once the POST has: the output verbatim, or an
      "Error: " line carrying the response's `error` field, the thrown message, or a
      fixed text when there is neither. Only a failure inside the `catch` itself
      (the `null` error body) rejects. */
  function SettleReply(reply: Reply): (r: Settled)
    ensures r.Rejected? <==> reply.HttpErrorWithoutBody?
    ensures reply.HttpErrorWithoutBody? ==> r.message == reply.failure
    ensures reply.Ok? ==> r == Resolved(reply.output)
    ensures r.Resolved? && !reply.Ok? ==> StartsWith(r.text, "Error: ")
    ensures reply.HttpError? && reply.error.Some? && reply.error.value != "" ==>
      r == Resolved("Error: " + reply.error.value)
    ensures reply.HttpError? && (reply.error.None? || reply.error.value == "") ==>
      r == Resolved("Error: " + PistonFailure)
    ensures reply.OtherError? && reply.message.Some? ==> r == Resolved("Error: " + reply.message.value)
    ensures reply.OtherError? && reply.message.None? ==> r == Resolved("Error: " + UnexpectedFailure)
  {
    match reply
    case Ok(output) => Resolved(output)
    case HttpError(e) =>
      Resolved("Error: " + (if e.Some? && e.value != "" then e.value else PistonFailure))
    case HttpErrorWithoutBody(f) => Rejected(f)
    case OtherError(m) =>
      Resolved("Error: " + (if m.Some? then m.value else UnexpectedFailure))
  }

  function UnsupportedMessage(language: string): string
  {
    "Language '" + language + "' is not supported by Piston."
  }

  /** `executeCodeWithPiston` once the table lookup has been decided: an unknown
      language gets the fixed message and no request; a known one posts code,
      language and input (not the Piston id) and settles as the reply does. */
  function PistonPath(code: string, language: string, input: Option<string>,
                      reply: Reply, known: bool): (r: Outcome)
    ensures !known ==> r == Outcome(Resolved(UnsupportedMessage(language)), None)
    ensures known ==> r.request == Some(ApiRequest(code, language, input))
    ensures known ==> (r.settled.Rejected? <==> reply.HttpErrorWithoutBody?)
    ensures known && reply.Ok? ==> r.settled == Resolved(reply.output)
    ensures known && !reply.Ok? && r.settled.Resolved? ==> StartsWith(r.settled.text, "Error: ")
  {
    if !known then Outcome(Resolved(UnsupportedMessage(language)), None)
    else Outcome(SettleReply(reply), Some(ApiRequest(code, language, input)))
  }

  /** The Piston path as written: `!languageToPistonId[language]` also lets through
      the names a plain object inherits. */
  function RunWithPistonAsWritten(code: string, language: string, input: Option<string>,
                                  reply: Reply): Outcome
  {
    PistonPath(code, language, input, reply, language in PistonIds || language in ObjectPrototypeNames)
  }

  /** The Piston path with the lookup restricted to the table's own keys, as the
      message "is not supported by Piston" intends. */
  function RunWithPiston(code: string, language: string, input: Option<string>,
                         reply: Reply): (r: Outcome)
    ensures r.request.None? <==> language !in PistonIds
    ensures language !in PistonIds ==> r.settled == Resolved(UnsupportedMessage(language))
  {
    PistonPath(code, language, input, reply, language in PistonIds)
  }

  /** As written, a language outside the table such as "toString" skips the
      unsupported-language message and is posted to the endpoint. */
  lemma InheritedNamesPassAsWritten(code: string, input: Option<string>, reply: Reply)
    ensures "toString" !in PistonIds
    ensures RunWithPistonAsWritten(code, "toString", input, reply).request.Some?
    ensures RunWithPistonAsWritten(code, "toString", input, reply).settled == SettleReply(reply)
  {
    assert "toString" in ObjectPrototypeNames;
  }

  /** The two lookups agree on every language that is not an inherited member name. */
  lemma AsWrittenAgreesOffPrototype(code: string, language: string, input: Option<string>, reply: Reply)
    requires language !in ObjectPrototypeNames
    ensures RunWithPistonAsWritten(code, language, input, reply) == RunWithPiston(code, language, input, reply)
  {
  }

  // ---------------------------------------------------------------------------
  // executeCode

  /** Everything a run depends on besides its arguments: whether a `window` exists,
      what the program does when evaluated, and how the POST settles. */
  datatype Environment = Environment(hasWindow: bool, program: string -> seq<Event>, reply: Reply)

  /** The in-page branch of `executeCode`, entered with the page's own console. */
  function InPage(code: string, language: string, input: Option<string>,
                  program: string -> seq<Event>): (r: Outcome)
    ensures r.request.None?
    ensures r.settled == RunInBrowser(code, language, input, program, Original).settled
  {
    Outcome(RunInBrowser(code, language, input, program, Original).settled, None)
  }

  /** `executeCode`, with the Piston lookup restricted to the table's keys. Neither
      `return` is awaited, so each path's promise is passed through as it settles,
      rejection included, and the function's own `catch` never runs. */
  function ExecuteCode(code: string, language: string, input: Option<string>,
                       env: Environment): (r: Outcome)
    ensures Dispatch(language, env.hasWindow) == InBrowser ==>
      r == InPage(code, language, input, env.program)
    ensures Dispatch(language, env.hasWindow) == Piston ==>
      r == RunWithPiston(code, language, input, env.reply)
  {
    match Dispatch(language, env.hasWindow)
    case InBrowser => InPage(code, language, input, env.program)
    case Piston => RunWithPiston(code, language, input, env.reply)
  }

  /** `executeCode` as written, with the lookup that reads through the prototype. */
  function ExecuteCodeAsWritten(code: string, language: string, input: Option<string>,
                                env: Environment): (r: Outcome)
    ensures Dispatch(language, env.hasWindow) == InBrowser ==>
      r == InPage(code, language, input, env.program)
    ensures Dispatch(language, env.hasWindow) == Piston ==>
      r == RunWithPistonAsWritten(code, language, input, env.reply)
  {
    match Dispatch(language, env.hasWindow)
    case InBrowser => InPage(code, language, input, env.program)
    case Piston => RunWithPistonAsWritten(code, language, input, env.reply)
  }

  /** A request reaches the endpoint exactly when the language is in the id table
      and it is not JavaScript or TypeScript running in a page. */
  lemma RequestSentExactly(code: string, language: string, input: Option<string>, env: Environment)
    ensures ExecuteCode(code, language, input, env).request.Some? <==>
      language in PistonIds && !(env.hasWindow && language in {"javascript", "typescript"})
  {
  }

  /** As written, the inherited member names reach the endpoint too. */
  lemma RequestSentAsWritten(code: string, language: string, input: Option<string>, env: Environment)
    ensures ExecuteCodeAsWritten(code, language, input, env).request.Some? <==>
      (language in PistonIds || language in ObjectPrototypeNames) &&
      !(env.hasWindow && language in {"javascript", "typescript"})
  {
  }

  /** A run rejects in exactly two cases: in the page, when the thrown value cannot
      be turned into text; on the Piston path, when an HTTP error arrives with a
      `null` body. Every other run resolves with text. */
  lemma RejectsExactly(code: string, language: string, input: Option<string>, env: Environment)
    ensures var thrown := FirstThrow(env.program(Preprocess(code, language)));
      ExecuteCode(code, language, input, env).settled.Rejected? <==>
        if Dispatch(language, env.hasWindow) == InBrowser then
          thrown.Some? && thrown.value.Unconvertible?
        else
          language in PistonIds && env.reply.HttpErrorWithoutBody?
  {
  }

  /** As written, an inherited member name such as "toString" also passes the lookup,
      so a `null`-bodied HTTP error rejects for it too. */
  lemma RejectsExactlyAsWritten(code: string, language: string, input: Option<string>, env: Environment)
    ensures var thrown := FirstThrow(env.program(Preprocess(code, language)));
      ExecuteCodeAsWritten(code, language, input, env).settled.Rejected? <==>
        if Dispatch(language, env.hasWindow) == InBrowser then
          thrown.Some? && thrown.value.Unconvertible?
        else
          (language in PistonIds || language in ObjectPrototypeNames) && env.reply.HttpErrorWithoutBody?
  {
  }
}
