# CodeSurfer core, modelled in Dafny

CodeSurfer is a browser code editor with an execution service, a mock execution
endpoint, an HTML/CSS/JavaScript playground with live preview, and sign-up and
password forms behind an authentication guard. This project models the logic of
that core as pure Dafny functions over immutable datatypes, and proves what the code
promises about it.

What is modelled:

- **Execution service** (`execution.dfy`):
  - the dispatch between in-page evaluation and the Piston path;
  - the TypeScript stripping rewrites;
  - the in-page harness: console capture, the shared `readline`/`prompt` cursor, the input banner, the empty-output message, and error formatting;
  - the Piston lookup and its reply-to-text mapping.
- **The evaluated program** is not run. It is a function from the evaluated text to a trace of events (`Log`, `ReadLine`, `Prompt`, `Throw`). A `Throw` says whether the harness can turn the thrown value into text.
- **The POST to the endpoint** is an abstract reply: a response `output`, an HTTP error with an optional `error` field, an HTTP error with a `null` body, or another failure.
- **How a run settles**: every run either resolves with text or rejects with the message of the error that escaped. The editor page shows a rejection as "Error: <message>".
- **The execution endpoint** (`api_route.dfy`): request validation, the mock's per-language output text, and the 400/500 replies.
- **Integration** (`integration.dfy`): the service is joined to the endpoint, and the language table is checked against the Piston table.
- **Regular expressions** (`regex.dfy`): every expression the core uses, written as a deterministic matcher. Global and first-match replacement are scans over those matchers. Shared string helpers live in `text.dfy`:
  - `split`/`join`;
  - `\s`, `\w` and line terminators;
  - ASCII case folding for the `i` flag;
  - UTF-16 length.
- **Preview** (`preview.dfy`):
  - `extractBodyContent`, both the body capture and the tag-stripping fallback;
  - the document written into the preview frame;
  - the preview key and auto-preview effect as a small state machine.
- **Language table and starter programs** (`templates.dfy`).
- **Password rule and form handlers**:
  - `password.dfy`: the password rule, with `.` stopping at line terminators and lengths in UTF-16 code units;
  - `auth_forms.dfy`: the sign-up and update-password submit handlers;
  - `uri.dfy`: `encodeURIComponent` and its inverse, used by the sign-up redirect.
- **Route guard** (`route_guard.dfy`).
- **Editor page and frontend playground** (`editor.dfy`, `playground.dfy`, `theme.dfy`): their handlers as steps on immutable session records.

The service's in-page path reads `window` and evaluates code. Both are parameters of
`Execution.Environment`:

- `hasWindow`;
- `program`, the event trace;
- `reply`, how the POST settles.

The preview takes whether the frame document is reachable as a `frameReady` flag.

## Model

| member | source | states |
|---|---|---|
| Execution.Dispatch | app/services/codeExecutionService.ts:27-32 | JavaScript and TypeScript run in the page exactly when a `window` exists; every other language, and those two without a window, take the Piston path |
| Execution.RunWithPiston | app/services/codeExecutionService.ts:106-128 | no request is sent exactly when the language is not a key of the fourteen-entry Piston table, and then the run resolves with "Language '<lang>' is not supported by Piston." |
| Execution.PistonPath | app/services/codeExecutionService.ts:111-128 | an unknown language gets the fixed message and no request; a known one posts code, language and input, resolves with the reply's output verbatim on success, rejects exactly for an HTTP error with a `null` body, and otherwise resolves with a text starting with "Error: " |
| Execution.SettleReply | app/services/codeExecutionService.ts:122-128 | success resolves with the response's output verbatim; an HTTP error gives "Error: " + the body's `error`, or "Failed to execute code with Piston" when that field is missing or empty; an HTTP error with a `null` body rejects with the error that reading its `error` field throws; any other failure gives "Error: " + its message, or "An unexpected error occurred" |
| Execution.RequestSentExactly | app/services/codeExecutionService.ts:6-32 | with the table-key lookup, `executeCode` posts a request exactly for Piston-table languages that are not JavaScript/TypeScript running in a page |
| Execution.RequestSentAsWritten | app/services/codeExecutionService.ts:6-32 | as written, `executeCode` posts a request exactly for Piston-table languages and inherited object member names, unless JavaScript/TypeScript runs in a page |
| Execution.ExecuteCode | app/services/codeExecutionService.ts:24-39 | a run in the page posts nothing and settles as the harness does, entered with the page's own console; every other run settles as the Piston path does, rejection included |
| Execution.ExecuteCodeAsWritten | app/services/codeExecutionService.ts:24-39 | the same dispatch, with the Piston lookup that reads through the object prototype |
| Execution.RejectsExactly | app/services/codeExecutionService.ts:24-39 | `executeCode` rejects exactly when, in the page, the thrown value cannot be turned into text, or, on the Piston path for a table language, an HTTP error arrives with a `null` body; every other run resolves (with the table-key lookup) |
| Execution.RejectsExactlyAsWritten | app/services/codeExecutionService.ts:6-39 | as written, `executeCode` rejects exactly when, in the page, the thrown value cannot be turned into text, or, on the Piston path for a table language or an inherited object member name such as "toString", an HTTP error arrives with a `null` body |
| Execution.StripTypes | app/services/codeExecutionService.ts:82-87 | TypeScript stripping never lengthens the source and leaves no `<…>` run (with a non-`>` character inside) behind |
| Execution.Preprocess | app/services/codeExecutionService.ts:80-87 | non-TypeScript source is evaluated as written; TypeScript source is never lengthened and keeps no `<…>` run |
| Execution.PreprocessIdentity | app/services/codeExecutionService.ts:80-87 | non-TypeScript source is evaluated as written, and TypeScript source with neither `:` nor `<` passes through the stripping unchanged |
| Execution.Replay | app/services/codeExecutionService.ts:48-75 | while the capturing console is installed, logged calls append their arguments joined by spaces plus a newline, in order (with the page's own console nothing is captured); the k-th `readline`/`prompt` returns line k while lines remain and "" afterwards; the shared cursor never passes the line count; the installed console stays; the first exception ends the run |
| Execution.RunInBrowser | app/services/codeExecutionService.ts:42-103 | the console found at entry is installed again on every exit; a thrown value that converts to text resolves with "TypeScript Error: <msg>" or "JavaScript Error: <msg>" and discards captured text; one that does not convert rejects with the conversion's error; otherwise the run resolves with the captured text, or the no-output message when nothing was captured; the reads answer from `input.split('\n')` |
| Execution.NoOutputExactly | app/services/codeExecutionService.ts:55-95 | the run resolves with the no-output message exactly when the program did not throw, no input was given and nothing was logged |
| Execution.BannerFirst | app/services/codeExecutionService.ts:55-78 | with non-empty input, every run that does not throw resolves with a text that opens with the banner line |
| Execution.LoggedEmpty | app/services/codeExecutionService.ts:48-50 | nothing is captured exactly when no `console.log` call happens before the exception (if any) |
| Execution.LoggedEndsWithNewline | app/services/codeExecutionService.ts:48-50 | non-empty captured log text ends with a newline |
| Execution.InheritedNamesPassAsWritten | app/services/codeExecutionService.ts:109-113 | as written, the lookup lets "toString", which is not a table key, past the unsupported-language check, and a request is sent |
| Execution.AsWrittenAgreesOffPrototype | app/services/codeExecutionService.ts:109-113 | the as-written lookup and the table-key lookup agree on every name that is not an inherited object member |
| Regex.FirstMatch | app/services/codeExecutionService.ts:84-86 | the leftmost position where a pattern matches; no earlier position matches |
| Regex.ReplaceFirst | app/components/FrontendPreview.tsx:66-68 | replacement of the first match; text without a match is returned unchanged, and an empty replacement never lengthens the text |
| Regex.FirstRemovalIsSubsequence | app/components/FrontendPreview.tsx:66-68 | the non-global replace with `''` only deletes: the result is a subsequence of the text |
| Regex.ReplaceAll | app/services/codeExecutionService.ts:84-86 | a global replacement never lengthens the text (the replacements used are `$2`, the return-type rewrite, or empty) |
| Regex.ReplaceAllNoMatch | app/services/codeExecutionService.ts:84-86 | a global replacement leaves text without any match unchanged |
| Regex.NoAnchorNoMatch | app/services/codeExecutionService.ts:84-86 | a pattern cannot match text that lacks the character every match contains (`:` for the annotation and return-type patterns, `<` for the tag patterns) |
| Regex.GenericParamsGone | app/services/codeExecutionService.ts:86 | after removing every `<[^>]+>` match, no match is left |
| Regex.GenericParamsIdempotent | app/services/codeExecutionService.ts:86 | removing the generic parameters twice is the same as removing them once |
| Regex.RemovalKeepsCharacters | app/components/FrontendPreview.tsx:66-71 | every character of a tag-removal result occurs in the input |
| Regex.RemovalIsSubsequence | app/components/FrontendPreview.tsx:66-71 | the global tag-removing replacements only delete: the result is a subsequence of the input |
| ApiRoute.Post | app/api/execute/route.ts:3-42 | the status is 200, 400 or 500; 400 with "Code and language are required" exactly when code or language is falsy; an unreadable body gives 500 with "Failed to execute code"; every 200 output ends with "Output: Hello, World!" |
| ApiRoute.MockOutput | app/api/execute/route.ts:16-40 | `javascript` and `python` echo the code's first line between their header and the greeting; any other language that a template literal can render gets "Executed <language> code successfully." and the greeting; non-string code on the echoing languages, and a language value with no text form, fail with 500 "Failed to execute code" |
| ApiRoute.EchoedLine | app/api/execute/route.ts:22-25 | the echoed line is a prefix of the code without a newline, followed by a newline unless it is the whole code |
| ApiRoute.OtherLanguagesIgnoreCode | app/api/execute/route.ts:27-28 | for languages other than the two echoed ones, the reply does not depend on the code |
| ApiRoute.InputIgnored | app/api/execute/route.ts:5-29 | the `input` field never influences the reply |
| Integration.SelectorLanguagesKnown | app/utils/codeTemplates.ts:3-52 | every table language is a key of the Piston table, so the unsupported-language branch is unreachable from the selector |
| Integration.BodyOf | app/services/codeExecutionService.ts:116-120 | the posted body carries code and language as strings, and an absent input as an absent field |
| Integration.ReplyOf | app/services/codeExecutionService.ts:122-127 | a 2xx response becomes the success reply; an error status becomes an HTTP error carrying the body's `error` |
| Integration.SelectorRunsReachMock | app/api/execute/route.ts:7-29 | run in the browser, a table language other than JavaScript and TypeScript reaches the mock and never rejects; empty code resolves with "Error: Code and language are required", and other code with a text ending in the greeting |
| Integration.PythonEchoThroughService | app/api/execute/route.ts:24-25 | run in the browser, non-empty Python code comes back through the service as the mock's echo of its first line |
| Preview.BodySearch | app/components/FrontendPreview.tsx:59 | the leftmost position where `<body[^>]*>([\s\S]*)<\/body>` matches case-insensitively, with its captured group |
| Preview.BodyCaptureIsReference | app/components/FrontendPreview.tsx:59-62 | the capture is the text after the first `>` following the first `<body` (any case), up to the last `</body>` after it |
| Preview.EarlierOpeningMatches | app/components/FrontendPreview.tsx:59 | if the body pattern matches at some `<body`, it matches at every earlier one, so the leftmost match starts at the first |
| Preview.ExtractWithBody | app/components/FrontendPreview.tsx:59-62 | a non-empty capture is returned as the body content |
| Preview.ExtractBodyContent | app/components/FrontendPreview.tsx:57-74 | the result is a subsequence of the HTML (the captured piece, or the HTML with tags deleted), so never longer and only its characters |
| Preview.StripDocumentTags | app/components/FrontendPreview.tsx:64-73 | the tag-removing fallback only deletes: the result is a subsequence of the input, and text without `<` comes back unchanged |
| Preview.ExtractWithoutTags | app/components/FrontendPreview.tsx:57-74 | HTML without `<` comes back unchanged |
| Preview.Document | app/components/FrontendPreview.tsx:35-46 | the composed document holds the CSS inside `<style>…</style>`, then the extracted body, then the JavaScript inside `<script>…</script>`, each at a fixed offset |
| Preview.Refresh | app/components/FrontendPreview.tsx:23-54 | without a frame document nothing changes; otherwise the document is written and the key increases by exactly one |
| Preview.Step | app/components/FrontendPreview.tsx:14-21 | every event raises the key by zero or one; input changes leave the state alone while auto-preview is off; only the checkbox flips auto-preview |
| Preview.KeyCountsWrites | app/components/FrontendPreview.tsx:14-53 | over any run of events, the key grows by exactly the number of writes to the frame |
| Preview.EditsWithoutAutoPreview | app/components/FrontendPreview.tsx:14-21 | with auto-preview off (its initial value), any sequence of edits never refreshes the preview |
| Templates.TableShape | app/utils/codeTemplates.ts:3-52 | eight entries with pairwise distinct ids, each entry's `value` equal to its id, JavaScript first |
| Templates.DefaultCode | app/utils/codeTemplates.ts:54-146 | `getDefaultCode` returns "// Start coding here" exactly for ids outside the table |
| Templates.TemplatesDistinct | app/utils/codeTemplates.ts:54-146 | each table language has its own starter program |
| Templates.JavaDeclaresMain | app/utils/codeTemplates.ts:72-82 | the Java starter declares `public class Main` |
| Templates.Lookup | app/utils/codeTemplates.ts:3-52 | a table entry is found exactly for the table's ids, and it carries that id |
| Password.Check | app/auth/signup/page.tsx:36-37 | a single scan of the first line accepts exactly when the lookahead expression does: an ASCII capital, a digit, one of `!@#$%^&*`, and at least 8 UTF-16 code units before the first line terminator |
| Password.LaterLinesIgnored | app/auth/update-password/page.tsx:34-35 | whatever follows the first line terminator does not affect the verdict |
| Password.AcceptedIsLong | app/auth/signup/page.tsx:36 | an accepted password is at least 8 code units (and 4 characters) long |
| Password.NoLowerCaseNeeded | app/auth/signup/page.tsx:36 | a password without lower-case letters can be accepted |
| Password.SecondLineDoesNotCount | app/auth/signup/page.tsx:36 | length that comes only from a second line does not count |
| PasswordForm.Validate | app/auth/signup/page.tsx:29-40 | a mismatch gives "Passwords don't match" before strength is checked; otherwise the submission may proceed exactly when the password meets the rule, and fails with the fixed strength message otherwise |
| PasswordForm.ValidationCases | app/auth/update-password/page.tsx:28-38 | validation passes exactly for matching passwords that meet the rule, and the mismatch message appears exactly on a mismatch |
| Signup.Submit | app/auth/signup/page.tsx:25-59 | `signUp` is called with the e-mail and password exactly when validation passes; success redirects to the verification page with the encoded e-mail; an error shows its message; an exception shows the fixed message; loading ends false |
| Signup.EarlierErrorCleared | app/auth/signup/page.tsx:27 | an error from an earlier submission never shows through |
| Signup.RedirectCarriesEmail | app/auth/signup/page.tsx:51 | the query value after `?email=` holds no `+`, `&` or `#`, so the page reads it whole, and it decodes back to the typed e-mail |
| UpdatePassword.Submit | app/auth/update-password/page.tsx:22-61 | `updateUser` is called with the password exactly when validation passes; success shows "Password updated successfully" and schedules /auth/signin after 2000 ms; errors show their message; loading ends false |
| UpdatePassword.EarlierFeedbackCleared | app/auth/update-password/page.tsx:24-25 | each submission clears both the earlier error and the earlier message |
| Uri.DecodeEncode | app/auth/signup/page.tsx:51 | decoding the encoded e-mail gives it back, and never fails |
| Uri.EncodeAlphabet | app/auth/signup/page.tsx:51 | the encoded text holds only unreserved characters and `%` |
| Uri.EncodeOmitsQuerySyntax | app/auth/verify-email/page.tsx:10-11 | the encoded text holds no `+`, `&` or `#`, so form-urlencoded parsing of the query reads it as one value, the same as `decodeURIComponent` |
| Uri.EncodeIdentity | app/auth/signup/page.tsx:51 | encoding leaves a text unchanged exactly when all its characters are unreserved |
| RouteGuard.Guard | components/auth/ProtectedRoute.tsx:11-38 | while loading, the spinner and no redirect; children exactly when a user is present and loading is done; nothing, plus a redirect to /auth/signin, exactly when loading is done without a user |
| RouteGuard.ExactlyOneOutcome | components/auth/ProtectedRoute.tsx:15-37 | every authentication state gives exactly one of the spinner, the protected content, or the redirect to sign-in; the content never shows in a state that redirects |
| Theme.Toggle | app/page.tsx:74-76 | the result is always one of the two themes, and it is light exactly when the theme was dark |
| Theme.ToggleTwice | app/frontend/page.tsx:95-97 | toggling twice restores either theme, and each toggle changes it |
| Editor.Initial | app/page.tsx:15-28 | the mounted editor has the first table language (JavaScript) with its starter program, empty output, the dark theme, and no run in flight |
| Editor.ChangeLanguage | app/page.tsx:26-28 | choosing the selected language changes nothing; choosing another loads its starter program over the code; nothing but the language and the code changes |
| Editor.Run | app/page.tsx:41-53 | no second run starts while one is in flight; otherwise the output becomes the text `executeCode` resolves with for the code and language id (no input), or "Error: " + the message when it rejects; the executing flag is lowered and nothing else changes |
| Editor.StartRun | app/page.tsx:41-43 | a click raises the executing flag and clears the output, unless a run is in flight (the button is disabled) |
| Editor.FinishRun | app/page.tsx:45-52 | the output is the result, or "Error: " + the message when the promise rejects; the executing flag is lowered and nothing else changes |
| Editor.Reset | app/page.tsx:59-62 | the code becomes the current language's starter program and the output is cleared; nothing else changes |
| Editor.DownloadName | app/page.tsx:68 | the file is named "code." followed by the selected language's extension |
| Editor.Edit | app/page.tsx:227 | an editor change stores the value, or "" for none, and nothing else |
| Editor.StdinIgnored | app/page.tsx:20-46 | the stdin text never influences a run's output |
| Editor.ReachableValid | app/page.tsx:14-256 | every session reachable by user actions has a table language, one of the two themes, and no run left in flight |
| Editor.SelectThenReset | app/page.tsx:26-62 | a newly selected table language shows its own starter program, never the fallback, and reset after editing restores it |
| Playground.Copy | app/frontend/page.tsx:99-114 | the copied text is the active tab's buffer |
| Playground.Reset | app/frontend/page.tsx:117-178 | the active buffer goes back to its starter text, and the other two buffers are unchanged |
| Playground.Download | app/frontend/page.tsx:180-197 | the active buffer is downloaded as index.html, styles.css or script.js |
| Playground.DownloadAll | app/frontend/page.tsx:208-213 | the archive holds exactly three entries with distinct names, one per buffer, each with its current text |
| Playground.SwitchTab | app/frontend/page.tsx:243-258 | a tab button changes the active tab and no buffer |
| Playground.Edit | app/frontend/page.tsx:268-288 | an editor change replaces the visible buffer with the value, or "" for none |
| Playground.ToggleTheme | app/frontend/page.tsx:95-97 | the theme flips between dark and light; buffers and the active tab stay |
| Playground.ToggleThemeTwice | app/frontend/page.tsx:95-97 | two theme clicks give back the same playground |
| Playground.ResetUndoesEdit | app/frontend/page.tsx:117-178 | reset after an edit is the same as reset without it |
| Playground.ExportMatchesDownloads | app/frontend/page.tsx:180-213 | the archive holds the same files as downloading each tab in turn |
| Text.JoinSplit | app/services/codeExecutionService.ts:57 | joining the pieces of `split('\n')` with the separator restores the input |
| Text.Split | app/api/execute/route.ts:22 | `split` gives one more piece than there are separators, and no piece contains the separator |
| Text.FirstLine | app/auth/signup/page.tsx:36 | the text `.` can scan from the start: the longest prefix without a line terminator |

## Left out

- Integration: the mock route answers only runs in the browser (`Environment(true, …)`). The editor page is a client component that runs code from a click handler. Without a `window`, the relative `/api/execute` URL has no origin to resolve against, so the request never reaches the route; such runs would settle through the `OtherError` path, which the integration lemmas do not cover.
- Evaluating user code (`new Function(processedCode)()`): the program is the abstract event trace. Log arguments arrive already converted to text. A thrown value arrives as its message text (`error.message` or `String(error)`), or as the message of the error that this conversion throws.
- The text of engine errors (the `TypeError` from converting an object without a primitive value, or from reading a field of `null`) is a parameter of the events and replies that raise it, since it depends on the JavaScript engine.
- A 2xx reply whose body is `null` makes `response.data.output` throw inside the `try`, and the run resolves with "Error: <that message>". The environment expresses it as an `OtherError` reply carrying that message; it has no reply kind of its own.
- The HTTP POST, `request.json()`, the 500 ms mock delay, and the 2 s timer: the POST is an abstract reply, and the parsed body is the `Body` datatype. The timer appears only as a scheduled navigation with its delay.
- The authentication service calls (`signUp`, `updateUser`, and the user/loading state): they are abstract inputs.
- Execution.RunInBrowser: with empty or absent input the page installs no `readline`/`prompt`, so a call goes to whatever global of that name exists (one left from an earlier run, or the browser's own `prompt`). The model answers "" there without moving the cursor.
- Execution.RunInBrowser: the installed `readline`/`prompt` stay installed after the run. The captured `console.log` also forwards to the original console. Neither is modelled.
- The outer `catch` of `executeCode`: neither path's promise is awaited inside its `try`, so a rejection passes straight to the caller and that `catch` never runs. It has no counterpart in the model.
- Execution.ExecuteCode: uses the table-key lookup, the corrected definition under "Findings". The behaviour as written, where inherited object member names reach the endpoint too, is `Execution.ExecuteCodeAsWritten`.
- Execution.RequestSentExactly: states the request condition for the table-key lookup. The condition as written, which also admits the inherited member names, is `Execution.RequestSentAsWritten`.
- Execution.RejectsExactly: states the rejection condition for the table-key lookup. As written, a `null`-bodied HTTP error also rejects for inherited member names such as "toString"; that condition is `Execution.RejectsExactlyAsWritten`.
- Lone surrogate code units: Dafny characters are Unicode scalar values. The password rule still counts UTF-16 code units, but `encodeURIComponent`'s `URIError` for lone surrogates cannot arise.
- Preview.Refresh: whether the frame document is reachable is the `frameReady` parameter. The frame is declared `sandbox="allow-scripts"` without `allow-same-origin`, and under the HTML standard's sandboxing rules its document is then not reachable from the page. That behaviour is not modelled.
- Preview.Refresh: re-keying the frame remounts it, and that is not modelled either.
- Iframe writing, the clipboard, Blob/URL downloads, the JSZip archive bytes, localStorage and page reloads: only the text and file names they receive are modelled.
- Rendering, styling, the landing page's "Create Account" link, and the presentation components.
- Signup.Submit: the full-name field is collected but never sent, so it is not part of the page record.
- The reset-password, profile, dashboard and verify-email pages: their logic is service calls and navigation.
- Java `Main`-class wrapping, local compilation and Piston response parsing: they are not part of this model.
- React scheduling: each handler is one atomic step.

## Findings

| source | as written | input that shows it | evidently intended | confidence | as-written member | corrected member |
|---|---|---|---|---|---|---|
| app/services/codeExecutionService.ts:109-113 | `languageToPistonId[language]` reads through the object's prototype, so inherited member names are truthy and pass the `!languageId` check | language "toString" (any `Object.prototype` member name) is posted to the endpoint instead of getting "Language 'toString' is not supported by Piston." | only the fourteen table keys are supported; every other name gets the unsupported-language message | high (not executed) | Execution.InheritedNamesPassAsWritten | Execution.RunWithPiston |
