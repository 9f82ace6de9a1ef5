/** The code editor page's session: the selected language and its code, the run
    output and the executing flag, the theme, and the stdin and landing toggles.
    Each handler is one step on an immutable session. */
module Editor {
  import opened Wrappers
  import opened Text
  import Templates
  import Execution
  import Theme

  datatype Session = Session(
    code: string,
    output: string,
    executing: bool,
    language: Templates.Language,
    theme: string,
    stdin: string,
    showStdin: bool,
    showEditor: bool)

  /** The session once mounted: the first table entry is selected and the mount
      effect has loaded its starter program. */
  function Initial(showEditor: bool): (s: Session)
    ensures s.language == Templates.SupportedLanguages[0] && s.language.id == "javascript"
    ensures s.code == Templates.DefaultCode("javascript") && s.code != Templates.Fallback
    ensures s.output == "" && !s.executing && s.theme == Theme.Dark
    ensures s.stdin == "" && !s.showStdin && s.showEditor == showEditor
  {
    var first := Templates.SupportedLanguages[0];
    Session(Templates.DefaultCode(first.id), "", false, first, Theme.Dark, "", false, showEditor)
  }

  /** `handleLanguageChange` and the effect on the selected language: choosing the
      language already selected changes nothing, choosing another one loads its
      starter program over the code. Nothing else changes. */
  function ChangeLanguage(s: Session, language: Templates.Language): (r: Session)
    ensures r.language == language
    ensures language != s.language ==> r.code == Templates.DefaultCode(language.id)
    ensures language == s.language ==> r == s
    ensures r == s.(language := language, code := r.code)
  {
    if language == s.language then s
    else s.(language := language, code := Templates.DefaultCode(language.id))
  }

  /** The first half of `handleRunCode`: the Run button is disabled while a run is
      in flight, otherwise the flag is raised and the output cleared. */
  function StartRun(s: Session): (r: Session)
    ensures s.executing ==> r == s
    ensures !s.executing ==> r == s.(executing := true, output := "")
  {
    if s.executing then s else s.(executing := true, output := "")
  }

  /** The second half: the resolved text, or "Error: " and the message of the
      rejection, and the flag lowered. Nothing else changes. */
  function FinishRun(s: Session, settled: Execution.Settled): (r: Session)
    ensures !r.executing
    ensures settled.Resolved? ==> r.output == settled.text
    ensures settled.Rejected? ==> r.output == "Error: " + settled.message
    ensures r == s.(executing := false, output := r.output)
  {
    match settled
    case Resolved(text) => s.(executing := false, output := text)
    case Rejected(message) => s.(executing := false, output := "Error: " + message)
  }

  /** A whole run in the given environment. Only the code and the language id are
      passed to `executeCode`, no input; however its promise settles shows in the
      output, and only the output and the flag change. */
  function Run(s: Session, env: Execution.Environment): (r: Session)
    ensures s.executing ==> r == s
    ensures !s.executing ==> r == s.(executing := false, output := r.output)
    ensures var settled := Execution.ExecuteCode(s.code, s.language.id, None, env).settled;
      !s.executing && settled.Resolved? ==> r.output == settled.text
    ensures var settled := Execution.ExecuteCode(s.code, s.language.id, None, env).settled;
      !s.executing && settled.Rejected? ==> r.output == "Error: " + settled.message
  {
    if s.executing then s
    else
      var started := StartRun(s);
      FinishRun(started, Execution.ExecuteCode(started.code, started.language.id, None, env).settled)
  }

  /** `handleResetCode`: the current language's starter program, and no output.
      Nothing else changes. */
  function Reset(s: Session): (r: Session)
    ensures r.code == Templates.DefaultCode(s.language.id) && r.output == ""
    ensures r == s.(code := r.code, output := r.output)
  {
    s.(code := Templates.DefaultCode(s.language.id), output := "")
  }

  /** The file name `handleDownloadCode` gives the code. */
  function DownloadName(s: Session): (name: string)
    ensures StartsWith(name, "code.") && |name| == 5 + |s.language.extension|
    ensures name[5..] == s.language.extension
  {
    "code." + s.language.extension
  }

  /** The editor's `onChange`: `value || ''`. */
  function Edit(s: Session, value: Option<string>): (r: Session)
    ensures r.code == value.GetOr("")
    ensures r == s.(code := r.code)
  {
    s.(code := value.GetOr(""))
  }

  /** One user action on the page. */
  datatype Action =
    | SelectLanguage(language: Templates.Language)
    | TryLanguage(language: Templates.Language)
    | RunCode(env: Execution.Environment)
    | ResetCode
    | EditCode(value: Option<string>)
    | EditStdin(text: string)
    | ToggleStdin
    | ToggleTheme
    | StartCoding
    | GoToLanding

  /** Applies one action. "Try <language>" on the landing page selects the language
      and opens the editor. */
  function Step(s: Session, a: Action): Session
  {
    match a
    case SelectLanguage(l) => ChangeLanguage(s, l)
    case TryLanguage(l) => ChangeLanguage(s, l).(showEditor := true)
    case RunCode(env) => Run(s, env)
    case ResetCode => Reset(s)
    case EditCode(v) => Edit(s, v)
    case EditStdin(t) => s.(stdin := t)
    case ToggleStdin => s.(showStdin := !s.showStdin)
    case ToggleTheme => s.(theme := Theme.Toggle(s.theme))
    case StartCoding => s.(showEditor := true)
    case GoToLanding => s.(showEditor := false)
  }

  /** The actions a user can perform: languages come from the selector. */
  predicate Offered(a: Action)
  {
    (a.SelectLanguage? || a.TryLanguage?) ==> a.language in Templates.SupportedLanguages
  }

  /** What holds of every session the page can reach: a table language is selected,
      the theme is one of the two, and no run is left in flight. */
  predicate Valid(s: Session)
  {
    s.language in Templates.SupportedLanguages && (s.theme == Theme.Dark || s.theme == Theme.Light) && !s.executing
  }

  function Steps(s: Session, actions: seq<Action>): Session
    decreases |actions|
  {
    if |actions| == 0 then s else Steps(Step(s, actions[0]), actions[1..])
  }

  /** Every offered action keeps a session valid. */
  lemma StepKeepsValid(s: Session, a: Action)
    requires Valid(s) && Offered(a)
    ensures Valid(Step(s, a))
  {
  }

  /** Any sequence of offered actions from the mounted page keeps it valid, so the
      download name always carries a table extension and a run is never refused. */
  lemma {:induction false} ReachableValid(s: Session, actions: seq<Action>)
    requires Valid(s)
    requires forall k :: 0 <= k < |actions| ==> Offered(actions[k])
    ensures Valid(Steps(s, actions))
    decreases |actions|
  {
    if |actions| > 0 {
      StepKeepsValid(s, actions[0]);
      ReachableValid(Step(s, actions[0]), actions[1..]);
    }
  }

  /** The mounted page is valid. */
  lemma InitialValid(showEditor: bool)
    ensures Valid(Initial(showEditor))
  {
  }

  /** The stdin box never reaches execution: two sessions that differ only in their
      stdin text produce the same output. */
  lemma StdinIgnored(s: Session, other: string, env: Execution.Environment)
    ensures Run(s.(stdin := other), env).output == Run(s, env).output
  {
  }

  /** Selecting a different table language shows its own starter program, never the
      fallback; reset then restores that same program. */
  lemma SelectThenReset(s: Session, language: Templates.Language, edit: Option<string>)
    requires language in Templates.SupportedLanguages && language != s.language
    ensures ChangeLanguage(s, language).code != Templates.Fallback
    ensures Reset(Edit(ChangeLanguage(s, language), edit)).code == ChangeLanguage(s, language).code
  {
    var k :| 0 <= k < |Templates.SupportedLanguages| && Templates.SupportedLanguages[k] == language;
    assert Templates.IsSupported(language.id) by {
      assert Templates.SupportedLanguages[k].id == language.id;
    }
  }
}
