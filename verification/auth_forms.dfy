/** The paths the authentication pages navigate to. */
module AuthPaths {
  const SignIn: string := "/auth/signin"
  const VerifyEmail: string := "/auth/verify-email"
}

/** The checks both password forms run before calling the authentication service,
    in their order, with their messages. */
module PasswordForm {
  import opened Wrappers
  import opened Password

  const MismatchMessage: string := "Passwords don't match"
  const PolicyMessage: string :=
    "Password must be at least 8 characters with 1 uppercase, 1 number, and 1 special character"
  const UnexpectedMessage: string := "An unexpected error occurred"

  /** The validation error a submission stops at, or `None` when it may proceed:
      the confirmation is compared first, then the strength rule applies. */
  function Validate(password: string, confirmation: string): (r: Option<string>)
    ensures password != confirmation ==> r == Some(MismatchMessage)
    ensures password == confirmation ==> (r.None? <==> MeetsPolicy(password))
    ensures password == confirmation && !MeetsPolicy(password) ==> r == Some(PolicyMessage)
  {
    if password != confirmation then Some(MismatchMessage)
    else if !MeetsPolicy(password) then Some(PolicyMessage)
    else None
  }

  /** A submission passes validation exactly when both fields agree and the password
      meets the rule; the two messages differ, so the one shown tells which check
      failed. */
  lemma ValidationCases(password: string, confirmation: string)
    ensures Validate(password, confirmation).None? <==> password == confirmation && MeetsPolicy(password)
    ensures Validate(password, confirmation) == Some(MismatchMessage) <==> password != confirmation
  {
    assert |MismatchMessage| != |PolicyMessage|;
  }

  /** How the authentication service answers: no error, an error with a message, or
      a thrown exception. */
  datatype AuthReply = Accepted | Rejected(message: string) | Threw
}

/** The sign-up form's `handleSubmit`. The submit button is disabled while loading,
    so a submission starts with `loading` false and ends with it false. */
module Signup {
  import opened Wrappers
  import opened PasswordForm
  import AuthPaths
  import Uri

  /** The page state the handler reads and writes. */
  datatype Page = Page(email: string, password: string, confirmation: string,
                       loading: bool, error: Option<string>)

  /** The arguments `signUp` is called with. */
  datatype SignUpCall = SignUpCall(email: string, password: string)

  /** The navigation target after a successful sign-up. */
  function VerifyEmailTarget(email: string): string
  {
    AuthPaths.VerifyEmail + "?email=" + Uri.Encode(email)
  }

  /** The page after a submission, the service call it made, and where it navigated. */
  datatype Submission = Submission(page: Page, call: Option<SignUpCall>, redirect: Option<string>)

  /** `handleSubmit` with the service answering `reply`. */
  function Submit(p: Page, reply: AuthReply): (r: Submission)
    ensures r.call.Some? ==> !r.page.loading
    ensures r.call.None? ==> r.page.loading == p.loading
    ensures !p.loading ==> !r.page.loading
    ensures r.page.email == p.email && r.page.password == p.password && r.page.confirmation == p.confirmation
    ensures r.call.Some? <==> Validate(p.password, p.confirmation).None?
    ensures r.call.Some? ==> r.call.value == SignUpCall(p.email, p.password)
    ensures r.call.None? ==> r.page.error == Validate(p.password, p.confirmation) && r.redirect.None?
    ensures r.redirect.Some? <==> r.call.Some? && reply.Accepted?
    ensures r.redirect.Some? ==> r.redirect.value == VerifyEmailTarget(p.email) && r.page.error.None?
    ensures r.call.Some? && reply.Rejected? ==> r.page.error == Some(reply.message)
    ensures r.call.Some? && reply.Threw? ==> r.page.error == Some(UnexpectedMessage)
  {
    var cleared := p.(error := None);
    match Validate(p.password, p.confirmation)
    case Some(message) => Submission(cleared.(error := Some(message)), None, None)
    case None =>
      var call := Some(SignUpCall(p.email, p.password));
      match reply
      case Accepted => Submission(cleared.(loading := false), call, Some(VerifyEmailTarget(p.email)))
      case Rejected(m) => Submission(cleared.(loading := false, error := Some(m)), call, None)
      case Threw => Submission(cleared.(loading := false, error := Some(UnexpectedMessage)), call, None)
  }

  /** The error left over from an earlier submission never shows through. */
  lemma EarlierErrorCleared(p: Page, earlier: Option<string>, reply: AuthReply)
    ensures Submit(p.(error := earlier), reply) == Submit(p.(error := None), reply)
  {
  }

  /** The verification page receives the address intact. It reads the value with
      `useSearchParams().get('email')`, which parses form-urlencoded text, not with
      `decodeURIComponent`; the two readings differ only on `+`, and a value that
      holds no `+`, `&` or `#` is one whole parameter. `encodeURIComponent` writes
      none of those, so the query value after `?email=` is read in one piece and
      decodes to the e-mail that was typed. */
  lemma RedirectCarriesEmail(p: Page, reply: AuthReply)
    requires Submit(p, reply).redirect.Some?
    ensures var target := Submit(p, reply).redirect.value;
      var prefix := AuthPaths.VerifyEmail + "?email=";
      |prefix| <= |target| && target[..|prefix|] == prefix && Uri.Decode(target[|prefix|..]) == Some(p.email)
    ensures var target := Submit(p, reply).redirect.value;
      var prefix := AuthPaths.VerifyEmail + "?email=";
      forall k :: |prefix| <= k < |target| ==> target[k] != '+' && target[k] != '&' && target[k] != '#'
  {
    var prefix := AuthPaths.VerifyEmail + "?email=";
    var target := VerifyEmailTarget(p.email);
    assert target == prefix + Uri.Encode(p.email);
    assert target[|prefix|..] == Uri.Encode(p.email);
    Uri.DecodeEncode(p.email);
    Uri.EncodeOmitsQuerySyntax(p.email);
    forall k | |prefix| <= k < |target|
      ensures target[k] != '+' && target[k] != '&' && target[k] != '#'
    {
      assert target[k] == Uri.Encode(p.email)[k - |prefix|];
    }
  }
}

/** The update-password form's `handleSubmit`; as on the sign-up form, the submit
    button is disabled while loading. */
module UpdatePassword {
  import opened Wrappers
  import opened PasswordForm
  import AuthPaths

  const SuccessMessage: string := "Password updated successfully"

  /** Delay before the success redirect, in milliseconds. */
  const RedirectDelay: nat := 2000

  datatype Page = Page(password: string, confirmation: string, loading: bool,
                       error: Option<string>, message: Option<string>)

  /** A navigation scheduled on a timer. */
  datatype Scheduled = Scheduled(delay: nat, target: string)

  /** The page after a submission, the password `updateUser` was called with, and the
      navigation it scheduled. */
  datatype Submission = Submission(page: Page, updatedTo: Option<string>, scheduled: Option<Scheduled>)

  /** `handleSubmit` with the service answering `reply`. */
  function Submit(p: Page, reply: AuthReply): (r: Submission)
    ensures r.updatedTo.Some? ==> !r.page.loading
    ensures r.updatedTo.None? ==> r.page.loading == p.loading
    ensures !p.loading ==> !r.page.loading
    ensures r.page.password == p.password && r.page.confirmation == p.confirmation
    ensures r.updatedTo.Some? <==> Validate(p.password, p.confirmation).None?
    ensures r.updatedTo.Some? ==> r.updatedTo.value == p.password
    ensures r.updatedTo.None? ==>
      r.page.error == Validate(p.password, p.confirmation) && r.page.message.None? && r.scheduled.None?
    ensures r.page.message.Some? <==> r.updatedTo.Some? && reply.Accepted?
    ensures r.page.message.Some? ==>
      r.page.message.value == SuccessMessage && r.page.error.None? &&
      r.scheduled == Some(Scheduled(RedirectDelay, AuthPaths.SignIn))
    ensures r.scheduled.Some? ==> r.page.message.Some?
    ensures r.updatedTo.Some? && reply.Rejected? ==> r.page.error == Some(reply.message)
    ensures r.updatedTo.Some? && reply.Threw? ==> r.page.error == Some(UnexpectedMessage)
  {
    var cleared := p.(error := None, message := None);
    match Validate(p.password, p.confirmation)
    case Some(e) => Submission(cleared.(error := Some(e)), None, None)
    case None =>
      var call := Some(p.password);
      match reply
      case Accepted =>
        Submission(cleared.(loading := false, message := Some(SuccessMessage)), call,
                   Some(Scheduled(RedirectDelay, AuthPaths.SignIn)))
      case Rejected(m) => Submission(cleared.(loading := false, error := Some(m)), call, None)
      case Threw => Submission(cleared.(loading := false, error := Some(UnexpectedMessage)), call, None)
  }

  /** Each submission starts from a clean slate: neither an earlier error nor an
      earlier success message survives it. */
  lemma EarlierFeedbackCleared(p: Page, error: Option<string>, message: Option<string>, reply: AuthReply)
    ensures Submit(p.(error := error, message := message), reply) == Submit(p.(error := None, message := None), reply)
  {
  }
}
