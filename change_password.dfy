/**
 * The change-password page: its field rules, the checks its submit makes
 * before sending anything, the request it sends, and how it reports the
 * answer. The logout and redirect that follow a success are only scheduled.
 */
module ChangePassword {
  import opened Common
  import opened Text
  import opened Json
  import opened Http
  import opened AuthSchema

  datatype Form = Form(oldPassword: string, newPassword: string, confirmNewPassword: string)

  /** What the page sends: the old and the new password, never the confirmation. */
  datatype ChangeRequest = ChangeRequest(oldPassword: string, newPassword: string)

  const OldRequired: string := "Current password is required"
  const NewRequired: string := "New password is required"
  const NewTooShort: string := "Password must be at least 6 characters"
  const ConfirmRequired: string := "Please confirm your new password"
  const MismatchError: string := "New passwords do not match"
  const UnchangedError: string := "New password must be different from old password"
  const FallbackError: string := "Failed to change password"
  const SuccessText: string := "Password changed successfully! Redirecting to login..."

  // ---------------------------------------------------------------------------
  // Field rules
  // ---------------------------------------------------------------------------

  function OldPasswordError(v: string): (e: Option<string>)
    ensures e.None? <==> v != ""
  {
    if v == "" then Some(OldRequired) else None
  }

  /** Emptiness is reported before length; `value.length` counts UTF-16 code units. */
  function NewPasswordError(v: string): (e: Option<string>)
    ensures e.None? <==> JsLength(v) >= 6
    ensures v == "" ==> e == Some(NewRequired)
    ensures 0 < JsLength(v) < 6 ==> e == Some(NewTooShort)
  {
    if v == "" then Some(NewRequired)
    else if JsLength(v) < 6 then Some(NewTooShort)
    else None
  }

  predicate FieldsValid(f: Form) {
    OldPasswordError(f.oldPassword).None? && NewPasswordError(f.newPassword).None?
    && RequiredError(f.confirmNewPassword, ConfirmRequired).None?
  }

  // ---------------------------------------------------------------------------
  // Submit
  // ---------------------------------------------------------------------------

  /**
   * The checks made before sending, in order: the confirmation must match
   * the new password, and then the new password must differ from the old one.
   */
  function LocalCheck(f: Form): (e: Option<string>)
    ensures e.None? <==> f.newPassword == f.confirmNewPassword && f.oldPassword != f.newPassword
    ensures f.newPassword != f.confirmNewPassword ==> e == Some(MismatchError)
    ensures f.newPassword == f.confirmNewPassword && f.oldPassword == f.newPassword ==> e == Some(UnchangedError)
  {
    if f.newPassword != f.confirmNewPassword then Some(MismatchError)
    else if f.oldPassword == f.newPassword then Some(UnchangedError)
    else None
  }

  /** When both checks fail, the mismatch is the one reported. */
  lemma MismatchReportedFirst(f: Form)
    requires f.newPassword != f.confirmNewPassword && f.oldPassword == f.newPassword
    ensures LocalCheck(f) == Some(MismatchError)
  {
  }

  function RequestOf(f: Form): ChangeRequest {
    ChangeRequest(f.oldPassword, f.newPassword)
  }

  /** The JSON body of a request. */
  function RequestBody(r: ChangeRequest): (body: Object)
    ensures body.Keys == {"oldPassword", "newPassword"}
    ensures body["oldPassword"] == Str(r.oldPassword) && body["newPassword"] == Str(r.newPassword)
  {
    map["oldPassword" := Str(r.oldPassword), "newPassword" := Str(r.newPassword)]
  }

  /** The error text of a refused request: `error`, else `message`, else a fixed text. */
  function FailureText(d: ReplyData): (text: string)
    ensures text != ""
    ensures d.error != "" ==> text == d.error
    ensures d.error == "" && d.message != "" ==> text == d.message
    ensures d.error == "" && d.message == "" ==> text == FallbackError
  {
    if d.error != "" then d.error else if d.message != "" then d.message else FallbackError
  }

  class Page {
    var error: Option<string>
    var success: Option<string>
    /** Every request sent, oldest first. */
    var sent: seq<ChangeRequest>
    /** Whether the logout and redirect to the login page have been scheduled. */
    var loggingOut: bool

    constructor ()
      ensures error == None && success == None && sent == [] && !loggingOut
    {
      error, success, sent, loggingOut := None, None, [], false;
    }

    /**
     * A submit. A form whose fields do not pass their rules is not submitted.
     * Otherwise both messages are cleared; a failed local check sets its
     * message and sends nothing; else one request is sent and its answer
     * sets either the error (the raised message, or the failure text) or the
     * success message, and in the latter case the logout is scheduled.
     */
    method Submit(f: Form, answer: Answer)
      modifies this
      ensures !FieldsValid(f) ==>
        error == old(error) && success == old(success) && sent == old(sent) && loggingOut == old(loggingOut)
      ensures FieldsValid(f) && LocalCheck(f).Some? ==>
        error == LocalCheck(f) && success == None && sent == old(sent) && loggingOut == old(loggingOut)
      ensures FieldsValid(f) && LocalCheck(f).None? ==> sent == old(sent) + [RequestOf(f)]
      ensures FieldsValid(f) && LocalCheck(f).None? ==>
        match answer
        case NetworkFailure(reason) => error == Some(reason) && success == None && loggingOut == old(loggingOut)
        case Unreadable(reason) => error == Some(reason) && success == None && loggingOut == old(loggingOut)
        case Answered(ok, data) =>
          if ok then error == None && success == Some(SuccessText) && loggingOut
          else error == Some(FailureText(data)) && success == None && loggingOut == old(loggingOut)
    {
      if !FieldsValid(f) {
        return;
      }
      error := None;
      success := None;
      var check := LocalCheck(f);
      if check.Some? {
        error := check;
        return;
      }
      sent := sent + [RequestOf(f)];
      match answer {
        case NetworkFailure(reason) =>
          error := Some(reason);
        case Unreadable(reason) =>
          error := Some(reason);
        case Answered(ok, data) =>
          if !ok {
            error := Some(FailureText(data));
          } else {
            success := Some(SuccessText);
            loggingOut := true;
          }
      }
    }
  }

  // ---------------------------------------------------------------------------
  // The request against the server's rule
  // ---------------------------------------------------------------------------

  /**
   * Whatever the form holds, the body the page sends has no `currentPassword`,
   * so the server's password-change rule refuses it with a "required" issue
   * on that field, before the handler is ever reached.
   */
  lemma SentBodyRejectedByServer(r: ChangeRequest, params: map<string, string>)
    ensures ParseChangePassword(RequestParts(RequestBody(r), params)).Rejected?
    ensures ParseChangePassword(RequestParts(RequestBody(r), params)).issues[0] ==
      Issue(["body", "currentPassword"], Required, Some("Current password is required"))
  {
    MissingCurrentPasswordRejected(RequestParts(RequestBody(r), params));
  }

  /**
   * Keyed on `oldPassword`, the rule accepts every request the page can send:
   * a form that passes the field rules and the local checks yields a body the
   * rule accepts, carrying the same two passwords.
   */
  lemma SentBodyAcceptedByCorrectedRule(f: Form, params: map<string, string>)
    requires FieldsValid(f) && LocalCheck(f).None?
    ensures ParseChangePasswordCorrected(RequestParts(RequestBody(RequestOf(f)), params))
      == Accepted(PasswordChange(f.oldPassword, f.newPassword))
  {
  }
}
