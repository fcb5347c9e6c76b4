/**
 * The account request schemas: registration, login and password change,
 * each a set of string fields of the request body with a presence rule and a
 * minimum length, counted in UTF-16 code units as JavaScript does. Whether a string is an email address is the validation
 * library's own rule and is a parameter here.
 */
module AuthSchema {
  import opened Common
  import opened Text
  import opened Json

  datatype Credentials = Credentials(email: string, password: string)
  datatype PasswordChange = PasswordChange(currentPassword: string, newPassword: string)

  /**
   * A required string field with a minimum length: a missing key reports the
   * field's "required" message, a non-string reports a type issue, and a short
   * string reports the field's length message.
   */
  function StringIssues(body: Object, name: string, minLength: nat, requiredMessage: string, shortMessage: string): (r: seq<Issue>)
    ensures r == [] <==> Field(body, name).Str? && JsLength(Field(body, name).s) >= minLength
    ensures |r| <= 1
    ensures forall i :: 0 <= i < |r| ==> r[i].path == ["body", name]
  {
    match Field(body, name)
    case Absent => [Issue(["body", name], Required, Some(requiredMessage))]
    case Str(s) => if JsLength(s) < minLength then [Issue(["body", name], TooSmall, Some(shortMessage))] else []
    case _ => [Issue(["body", name], InvalidType, None)]
  }

  /** The email field: a string, and an email address as `isEmail` judges it. */
  function EmailIssues(body: Object, isEmail: string -> bool): (r: seq<Issue>)
    ensures r == [] <==> Field(body, "email").Str? && isEmail(Field(body, "email").s)
  {
    match Field(body, "email")
    case Absent => [Issue(["body", "email"], Required, Some("Email is required"))]
    case Str(s) => if isEmail(s) then [] else [Issue(["body", "email"], NotEmail, Some("Invalid email format"))]
    case _ => [Issue(["body", "email"], InvalidType, None)]
  }

  /** `registerSchema`: an email address and a password of at least 6 characters. */
  function ParseRegister(req: RequestParts, isEmail: string -> bool): (r: Parsed<Credentials, Issue>)
    ensures r.Accepted? <==>
      && Field(req.body, "email").Str? && isEmail(Field(req.body, "email").s)
      && Field(req.body, "password").Str? && JsLength(Field(req.body, "password").s) >= 6
    ensures r.Accepted? ==> r.value == Credentials(Field(req.body, "email").s, Field(req.body, "password").s)
    ensures r.Rejected? ==> 1 <= |r.issues| <= 2
  {
    var issues := EmailIssues(req.body, isEmail)
      + StringIssues(req.body, "password", 6, "Password is required", "Password must be at least 6 characters");
    if issues == [] then Accepted(Credentials(req.body["email"].s, req.body["password"].s)) else Rejected(issues)
  }

  /** `loginSchema`: an email address and a non-empty password. */
  function ParseLogin(req: RequestParts, isEmail: string -> bool): (r: Parsed<Credentials, Issue>)
    ensures r.Accepted? <==>
      && Field(req.body, "email").Str? && isEmail(Field(req.body, "email").s)
      && Field(req.body, "password").Str? && JsLength(Field(req.body, "password").s) >= 1
    ensures r.Accepted? ==> r.value == Credentials(Field(req.body, "email").s, Field(req.body, "password").s)
  {
    var issues := EmailIssues(req.body, isEmail)
      + StringIssues(req.body, "password", 1, "Password is required", "Password is required");
    if issues == [] then Accepted(Credentials(req.body["email"].s, req.body["password"].s)) else Rejected(issues)
  }

  /**
   * The password-change rule with the current password read from the field
   * `current`: a non-empty current password and a `newPassword` of at least
   * 6 characters, each with its own messages.
   */
  function PasswordChangeRule(req: RequestParts, current: string): (r: Parsed<PasswordChange, Issue>)
    ensures r.Accepted? <==>
      && Field(req.body, current).Str? && JsLength(Field(req.body, current).s) >= 1
      && Field(req.body, "newPassword").Str? && JsLength(Field(req.body, "newPassword").s) >= 6
    ensures r.Accepted? ==> r.value == PasswordChange(Field(req.body, current).s, Field(req.body, "newPassword").s)
    ensures r.Rejected? ==> 1 <= |r.issues| <= 2
    ensures current !in req.body ==>
      r.Rejected? && r.issues[0] == Issue(["body", current], Required, Some("Current password is required"))
  {
    var issues :=
      StringIssues(req.body, current, 1, "Current password is required", "Current password is required")
      + StringIssues(req.body, "newPassword", 6, "New password is required", "New password must be at least 6 characters");
    if issues == [] then Accepted(PasswordChange(req.body[current].s, req.body["newPassword"].s)) else Rejected(issues)
  }

  /** `changePasswordSchema`, which names the current password `currentPassword`. */
  function ParseChangePassword(req: RequestParts): (r: Parsed<PasswordChange, Issue>)
    ensures r.Accepted? <==>
      && Field(req.body, "currentPassword").Str? && JsLength(Field(req.body, "currentPassword").s) >= 1
      && Field(req.body, "newPassword").Str? && JsLength(Field(req.body, "newPassword").s) >= 6
  {
    PasswordChangeRule(req, "currentPassword")
  }

  /** Login is the weaker rule: whatever registration accepts, login accepts. */
  lemma RegisterImpliesLogin(req: RequestParts, isEmail: string -> bool)
    requires ParseRegister(req, isEmail).Accepted?
    ensures ParseLogin(req, isEmail) == ParseRegister(req, isEmail)
  {
  }

  /** A password of 1 to 5 characters passes login validation and fails registration. */
  lemma ShortPasswordPassesLoginOnly(email: string, password: string, isEmail: string -> bool)
    requires isEmail(email) && 1 <= JsLength(password) < 6
    ensures var req := RequestParts(map["email" := Str(email), "password" := Str(password)], map[]);
      ParseLogin(req, isEmail).Accepted? && ParseRegister(req, isEmail).Rejected?
  {
  }

  /**
   * The minimum length counts UTF-16 code units: three characters outside the
   * Basic Multilingual Plane make a password of length 6, which registration
   * accepts.
   */
  lemma WidePasswordMeetsMinimum(email: string, c: char, isEmail: string -> bool)
    requires isEmail(email) && c as int >= 0x1_0000
    ensures var req := RequestParts(map["email" := Str(email), "password" := Str([c, c, c])], map[]);
      ParseRegister(req, isEmail) == Accepted(Credentials(email, [c, c, c]))
  {
    assert JsLength([c]) == 2;
    assert [c, c][1..] == [c];
    assert JsLength([c, c]) == 4;
    assert [c, c, c][1..] == [c, c];
    assert JsLength([c, c, c]) == 6;
  }

  /** A body without `currentPassword` fails, with the "required" issue on that field, whatever else it carries. */
  lemma MissingCurrentPasswordRejected(req: RequestParts)
    requires "currentPassword" !in req.body
    ensures ParseChangePassword(req).Rejected?
    ensures ParseChangePassword(req).issues[0] ==
      Issue(["body", "currentPassword"], Required, Some("Current password is required"))
  {
  }

  /**
   * The password-change rule keyed on the field the handler reads and the
   * client sends: a non-empty `oldPassword` and a `newPassword` of at least
   * 6 characters, with the same messages.
   */
  function ParseChangePasswordCorrected(req: RequestParts): (r: Parsed<PasswordChange, Issue>)
    ensures r.Accepted? <==>
      && Field(req.body, "oldPassword").Str? && JsLength(Field(req.body, "oldPassword").s) >= 1
      && Field(req.body, "newPassword").Str? && JsLength(Field(req.body, "newPassword").s) >= 6
    ensures r.Accepted? ==> r.value == PasswordChange(Field(req.body, "oldPassword").s, Field(req.body, "newPassword").s)
  {
    PasswordChangeRule(req, "oldPassword")
  }
}
