/**
 * The registration page: its field rules (including the email pattern), the
 * password-confirmation check, the register request and the login attempt
 * that follows a successful registration.
 */
module Register {
  import opened Common
  import opened Text
  import opened Json
  import opened Http
  import opened AuthSchema

  datatype Form = Form(email: string, password: string, confirmPassword: string)

  const EmailRequired: string := "Email is required"
  const EmailInvalid: string := "Invalid email address"
  const PasswordRequired: string := "Password is required"
  const PasswordTooShort: string := "Password must be at least 6 characters"
  const ConfirmRequired: string := "Please confirm your password"
  const MismatchError: string := "Passwords do not match"
  const FallbackError: string := "Registration failed"

  // ---------------------------------------------------------------------------
  // The email pattern /^[^\s@]+@[^\s@]+\.[^\s@]+$/
  // ---------------------------------------------------------------------------

  /** A character of the class `[^\s@]`. */
  predicate Plain(c: char) {
    !IsJsSpace(c) && c != '@'
  }

  predicate AllPlain(s: string) {
    forall k :: 0 <= k < |s| ==> Plain(s[k])
  }

  /**
   * The pattern read off directly: the whole string is `A@B.C` with `A`, `B`
   * and `C` non-empty runs of `[^\s@]` (so `B` and `C` may hold further dots).
   */
  ghost predicate EmailShape(s: string) {
    exists i, j ::
      && 1 <= i && i + 2 <= j && j + 2 <= |s|
      && s[i] == '@' && s[j] == '.'
      && AllPlain(s[..i]) && AllPlain(s[i + 1..j]) && AllPlain(s[j + 1..])
  }

  /** The position of the first `c` in `s`. */
  function IndexOf(s: string, c: char): (r: Option<nat>)
    ensures r.None? ==> forall k :: 0 <= k < |s| ==> s[k] != c
    ensures r.Some? ==> r.value < |s| && s[r.value] == c && forall k :: 0 <= k < r.value ==> s[k] != c
    decreases |s|
  {
    if s == [] then None
    else if s[0] == c then Some(0)
    else
      match IndexOf(s[1..], c)
      case None => None
      case Some(k) => Some(k + 1)
  }

  /**
   * The pattern as a scan: split at the first `@`, which must not be the
   * first character; no other character may be white space or `@`; and the
   * part after the `@` must hold a dot neither at its start nor at its end.
   */
  predicate MatchesEmailPattern(s: string) {
    match IndexOf(s, '@')
    case None => false
    case Some(at) =>
      && at >= 1 && at + 4 <= |s|
      && AllPlain(s[..at]) && AllPlain(s[at + 1..])
      && '.' in s[at + 2..|s| - 1]
  }

  lemma AllPlainSlice(s: string, a: int, b: int, c: int, d: int)
    requires 0 <= a <= c <= d <= b <= |s|
    requires AllPlain(s[a..b])
    ensures AllPlain(s[c..d])
  {
    forall k | 0 <= k < d - c ensures Plain(s[c..d][k]) {
      assert s[c..d][k] == s[a..b][k + c - a];
    }
  }

  /** A position holding `c` with no `c` before it is the one `IndexOf` finds. */
  lemma IndexOfFirst(s: string, c: char, i: nat)
    requires i < |s| && s[i] == c
    requires forall k :: 0 <= k < i ==> s[k] != c
    ensures IndexOf(s, c) == Some(i)
  {
  }

  /** A string the scan accepts has the pattern's shape. */
  lemma MatchImpliesShape(s: string)
    requires MatchesEmailPattern(s)
    ensures EmailShape(s)
  {
    var at := IndexOf(s, '@').value;
    var inner := s[at + 2..|s| - 1];
    var k :| 0 <= k < |inner| && inner[k] == '.';
    var j := at + 2 + k;
    assert s[j] == '.';
    AllPlainSlice(s, at + 1, |s|, at + 1, j);
    AllPlainSlice(s, at + 1, |s|, j + 1, |s|);
    assert AllPlain(s[..at]) && AllPlain(s[at + 1..j]) && AllPlain(s[j + 1..]);
  }

  /** The parts `A`, `B` and `C` around an `@` at `i` and a dot at `j` make up everything after the `@`. */
  lemma AfterAtPlain(s: string, i: nat, j: nat)
    requires i < j < |s| && s[j] == '.'
    requires AllPlain(s[i + 1..j]) && AllPlain(s[j + 1..])
    ensures AllPlain(s[i + 1..])
  {
    var after := s[i + 1..];
    forall k | 0 <= k < |after| ensures Plain(after[k]) {
      var p := i + 1 + k;
      if p < j {
        assert s[i + 1..j][k] == after[k];
      } else if p > j {
        assert s[j + 1..][p - j - 1] == after[k];
      }
    }
  }

  /** A string of the pattern's shape, with its `@` at `i` and a dot at `j`, is accepted by the scan. */
  lemma ShapeImpliesMatch(s: string, i: nat, j: nat)
    requires 1 <= i && i + 2 <= j && j + 2 <= |s| && s[i] == '@' && s[j] == '.'
    requires AllPlain(s[..i]) && AllPlain(s[i + 1..j]) && AllPlain(s[j + 1..])
    ensures MatchesEmailPattern(s)
  {
    forall k | 0 <= k < i ensures s[k] != '@' {
      assert Plain(s[..i][k]);
    }
    IndexOfFirst(s, '@', i);
    AfterAtPlain(s, i, j);
    assert s[i + 2..|s| - 1][j - i - 2] == '.';
  }

  /** The scan accepts exactly the strings of the pattern's shape. */
  lemma EmailPatternIsShape(s: string)
    ensures MatchesEmailPattern(s) <==> EmailShape(s)
  {
    if MatchesEmailPattern(s) {
      MatchImpliesShape(s);
    }
    if EmailShape(s) {
      var i, j :| 1 <= i && i + 2 <= j && j + 2 <= |s| && s[i] == '@' && s[j] == '.'
        && AllPlain(s[..i]) && AllPlain(s[i + 1..j]) && AllPlain(s[j + 1..]);
      ShapeImpliesMatch(s, i, j);
    }
  }

  // ---------------------------------------------------------------------------
  // Field rules
  // ---------------------------------------------------------------------------

  function EmailError(v: string): (e: Option<string>)
    ensures v == "" ==> e == Some(EmailRequired)
    ensures e.None? <==> EmailShape(v)
  {
    EmailPatternIsShape(v);
    if v == "" then Some(EmailRequired)
    else if !MatchesEmailPattern(v) then Some(EmailInvalid)
    else None
  }

  /** Emptiness is reported before length; `value.length` counts UTF-16 code units. */
  function PasswordError(v: string): (e: Option<string>)
    ensures e.None? <==> JsLength(v) >= 6
    ensures v == "" ==> e == Some(PasswordRequired)
    ensures 0 < JsLength(v) < 6 ==> e == Some(PasswordTooShort)
  {
    if v == "" then Some(PasswordRequired)
    else if JsLength(v) < 6 then Some(PasswordTooShort)
    else None
  }

  predicate FieldsValid(f: Form) {
    EmailError(f.email).None? && PasswordError(f.password).None? && RequiredError(f.confirmPassword, ConfirmRequired).None?
  }

  // ---------------------------------------------------------------------------
  // Requests
  // ---------------------------------------------------------------------------

  /** The JSON body of both the register and the login request: email and password only. */
  function CredentialsBody(c: Credentials): (body: Object)
    ensures body.Keys == {"email", "password"}
    ensures body["email"] == Str(c.email) && body["password"] == Str(c.password)
  {
    map["email" := Str(c.email), "password" := Str(c.password)]
  }

  /** The error text of a refused registration: `error`, else a fixed text. */
  function RegisterFailureText(d: ReplyData): (text: string)
    ensures text != ""
    ensures d.error != "" ==> text == d.error
    ensures d.error == "" ==> text == FallbackError
  {
    if d.error != "" then d.error else FallbackError
  }

  /**
   * A form the page submits, with an address the server also takes for an
   * email, passes the server's registration rule with the same credentials,
   * and so passes its login rule too.
   */
  lemma SubmittedFormPassesServerRules(f: Form, isEmail: string -> bool, params: map<string, string>)
    requires FieldsValid(f) && isEmail(f.email)
    ensures var req := RequestParts(CredentialsBody(Credentials(f.email, f.password)), params);
      && ParseRegister(req, isEmail) == Accepted(Credentials(f.email, f.password))
      && ParseLogin(req, isEmail) == Accepted(Credentials(f.email, f.password))
  {
    var req := RequestParts(CredentialsBody(Credentials(f.email, f.password)), params);
    RegisterImpliesLogin(req, isEmail);
  }

  // ---------------------------------------------------------------------------
  // The page
  // ---------------------------------------------------------------------------

  class Page {
    var error: Option<string>
    /** Every registration request sent, oldest first. */
    var registerRequests: seq<Credentials>
    /** Every login request sent, oldest first. */
    var loginRequests: seq<Credentials>
    /** The token handed to the session. */
    var token: Option<string>
    /** Where the page has sent the browser. */
    var location: Option<Route>

    constructor ()
      ensures error == None && registerRequests == [] && loginRequests == [] && token == None && location == None
    {
      error, registerRequests, loginRequests, token, location := None, [], [], None, None;
    }

    /**
     * A submit. A form whose fields do not pass their rules is not submitted.
     * A confirmation that differs from the password sets the mismatch message
     * and sends nothing. Otherwise the credentials are sent to register; a
     * failure sets the error. After a successful registration the same
     * credentials are sent to log in: success hands the token to the session
     * and goes to the stocks page, a refusal goes to the login page, and a
     * failure to reach the server or read its answer sets the error. The
     * error is not cleared on a new submit.
     */
    method Submit(f: Form, registerAnswer: Answer, loginAnswer: Answer)
      modifies this
      ensures !FieldsValid(f) || f.password != f.confirmPassword ==>
        && registerRequests == old(registerRequests) && loginRequests == old(loginRequests)
        && token == old(token) && location == old(location)
      ensures FieldsValid(f) && f.password != f.confirmPassword ==> error == Some(MismatchError)
      ensures !FieldsValid(f) ==> error == old(error)
      ensures FieldsValid(f) && f.password == f.confirmPassword ==>
        registerRequests == old(registerRequests) + [Credentials(f.email, f.password)]
      // the login request is sent exactly when the registration succeeded, with the same credentials
      ensures FieldsValid(f) && f.password == f.confirmPassword ==>
        if registerAnswer.Answered? && registerAnswer.ok
        then loginRequests == old(loginRequests) + [Credentials(f.email, f.password)]
        else loginRequests == old(loginRequests) && token == old(token) && location == old(location)
      ensures FieldsValid(f) && f.password == f.confirmPassword ==>
        match registerAnswer
        case NetworkFailure(reason) => error == Some(reason)
        case Unreadable(reason) => error == Some(reason)
        case Answered(ok, data) =>
          if !ok then error == Some(RegisterFailureText(data))
          else match loginAnswer
            case NetworkFailure(reason) => error == Some(reason) && token == old(token) && location == old(location)
            case Unreadable(reason) => error == Some(reason) && token == old(token) && location == old(location)
            case Answered(loginOk, loginData) =>
              && error == old(error)
              && (loginOk ==> token == Some(loginData.token) && location == Some(StocksRoute))
              && (!loginOk ==> token == old(token) && location == Some(LoginRoute))
    {
      if !FieldsValid(f) {
        return;
      }
      if f.password != f.confirmPassword {
        error := Some(MismatchError);
        return;
      }
      var credentials := Credentials(f.email, f.password);
      registerRequests := registerRequests + [credentials];
      match registerAnswer {
        case NetworkFailure(reason) =>
          error := Some(reason);
          return;
        case Unreadable(reason) =>
          error := Some(reason);
          return;
        case Answered(ok, data) =>
          if !ok {
            error := Some(RegisterFailureText(data));
            return;
          }
      }
      loginRequests := loginRequests + [credentials];
      match loginAnswer {
        case NetworkFailure(reason) =>
          error := Some(reason);
        case Unreadable(reason) =>
          error := Some(reason);
        case Answered(loginOk, loginData) =>
          if loginOk {
            token := Some(loginData.token);
            location := Some(StocksRoute);
          } else {
            location := Some(LoginRoute);
          }
      }
    }
  }
}
