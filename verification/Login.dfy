/**
 The login page: the email-shape check behind `/^[^\s@]+@[^\s@]+\.[^\s@]+$/`,
 the order of the two input checks in `handleSubmit`, how a login result
 becomes session credentials or a message, and the redirect of a session
 that is already authenticated. The login call's result is an input.
 */
module Login {
  import opened JsRuntime
  import Session

  const EmailRequired := "Email is required"
  const EmailInvalid := "Please enter a valid email address"
  const LoginFallback := "Failed to login. Please check your email and try again."
  const ProductsRoute := "/products"

  /** A run of the class `[^\s@]`: no whitespace and no `@`. */
  predicate PlainChars(s: string)
  {
    forall i :: 0 <= i < |s| ==> !IsSpace(s[i]) && s[i] != '@'
  }

  /** `[^\s@]+\.[^\s@]+`: plain characters with a `.` that has at least one
      character on each side. */
  predicate DomainOk(d: string)
  {
    PlainChars(d) && exists j :: 0 < j < |d| - 1 && d[j] == '.'
  }

  /** The language of the pattern: a non-empty plain local part, one `@`,
      and a domain as above. */
  predicate EmailShape(s: string)
  {
    exists i :: 0 < i < |s| && s[i] == '@' && PlainChars(s[..i]) && DomainOk(s[i + 1..])
  }

  /** `validateEmail`: one left-to-right pass, remembering where the `@`
      was and where the first `.` usable after it was. */
  method ValidateEmail(s: string) returns (ok: bool)
    ensures ok <==> EmailShape(s)
  {
    ShapeFacts(s);
    var at := -1;
    var dot := -1;
    var i := 0;
    while i < |s|
      invariant 0 <= i <= |s|
      invariant forall k :: 0 <= k < i ==> !IsSpace(s[k])
      invariant at == -1 ==> forall k :: 0 <= k < i ==> s[k] != '@'
      invariant at != -1 ==> 0 <= at < i && s[at] == '@'
      invariant at != -1 ==> forall k :: 0 <= k < i && k != at ==> s[k] != '@'
      invariant dot != -1 ==> at != -1 && at + 1 < dot < i && s[dot] == '.'
      invariant dot != -1 ==> forall k :: at + 1 < k < dot ==> s[k] != '.'
      invariant dot == -1 && at != -1 ==> forall k :: at + 1 < k < i ==> s[k] != '.'
    {
      if IsSpace(s[i]) {
        return false;
      }
      if s[i] == '@' {
        if at != -1 {
          return false;
        }
        at := i;
      } else if s[i] == '.' && at != -1 && i > at + 1 && dot == -1 {
        dot := i;
      }
      i := i + 1;
    }
    ok := at > 0 && dot != -1 && dot < |s| - 1;
    if ok {
      assert PlainChars(s[..at]);
      assert DomainOk(s[at + 1..]) by {
        assert s[at + 1..][dot - at - 1] == '.';
      }
    }
    if EmailShape(s) {
      var j :| 0 < j < |s| && s[j] == '@' && PlainChars(s[..j]) && DomainOk(s[j + 1..]);
      assert at == j;
      var d := s[j + 1..];
      var m :| 0 < m < |d| - 1 && d[m] == '.';
      assert s[j + 1 + m] == '.';
      assert ok;
    }
  }

  /** Where the `@` of a well-shaped address is, every character but that
      one is plain. */
  lemma ShapeParts(s: string, i: nat)
    requires 0 < i < |s| && s[i] == '@' && PlainChars(s[..i]) && DomainOk(s[i + 1..])
    ensures forall k :: 0 <= k < |s| ==> !IsSpace(s[k]) && (s[k] == '@' ==> k == i)
  {
    forall k | 0 <= k < |s| ensures !IsSpace(s[k]) && (s[k] == '@' ==> k == i) {
      if k < i {
        assert s[..i][k] == s[k];
      } else if k > i {
        assert s[i + 1..][k - i - 1] == s[k];
      }
    }
  }

  /** A well-shaped address has no whitespace and a single `@`. */
  lemma ShapeFacts(s: string)
    ensures EmailShape(s) ==> forall k :: 0 <= k < |s| ==> !IsSpace(s[k])
    ensures EmailShape(s) ==> forall a, b :: 0 <= a < b < |s| && s[a] == '@' ==> s[b] != '@'
  {
    if EmailShape(s) {
      var i :| 0 < i < |s| && s[i] == '@' && PlainChars(s[..i]) && DomainOk(s[i + 1..]);
      ShapeParts(s, i);
    }
  }

  /** What the login call returned. */
  datatype LoginOutcome = LoggedIn(token: string) | LoginFailed(message: Option<string>)

  /** The page after one submit: the message under the field, whether the
      login call was made, the session and storage, and where it navigates. */
  datatype SubmitResult = SubmitResult(error: string, called: bool, session: Session.Snapshot, navigateTo: Option<string>)

  /** `handleSubmit`: a blank field is "required" and the format is not
      checked; a malformed address is "invalid"; neither calls the server.
      A successful login stores the returned token with the email exactly
      as typed and moves to the list; a failure shows the server's message
      or the fallback. */
  method HandleSubmit(email: string, outcome: LoginOutcome, session: Session.Snapshot) returns (r: SubmitResult)
    ensures r.called <==> !IsBlank(email) && EmailShape(email)
    ensures IsBlank(email) ==> r.error == EmailRequired
    ensures !IsBlank(email) && !EmailShape(email) ==> r.error == EmailInvalid
    ensures !r.called ==> r.session == session && r.navigateTo.None?
    ensures r.called && outcome.LoggedIn? ==>
              && r.session == Session.SetCredentials(session.auth, session.env, outcome.token, email)
              && r.navigateTo == Some(ProductsRoute) && r.error == ""
    ensures r.called && outcome.LoginFailed? ==>
              && r.session == session && r.navigateTo.None?
              && r.error == OrFallback(outcome.message, LoginFallback)
  {
    if !Truthy(Trim(email)) {
      return SubmitResult(EmailRequired, false, session, None);
    }
    var ok := ValidateEmail(email);
    if !ok {
      return SubmitResult(EmailInvalid, false, session, None);
    }
    match outcome
    case LoggedIn(token) =>
      r := SubmitResult("", true, Session.SetCredentials(session.auth, session.env, token, email), Some(ProductsRoute));
    case LoginFailed(message) =>
      r := SubmitResult(OrFallback(message, LoginFallback), true, session, None);
  }

  /** Scenario: signing in as `user@example.com` and receiving token `t1`
      gives an authenticated session holding exactly that pair. */
  method ExampleLogin(env: Session.Env) returns (r: SubmitResult)
    ensures r.called && r.navigateTo == Some(ProductsRoute)
    ensures r.session.auth == Session.AuthState(Some("t1"), Some("user@example.com"), true)
  {
    var email := "user@example.com";
    assert email[4] == '@' && email[5..][7] == '.';
    assert EmailShape(email) by {
      assert PlainChars(email[..4]) && DomainOk(email[5..]);
    }
    assert !IsSpace(email[0]);
    r := HandleSubmit(email, LoggedIn("t1"), Session.Snapshot(Session.Initial(), env));
  }

  /** Every address that passes the format check is non-blank, so the
      "required" message and the login call exclude each other. */
  lemma ShapeIsNotBlank(email: string)
    requires EmailShape(email)
    ensures !IsBlank(email)
  {
    var i :| 0 < i < |email| && email[i] == '@' && PlainChars(email[..i]) && DomainOk(email[i + 1..]);
    assert email[..i][0] == email[0];
  }

  // ---------------------------------------------------------------------
  // The already-authenticated redirect

  /** `isChecking` and the navigation the effect asked for. */
  datatype Guard = Guard(isChecking: bool, navigateTo: Option<string>)

  const InitialGuard := Guard(true, None)

  /** The effect run on each change of `isAuthenticated`: a session goes
      to the list and checking never ends; no session ends the check. */
  function GuardEffect(g: Guard, isAuthenticated: bool): (r: Guard)
    ensures isAuthenticated ==> r.navigateTo == Some(ProductsRoute) && r.isChecking == g.isChecking
    ensures !isAuthenticated ==> !r.isChecking && r.navigateTo == g.navigateTo
  {
    if isAuthenticated then g.(navigateTo := Some(ProductsRoute)) else g.(isChecking := false)
  }

  /** The form is drawn only once checking is over. */
  predicate FormRendered(g: Guard)
  {
    !g.isChecking
  }

  function RunGuard(g: Guard, observed: seq<bool>): Guard
    decreases |observed|
  {
    if |observed| == 0 then g else RunGuard(GuardEffect(g, observed[0]), observed[1..])
  }

  /** While the session stays authenticated the page never leaves the
      checking state, so the form is never drawn, and it has asked to go
      to the list as soon as the effect has run once. */
  lemma {:induction false} AuthenticatedNeverSeesForm(g: Guard, observed: seq<bool>)
    requires g.isChecking
    requires forall k :: 0 <= k < |observed| ==> observed[k]
    ensures !FormRendered(RunGuard(g, observed))
    ensures |observed| > 0 ==> RunGuard(g, observed).navigateTo == Some(ProductsRoute)
    decreases |observed|
  {
    if |observed| > 0 {
      assert forall k :: 0 <= k < |observed[1..]| ==> observed[1..][k] == observed[k + 1];
      AuthenticatedNeverSeesForm(GuardEffect(g, observed[0]), observed[1..]);
    }
  }
}
