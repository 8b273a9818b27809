/**
 The session store (the `auth` slice): token, email and the derived
 authenticated flag, mirrored into the browser's `localStorage`. The
 storage is an explicit string map together with a flag saying whether a
 browser window exists (`typeof window !== "undefined"`); each reducer
 returns the new session state and the new storage.
 */
module Session {
  import opened JsRuntime

  datatype AuthState = AuthState(token: Option<string>, email: Option<string>, isAuthenticated: bool)

  /** `localStorage` as a key-value map, and whether the code runs in a browser. */
  datatype Env = Env(browser: bool, storage: map<string, string>)

  /** What a reducer leaves behind: the session state and the environment. */
  datatype Snapshot = Snapshot(auth: AuthState, env: Env)

  const TokenKey: string := "token"
  const EmailKey: string := "email"

  /** The session at process start: nobody is logged in. */
  function Initial(): (a: AuthState)
    ensures a.token.None? && a.email.None? && !a.isAuthenticated
  {
    AuthState(None, None, false)
  }

  /** The data-model invariant: authenticated exactly when both credentials are held. */
  predicate Consistent(a: AuthState)
  {
    a.isAuthenticated <==> (a.token.Some? && a.email.Some?)
  }

  /** `setCredentials`: the session holds the pair and is authenticated;
      in a browser both keys are written and no other key is touched. */
  function SetCredentials(a: AuthState, env: Env, token: string, email: string): (r: Snapshot)
    ensures r.auth.token == Some(token) && r.auth.email == Some(email) && r.auth.isAuthenticated
    ensures r.env.browser == env.browser
    ensures env.browser ==> TokenKey in r.env.storage && r.env.storage[TokenKey] == token
    ensures env.browser ==> EmailKey in r.env.storage && r.env.storage[EmailKey] == email
    ensures env.browser ==> r.env.storage.Keys == env.storage.Keys + {TokenKey, EmailKey}
    ensures forall k :: k in env.storage && k != TokenKey && k != EmailKey
                        ==> k in r.env.storage && r.env.storage[k] == env.storage[k]
    ensures !env.browser ==> r.env == env
  {
    var auth := AuthState(Some(token), Some(email), true);
    if env.browser then
      Snapshot(auth, env.(storage := env.storage[TokenKey := token][EmailKey := email]))
    else
      Snapshot(auth, env)
  }

  /** `logout`: all three fields are cleared; in a browser both keys are
      removed and every other key is kept. */
  function Logout(a: AuthState, env: Env): (r: Snapshot)
    ensures r.auth == Initial()
    ensures r.env.browser == env.browser
    ensures env.browser ==> r.env.storage.Keys == env.storage.Keys - {TokenKey, EmailKey}
    ensures forall k :: k in r.env.storage ==> k in env.storage && r.env.storage[k] == env.storage[k]
    ensures !env.browser ==> r.env == env
  {
    var auth := AuthState(None, None, false);
    if env.browser then
      Snapshot(auth, env.(storage := env.storage - {TokenKey} - {EmailKey}))
    else
      Snapshot(auth, env)
  }

  /** A stored value counts only when the key exists and its value is truthy
      (`getItem` yields null for a missing key, and `""` is falsy). */
  function Stored(env: Env, key: string): (r: Option<string>)
    ensures r.Some? <==> key in env.storage && env.storage[key] != ""
    ensures r.Some? ==> r.value == env.storage[key]
  {
    if key in env.storage && Truthy(env.storage[key]) then Some(env.storage[key]) else None
  }

  /** `initializeAuth`: in a browser, restores the session when both keys
      hold non-empty values; otherwise (a miss, or no browser) the state is
      left exactly as it was. Storage is only read. */
  function InitializeAuth(a: AuthState, env: Env): (r: Snapshot)
    ensures r.env == env
    ensures env.browser && Stored(env, TokenKey).Some? && Stored(env, EmailKey).Some?
            ==> r.auth == AuthState(Some(env.storage[TokenKey]), Some(env.storage[EmailKey]), true)
    ensures !(env.browser && Stored(env, TokenKey).Some? && Stored(env, EmailKey).Some?)
            ==> r.auth == a
  {
    if env.browser then
      match (Stored(env, TokenKey), Stored(env, EmailKey))
      case (Some(token), Some(email)) => Snapshot(AuthState(Some(token), Some(email), true), env)
      case _ => Snapshot(a, env)
    else
      Snapshot(a, env)
  }

  /** The three session actions. */
  datatype Action = SetCredentialsAction(token: string, email: string) | LogoutAction | InitializeAuthAction

  function Apply(s: Snapshot, action: Action): Snapshot
  {
    match action
    case SetCredentialsAction(token, email) => SetCredentials(s.auth, s.env, token, email)
    case LogoutAction => Logout(s.auth, s.env)
    case InitializeAuthAction => InitializeAuth(s.auth, s.env)
  }

  function ApplyAll(s: Snapshot, actions: seq<Action>): Snapshot
    decreases |actions|
  {
    if |actions| == 0 then s else ApplyAll(Apply(s, actions[0]), actions[1..])
  }

  // ---------------------------------------------------------------------
  // Properties

  /** Each reducer preserves the invariant, so every reachable session keeps it. */
  lemma {:induction false} ConsistentAlways(s: Snapshot, actions: seq<Action>)
    requires Consistent(s.auth)
    ensures Consistent(ApplyAll(s, actions).auth)
    decreases |actions|
  {
    if |actions| > 0 {
      ConsistentAlways(Apply(s, actions[0]), actions[1..]);
    }
  }

  /** Logging out twice is logging out once. */
  lemma LogoutIdempotent(a: AuthState, env: Env)
    ensures var once := Logout(a, env);
            Logout(once.auth, once.env) == once
  {
    var once := Logout(a, env);
    if env.browser {
      assert once.env.storage - {TokenKey} - {EmailKey} == once.env.storage;
    }
  }

  /** The durable round trip: after `setCredentials(t, e)` in a browser, a
      fresh session restored by `initializeAuth` holds the same pair, and it
      does so exactly when both strings are non-empty (an empty one is falsy
      on the way back). */
  lemma CredentialsRoundTrip(a: AuthState, env: Env, token: string, email: string)
    requires env.browser
    ensures var saved := SetCredentials(a, env, token, email);
            var restored := InitializeAuth(Initial(), saved.env);
            (restored.auth == saved.auth <==> token != "" && email != "")
  {
    var saved := SetCredentials(a, env, token, email);
    assert TokenKey != EmailKey;
    assert saved.env.storage[TokenKey] == token;
    assert saved.env.storage[EmailKey] == email;
  }

  /** After `logout`, a fresh session restored by `initializeAuth` stays
      unauthenticated, in a browser or not. */
  lemma LogoutThenRestore(a: AuthState, env: Env)
    ensures var out := Logout(a, env);
            var restored := InitializeAuth(Initial(), out.env);
            restored.auth == Initial()
  {
  }

  /** Outside a browser nothing is persisted: a fresh session cannot be
      restored from a `setCredentials` made there. */
  lemma NoBrowserNoPersistence(a: AuthState, env: Env, token: string, email: string)
    requires !env.browser
    ensures var saved := SetCredentials(a, env, token, email);
            InitializeAuth(Initial(), saved.env).auth == Initial()
  {
  }

  /** The two-state machine: whichever action runs, the session is
      authenticated afterwards exactly when the action is `setCredentials`,
      or it is a storage hit of `initializeAuth`, or it is a storage miss
      of `initializeAuth` on a session that was already authenticated. */
  lemma Transitions(s: Snapshot, action: Action)
    ensures var hit := s.env.browser && Stored(s.env, TokenKey).Some? && Stored(s.env, EmailKey).Some?;
            Apply(s, action).auth.isAuthenticated <==>
              (|| action.SetCredentialsAction?
               || (action.InitializeAuthAction? && (hit || s.auth.isAuthenticated)))
  {
  }
}
