/**
 * The browser's login state (store/authStore.ts): a token and the logged-in user's name,
 * both null when logged out. Persisting the state to local storage is not part of this model.
 */
module ClientAuth {
  import opened Wrappers

  datatype AuthUser = AuthUser(username: string)

  datatype AuthState = AuthState(token: Option<string>, user: Option<AuthUser>)

  datatype AuthAction = SetAuth(token: string, username: string) | Logout

  const Initial := AuthState(None, None)

  /** The store's invariant: logged in (a token) exactly when a user is known. */
  predicate Paired(s: AuthState)
  {
    s.token.None? <==> s.user.None?
  }

  /** One action: setAuth overwrites both fields, logout clears both. */
  function Apply(s: AuthState, a: AuthAction): (r: AuthState)
    ensures Paired(r)
    ensures a.SetAuth? ==> r.token == Some(a.token) && r.user == Some(AuthUser(a.username))
    ensures a.Logout? ==> r == Initial
  {
    match a
    case SetAuth(token, username) => AuthState(Some(token), Some(AuthUser(username)))
    case Logout => Initial
  }

  /** The state after a sequence of actions. */
  function Run(s: AuthState, actions: seq<AuthAction>): AuthState
    decreases |actions|
  {
    if actions == [] then s else Run(Apply(s, actions[0]), actions[1..])
  }

  /** From the initial state, any sequence of actions keeps token and user paired. */
  lemma {:induction false} RunKeepsPaired(s: AuthState, actions: seq<AuthAction>)
    requires Paired(s)
    ensures Paired(Run(s, actions))
    decreases |actions|
  {
    if actions != [] {
      RunKeepsPaired(Apply(s, actions[0]), actions[1..]);
    }
  }

  /** Only the last action matters: the state is whatever it last set. */
  lemma {:induction false} RunEndsWithLast(s: AuthState, actions: seq<AuthAction>)
    requires actions != []
    ensures Run(s, actions) == Apply(s, actions[|actions| - 1])
    decreases |actions|
  {
    if |actions| > 1 {
      RunEndsWithLast(Apply(s, actions[0]), actions[1..]);
    }
  }

  lemma InitialIsLoggedOut()
    ensures Initial.token.None? && Initial.user.None? && Paired(Initial)
  {
  }

  class AuthStore {
    var token: Option<string>
    var user: Option<AuthUser>

    function State(): AuthState
      reads this
    {
      AuthState(token, user)
    }

    constructor ()
      ensures State() == Initial
    {
      token := None;
      user := None;
    }

    method SetAuth(token: string, username: string)
      modifies this
      ensures State() == Apply(old(State()), AuthAction.SetAuth(token, username))
    {
      this.token := Some(token);
      this.user := Some(AuthUser(username));
    }

    method Logout()
      modifies this
      ensures State() == Apply(old(State()), AuthAction.Logout)
    {
      token := None;
      user := None;
    }
  }
}
