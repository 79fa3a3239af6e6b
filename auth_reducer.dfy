/** The shop's authentication state: a reducer over eight actions and the
    provider whose `login`, `register`, `logout` and `clearError` dispatch
    fixed sequences of them. The simulated delay is left out; the random id
    of a registered user is a parameter. */
module AuthReducer {
  import opened Wrappers

  datatype User = User(id: int, username: string, email: string, token: string)

  datatype AuthState = AuthState(user: Option<User>, isAuthenticated: bool, isLoading: bool, error: Option<string>)

  datatype AuthAction =
    | LoginStart
    | LoginSuccess(user: User)
    | LoginFailure(message: string)
    | Logout
    | RegisterStart
    | RegisterSuccess(user: User)
    | RegisterFailure(message: string)
    | ClearError

  const InitialState: AuthState := AuthState(None, false, false, None)

  /** The invariant the state keeps: authenticated exactly when there is a user. */
  predicate Consistent(s: AuthState) {
    s.isAuthenticated <==> s.user.Some?
  }

  /** `authReducer`. */
  function Reduce(s: AuthState, a: AuthAction): (r: AuthState)
    ensures (a.LoginStart? || a.RegisterStart?) ==>
              r.isLoading && r.error.None? && r.user == s.user && r.isAuthenticated == s.isAuthenticated
    ensures (a.LoginSuccess? || a.RegisterSuccess?) ==>
              r.user == Some(a.user) && r.isAuthenticated && !r.isLoading && r.error.None?
    ensures (a.LoginFailure? || a.RegisterFailure?) ==>
              r.user.None? && !r.isAuthenticated && !r.isLoading && r.error == Some(a.message)
    ensures a.ClearError? ==> r == s.(error := None)
  {
    match a
    case LoginStart => s.(isLoading := true, error := None)
    case RegisterStart => s.(isLoading := true, error := None)
    case LoginSuccess(u) => s.(user := Some(u), isAuthenticated := true, isLoading := false, error := None)
    case RegisterSuccess(u) => s.(user := Some(u), isAuthenticated := true, isLoading := false, error := None)
    case LoginFailure(m) => s.(user := None, isAuthenticated := false, isLoading := false, error := Some(m))
    case RegisterFailure(m) => s.(user := None, isAuthenticated := false, isLoading := false, error := Some(m))
    case Logout => s.(user := None, isAuthenticated := false, isLoading := false, error := None)
    case ClearError => s.(error := None)
  }

  /** `LOGOUT` returns to the initial state, whatever the state was. */
  lemma LogoutIsInitial(s: AuthState)
    ensures Reduce(s, Logout) == InitialState
  {
  }

  /** The initial state is consistent and every action keeps it so. */
  lemma ReducePreservesConsistent(s: AuthState, a: AuthAction)
    ensures Consistent(InitialState)
    ensures Consistent(s) ==> Consistent(Reduce(s, a))
  {
  }

  /** Dispatching a sequence of actions in order. */
  function Run(s: AuthState, actions: seq<AuthAction>): AuthState
    decreases |actions|
  {
    if |actions| == 0 then s else Run(Reduce(s, actions[0]), actions[1..])
  }

  lemma {:induction false} RunPreservesConsistent(s: AuthState, actions: seq<AuthAction>)
    requires Consistent(s)
    ensures Consistent(Run(s, actions))
    decreases |actions|
  {
    if |actions| > 0 {
      ReducePreservesConsistent(s, actions[0]);
      RunPreservesConsistent(Reduce(s, actions[0]), actions[1..]);
    }
  }

  lemma RunTwo(s: AuthState, a: AuthAction, b: AuthAction)
    ensures Run(s, [a, b]) == Reduce(Reduce(s, a), b)
  {
    assert [a, b][1..] == [b];
    assert [b][1..] == [];
    assert Run(s, [a, b]) == Run(Reduce(s, a), [b]);
    assert Run(Reduce(s, a), [b]) == Run(Reduce(Reduce(s, a), b), []);
  }

  /** The user `login` makes up for a username. */
  function DemoUser(username: string): User {
    User(1, username, username + "@example.com", "fake_jwt_token")
  }

  function LoginActions(username: string): seq<AuthAction> {
    [LoginStart, LoginSuccess(DemoUser(username))]
  }

  function RegisterActions(username: string, email: string, id: int): seq<AuthAction> {
    [RegisterStart, RegisterSuccess(User(id, username, email, "fake_jwt_token"))]
  }

  /** From any state, `login(u, p)` ends authenticated as user 1 named `u`
      with e-mail `u@example.com`, not loading and without error; the
      password plays no part. */
  lemma LoginOutcome(s: AuthState, username: string)
    ensures Run(s, LoginActions(username))
            == AuthState(Some(User(1, username, username + "@example.com", "fake_jwt_token")), true, false, None)
  {
    RunTwo(s, LoginStart, LoginSuccess(DemoUser(username)));
  }

  /** The provider: the reducer's current state. */
  class AuthProvider {
    var state: AuthState

    ghost predicate Valid()
      reads this
    {
      Consistent(state)
    }

    constructor ()
      ensures state == InitialState && Valid()
    {
      state := InitialState;
    }

    method Dispatch(a: AuthAction)
      requires Valid()
      modifies this
      ensures Valid()
      ensures state == Reduce(old(state), a)
    {
      ReducePreservesConsistent(state, a);
      state := Reduce(state, a);
    }

    /** `login`: start, then success with the made-up user. The simulated
        call cannot fail, so the failure branch is never taken. */
    method Login(username: string, password: string)
      requires Valid()
      modifies this
      ensures Valid()
      ensures state == Run(old(state), LoginActions(username))
      ensures state.user == Some(DemoUser(username)) && state.isAuthenticated
    {
      Dispatch(LoginStart);
      Dispatch(LoginSuccess(DemoUser(username)));
      RunTwo(old(state), LoginStart, LoginSuccess(DemoUser(username)));
    }

    /** `register`: start, then success with the given name and e-mail and
        the random id `id`. */
    method Register(username: string, email: string, password: string, id: int)
      requires Valid()
      modifies this
      ensures Valid()
      ensures state == Run(old(state), RegisterActions(username, email, id))
      ensures state == AuthState(Some(User(id, username, email, "fake_jwt_token")), true, false, None)
    {
      Dispatch(RegisterStart);
      Dispatch(RegisterSuccess(User(id, username, email, "fake_jwt_token")));
      RunTwo(old(state), RegisterStart, RegisterSuccess(User(id, username, email, "fake_jwt_token")));
    }

    method DoLogout()
      requires Valid()
      modifies this
      ensures Valid() && state == InitialState
    {
      Dispatch(Logout);
    }

    method DoClearError()
      requires Valid()
      modifies this
      ensures Valid() && state == old(state).(error := None)
    {
      Dispatch(ClearError);
    }
  }
}
