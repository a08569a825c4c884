/** The user store: a single self-asserted profile and the authenticated
    flag. */
module UserStore {
  import opened Wrappers
  import opened Types
  import Text

  datatype UserState = UserState(user: Option<User>, isAuthenticated: bool)

  const Initial := UserState(None, false)

  /** `login`: a profile with the trimmed username, the given id and creation
      time; the user is then authenticated. */
  function Login(s: UserState, username: string, id: string, createdAt: string): (r: UserState)
    ensures r.isAuthenticated && r.user.Some?
    ensures r.user.value.username == Text.Trim(username)
    ensures r.user.value.id == id && r.user.value.createdAt == createdAt
  {
    UserState(Some(User(id, Text.Trim(username), createdAt)), true)
  }

  /** `logout`: no profile, not authenticated. */
  function Logout(s: UserState): (r: UserState)
    ensures r.user.None? && !r.isAuthenticated
  {
    Initial
  }

  /** The flag and the profile agree. */
  predicate AuthAgrees(s: UserState) {
    s.isAuthenticated <==> s.user.Some?
  }

  datatype UserOp = LoginOp(username: string, id: string, createdAt: string) | LogoutOp

  function ApplyUser(s: UserState, op: UserOp): UserState {
    match op
    case LoginOp(u, id, t) => Login(s, u, id, t)
    case LogoutOp => Logout(s)
  }

  function RunUser(s: UserState, ops: seq<UserOp>): UserState
    decreases |ops|
  {
    if ops == [] then s else RunUser(ApplyUser(s, ops[0]), ops[1..])
  }

  /** From the initial state, `isAuthenticated` holds exactly when there is a
      profile, whatever logins and logouts happened. */
  lemma {:induction false} AuthAgreesAlways(s: UserState, ops: seq<UserOp>)
    requires AuthAgrees(s)
    ensures AuthAgrees(RunUser(s, ops))
    decreases |ops|
  {
    if ops != [] {
      AuthAgreesAlways(ApplyUser(s, ops[0]), ops[1..]);
    }
  }

  lemma AuthAgreesFromInitial(ops: seq<UserOp>)
    ensures AuthAgrees(RunUser(Initial, ops))
  {
    AuthAgreesAlways(Initial, ops);
  }
}
