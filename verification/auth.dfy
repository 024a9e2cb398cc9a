/** The session store: a nullable user and the flags derived from it. */
module Auth {
  import opened Wrappers
  import opened Entities

  /** `isAuthenticated`: a user is present. */
  predicate IsAuthenticated(user: Option<User>) {
    user != None
  }

  /** `isAdmin`: `user?.role === 'admin'`, so false when there is no user. */
  predicate IsAdmin(user: Option<User>) {
    match user
    case None => false
    case Some(u) => u.role == Admin
  }

  /** What the two derived flags mean, and that an admin session is always authenticated. */
  lemma SessionFlags(user: Option<User>)
    ensures IsAuthenticated(user) <==> user.Some?
    ensures IsAdmin(user) <==> user.Some? && user.value.role == Admin
    ensures IsAdmin(user) ==> IsAuthenticated(user)
    ensures user == None ==> !IsAuthenticated(user) && !IsAdmin(user)
  {
  }

  class AuthStore {
    var user: Option<User>

    /** A fresh store has no user, so it is neither authenticated nor admin. */
    constructor ()
      ensures user == None
      ensures !IsAuthenticated(user) && !IsAdmin(user)
    {
      user := None;
    }

    /** The `loadUser` of this version is a stub: it reports failure and touches no state. */
    method LoadUser() returns (loaded: bool)
      ensures !loaded
    {
      loaded := false;
    }
  }
}
