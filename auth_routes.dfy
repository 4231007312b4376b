/**
 * The handlers of routes/auth.js: signup with its validation and email
 * uniqueness, login with one answer for every bad credential, and the
 * status report. bcrypt is a pair of functions the caller supplies.
 */
module AuthRoutes {
  import opened Wrappers
  import opened JsValues
  import opened Store
  import opened Sessions
  import Middleware

  const MIN_PASSWORD_LENGTH := 6
  const INVALID_LOGIN := "Invalid email or password"

  /** What signup and login answer: the public view of the user, or an error status and message. */
  datatype AuthReply = SignedIn(user: UserView) | AuthRefused(status: int, message: string)

  /** Whether some row of `users` has this email. */
  predicate EmailTaken(users: map<int, User>, email: string) {
    exists id :: id in users && users[id].email == email
  }

  // ---------------------------------------------------------------------------
  // POST /api/auth/signup

  /** All four fields present and truthy. */
  predicate SignupFieldsPresent(name: Option<string>, email: Option<string>, phone: Option<string>, password: Option<string>) {
    StrTruthy(name) && StrTruthy(email) && StrTruthy(phone) && StrTruthy(password)
  }

  /**
   * Signup: 400 for a missing field, a password shorter than 6 characters
   * or an email already registered, each leaving table and session alone;
   * otherwise one user row under a fresh id holding `hash(password)`, and
   * the session signed in as that user.
   */
  method Signup(db: Database, session: Session, name: Option<string>, email: Option<string>,
                phone: Option<string>, password: Option<string>, hash: string -> string)
    returns (reply: AuthReply)
    requires db.Valid()
    modifies db`users, db`nextUserId, session`userId, session`userName
    ensures db.Valid()
    ensures reply.AuthRefused? ==>
      && reply.status == 400
      && db.users == old(db.users) && db.nextUserId == old(db.nextUserId)
      && session.userId == old(session.userId) && session.userName == old(session.userName)
    ensures reply.SignedIn? <==>
      SignupFieldsPresent(name, email, phone, password) && |password.value| >= MIN_PASSWORD_LENGTH
      && !EmailTaken(old(db.users), email.value)
    ensures reply.SignedIn? ==>
      var id := old(db.nextUserId);
      && id !in old(db.users)
      && db.users == old(db.users)[id := User(name.value, email.value, phone.value, hash(password.value))]
      && db.nextUserId == id + 1
      && session.userId == Some(id) && session.userName == name
      && reply.user == UserView(id, name.value, email.value, phone.value)
      && Middleware.RequireAuth(Some(session)).Next?
  {
    if !(StrTruthy(name) && StrTruthy(email) && StrTruthy(phone) && StrTruthy(password)) {
      return AuthRefused(400, "All fields are required");
    }
    if |password.value| < MIN_PASSWORD_LENGTH {
      return AuthRefused(400, "Password must be at least 6 characters");
    }
    if exists id :: id in db.users && db.users[id].email == email.value {
      return AuthRefused(400, "Email already registered");
    }
    var passwordHash := hash(password.value);
    var id := db.nextUserId;
    db.users := db.users[id := User(name.value, email.value, phone.value, passwordHash)];
    db.nextUserId := db.nextUserId + 1;
    session.userId := Some(id);
    session.userName := name;
    reply := SignedIn(UserView(id, name.value, email.value, phone.value));
  }

  // ---------------------------------------------------------------------------
  // POST /api/auth/login

  /**
   * Login: 400 for a missing email or password; the same 401 for an
   * unknown email and for a password `compare` rejects; otherwise the
   * session signs in as the user with that email.
   */
  method Login(db: Database, session: Session, email: Option<string>, password: Option<string>,
               compare: (string, string) -> bool)
    returns (reply: AuthReply)
    requires db.Valid()
    modifies session`userId, session`userName
    ensures !StrTruthy(email) || !StrTruthy(password) ==> reply.AuthRefused? && reply.status == 400
    ensures StrTruthy(email) && StrTruthy(password) && !EmailTaken(db.users, email.value) ==>
      reply == AuthRefused(401, INVALID_LOGIN)
    ensures StrTruthy(email) && StrTruthy(password) ==>
      forall id :: id in db.users && db.users[id].email == email.value ==>
        && (!compare(password.value, db.users[id].passwordHash) ==> reply == AuthRefused(401, INVALID_LOGIN))
        && (compare(password.value, db.users[id].passwordHash) ==>
              && reply == SignedIn(UserView(id, db.users[id].name, db.users[id].email, db.users[id].phone))
              && session.userId == Some(id) && session.userName == Some(db.users[id].name))
    ensures reply.AuthRefused? ==> session.userId == old(session.userId) && session.userName == old(session.userName)
  {
    if !StrTruthy(email) || !StrTruthy(password) {
      return AuthRefused(400, "Email and password are required");
    }
    if !(exists id :: id in db.users && db.users[id].email == email.value) {
      return AuthRefused(401, INVALID_LOGIN);
    }
    var id :| id in db.users && db.users[id].email == email.value;
    var user := db.users[id];
    if !compare(password.value, user.passwordHash) {
      return AuthRefused(401, INVALID_LOGIN);
    }
    session.userId := Some(id);
    session.userName := Some(user.name);
    reply := SignedIn(UserView(id, user.name, user.email, user.phone));
  }

  // ---------------------------------------------------------------------------
  // GET /api/auth/status

  /** What the status route reports about the signed-in user. */
  datatype StatusUser = Attached(view: UserView) | FromSession(id: int, name: Option<string>)

  datatype StatusReply = Authenticated(user: StatusUser) | Anonymous

  /**
   * Authenticated iff the session holds a truthy `userId`; the user is
   * `req.user` when `attachUser` set it, otherwise the session's id and name.
   */
  function Status(session: Session, reqUser: Option<UserView>): (r: StatusReply)
    reads session
    ensures r.Authenticated? <==> IntTruthy(session.userId)
    ensures r.Authenticated? && reqUser.Some? ==> r.user == Attached(reqUser.value)
    ensures r.Authenticated? && reqUser.None? ==> r.user == FromSession(session.userId.value, session.userName)
  {
    if IntTruthy(session.userId) then
      Authenticated(if reqUser.Some? then Attached(reqUser.value) else FromSession(session.userId.value, session.userName))
    else Anonymous
  }

  /** The status route and the `requireAuth` guard agree on who is signed in. */
  lemma StatusMatchesGuard(session: Session, reqUser: Option<UserView>)
    ensures Status(session, reqUser).Authenticated? <==> Middleware.RequireAuth(Some(session)).Next?
  {
  }
}
