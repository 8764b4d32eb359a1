/**
 * backend/controllers/authController.js: registration, login and the
 * password-reset token. Hashing, token signing, the random token and the
 * mail transport are outside the model: their results come in as parameters.
 */
module AuthController {
  import opened Wrappers
  import opened Json
  import opened Models
  import Text
  import AuthValidation
  import Store

  /** The claims a signed session token carries (`{ id, email, role }`). */
  datatype Session = Session(id: Id, email: string, role: Role)

  function SessionOf(u: User): (s: Session)
    ensures s.id == u.id && s.email == u.email && s.role == u.role
  {
    Session(u.id, u.email, u.role)
  }

  /** A reset token stays valid for one hour (`Date.now() + 3600000`). */
  const ResetWindow: int := 3600000

  /**
   * `User.findOne({ email })`: the schema's `lowercase` setter is applied to
   * the filter too, so the lookup is by the lower-cased address.
   */
  function FindByEmail(users: seq<User>, email: string): (r: Option<nat>)
    ensures r.None? <==> forall i :: 0 <= i < |users| ==> users[i].email != Text.ToLower(email)
    ensures r.Some? ==> r.value < |users| && users[r.value].email == Text.ToLower(email)
    ensures r.Some? ==> forall i :: 0 <= i < r.value ==> users[i].email != Text.ToLower(email)
  {
    if |users| == 0 then None
    else if users[0].email == Text.ToLower(email) then Some(0)
    else
      var rest := FindByEmail(users[1..], email);
      if rest.None? then None
      else
        assert forall i :: 1 <= i < rest.value + 1 ==> users[i] == users[1..][i - 1];
        Some(rest.value + 1)
  }

  /** A step on the users collection: the collection afterwards, the status and the session issued, if any. */
  datatype AuthStep = AuthStep(users: seq<User>, status: int, session: Option<Session>)

  // ------------------------------------------------------------- register

  /**
   * register: 400 when the body fails the schema or the (lower-cased) email
   * is taken; otherwise 201, the user appended with the hashed password, and
   * a session for it. `hashed` is what bcrypt returns for the password.
   */
  function Register(users: seq<User>, body: Body, newId: Id, hashed: string): (r: AuthStep)
    ensures !AuthValidation.RegisterValid(body) ==> r == AuthStep(users, 400, None)
    ensures AuthValidation.RegisterValid(body) && FindByEmail(users, body["email"].s).Some? ==>
              r == AuthStep(users, 400, None)
    ensures r.status == 201 <==> AuthValidation.RegisterValid(body) && FindByEmail(users, body["email"].s).None?
    ensures r.status == 201 ==>
      && r.users == users + [NewUser(newId, body["name"].s, body["email"].s, hashed)]
      && r.session == Some(Session(newId, Text.ToLower(body["email"].s), Client))
  {
    if !AuthValidation.RegisterValid(body) then AuthStep(users, 400, None)
    else if FindByEmail(users, body["email"].s).Some? then AuthStep(users, 400, None)
    else
      var u := NewUser(newId, body["name"].s, body["email"].s, hashed);
      AuthStep(users + [u], 201, Some(SessionOf(u)))
  }

  /** Registration keeps the collection valid: ids and (lower-case) emails stay unique. */
  lemma RegisterKeepsUsersValid(users: seq<User>, body: Body, newId: Id, hashed: string)
    requires UsersValid(users)
    requires forall i :: 0 <= i < |users| ==> users[i].id != newId
    requires hashed != ""
    ensures UsersValid(Register(users, body, newId, hashed).users)
  {
    var r := Register(users, body, newId, hashed);
    if r.status == 201 {
      var e := body["email"].s;
      AuthValidation.EmailShape(e);
      var u := NewUser(newId, body["name"].s, e, hashed);
      assert u.email != "" by { assert |u.email| == |e|; }
      AppendKeepsUsersValid(users, u);
    }
  }

  /** A valid user whose id and email are both new can join a valid collection. */
  lemma AppendKeepsUsersValid(users: seq<User>, u: User)
    requires UsersValid(users) && UserValid(u)
    requires forall i :: 0 <= i < |users| ==> users[i].id != u.id && users[i].email != u.email
    ensures UsersValid(users + [u])
  {
    var all := users + [u];
    forall i, j | 0 <= i < j < |all| ensures all[i].id != all[j].id && all[i].email != all[j].email {
      if j == |users| {
        assert all[i] == users[i] && all[j] == u;
      } else {
        assert all[i] == users[i] && all[j] == users[j];
      }
    }
    forall i | 0 <= i < |all| ensures UserValid(all[i]) {
      if i < |users| {
        assert all[i] == users[i];
      }
    }
  }

  /** An address already registered is refused again in any letter case. */
  lemma RegisterDuplicateAnyCase(users: seq<User>, b1: Body, b2: Body, id1: Id, id2: Id, h1: string, h2: string)
    requires Register(users, b1, id1, h1).status == 201
    requires AuthValidation.RegisterValid(b2)
    requires Text.ToLower(b2["email"].s) == Text.ToLower(b1["email"].s)
    ensures var once := Register(users, b1, id1, h1).users;
            Register(once, b2, id2, h2) == AuthStep(once, 400, None)
  {
    var once := Register(users, b1, id1, h1).users;
    assert once[|users|].email == Text.ToLower(b1["email"].s);
  }

  // ------------------------------------------------------------- login

  /** The result of a login: status and the session issued. */
  datatype LoginResult = LoginResult(status: int, session: Option<Session>)

  /**
   * login: 400 when the body fails the schema, 404 for an unknown email,
   * 400 when `matches` (bcrypt's compare) refuses the password, otherwise 200
   * and a session for the stored user. The collection is not written.
   */
  function Login(users: seq<User>, body: Body, matches: (string, string) -> bool): (r: LoginResult)
    ensures r.status == 404 <==> AuthValidation.LoginValid(body) && FindByEmail(users, body["email"].s).None?
    ensures r.status == 200 <==>
      && AuthValidation.LoginValid(body)
      && FindByEmail(users, body["email"].s).Some?
      && matches(body["password"].s, users[FindByEmail(users, body["email"].s).value].password)
    ensures r.status == 200 ==> r.session == Some(SessionOf(users[FindByEmail(users, body["email"].s).value]))
    ensures r.status != 200 ==> r.session.None? && r.status in {400, 404}
  {
    if !AuthValidation.LoginValid(body) then LoginResult(400, None)
    else
      var found := FindByEmail(users, body["email"].s);
      if found.None? then LoginResult(404, None)
      else if !matches(body["password"].s, users[found.value].password) then LoginResult(400, None)
      else LoginResult(200, Some(SessionOf(users[found.value])))
  }

  /**
   * A user just registered can log in with the same password and the
   * address in any letter case, and gets a session for the new account.
   */
  lemma RegisterThenLogin(users: seq<User>, body: Body, newId: Id, hashed: string,
                          login: Body, matches: (string, string) -> bool)
    requires Register(users, body, newId, hashed).status == 201
    requires AuthValidation.LoginValid(login)
    requires Text.ToLower(login["email"].s) == Text.ToLower(body["email"].s)
    requires matches(login["password"].s, hashed)
    ensures var r := Login(Register(users, body, newId, hashed).users, login, matches);
            r.status == 200 && r.session.value.id == newId && r.session.value.role == Client
  {
    var after := Register(users, body, newId, hashed).users;
    var found := FindByEmail(after, login["email"].s);
    assert after[|users|].email == Text.ToLower(login["email"].s);
    assert found.Some?;
    assert found.value == |users|;
  }

  // ------------------------------------------------------------- password reset

  /**
   * forgotPassword: an unknown email gets the same 200 and changes nothing;
   * a known one stores `token` with an expiry one hour from `now`, then the
   * mail is sent. A failed send (`mailOk` false) is a 500, but the token is
   * already saved. (This is the behaviour with the two reset fields declared
   * in the User schema; see ForgotPasswordAsWritten.)
   */
  function ForgotPassword(users: seq<User>, email: string, token: string, now: int, mailOk: bool): (r: AuthStep)
    ensures FindByEmail(users, email).None? ==> r == AuthStep(users, 200, None)
    ensures FindByEmail(users, email).Some? ==>
      var i := FindByEmail(users, email).value;
      && r.users == users[i := users[i].(resetPasswordToken := Some(token), resetPasswordExpires := Some(now + ResetWindow))]
      && r.status == (if mailOk then 200 else 500)
      && r.session.None?
  {
    var found := FindByEmail(users, email);
    if found.None? then AuthStep(users, 200, None)
    else
      var i := found.value;
      var u := users[i].(resetPasswordToken := Some(token), resetPasswordExpires := Some(now + ResetWindow));
      AuthStep(users[i := u], if mailOk then 200 else 500, None)
  }

  /**
   * forgotPassword as the repository writes it: the User schema declares no
   * `resetPasswordToken` or `resetPasswordExpires` path, and Mongoose does
   * not save values assigned to undeclared paths, so the stored users never
   * change. The mail is still sent with the token.
   */
  function ForgotPasswordAsWritten(users: seq<User>, email: string, token: string, now: int, mailOk: bool): (r: AuthStep)
    ensures r.users == users && r.session.None?
    ensures r.status == 500 <==> FindByEmail(users, email).Some? && !mailOk
  {
    var found := FindByEmail(users, email);
    if found.None? then AuthStep(users, 200, None)
    else AuthStep(users, if mailOk then 200 else 500, None)
  }

  /** The user a reset token opens: the first whose stored token is `token` and whose expiry is still ahead of `now`. */
  predicate Opens(u: User, token: string, now: int) {
    u.resetPasswordToken == Some(token) && u.resetPasswordExpires.Some? && u.resetPasswordExpires.value > now
  }

  function FindByToken(users: seq<User>, token: string, now: int): (r: Option<nat>)
    ensures r.None? <==> forall i :: 0 <= i < |users| ==> !Opens(users[i], token, now)
    ensures r.Some? ==> r.value < |users| && Opens(users[r.value], token, now)
    ensures r.Some? ==> forall i :: 0 <= i < r.value ==> !Opens(users[i], token, now)
  {
    if |users| == 0 then None
    else if Opens(users[0], token, now) then Some(0)
    else
      var rest := FindByToken(users[1..], token, now);
      if rest.None? then None
      else
        assert forall i :: 1 <= i < rest.value + 1 ==> users[i] == users[1..][i - 1];
        Some(rest.value + 1)
  }

  /**
   * resetPassword: 400 and no change unless a user holds `token` with an
   * expiry strictly after `now`; otherwise that user's password becomes
   * `hashed` and both reset fields are cleared. `hashed` is None when bcrypt
   * refuses the sent password (none was sent), which is a 500 with no write.
   */
  function ResetPassword(users: seq<User>, token: string, hashed: Option<string>, now: int): (r: AuthStep)
    ensures FindByToken(users, token, now).None? ==> r == AuthStep(users, 400, None)
    ensures FindByToken(users, token, now).Some? && hashed.None? ==> r == AuthStep(users, 500, None)
    ensures r.status == 200 <==> FindByToken(users, token, now).Some? && hashed.Some?
    ensures r.status == 200 ==>
      var i := FindByToken(users, token, now).value;
      r.users == users[i := users[i].(password := hashed.value, resetPasswordToken := None, resetPasswordExpires := None)]
    ensures r.session.None?
  {
    var found := FindByToken(users, token, now);
    if found.None? then AuthStep(users, 400, None)
    else if hashed.None? then AuthStep(users, 500, None)
    else
      var i := found.value;
      AuthStep(users[i := users[i].(password := hashed.value, resetPasswordToken := None, resetPasswordExpires := None)], 200, None)
  }

  /** No other user holds `token`: what a fresh random token guarantees. */
  predicate TokenFresh(users: seq<User>, token: string) {
    forall i :: 0 <= i < |users| ==> users[i].resetPasswordToken != Some(token)
  }

  /**
   * A reset within the hour after forgotPassword, with the mailed token,
   * sets the new password of exactly the user who asked and clears the token.
   */
  lemma ForgotThenResetWithinHour(users: seq<User>, email: string, token: string, t0: int, mailOk: bool,
                                  hashed: string, now: int)
    requires FindByEmail(users, email).Some? && TokenFresh(users, token)
    requires now < t0 + ResetWindow
    ensures var i := FindByEmail(users, email).value;
            var r := ResetPassword(ForgotPassword(users, email, token, t0, mailOk).users, token, Some(hashed), now);
            && r.status == 200
            && r.users == users[i := users[i].(password := hashed, resetPasswordToken := None, resetPasswordExpires := None)]
  {
    var i := FindByEmail(users, email).value;
    var mid := ForgotPassword(users, email, token, t0, mailOk).users;
    assert Opens(mid[i], token, now);
    var found := FindByToken(mid, token, now);
    assert found == Some(i);
  }

  /** Once its expiry has passed, the mailed token is refused even though it is the right one. */
  lemma ExpiredTokenRejected(users: seq<User>, email: string, token: string, t0: int, mailOk: bool,
                             hashed: Option<string>, now: int)
    requires TokenFresh(users, token)
    requires now >= t0 + ResetWindow
    ensures var mid := ForgotPassword(users, email, token, t0, mailOk).users;
            ResetPassword(mid, token, hashed, now) == AuthStep(mid, 400, None)
  {
    var mid := ForgotPassword(users, email, token, t0, mailOk).users;
    forall j | 0 <= j < |mid| ensures !Opens(mid[j], token, now) {
      if FindByEmail(users, email).Some? && j == FindByEmail(users, email).value {
      } else {
        assert mid[j] == users[j];
      }
    }
  }

  /** A token that has been used once is refused afterwards, as long as no other user held it. */
  lemma TokenSingleUse(users: seq<User>, token: string, h1: string, h2: Option<string>, now: int, later: int)
    requires ResetPassword(users, token, Some(h1), now).status == 200
    requires forall i, j :: 0 <= i < j < |users| && users[i].resetPasswordToken == Some(token) ==>
               users[j].resetPasswordToken != Some(token)
    ensures var after := ResetPassword(users, token, Some(h1), now).users;
            ResetPassword(after, token, h2, later) == AuthStep(after, 400, None)
  {
    var i := FindByToken(users, token, now).value;
    var after := ResetPassword(users, token, Some(h1), now).users;
    forall j | 0 <= j < |after| ensures !Opens(after[j], token, later) {
      if j != i {
        assert after[j] == users[j];
        assert users[j].resetPasswordToken != Some(token);
      }
    }
  }

  /**
   * As written, the mailed token can never be used: in a collection where no
   * reset is pending (every collection the written code produces), the reset
   * that follows forgotPassword is refused however soon it comes.
   */
  lemma ResetAfterForgotAsWrittenFails(users: seq<User>, email: string, token: string, t0: int, mailOk: bool,
                                       hashed: Option<string>, now: int)
    requires forall i :: 0 <= i < |users| ==> users[i].resetPasswordToken.None?
    requires FindByEmail(users, email).Some? && now < t0 + ResetWindow
    ensures var mid := ForgotPasswordAsWritten(users, email, token, t0, mailOk).users;
            ResetPassword(mid, token, hashed, now).status == 400
  {
  }

  // ------------------------------------------------------------- handlers

  /** register on the store; `newId` is the id Mongo assigns, `hashed` bcrypt's hash of the password. */
  method RegisterUser(db: Store.Db, body: Body, newId: Id, hashed: string) returns (status: int, session: Option<Session>)
    requires db.Valid() && hashed != ""
    requires forall i :: 0 <= i < |db.users| ==> db.users[i].id != newId
    modifies db
    ensures var r := Register(old(db.users), body, newId, hashed);
            status == r.status && session == r.session && db.users == r.users
    ensures db.products == old(db.products) && db.movements == old(db.movements) && db.carts == old(db.carts)
    ensures db.Valid()
  {
    var r := Register(db.users, body, newId, hashed);
    RegisterKeepsUsersValid(db.users, body, newId, hashed);
    db.users := r.users;
    status, session := r.status, r.session;
  }

  /** login on the store: reads only. */
  method LoginUser(db: Store.Db, body: Body, matches: (string, string) -> bool) returns (status: int, session: Option<Session>)
    ensures status == Login(db.users, body, matches).status && session == Login(db.users, body, matches).session
  {
    var r := Login(db.users, body, matches);
    status, session := r.status, r.session;
  }

  /** forgotPassword on the store; `token` is the random hex token. */
  method RequestReset(db: Store.Db, email: string, token: string, now: int, mailOk: bool) returns (status: int)
    requires db.Valid()
    modifies db
    ensures var r := ForgotPassword(old(db.users), email, token, now, mailOk);
            status == r.status && db.users == r.users
    ensures db.products == old(db.products) && db.movements == old(db.movements) && db.carts == old(db.carts)
    ensures db.Valid()
  {
    var found := FindByEmail(db.users, email);
    if found.None? {
      return 200;
    }
    var i := found.value;
    db.users := db.users[i := db.users[i].(resetPasswordToken := Some(token), resetPasswordExpires := Some(now + ResetWindow))];
    status := if mailOk then 200 else 500;
  }

  /** resetPassword on the store. */
  method CompleteReset(db: Store.Db, token: string, hashed: Option<string>, now: int) returns (status: int)
    requires db.Valid() && (hashed.Some? ==> hashed.value != "")
    modifies db
    ensures var r := ResetPassword(old(db.users), token, hashed, now);
            status == r.status && db.users == r.users
    ensures db.products == old(db.products) && db.movements == old(db.movements) && db.carts == old(db.carts)
    ensures db.Valid()
  {
    var found := FindByToken(db.users, token, now);
    if found.None? {
      return 400;
    }
    if hashed.None? {
      return 500;
    }
    var i := found.value;
    db.users := db.users[i := db.users[i].(password := hashed.value, resetPasswordToken := None, resetPasswordExpires := None)];
    status := 200;
  }
}
