/**
 * The account handlers of the REST API: register, login, forgot/reset password, update
 * profile, delete account and read profile. bcrypt, jsonwebtoken and nodemailer are the
 * abstract hash, token and mail outbox of the Database module.
 */
module AuthController {
  import opened Wrappers
  import opened Database
  import opened Http
  import JobController

  const UserExists := "User already exists"
  const InvalidCredentials := "Invalid email or password"
  const ResetMaybeSent := "If that email exists, a reset link has been sent."
  const ResetSent := "Password reset email sent"
  const EmailFailed := "Email could not be sent"
  const InvalidToken := "Invalid or expired token"
  const PasswordUpdated := "Password updated successfully"
  const UserNotFound := "User not found"
  const NoChanges := "No changes provided"
  const AccountDeleted := "Account deleted successfully"
  const DeleteFailed := "Delete failed"

  /** The body of a successful register or login (`_id` repeats `id` and is not modelled twice). */
  datatype Session = Session(id: UserId, name: string, email: string, token: Token)

  /** The body of `getUserProfile`: the selected columns only. */
  datatype Profile = Profile(id: UserId, name: string, email: string)

  /** The body of a successful `updateProfile`: the selected columns and a fresh token. */
  datatype Refreshed = Refreshed(id: UserId, email: string, token: Token)

  /** Some stored user has this email address. */
  ghost predicate EmailTaken(users: map<UserId, User>, email: string) {
    exists id :: id in users && users[id].email == email
  }

  /** `registerUser`: 400 when the email is taken; otherwise one new user with the hashed password. */
  method RegisterUser(db: Store, name: string, email: string, password: string, salt: nat, now: int)
    returns (r: Reply<Session>)
    requires db.Valid()
    modifies db
    ensures db.Valid()
    ensures db.jobs == old(db.jobs) && db.outbox == old(db.outbox)
    ensures EmailTaken(old(db.users), email) ==>
      && r == Err(400, Text(UserExists))
      && db.users == old(db.users) && db.emailIndex == old(db.emailIndex)
    ensures !EmailTaken(old(db.users), email) ==>
      && r.Ok? && r.code == 201
      && r.value.id !in old(db.users)
      && db.users == old(db.users)[r.value.id := User(r.value.id, name, email, Hash(password, salt))]
      && r.value == Session(r.value.id, name, email, SessionToken(r.value.id, now))
  {
    var existing := db.UserByEmail(email);
    if existing.Some? {
      return Err(400, Text(UserExists));
    }
    var id := db.nextUserId;
    var user := User(id, name, email, Hash(password, salt));
    db.users := db.users[id := user];
    db.emailIndex := db.emailIndex[email := id];
    db.nextUserId := db.nextUserId + 1;
    r := Ok(201, Session(id, name, email, SessionToken(id, now)));
  }

  /** `loginUser`: a session only for a stored email whose digest matches the password. */
  function LoginUser(db: Store, email: string, password: string, now: int): (r: Reply<Session>)
    reads db
    requires db.Valid()
    ensures r.Ok? <==> exists id :: id in db.users && db.users[id].email == email && Matches(password, db.users[id].password)
    ensures r.Ok? ==>
      && r.code == 200 && r.value.id in db.users
      && r.value == Session(r.value.id, db.users[r.value.id].name, email, SessionToken(r.value.id, now))
    ensures r.Err? ==> r == Err(401, Text(InvalidCredentials))
  {
    var user := db.UserByEmail(email);
    if user.Some? && Matches(password, user.value.password) then
      Ok(200, Session(user.value.id, user.value.name, user.value.email, SessionToken(user.value.id, now)))
    else
      db.EmailsUnique();
      Err(401, Text(InvalidCredentials))
  }

  /** An unknown email and a wrong password get the very same answer. */
  lemma LoginFailuresAlike(db: Store, unknown: string, known: string, wrong: string, now: int)
    requires db.Valid()
    requires !EmailTaken(db.users, unknown)
    requires exists id :: id in db.users && db.users[id].email == known && !Matches(wrong, db.users[id].password)
    ensures LoginUser(db, unknown, wrong, now) == LoginUser(db, known, wrong, now)
  {
    var id :| id in db.users && db.users[id].email == known && !Matches(wrong, db.users[id].password);
    db.EmailsUnique();
  }

  /**
   * `forgotPassword`: an unknown email is answered with 200 and nothing is sent; a known one
   * gets a 15-minute reset token mailed to its address, or 500 when the transport fails.
   */
  method ForgotPassword(db: Store, email: string, now: int, mailOk: bool) returns (r: Reply<string>)
    requires db.Valid()
    modifies db
    ensures db.Valid()
    ensures db.users == old(db.users) && db.emailIndex == old(db.emailIndex) && db.jobs == old(db.jobs)
    ensures !EmailTaken(old(db.users), email) ==> r == Ok(200, ResetMaybeSent) && db.outbox == old(db.outbox)
    ensures EmailTaken(old(db.users), email) && mailOk ==>
      var u := old(db.UserByEmail(email)).value;
      && r == Ok(200, ResetSent)
      && db.outbox == old(db.outbox) + [Mail(u.email, Token(u.id, now, ResetLifetime))]
    ensures EmailTaken(old(db.users), email) && !mailOk ==>
      r == Err(500, Text(EmailFailed)) && db.outbox == old(db.outbox)
  {
    var user := db.UserByEmail(email);
    if user.None? {
      return Ok(200, ResetMaybeSent);
    }
    var resetToken := Token(user.value.id, now, ResetLifetime);
    if !mailOk {
      return Err(500, Text(EmailFailed));
    }
    db.outbox := db.outbox + [Mail(user.value.email, resetToken)];
    r := Ok(200, ResetSent);
  }

  /**
   * With a working mail transport, the answer to a reset request tells whether the address
   * belongs to an account: the two success messages differ.
   */
  method ProbeAccount(db: Store, email: string, now: int) returns (registered: bool)
    requires db.Valid()
    modifies db
    ensures registered <==> EmailTaken(old(db.users), email)
  {
    var r := ForgotPassword(db, email, now, true);
    registered := r == Ok(200, ResetSent);
  }

  /** `resetPassword`: a token that verifies for a stored user sets that user's password digest. */
  method ResetPassword(db: Store, credential: Credential, newPassword: string, salt: nat, now: int)
    returns (r: Reply<string>)
    requires db.Valid()
    modifies db
    ensures db.Valid()
    ensures db.jobs == old(db.jobs) && db.emailIndex == old(db.emailIndex) && db.outbox == old(db.outbox)
    ensures r.Ok? <==> Verify(credential, now).Some? && Verify(credential, now).value in old(db.users)
    ensures r.Err? ==> r == Err(400, Text(InvalidToken)) && db.users == old(db.users)
    ensures r.Ok? ==>
      var id := Verify(credential, now).value;
      && r == Ok(200, PasswordUpdated)
      && db.users == old(db.users)[id := old(db.users)[id].(password := Hash(newPassword, salt))]
  {
    var decoded := Verify(credential, now);
    if decoded.None? || decoded.value !in db.users {
      // jwt.verify throws, or the update finds no row: both land in the catch.
      return Err(400, Text(InvalidToken));
    }
    var id := decoded.value;
    db.users := db.users[id := db.users[id].(password := Hash(newPassword, salt))];
    r := Ok(200, PasswordUpdated);
  }

  /**
   * A reset token is not used up: `jwt.verify` keeps no record, so the same link resets the
   * password a second time, and the second new password is the one that stays.
   */
  method ResetTokenReusable(db: Store, credential: Credential, first: string, second: string, salt: nat, now: int)
    returns (r1: Reply<string>, r2: Reply<string>)
    requires db.Valid()
    modifies db
    ensures r1.Ok? <==> Verify(credential, now).Some? && Verify(credential, now).value in old(db.users)
    ensures r1.Ok? <==> r2.Ok?
    ensures r2.Ok? ==>
      && Verify(credential, now).Some?
      && var id := Verify(credential, now).value;
      id in db.users && db.users[id].password == Hash(second, salt)
  {
    r1 := ResetPassword(db, credential, first, salt, now);
    r2 := ResetPassword(db, credential, second, salt, now);
  }

  /** A reset token stops verifying fifteen minutes after it was issued. */
  lemma ResetTokenExpires(id: UserId, issued: int, now: int)
    ensures Verify(Signed(Token(id, issued, ResetLifetime)), now).Some? <==> now < issued + 15 * 60
  {
  }

  /**
   * `resetPassword` does not tell a reset token from a session token: a 30-day login token
   * also verifies, for the whole of its lifetime.
   */
  lemma SessionTokenAcceptedForReset(id: UserId, issued: int, now: int)
    requires issued <= now < issued + SessionLifetime
    ensures Verify(Signed(SessionToken(id, issued)), now) == Some(id)
    ensures now >= issued + ResetLifetime ==> Verify(Signed(Token(id, issued, ResetLifetime)), now).None?
  {
  }

  /** `updateProfile`: only a non-empty password changes anything, and only the password digest. */
  method UpdateProfile(db: Store, caller: UserId, password: Option<string>, salt: nat, now: int)
    returns (r: Reply<Refreshed>)
    requires db.Valid()
    modifies db
    ensures db.Valid()
    ensures db.jobs == old(db.jobs) && db.emailIndex == old(db.emailIndex) && db.outbox == old(db.outbox)
    ensures caller !in old(db.users) ==> r == Err(404, Text(UserNotFound)) && db.users == old(db.users)
    ensures caller in old(db.users) && (password.None? || password.value == "") ==>
      r == Err(400, Text(NoChanges)) && db.users == old(db.users)
    ensures caller in old(db.users) && password.Some? && password.value != "" ==>
      && db.users == old(db.users)[caller := old(db.users)[caller].(password := Hash(password.value, salt))]
      && r == Ok(200, Refreshed(caller, old(db.users)[caller].email, SessionToken(caller, now)))
  {
    if caller !in db.users {
      return Err(404, Text(UserNotFound));
    }
    var updateData: map<string, Digest> := map[];
    if password.Some? && password.value != "" {
      updateData := updateData["password" := Hash(password.value, salt)];
    }
    if |updateData| == 0 {
      return Err(400, Text(NoChanges));
    }
    assert "password" in updateData;
    var updated := db.users[caller].(password := updateData["password"]);
    db.users := db.users[caller := updated];
    r := Ok(200, Refreshed(updated.id, updated.email, SessionToken(updated.id, now)));
  }

  /**
   * `deleteAccount`: first every job of the caller, then the caller's row. A caller with no row
   * fails on the second step with 500; by the foreign key it had no jobs either.
   */
  method DeleteAccount(db: Store, caller: UserId) returns (r: Reply<string>)
    requires db.Valid()
    modifies db
    ensures db.Valid()
    ensures db.outbox == old(db.outbox)
    ensures db.jobs == map k | k in old(db.jobs) && old(db.jobs)[k].userId != caller :: old(db.jobs)[k]
    ensures JobController.OthersUnchanged(old(db.jobs), db.jobs, caller)
    ensures caller in old(db.users) ==>
      && r == Ok(200, AccountDeleted)
      && db.users == old(db.users) - {caller}
      && db.emailIndex == old(db.emailIndex) - {old(db.users)[caller].email}
    ensures caller !in old(db.users) ==>
      r == Err(500, Text(DeleteFailed)) && db.users == old(db.users) && db.jobs == old(db.jobs)
  {
    db.jobs := map k | k in db.jobs && db.jobs[k].userId != caller :: db.jobs[k];
    assert JobController.OthersUnchanged(old(db.jobs), db.jobs, caller) by {
      forall u | u != caller
        ensures JobController.OwnedRows(db.jobs, u) == JobController.OwnedRows(old(db.jobs), u)
      {
        assert JobController.OwnedRows(db.jobs, u).Keys == JobController.OwnedRows(old(db.jobs), u).Keys;
      }
    }
    if caller !in db.users {
      assert forall k :: k in old(db.jobs) ==> old(db.jobs)[k].userId in db.users;
      assert db.jobs.Keys == old(db.jobs).Keys;
      return Err(500, Text(DeleteFailed));
    }
    var email := db.users[caller].email;
    db.users := db.users - {caller};
    db.emailIndex := db.emailIndex - {email};
    r := Ok(200, AccountDeleted);
  }

  /** `getUserProfile`: id, name and email of the caller, or 404. */
  function GetUserProfile(db: Store, caller: UserId): (r: Reply<Profile>)
    reads db
    ensures r.Ok? <==> caller in db.users
    ensures r.Ok? ==> r == Ok(200, Profile(caller, db.users[caller].name, db.users[caller].email))
    ensures r.Err? ==> r == Err(404, Text(UserNotFound))
  {
    if caller in db.users then
      var u := db.users[caller];
      Ok(200, Profile(caller, u.name, u.email))
    else Err(404, Text(UserNotFound))
  }

  /** A fresh registration can log in at once with the same password. */
  method RegisterThenLogin(db: Store, name: string, email: string, password: string, salt: nat, now: int)
    returns (registered: Reply<Session>, login: Reply<Session>)
    requires db.Valid()
    requires !EmailTaken(db.users, email)
    modifies db
    ensures registered.Ok? && login.Ok? && login.value.id == registered.value.id
  {
    registered := RegisterUser(db, name, email, password, salt, now);
    assert db.users[registered.value.id].email == email;
    login := LoginUser(db, email, password, now);
    db.EmailsUnique();
  }

  /** After a successful reset the new password logs in, and a different old one no longer does. */
  method ResetThenLogin(db: Store, credential: Credential, oldPassword: string, newPassword: string, salt: nat, now: int)
    returns (reset: Reply<string>, withNew: Reply<Session>, withOld: Reply<Session>)
    requires db.Valid()
    requires Verify(credential, now).Some? && Verify(credential, now).value in db.users
    requires oldPassword != newPassword
    modifies db
    ensures reset.Ok? && withNew.Ok? && withOld.Err?
    ensures withNew.value.id == Verify(credential, now).value
  {
    var id := Verify(credential, now).value;
    var email := db.users[id].email;
    reset := ResetPassword(db, credential, newPassword, salt, now);
    assert db.users[id].email == email && Matches(newPassword, db.users[id].password);
    withNew := LoginUser(db, email, newPassword, now);
    withOld := LoginUser(db, email, oldPassword, now);
    db.EmailsUnique();
  }
}
