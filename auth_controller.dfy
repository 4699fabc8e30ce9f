/**
 * `controllers/authController.ts`: registration, login and password change
 * over the `users` table. bcrypt is an oracle: `hash` turns a password into
 * the stored hash (its salt is part of the oracle) and `matches(plain,
 * stored)` is `bcrypt.compare`.
 */
module AuthController {
  import opened Common
  import opened Store
  import opened AuthMiddleware

  /** `{ message, user, token }` of a successful register or login. */
  datatype Session = Session(message: string, user: Principal, token: string)

  /**
   * `register`: refuse a taken username with 400, otherwise insert the user
   * with the hashed password and the role (default `employee`), answer 201
   * with the new user and a token for it.
   */
  method Register(db: Database, username: string, password: string, role: Option<string>,
                  hash: string -> string, sign: Claims -> string, now: int)
    returns (reply: Reply<Session>)
    requires db.Valid()
    modifies db`users, db`nextUserId
    ensures db.Valid()
    ensures UsernameIndex(old(db.users), username) >= 0 ==>
      reply == Error(400, "Username already exists") &&
      db.users == old(db.users) && db.nextUserId == old(db.nextUserId)
    ensures UsernameIndex(old(db.users), username) < 0 ==>
      var user := User(old(db.nextUserId), username, hash(password), role.GetOr("employee"), now);
      db.users == old(db.users) + [user] && db.nextUserId == old(db.nextUserId) + 1 &&
      reply == Body(201, Session("User created successfully", PrincipalOf(user), GenerateToken(PrincipalOf(user), sign)))
  {
    if UsernameIndex(db.users, username) >= 0 {
      return Error(400, "Username already exists");
    }
    var users, id := db.users, db.nextUserId;
    var user := User(id, username, hash(password), role.GetOr("employee"), now);
    AppendUserKeepsInvariants(users, id, user);
    db.users := users + [user];
    db.nextUserId := id + 1;
    var created := PrincipalOf(user);
    reply := Body(201, Session("User created successfully", created, GenerateToken(created, sign)));
  }

  /** A registered user can be found again by name, with its stored hash and role. */
  lemma RegisteredUserIsFound(users: seq<User>, user: User)
    requires UsernamesUnique(users + [user]) && UsernameIndex(users, user.username) < 0
    ensures UsernameIndex(users + [user], user.username) == |users|
  {
    var users' := users + [user];
    assert users'[|users|] == user;
    forall j | 0 <= j < |users| ensures users'[j].username != user.username {
      assert users'[j] == users[j];
    }
  }

  /**
   * `login`: the same 401 "Invalid credentials" for an unknown username and
   * for a wrong password, so a caller cannot tell the two apart; otherwise
   * the user without its password and a token for it.
   */
  function Login(users: seq<User>, username: string, password: string,
                 matches: (string, string) -> bool, sign: Claims -> string): (r: Reply<Session>)
    ensures r.Error? <==>
      UsernameIndex(users, username) < 0 || !matches(password, users[UsernameIndex(users, username)].password)
    ensures r.Error? ==> r == Error(401, "Invalid credentials")
    ensures r.Body? ==>
      var u := users[UsernameIndex(users, username)];
      r.code == 200 && r.body.message == "Login successful" &&
      r.body.user == PrincipalOf(u) && r.body.token == GenerateToken(PrincipalOf(u), sign)
  {
    var k := UsernameIndex(users, username);
    if k < 0 then Error(401, "Invalid credentials")
    else if !matches(password, users[k].password) then Error(401, "Invalid credentials")
    else
      var user := PrincipalOf(users[k]);
      Body(200, Session("Login successful", user, GenerateToken(user, sign)))
  }

  /**
   * Nothing of the stored hash reaches a successful login's answer: two
   * tables that differ only in that user's hash give the same reply once
   * both hashes match the password.
   */
  lemma LoginRevealsNoHash(users: seq<User>, k: int, otherHash: string, password: string,
                           matches: (string, string) -> bool, sign: Claims -> string)
    requires 0 <= k < |users|
    requires matches(password, users[k].password) && matches(password, otherHash)
    ensures var users' := users[k := users[k].(password := otherHash)];
      Login(users, users[k].username, password, matches, sign) ==
      Login(users', users[k].username, password, matches, sign)
  {
    var users' := users[k := users[k].(password := otherHash)];
    var name := users[k].username;
    forall j | 0 <= j < |users| ensures (users[j].username == name) == (users'[j].username == name) {
    }
    var i := UsernameIndex(users, name);
    assert UsernameIndex(users', name) == i by {
      assert users'[i].username == name;
    }
  }

  /** `req.user?.id` is falsy: no user, or the id 0. */
  predicate NoUserId(userId: Option<int>) {
    userId.None? || userId.value == 0
  }

  /**
   * `changePassword`: 401 without an authenticated id, 404 when the user is
   * gone, 400 when the current password does not match; otherwise only
   * that user's stored hash changes, to the hash of the new password.
   */
  method ChangePassword(db: Database, userId: Option<int>, currentPassword: string, newPassword: string,
                        matches: (string, string) -> bool, hash: string -> string)
    returns (reply: Reply<string>)
    requires db.Valid()
    modifies db`users
    ensures db.Valid()
    ensures NoUserId(userId) ==> reply == Error(401, "Unauthorized") && db.users == old(db.users)
    ensures !NoUserId(userId) && UserIndex(old(db.users), userId.value) < 0 ==>
      reply == Error(404, "User not found") && db.users == old(db.users)
    ensures !NoUserId(userId) && UserIndex(old(db.users), userId.value) >= 0 ==>
      var k := UserIndex(old(db.users), userId.value);
      var u := old(db.users)[k];
      if !matches(currentPassword, u.password) then
        reply == Error(400, "Current password is incorrect") && db.users == old(db.users)
      else
        reply == Body(200, "Password changed successfully") &&
        db.users == old(db.users)[k := u.(password := hash(newPassword))]
  {
    if NoUserId(userId) {
      return Error(401, "Unauthorized");
    }
    var k := UserIndex(db.users, userId.value);
    if k < 0 {
      return Error(404, "User not found");
    }
    if !matches(currentPassword, db.users[k].password) {
      return Error(400, "Current password is incorrect");
    }
    var users := db.users;
    db.users := users[k := users[k].(password := hash(newPassword))];
    reply := Body(200, "Password changed successfully");
  }

  /**
   * After a successful change the new password logs in and, when `hash`
   * never collides with the old hash under `matches`, the old one no longer does.
   */
  lemma ChangedPasswordLogsIn(users: seq<User>, next: nat, k: int, newPassword: string, oldPassword: string,
                              matches: (string, string) -> bool, hash: string -> string, sign: Claims -> string)
    requires UserIdsBelow(users, next) && UsernamesUnique(users) && 0 <= k < |users|
    requires matches(newPassword, hash(newPassword)) && !matches(oldPassword, hash(newPassword))
    ensures var users' := users[k := users[k].(password := hash(newPassword))];
      Login(users', users[k].username, newPassword, matches, sign).Body? &&
      Login(users', users[k].username, oldPassword, matches, sign) == Error(401, "Invalid credentials")
  {
    var users' := users[k := users[k].(password := hash(newPassword))];
    var name := users[k].username;
    assert users'[k].username == name;
    forall j | 0 <= j < k ensures users'[j].username != name {
      assert users'[j] == users[j];
    }
    assert UsernameIndex(users', name) == k;
  }
}
