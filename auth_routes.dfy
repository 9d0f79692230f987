/** The auth router (`/api/auth`): register, login and logout over the User collection, seen as a
    table keyed by e-mail. Password checking (`matchPassword`) and token issuing (`generateToken`)
    live in code this model does not contain; they are parameters. */
module AuthRoutes {
  import opened Common
  import opened CommunityModel
  import opened UserModel

  /** `getPublicProfile()`: the user as sent to clients, without the password. */
  datatype Profile = Profile(id: UserId, name: string, email: string, isOnline: bool, lastSeen: Option<int>)

  /** The body of a successful register or login: a message, the profile and a token. */
  datatype Session = Session(message: string, user: Profile, token: string)

  /** A handler's reply together with the user table it leaves behind. */
  datatype TableStep = TableStep(reply: Response<Session>, after: seq<User>)

  const InvalidCredentials: string := "Invalid email or password"
  const DuplicateEmail: string := "User already exists with this email"

  function PublicProfile(u: User): Profile {
    Profile(u.id, u.name, u.email, u.isOnline, u.lastSeen)
  }

  /** No two users share an e-mail address or an id. */
  predicate TableInvariant(users: seq<User>) {
    forall i, j :: 0 <= i < j < |users| ==> users[i].email != users[j].email && users[i].id != users[j].id
  }

  /** POST /register. A taken e-mail is refused with 400 and nothing is added; otherwise one user
      with the given name and e-mail, offline, is appended, and 201 carries its profile and token. */
  function RegisterStep(users: seq<User>, name: string, email: string, password: string,
                        newId: UserId, generateToken: UserId -> string): (s: TableStep)
    ensures s.reply.Success? <==> forall k :: 0 <= k < |users| ==> users[k].email != email
    ensures s.reply.Failure? ==> s.reply == Failure(400, DuplicateEmail) && s.after == users
    ensures s.reply.Success? ==>
              && |s.after| == |users| + 1 && s.after[..|users|] == users
              && s.after[|users|] == User(newId, name, email, password, false, None)
              && s.reply.status == 201
              && s.reply.body.message == "User registered successfully"
              && s.reply.body.user == PublicProfile(s.after[|users|])
              && s.reply.body.token == generateToken(newId)
  {
    if FindByEmail(users, email).Some? then
      TableStep(Failure(400, DuplicateEmail), users)
    else
      var user := User(newId, name, email, password, false, None);
      TableStep(Success(201, Session("User registered successfully", PublicProfile(user), generateToken(newId))),
                users + [user])
  }

  /** POST /login. An unknown e-mail and a wrong password give the same 400 reply and change
      nothing; otherwise that user, and no other, becomes online with `lastSeen` set to `now`. */
  function LoginStep(users: seq<User>, email: string, password: string, now: int,
                     matchPassword: (User, string) -> bool, generateToken: UserId -> string): (s: TableStep)
    ensures s.reply.Failure? ==> s.reply == Failure(400, InvalidCredentials) && s.after == users
    ensures s.reply.Success? <==> FindByEmail(users, email).Some?
                                  && matchPassword(users[FindByEmail(users, email).value], password)
    ensures s.reply.Success? ==>
              var i := FindByEmail(users, email).value;
              && s.after == users[i := users[i].(isOnline := true, lastSeen := Some(now))]
              && s.reply == Success(200, Session("Login successful", PublicProfile(s.after[i]),
                                                 generateToken(users[i].id)))
  {
    match FindByEmail(users, email)
    case None => TableStep(Failure(400, InvalidCredentials), users)
    case Some(i) =>
      if !matchPassword(users[i], password) then TableStep(Failure(400, InvalidCredentials), users)
      else
        var user := users[i].(isOnline := true, lastSeen := Some(now));
        TableStep(Success(200, Session("Login successful", PublicProfile(user), generateToken(user.id))),
                  users[i := user])
  }

  /** Registering keeps e-mails and ids unique, given an id no user has yet. */
  lemma RegisterPreservesInvariant(users: seq<User>, name: string, email: string, password: string,
                                   newId: UserId, generateToken: UserId -> string)
    requires TableInvariant(users)
    requires forall k :: 0 <= k < |users| ==> users[k].id != newId
    ensures TableInvariant(RegisterStep(users, name, email, password, newId, generateToken).after)
  {
  }

  /** Once an e-mail is registered, registering it again is refused. */
  lemma {:induction false} RegisterTwiceRefused(users: seq<User>, name: string, email: string, password: string,
                              newId: UserId, name': string, password': string, newId': UserId,
                              generateToken: UserId -> string)
    ensures var s := RegisterStep(users, name, email, password, newId, generateToken);
            RegisterStep(s.after, name', email, password', newId', generateToken).reply
            == Failure(400, DuplicateEmail)
  {
    var s := RegisterStep(users, name, email, password, newId, generateToken);
    if s.reply.Success? {
      assert s.after[|users|].email == email;
    } else {
      var k :| 0 <= k < |users| && users[k].email == email;
    }
  }

  /** Logging in keeps e-mails and ids unique. */
  lemma LoginPreservesInvariant(users: seq<User>, email: string, password: string, now: int,
                                matchPassword: (User, string) -> bool, generateToken: UserId -> string)
    requires TableInvariant(users)
    ensures TableInvariant(LoginStep(users, email, password, now, matchPassword, generateToken).after)
  {
  }

  /** A successful login leaves its user online, and the online count goes up by one exactly when
      that user was offline before; a failed login leaves the count as it was. */
  lemma {:induction false} LoginOnlineCount(users: seq<User>, email: string, password: string, now: int,
                         matchPassword: (User, string) -> bool, generateToken: UserId -> string)
    ensures var s := LoginStep(users, email, password, now, matchPassword, generateToken);
            s.reply.Success? ==>
              var i := FindByEmail(users, email).value;
              && s.after[i].isOnline
              && OnlineCount(s.after) == OnlineCount(users) + (if users[i].isOnline then 0 else 1)
    ensures var s := LoginStep(users, email, password, now, matchPassword, generateToken);
            s.reply.Failure? ==> OnlineCount(s.after) == OnlineCount(users)
  {
    var s := LoginStep(users, email, password, now, matchPassword, generateToken);
    if s.reply.Success? {
      var i := FindByEmail(users, email).value;
      OnlineCountUpdate(users, i, users[i].(isOnline := true, lastSeen := Some(now)));
    }
  }

  /** The User collection behind the auth router. */
  class UserTable {
    var users: seq<User>

    ghost predicate Valid()
      reads this
    {
      TableInvariant(users)
    }

    constructor ()
      ensures Valid() && users == []
    {
      users := [];
    }

    method Register(name: string, email: string, password: string, newId: UserId,
                    generateToken: UserId -> string) returns (reply: Response<Session>)
      requires Valid()
      requires forall k :: 0 <= k < |users| ==> users[k].id != newId
      modifies this
      ensures Valid()
      ensures reply == RegisterStep(old(users), name, email, password, newId, generateToken).reply
      ensures users == RegisterStep(old(users), name, email, password, newId, generateToken).after
    {
      RegisterPreservesInvariant(users, name, email, password, newId, generateToken);
      var existing := FindByEmail(users, email);
      if existing.Some? {
        return Failure(400, DuplicateEmail);
      }
      var user := User(newId, name, email, password, false, None);
      users := users + [user];
      reply := Success(201, Session("User registered successfully", PublicProfile(user), generateToken(newId)));
    }

    method Login(email: string, password: string, now: int,
                 matchPassword: (User, string) -> bool, generateToken: UserId -> string)
      returns (reply: Response<Session>)
      requires Valid()
      modifies this
      ensures Valid()
      ensures reply == LoginStep(old(users), email, password, now, matchPassword, generateToken).reply
      ensures users == LoginStep(old(users), email, password, now, matchPassword, generateToken).after
    {
      LoginPreservesInvariant(users, email, password, now, matchPassword, generateToken);
      var found := FindByEmail(users, email);
      if found.None? {
        return Failure(400, InvalidCredentials);
      }
      var i := found.value;
      if !matchPassword(users[i], password) {
        return Failure(400, InvalidCredentials);
      }
      var user := users[i];
      user := user.(isOnline := true);
      user := user.(lastSeen := Some(now));
      users := users[i := user];
      reply := Success(200, Session("Login successful", PublicProfile(user), generateToken(user.id)));
    }

    /** POST /logout only answers; no user changes, so `isOnline` stays as login left it. */
    method Logout() returns (reply: Response<string>)
      ensures reply == Success(200, "Logged out successfully")
    {
      reply := Success(200, "Logged out successfully");
    }
  }
}
