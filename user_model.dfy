/** The rows of the User collection as the routers use them: looked up by e-mail or by id, and
    counted by their online flag. */
module UserModel {
  import opened Common
  import opened CommunityModel

  /** A user record; `password` is whatever the User model stores and `matchPassword` checks. */
  datatype User = User(
    id: UserId,
    name: string,
    email: string,
    password: string,
    isOnline: bool,
    lastSeen: Option<int>)

  /** `User.findOne({ email })`: the position of the first user with that e-mail, if any. */
  function FindByEmail(users: seq<User>, email: string): (r: Option<nat>)
    ensures r.Some? ==> r.value < |users| && users[r.value].email == email
    ensures r.None? <==> forall k :: 0 <= k < |users| ==> users[k].email != email
  {
    if users == [] then None
    else if users[0].email == email then Some(0)
    else match FindByEmail(users[1..], email)
      case None => None
      case Some(k) => Some(k + 1)
  }

  /** `User.findById(id)` finds a user. */
  predicate HasUser(users: seq<User>, id: UserId) {
    exists k :: 0 <= k < |users| && users[k].id == id
  }

  /** `User.countDocuments({ isOnline: true })`. */
  function OnlineCount(users: seq<User>): nat {
    if users == [] then 0
    else (if users[0].isOnline then 1 else 0) + OnlineCount(users[1..])
  }

  /** The online users are some of the users. */
  lemma {:induction false} OnlineCountBounded(users: seq<User>)
    ensures OnlineCount(users) <= |users|
    ensures OnlineCount(users) == |users| <==> forall k :: 0 <= k < |users| ==> users[k].isOnline
  {
    if users != [] {
      OnlineCountBounded(users[1..]);
      assert forall k :: 1 <= k < |users| ==> users[k] == users[1..][k - 1];
    }
  }

  /** Adding a user adds one to the online count exactly when that user is online. */
  lemma {:induction false} OnlineCountAppend(users: seq<User>, u: User)
    ensures OnlineCount(users + [u]) == OnlineCount(users) + (if u.isOnline then 1 else 0)
  {
    if users != [] {
      assert (users + [u])[1..] == users[1..] + [u];
      OnlineCountAppend(users[1..], u);
    }
  }

  /** Replacing one user changes the online count only by the change of that user's flag. */
  lemma {:induction false} OnlineCountUpdate(users: seq<User>, i: nat, u: User)
    requires i < |users|
    ensures OnlineCount(users[i := u])
            == OnlineCount(users) - (if users[i].isOnline then 1 else 0) + (if u.isOnline then 1 else 0)
  {
    if i > 0 {
      assert users[i := u][1..] == users[1..][i - 1 := u];
      OnlineCountUpdate(users[1..], i - 1, u);
    }
  }
}
