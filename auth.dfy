/** Login lookups and the username check of registration. */
module Auth {
  import opened Records
  import Seqs

  predicate UserMatches(u: User, username: string, password: string) {
    u.username == username && u.password == password
  }

  predicate AdminMatches(a: Admin, username: string, password: string) {
    a.username == username && a.password == password
  }

  /** `user_login`: the first user whose username and password both match, or None. */
  function UserLogin(users: seq<User>, username: string, password: string): (r: Option<User>)
    ensures r.None? <==> forall i :: 0 <= i < |users| ==> !UserMatches(users[i], username, password)
    ensures r.Some? ==>
      exists k :: 0 <= k < |users| && users[k] == r.value && UserMatches(users[k], username, password) &&
                  forall j :: 0 <= j < k ==> !UserMatches(users[j], username, password)
  {
    var k := Seqs.FirstIndex(users, (u: User) => UserMatches(u, username, password));
    if k < |users| then Some(users[k]) else None
  }

  /** `admin_login`: the first admin whose username and password both match, or None. */
  function AdminLogin(admins: seq<Admin>, username: string, password: string): (r: Option<Admin>)
    ensures r.None? <==> forall i :: 0 <= i < |admins| ==> !AdminMatches(admins[i], username, password)
    ensures r.Some? ==>
      exists k :: 0 <= k < |admins| && admins[k] == r.value && AdminMatches(admins[k], username, password) &&
                  forall j :: 0 <= j < k ==> !AdminMatches(admins[j], username, password)
  {
    var k := Seqs.FirstIndex(admins, (a: Admin) => AdminMatches(a, username, password));
    if k < |admins| then Some(admins[k]) else None
  }

  /** Some user already has this username (email is never compared). */
  predicate UsernameTaken(users: seq<User>, username: string) {
    exists j :: 0 <= j < |users| && users[j].username == username
  }

  /** How many users carry this username. */
  function UsernameCount(users: seq<User>, username: string): nat {
    if users == [] then 0
    else (if users[0].username == username then 1 else 0) + UsernameCount(users[1..], username)
  }

  lemma {:induction false} UsernameCountZero(users: seq<User>, username: string)
    ensures UsernameCount(users, username) == 0 <==> !UsernameTaken(users, username)
  {
    if users != [] {
      UsernameCountZero(users[1..], username);
      if UsernameTaken(users[1..], username) {
        var j :| 0 <= j < |users[1..]| && users[1..][j].username == username;
        assert users[j + 1].username == username;
      }
      if UsernameTaken(users, username) && users[0].username != username {
        var j :| 0 <= j < |users| && users[j].username == username;
        assert users[1..][j - 1].username == username;
      }
    }
  }

  lemma {:induction false} UsernameCountAppend(users: seq<User>, u: User, username: string)
    ensures UsernameCount(users + [u], username) ==
            UsernameCount(users, username) + (if u.username == username then 1 else 0)
  {
    if users != [] {
      assert (users + [u])[1..] == users[1..] + [u];
      UsernameCountAppend(users[1..], u, username);
    }
  }

  /** Appending a user whose name is not yet taken leaves that name in the table exactly once. */
  lemma FreshUsernameUnique(users: seq<User>, u: User)
    requires !UsernameTaken(users, u.username)
    ensures UsernameCount(users + [u], u.username) == 1
  {
    UsernameCountZero(users, u.username);
    UsernameCountAppend(users, u, u.username);
  }
}
