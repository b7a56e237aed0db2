/** The browser-storage user registry: registration, login into a session
    record without the password, logout and the current session. The two
    storage entries (the user list and the session) are fields; an entry
    never written reads as absent. */
module Auth {
  import opened Wrappers
  import opened Types

  const DuplicateEmail: string := "이미 존재하는 이메일입니다."
  const BadCredentials: string := "이메일 또는 비밀번호가 올바르지 않습니다."

  /** Some stored user already has this email. */
  predicate EmailTaken(users: seq<User>, email: string) {
    exists i :: 0 <= i < |users| && users[i].email == email
  }

  /** No two stored users share an email. */
  predicate UniqueEmails(users: seq<User>) {
    forall i, j :: 0 <= i < j < |users| ==> users[i].email != users[j].email
  }

  /** `users.find(u => u.email === email && u.password === password)`; a
      user stored without a password never matches. */
  function FindCredentials(users: seq<User>, email: string, password: string): (r: Option<User>)
    ensures r.Some? <==> exists i :: 0 <= i < |users| && users[i].email == email && users[i].password == Some(password)
    ensures r.Some? ==> r.value in users && r.value.email == email && r.value.password == Some(password)
  {
    if users == [] then None
    else if users[0].email == email && users[0].password == Some(password) then Some(users[0])
    else
      var r := FindCredentials(users[1..], email, password);
      assert forall i :: 1 <= i < |users| ==> users[i] == users[1..][i - 1];
      r
  }

  /** With unique emails the account found is the one stored under that
      email, so a login can never land in another account. */
  lemma {:induction false} CredentialsSelectAccount(users: seq<User>, email: string, password: string, k: nat)
    requires UniqueEmails(users) && k < |users| && users[k].email == email
    ensures FindCredentials(users, email, password).Some? <==> users[k].password == Some(password)
    ensures FindCredentials(users, email, password).Some? ==> FindCredentials(users, email, password) == Some(users[k])
  {
    var r := FindCredentials(users, email, password);
    if r.Some? {
      var i :| 0 <= i < |users| && users[i] == r.value;
      assert i == k;
    }
  }

  /** Appending a user with a fresh email keeps the emails unique. */
  lemma AppendFreshKeepsUnique(users: seq<User>, user: User)
    requires UniqueEmails(users) && !EmailTaken(users, user.email)
    ensures UniqueEmails(users + [user])
  {
    var r := users + [user];
    forall i, j | 0 <= i < j < |r|
      ensures r[i].email != r[j].email
    {
      if j == |users| {
        assert r[i] == users[i];
      }
    }
  }

  class AuthStore {
    /** The stored user list, absent until the first registration. */
    var users: Option<seq<User>>
    /** The stored session record. */
    var session: Option<User>

    /** Stored emails are unique and the session carries no password. */
    predicate Valid()
      reads this
    {
      UniqueEmails(GetUsers()) && (session.Some? ==> session.value.password.None?)
    }

    /** A store with nothing written yet. */
    constructor ()
      ensures users.None? && session.None?
      ensures Valid()
    {
      users := None;
      session := None;
    }

    /** `getUsers`: the stored list, or the empty list when none is stored. */
    function GetUsers(): (r: seq<User>)
      reads this
      ensures users.None? ==> r == []
      ensures users.Some? ==> r == users.value
    {
      users.GetOr([])
    }

    /** `saveUser`: refused for an email already registered; otherwise the
      user is appended and stored. */
    method SaveUser(user: User) returns (r: Result<(), string>)
      requires Valid()
      modifies this
      ensures Valid()
      ensures r.Failure? <==> EmailTaken(old(GetUsers()), user.email)
      ensures r.Failure? ==> r.error == DuplicateEmail && users == old(users)
      ensures r.Success? ==> GetUsers() == old(GetUsers()) + [user] && |GetUsers()| == |old(GetUsers())| + 1
      ensures session == old(session)
    {
      var current := GetUsers();
      if EmailTaken(current, user.email) {
        return Failure(DuplicateEmail);
      }
      AppendFreshKeepsUnique(current, user);
      users := Some(current + [user]);
      r := Success(());
    }

    /** `login`: with matching credentials, a session record of the user's
      email and name (no password) is stored and returned; otherwise the
      login fails and nothing changes. */
    method Login(email: string, password: string) returns (r: Result<User, string>)
      requires Valid()
      modifies this
      ensures Valid()
      ensures users == old(users)
      ensures r.Success? <==> exists i :: 0 <= i < |GetUsers()| && GetUsers()[i].email == email && GetUsers()[i].password == Some(password)
      ensures r.Success? ==> r.value.email == email && r.value.password.None? && session == Some(r.value)
      ensures r.Success? ==> GetCurrentUser() == Some(r.value)
      ensures r.Success? ==> exists u :: u in GetUsers() && u.email == email && u.name == r.value.name
      ensures r.Failure? ==> r.error == BadCredentials && session == old(session)
    {
      var found := FindCredentials(GetUsers(), email, password);
      if found.None? {
        return Failure(BadCredentials);
      }
      var sessionUser := User(found.value.email, found.value.name, None);
      session := Some(sessionUser);
      assert found.value in GetUsers();
      r := Success(sessionUser);
    }

    /** `logout`: the session record is removed. */
    method Logout()
      requires Valid()
      modifies this
      ensures Valid()
      ensures session.None? && users == old(users)
      ensures GetCurrentUser() == None
    {
      session := None;
    }

    /** `getCurrentUser`: the stored session record, if any. */
    function GetCurrentUser(): (r: Option<User>)
      reads this
      requires Valid()
      ensures r == session
      ensures r.Some? ==> r.value.password.None?
    {
      session
    }
  }
}
