/**
 * auth.register and auth.login. The SHA-256 digest is the parameter `hash`
 * (any function from the salted password to its digest); the identifier,
 * salt and timestamp that register draws are parameters too.
 */
module Auth {
  import opened Wrappers
  import opened Text
  import opened Records
  import opened Storage

  /** The record register creates. */
  function NewUser(hash: string -> string, displayName: Option<string>, email: Option<string>,
                   password: string, id: string, salt: string, now: int): (r: User)
    ensures r.id == id && r.displayName == displayName && r.salt == salt && r.createdAt == now
    ensures r.passwordHash == hash(salt + password)
    ensures r.email == NormalizeEmail(email)
    ensures r.email.Some? ==> r.email.value != "" && !IsSpace(r.email.value[0])
  {
    User(id, displayName, NormalizeEmail(email), salt, hash(salt + password), now)
  }

  /**
   * register: the users key is parsed without a guard, so unparsable data
   * rejects the call; an email that is present after trimming and already
   * held by some user, ignoring case, fails with "Email already used" and
   * changes nothing; otherwise exactly one user is appended. The session is
   * not touched.
   */
  method Register(s: Store, hash: string -> string, displayName: Option<string>, email: Option<string>,
                  password: string, id: string, salt: string, now: int) returns (r: Result<User>)
    modifies s
    ensures s.postSlot == old(s.postSlot) && s.session == old(s.session)
    ensures old(s.userSlot).Malformed? ==> r == Failure(Unparsable) && s.userSlot == old(s.userSlot)
    ensures !old(s.userSlot).Malformed? ==>
      var e := NormalizeEmail(email);
      if e.Some? && EmailTaken(old(s.Users()), e.value) then
        r == Failure(EmailUsed) && s.userSlot == old(s.userSlot)
      else
        r == Success(NewUser(hash, displayName, email, password, id, salt, now))
        && s.userSlot == Stored(old(s.Users()) + [r.value])
    ensures r.Success? ==> r.value.passwordHash == hash(salt + password) && r.value.email == NormalizeEmail(email)
    ensures EmailsUnique(old(s.Users())) ==> EmailsUnique(s.Users())
  {
    var e := NormalizeEmail(email);
    if s.userSlot.Malformed? {
      return Failure(Unparsable);
    }
    var users := Load(s.userSlot);
    if e.Some? && EmailTaken(users, e.value) {
      return Failure(EmailUsed);
    }
    var passwordHash := hash(salt + password);
    var user := User(id, displayName, e, salt, passwordHash, now);
    if EmailsUnique(users) {
      AppendKeepsEmailsUnique(users, user);
    }
    users := users + [user];
    s.userSlot := Stored(users);
    return Success(user);
  }

  /**
   * The decision login makes over the loaded users: an empty identifier
   * fails first; otherwise the first user, in storage order, whose id equals
   * the trimmed identifier or whose email or display name equals it ignoring
   * case is taken, and the result succeeds iff the salted password hashes to
   * that user's stored hash.
   */
  function Authenticate(users: seq<User>, hash: string -> string, ident: string, password: string): (r: Result<User>)
    ensures ident == "" ==> r == Failure(MissingIdentifier)
    ensures ident != "" ==>
      (r == Failure(UserNotFound) <==> forall j :: 0 <= j < |users| ==> !Matches(users[j], ByLogin(Trim(ident))))
    ensures forall u :: ident != "" && IsFirstUser(users, ByLogin(Trim(ident)), Some(u)) ==>
      (r == Success(u) <==> hash(u.salt + password) == u.passwordHash)
      && (r.Failure? ==> r.reason == WrongPassword)
    ensures r.Success? ==> ident != "" && IsFirstUser(users, ByLogin(Trim(ident)), Some(r.value))
    ensures r.Failure? ==> r.reason in {MissingIdentifier, UserNotFound, WrongPassword}
  {
    if ident == "" then Failure(MissingIdentifier)
    else
      var q := Trim(ident);
      var found := FirstUser(users, ByLogin(q));
      forall u | IsFirstUser(users, ByLogin(q), Some(u)) ensures found == Some(u) {
        var i: nat :| IsFirstMatch(users, ByLogin(q), Some(i)) && users[i] == u;
        FirstMatchUnique(users, ByLogin(q), Some(i), FirstMatch(users, ByLogin(q)));
      }
      match found
      case None => Failure(UserNotFound)
      case Some(u) =>
        if hash(u.salt + password) != u.passwordHash then Failure(WrongPassword) else Success(u)
  }

  /** login: unparsable user data rejects the call; otherwise Authenticate decides. Nothing is stored. */
  function Login(s: Store, hash: string -> string, ident: string, password: string): (r: Result<User>)
    reads s`userSlot
    ensures s.userSlot.Malformed? ==> r == Failure(Unparsable)
    ensures !s.userSlot.Malformed? ==> r == Authenticate(s.Users(), hash, ident, password)
  {
    if s.userSlot.Malformed? then Failure(Unparsable) else Authenticate(s.Users(), hash, ident, password)
  }

  /**
   * Registering and then logging in with the registered email: the new
   * user is found when no earlier user answers to that identifier, and the
   * attempt succeeds iff the attempted password hashes like the registered one.
   */
  lemma LoginWithRegisteredEmail(users: seq<User>, hash: string -> string, displayName: Option<string>,
                                 email: Option<string>, password: string, id: string, salt: string,
                                 now: int, attempt: string)
    requires NormalizeEmail(email).Some?
    requires forall j :: 0 <= j < |users| ==> !Matches(users[j], ByLogin(NormalizeEmail(email).value))
    ensures var u := NewUser(hash, displayName, email, password, id, salt, now);
      Authenticate(users + [u], hash, NormalizeEmail(email).value, attempt)
        == if hash(salt + attempt) == hash(salt + password) then Success(u) else Failure(WrongPassword)
  {
    var u := NewUser(hash, displayName, email, password, id, salt, now);
    var e := NormalizeEmail(email).value;
    assert u.email == Some(e) && e != "";
    assert EmailIs(u, e);
    assert Matches(u, ByLogin(e));
    AddedUserIsFound(users, u, ByLogin(e));
    TrimOfTrimmed(e);
    AuthenticateFound(users + [u], hash, e, attempt, u);
  }

  /** Once the lookup has found u, only the password decides. */
  lemma AuthenticateFound(users: seq<User>, hash: string -> string, ident: string, password: string, u: User)
    requires ident != "" && FirstUser(users, ByLogin(Trim(ident))) == Some(u)
    ensures Authenticate(users, hash, ident, password)
      == if hash(u.salt + password) == u.passwordHash then Success(u) else Failure(WrongPassword)
  {
  }

  /**
   * login is one disjunctive find, not a precedence of id over email over
   * name: a user listed first whose display name is the query wins over a
   * later user whose id is the query.
   */
  lemma LoginTakesFirstUserOnAnyField()
    ensures var a := User("u1", Some("bob"), None, "s", "h", 0);
            var b := User("bob", None, None, "s", "h", 0);
            FirstUser([a, b], ByLogin("bob")) == Some(a)
  {
  }
}
