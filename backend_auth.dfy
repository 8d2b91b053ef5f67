/**
 * Sign-up and sign-in of the older REST backend (backend/routes/auth.py and
 * the same routes in backend/routes.py), and the fallback password hasher
 * backend/routes/auth.py uses when passlib is missing. SHA-256 (FIPS 180-4)
 * as a lowercase hex digest is a parameter, and so are the random salt and
 * the hash passlib would make.
 */
module BackendAuth {
  import opened Common
  import opened BackendStore

  // ---------------------------------------------------------------------
  // FallbackPasswordHasher

  predicate IsHex(s: string)
  {
    forall i :: 0 <= i < |s| ==> s[i] in "0123456789abcdef"
  }

  /** A hex string never holds the '$' that separates the parts of a stored hash. */
  lemma HexHasNoDollar(s: string)
    requires IsHex(s)
    ensures '$' !in s
  {
  }

  /** `hash`: the stored form "sha256$<salt>$<hex digest of salt + password>". */
  function Hash(sha: string -> string, salt: string, password: string): (r: string)
    ensures r == Join(["sha256", salt, sha(salt + password)], '$')
  {
    var parts := ["sha256", salt, sha(salt + password)];
    assert parts[1..][1..] == [sha(salt + password)];
    assert Join(parts[1..], '$') == salt + "$" + sha(salt + password);
    "sha256" + "$" + salt + "$" + sha(salt + password)
  }

  /**
   * `verify`: false unless the stored string splits on '$' into exactly three
   * parts whose first is "sha256"; then true exactly when the digest of the
   * salt followed by the password is the third part.
   */
  function Verify(sha: string -> string, plain: string, stored: string): (ok: bool)
    ensures ok <==> (|Split(stored, '$')| == 3 && Split(stored, '$')[0] == "sha256" &&
      sha(Split(stored, '$')[1] + plain) == Split(stored, '$')[2])
  {
    var parts := Split(stored, '$');
    if |parts| != 3 then false
    else if parts[0] != "sha256" then false
    else sha(parts[1] + plain) == parts[2]
  }

  /**
   * The round trip: a password verifies against its own hash when neither the
   * salt nor the digest holds a '$' (both are hex in the source), and any
   * password verifies against it exactly when its digest with that salt is
   * the same.
   */
  lemma VerifyHash(sha: string -> string, salt: string, password: string, plain: string)
    requires IsHex(salt) && IsHex(sha(salt + password))
    ensures Verify(sha, password, Hash(sha, salt, password))
    ensures Verify(sha, plain, Hash(sha, salt, password)) <==> sha(salt + plain) == sha(salt + password)
  {
    HexHasNoDollar(salt);
    HexHasNoDollar(sha(salt + password));
    assert "sha256"[5] == '6';
    assert '$' !in "sha256";
    SplitJoin(["sha256", salt, sha(salt + password)], '$');
  }

  /** A stored string with no '$' at all (a bcrypt hash has three) never verifies. */
  lemma VerifyNeedsThreeParts(sha: string -> string, plain: string, stored: string)
    requires '$' !in stored
    ensures !Verify(sha, plain, stored)
  {
    assert Split(stored, '$') == [stored];
  }

  // ---------------------------------------------------------------------
  // register and login

  /** The refusal of a sign-up, if any: the username is looked up before the email. */
  function RegisterRefusal(users: map<nat, Account>, username: string, email: string): (r: Option<HttpError>)
    ensures AccountByName(users, username).Some? ==> r == Some(BadRequest("Username already registered"))
    ensures AccountByName(users, username).None? && AccountByEmail(users, email).Some? ==>
      r == Some(BadRequest("Email already registered"))
    ensures r.None? <==> AccountByName(users, username).None? && AccountByEmail(users, email).None?
  {
    if AccountByName(users, username).Some? then Some(BadRequest("Username already registered"))
    else if AccountByEmail(users, email).Some? then Some(BadRequest("Email already registered"))
    else None
  }

  /**
   * POST /register; `hashed` is what the hasher makes of the password. The
   * row gets the next id; status and picture are empty.
   */
  method Register(store: Store, username: string, email: string, hashed: string) returns (r: Result<string>)
    modifies store
    ensures RegisterRefusal(old(store.users), username, email).Some? ==>
      r == Err(RegisterRefusal(old(store.users), username, email).value) && store.users == old(store.users)
    ensures RegisterRefusal(old(store.users), username, email).None? ==>
      var k := NextId(old(store.users).Keys);
      r == Ok("User registered successfully") &&
      store.users == old(store.users)[k := Account(k, username, email, hashed, None, None)]
    ensures store.messages == old(store.messages) && store.contacts == old(store.contacts)
  {
    var refusal := RegisterRefusal(store.users, username, email);
    if refusal.Some? {
      return Err(refusal.value);
    }
    var k := NextId(store.users.Keys);
    store.users := store.users[k := Account(k, username, email, hashed, None, None)];
    r := Ok("User registered successfully");
  }

  predicate Unique(users: map<nat, Account>)
  {
    (forall a, b :: a in users && b in users && users[a].username == users[b].username ==> a == b) &&
    (forall a, b :: a in users && b in users && users[a].email == users[b].email ==> a == b)
  }

  /** An accepted sign-up keeps usernames and emails unique, and the new name finds the new row. */
  lemma RegisterKeepsUnique(users: map<nat, Account>, username: string, email: string, hashed: string)
    requires Unique(users) && RegisterRefusal(users, username, email).None?
    ensures var k := NextId(users.Keys);
      var after := users[k := Account(k, username, email, hashed, None, None)];
      Unique(after) && AccountByName(after, username) == Some(k)
  {
    var k := NextId(users.Keys);
    var after := users[k := Account(k, username, email, hashed, None, None)];
    assert forall j :: j in users ==> users[j].username != username && users[j].email != email;
    assert forall j :: j in after && after[j].username == username ==> j == k;
    assert (set j | j in after && after[j].username == username) == {k};
  }

  /** The user part of a token reply. */
  datatype Profile = Profile(id: nat, username: string, email: string)

  /** The reply of a sign-in: the token (as its claims), its type and the user. */
  datatype Token = Token(sub: string, exp: int, tokenType: string, user: Profile)

  /** The detail of a refused sign-in in backend/routes/auth.py. */
  const LoginRefused: string := "Неверное имя пользователя или пароль"

  /** The detail of a refused sign-in in backend/routes.py. */
  const LoginRefusedInRoutes: string := "Incorrect username or password"

  /**
   * POST /login: the user named by the form, when the password verifies
   * against the stored one; otherwise 401 with `detail` and no token. The
   * token names the user and expires `expireMinutes` after `now` (30 in
   * backend/routes.py; backend/routes/auth.py reads it from a config module
   * that is not part of this model).
   */
  function Login(users: map<nat, Account>, username: string, password: string, verify: (string, string) -> bool,
                 now: int, expireMinutes: nat, detail: string): (r: Result<Token>)
    ensures r.Err? <==> (AccountByName(users, username).None? ||
      !verify(password, users[AccountByName(users, username).value].password))
    ensures r.Err? ==> r.error == Unauthorized(detail)
    ensures r.Ok? ==>
      var u := users[AccountByName(users, username).value];
      r.value == Token(u.username, now + expireMinutes * 60, "bearer", Profile(u.id, u.username, u.email))
  {
    match AccountByName(users, username)
    case None => Err(Unauthorized(detail))
    case Some(k) =>
      var u := users[k];
      if !verify(password, u.password) then Err(Unauthorized(detail))
      else Ok(Token(u.username, now + expireMinutes * 60, "bearer", Profile(u.id, u.username, u.email)))
  }

  /**
   * With the fallback hasher, a user registered with the hash of a password
   * under a hex salt can sign in with that password, and the token names them.
   */
  lemma RegisteredUserCanLogIn(users: map<nat, Account>, sha: string -> string, salt: string, username: string,
                               email: string, password: string, now: int, minutes: nat)
    requires Unique(users) && RegisterRefusal(users, username, email).None?
    requires IsHex(salt) && IsHex(sha(salt + password))
    ensures var k := NextId(users.Keys);
      var after := users[k := Account(k, username, email, Hash(sha, salt, password), None, None)];
      var r := Login(after, username, password, (p, s) => Verify(sha, p, s), now, minutes, LoginRefused);
      r.Ok? && r.value.sub == username && r.value.user.id == k
  {
    RegisterKeepsUnique(users, username, email, Hash(sha, salt, password));
    VerifyHash(sha, salt, password, password);
  }
}
