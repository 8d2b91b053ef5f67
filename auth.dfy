/**
 * Sign-up, sign-in and sign-out of the web app (app/routers/auth.py). Pages
 * are rendered with an error or redirect; the signed-in state lives in the
 * cookie session. bcrypt and the JWT encoder are foreign calls: the hash of a
 * new password and the encoder are parameters, the check of a password
 * against a stored hash is a parameter, and the clock is seconds since the
 * epoch.
 */
module Auth {
  import opened Common
  import opened Schema

  /** A JWT claim value: a string or an instant in seconds since the epoch. */
  datatype Claim = Text(text: string) | Instant(seconds: int)

  type Claims = map<string, Claim>

  /** The lifetime a login asks its token for, in minutes. */
  const AccessTokenExpireMinutes: nat := 30

  /** The lifetime of a token whose caller gives none, in minutes. */
  const DefaultExpireMinutes: nat := 15

  /**
   * The claims copied with the "exp" claim (section 4.1.4 of RFC 7519) set to
   * `now + delta` seconds, replacing any "exp" already there.
   */
  function Expiring(data: Claims, now: int, delta: int): (r: Claims)
    ensures r.Keys == data.Keys + {"exp"}
    ensures r["exp"] == Instant(now + delta)
    ensures forall k :: k in data && k != "exp" ==> r[k] == data[k]
  {
    data["exp" := Instant(now + delta)]
  }

  /**
   * The claims `create_access_token` encodes: a delta that is missing or zero
   * (a falsy timedelta) stands for the default of 15 minutes.
   */
  function AccessClaims(data: Claims, now: int, delta: Option<int>): (r: Claims)
    ensures r.Keys == data.Keys + {"exp"}
    ensures delta.Some? && delta.value != 0 ==> r["exp"] == Instant(now + delta.value)
    ensures delta.None? || delta.value == 0 ==> r["exp"] == Instant(now + DefaultExpireMinutes * 60)
    ensures forall k :: k in data && k != "exp" ==> r[k] == data[k]
  {
    Expiring(data, now, if delta.Some? && delta.value != 0 then delta.value else DefaultExpireMinutes * 60)
  }

  /** The response of a form route: the form again with an error, or a redirect. */
  datatype Page = Form(error: string) | Redirect(location: string)

  /**
   * The refusal of a sign-up, if any, in the order the route checks: the two
   * passwords before any lookup, then the username, then the email.
   */
  function RegisterRefusal(t: Tables, username: string, email: string, password: string, confirm: string)
    : (r: Option<string>)
    ensures password != confirm ==> r == Some("Passwords do not match")
    ensures password == confirm && UserByName(t.users, username).Some? ==> r == Some("Username already exists")
    ensures password == confirm && UserByName(t.users, username).None? && UserByEmail(t.users, email).Some? ==>
      r == Some("Email already registered")
    ensures r.None? <==>
      (password == confirm && UserByName(t.users, username).None? && UserByEmail(t.users, email).None?)
  {
    if password != confirm then Some("Passwords do not match")
    else if UserByName(t.users, username).Some? then Some("Username already exists")
    else if UserByEmail(t.users, email).Some? then Some("Email already registered")
    else None
  }

  /** The row a sign-up inserts: its full name is the username. */
  function Registered(t: Tables, username: string, email: string, hashed: string): (u: User)
    ensures u.id == NextId(t.users.Keys) && u.username == username && u.email == email
    ensures u.hashedPassword == hashed && u.fullName == Some(username) && !u.isOnline
  {
    NewUser(NextId(t.users.Keys), username, email, hashed, Some(username))
  }

  /** POST /register; `hashed` is what bcrypt makes of the password. */
  method Register(db: Db, username: string, email: string, password: string, confirm: string, hashed: string)
    returns (page: Page)
    modifies db
    ensures RegisterRefusal(old(db.t), username, email, password, confirm).Some? ==>
      page == Form(RegisterRefusal(old(db.t), username, email, password, confirm).value) && db.t == old(db.t)
    ensures RegisterRefusal(old(db.t), username, email, password, confirm).None? ==>
      var u := Registered(old(db.t), username, email, hashed);
      page == Redirect("/login") && db.t == old(db.t).(users := old(db.t).users[u.id := u])
  {
    var refusal := RegisterRefusal(db.t, username, email, password, confirm);
    if refusal.Some? {
      return Form(refusal.value);
    }
    var u := Registered(db.t, username, email, hashed);
    db.t := db.t.(users := db.t.users[u.id := u]);
    page := Redirect("/login");
  }

  /**
   * The lookups of a sign-up keep usernames and emails unique: an accepted
   * sign-up adds one row whose username and email no other row carries.
   */
  lemma RegisterKeepsUnique(t: Tables, username: string, email: string, password: string, confirm: string, hashed: string)
    requires UsernamesUnique(t.users) && EmailsUnique(t.users)
    requires RegisterRefusal(t, username, email, password, confirm).None?
    ensures var u := Registered(t, username, email, hashed);
      var users := t.users[u.id := u];
      u.id !in t.users && UsernamesUnique(users) && EmailsUnique(users) &&
      UserByName(users, username) == Some(u.id)
  {
    var u := Registered(t, username, email, hashed);
    var users := t.users[u.id := u];
    assert forall k :: k in t.users ==> t.users[k].username != username && t.users[k].email != email;
    UserByNameIsTheUser(users, username, u.id);
  }

  /** The user a sign-in names, when the password checks out against the stored hash. */
  function Authenticate(t: Tables, username: string, password: string, checkpw: (string, string) -> bool)
    : (r: Option<nat>)
    ensures r.Some? <==> (UserByName(t.users, username).Some? &&
      checkpw(password, t.users[UserByName(t.users, username).value].hashedPassword))
    ensures r.Some? ==> r == UserByName(t.users, username)
  {
    match UserByName(t.users, username)
    case None => None
    case Some(k) => if checkpw(password, t.users[k].hashedPassword) then Some(k) else None
  }

  /** The cookie session of one browser. */
  class Session {
    var values: map<string, string>

    constructor ()
      ensures values == map[]
    {
      values := map[];
    }

    /**
     * POST /login: a failed sign-in renders the form with an error and leaves
     * the session as it was; a good one stores a token valid for 30 minutes
     * and the username, and redirects to the chat page.
     */
    method Login(t: Tables, username: string, password: string, checkpw: (string, string) -> bool,
                 encode: Claims -> string, now: int) returns (page: Page)
      modifies this
      ensures Authenticate(t, username, password, checkpw).None? ==>
        page == Form("Invalid username or password") && values == old(values)
      ensures Authenticate(t, username, password, checkpw).Some? ==>
        var u := t.users[Authenticate(t, username, password, checkpw).value];
        var claims := AccessClaims(map["sub" := Text(u.username)], now, Some(AccessTokenExpireMinutes * 60));
        page == Redirect("/chat") &&
        values == old(values)["access_token" := encode(claims)]["username" := u.username]
    {
      var k := Authenticate(t, username, password, checkpw);
      if k.None? {
        return Form("Invalid username or password");
      }
      var u := t.users[k.value];
      var claims := AccessClaims(map["sub" := Text(u.username)], now, Some(AccessTokenExpireMinutes * 60));
      values := values["access_token" := encode(claims)];
      values := values["username" := u.username];
      page := Redirect("/chat");
    }

    /** GET /logout: the session is emptied. */
    method Logout() returns (page: Page)
      modifies this
      ensures values == map[] && page == Redirect("/login")
    {
      values := map[];
      page := Redirect("/login");
    }
  }

  /** The token of a sign-in names the user and expires 30 minutes after it was made. */
  lemma LoginTokenExpiresInThirtyMinutes(u: User, now: int)
    ensures var claims := AccessClaims(map["sub" := Text(u.username)], now, Some(AccessTokenExpireMinutes * 60));
      claims.Keys == {"sub", "exp"} && claims["sub"] == Text(u.username) && claims["exp"] == Instant(now + 1800)
  {
  }
}
