/**
 * The store of the older REST backend (backend/database.py and the routes
 * under backend/): a users table, a messages table addressed by sender and
 * receiver username, and a contacts table of directed (user_id, contact_id)
 * edges. The bearer token is decoded by a foreign call; what the routes use
 * of it is its "sub" claim, a parameter here.
 */
module BackendStore {
  import opened Common

  /**
   * A users row. backend/database.py creates only the first four columns;
   * the contact list also reads `status` and `profile_picture`, which are
   * part of the row here and are empty for a row registration inserts.
   */
  datatype Account = Account(
    id: nat, username: string, email: string, password: string,
    status: Option<string>, profilePicture: Option<string>)

  /** A messages row; the timestamp is the text the client sent. */
  datatype Letter = Letter(id: nat, sender: string, receiver: string, content: string, timestamp: string, read: bool)

  /** The sqlite database the backend routes share. */
  class Store {
    var users: map<nat, Account>
    var messages: map<nat, Letter>
    var contacts: set<(nat, nat)>

    constructor ()
      ensures users == map[] && messages == map[] && contacts == {}
    {
      users := map[];
      messages := map[];
      contacts := {};
    }
  }

  /** The row with this username, if any (`fetchone`: the smallest id). */
  function AccountByName(users: map<nat, Account>, name: string): (r: Option<nat>)
    ensures r.Some? ==> r.value in users && users[r.value].username == name
    ensures r.None? <==> forall k :: k in users ==> users[k].username != name
  {
    var ks := set k | k in users && users[k].username == name;
    assert forall k :: k in users && users[k].username == name ==> k in ks;
    if ks == {} then None else Some(Min(ks))
  }

  /** The row with this email, if any (`fetchone`: the smallest id). */
  function AccountByEmail(users: map<nat, Account>, email: string): (r: Option<nat>)
    ensures r.Some? ==> r.value in users && users[r.value].email == email
    ensures r.None? <==> forall k :: k in users ==> users[k].email != email
  {
    var ks := set k | k in users && users[k].email == email;
    assert forall k :: k in users && users[k].email == email ==> k in ks;
    if ks == {} then None else Some(Min(ks))
  }

  /**
   * `get_current_user`: a token that does not decode, or decodes without a
   * "sub" claim, is refused before the lookup, and a "sub" that names no row
   * is refused after it; both with 401.
   */
  function CurrentUser(users: map<nat, Account>, sub: Option<string>): (r: Result<nat>)
    ensures sub.None? ==> r == Err(Unauthorized("Invalid authentication credentials"))
    ensures sub.Some? && AccountByName(users, sub.value).None? ==> r == Err(Unauthorized("User not found"))
    ensures r.Ok? <==> sub.Some? && AccountByName(users, sub.value).Some?
    ensures r.Ok? ==> r.value in users && users[r.value].username == sub.value
  {
    match sub
    case None => Err(Unauthorized("Invalid authentication credentials"))
    case Some(name) =>
      match AccountByName(users, name)
      case None => Err(Unauthorized("User not found"))
      case Some(k) => Ok(k)
  }
}
