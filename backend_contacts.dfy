/**
 * The contact list of the older REST backend (backend/routes/contacts.py):
 * directed (user_id, contact_id) edges that adding and removing keep
 * symmetric. The contacts table is not created by backend/database.py; its
 * rows are modelled as a set of pairs.
 */
module BackendContacts {
  import opened Common
  import opened BackendStore

  /** One entry of the contact list. */
  datatype ContactCard = ContactCard(id: nat, username: string, email: string, status: Option<string>,
                                     profilePicture: Option<string>)

  predicate Symmetric(contacts: set<(nat, nat)>)
  {
    forall e :: e in contacts ==> (e.1, e.0) in contacts
  }

  /** The card of the user stored under id `k`. */
  function CardOf(users: map<nat, Account>, k: nat): (c: ContactCard)
    requires k in users
    ensures c.id == k && c.username == users[k].username && c.email == users[k].email
  {
    ContactCard(k, users[k].username, users[k].email, users[k].status, users[k].profilePicture)
  }

  /** The users on the caller's outgoing edges that have a row, by ascending id. */
  function ContactIds(users: map<nat, Account>, contacts: set<(nat, nat)>, me: nat): (ids: seq<nat>)
    ensures forall k :: k in ids <==> (me, k) in contacts && k in users
    ensures StrictlyIncreasing(ids)
  {
    var s := set e | e in contacts && e.0 == me && e.1 in users :: e.1;
    assert forall k :: (me, k) in contacts && k in users ==> k in s;
    Ascending(s)
  }

  function CardsOf(users: map<nat, Account>, ids: seq<nat>): (cards: seq<ContactCard>)
    requires forall k :: k in ids ==> k in users
    ensures |cards| == |ids| && forall i :: 0 <= i < |ids| ==> cards[i] == CardOf(users, ids[i])
  {
    seq(|ids|, i requires 0 <= i < |ids| => CardOf(users, ids[i]))
  }

  /** GET /contacts: the card of every user on the caller's outgoing edges, once each, by ascending id. */
  function GetContacts(users: map<nat, Account>, contacts: set<(nat, nat)>, sub: Option<string>)
    : (r: Result<seq<ContactCard>>)
    ensures r.Err? <==> CurrentUser(users, sub).Err?
    ensures r.Err? ==> r.error == CurrentUser(users, sub).error
  {
    match CurrentUser(users, sub)
    case Err(e) => Err(e)
    case Ok(me) => Ok(CardsOf(users, ContactIds(users, contacts, me)))
  }

  /**
   * The contact list holds a card for a user exactly when the caller has an
   * edge to them, and lists each once, by ascending id.
   */
  lemma ContactListIsTheOutgoingEdges(users: map<nat, Account>, contacts: set<(nat, nat)>, sub: Option<string>)
    requires CurrentUser(users, sub).Ok?
    ensures var me := CurrentUser(users, sub).value;
      var cards := GetContacts(users, contacts, sub).value;
      (forall k :: k in users ==> (CardOf(users, k) in cards <==> (me, k) in contacts)) &&
      (forall i, j :: 0 <= i < j < |cards| ==> cards[i].id < cards[j].id)
  {
    var me := CurrentUser(users, sub).value;
    var ids := ContactIds(users, contacts, me);
    assert GetContacts(users, contacts, sub).value == CardsOf(users, ids);
    CardsOfMembership(users, ids);
  }

  /** A user's card is listed exactly when the user's id is. */
  lemma CardsOfMembership(users: map<nat, Account>, ids: seq<nat>)
    requires forall k :: k in ids ==> k in users
    ensures forall k :: k in users ==> (CardOf(users, k) in CardsOf(users, ids) <==> k in ids)
  {
    var cards := CardsOf(users, ids);
    forall k | k in users ensures CardOf(users, k) in cards <==> k in ids {
      if k in ids {
        var i :| 0 <= i < |ids| && ids[i] == k;
        assert cards[i] == CardOf(users, k);
      }
      if CardOf(users, k) in cards {
        var i :| 0 <= i < |cards| && cards[i] == CardOf(users, k);
        assert ids[i] == k;
      }
    }
  }

  /** The user an add names: by email when the text holds an '@', by username otherwise. */
  function AddTarget(users: map<nat, Account>, name: string): (r: Option<nat>)
    ensures '@' in name ==> r == AccountByEmail(users, name)
    ensures '@' !in name ==> r == AccountByName(users, name)
  {
    if '@' in name then AccountByEmail(users, name) else AccountByName(users, name)
  }

  /**
   * The checks of add_contact in order: the token (401), the named user (404),
   * oneself (400), an existing edge (400). The result is the contact's id.
   */
  function AddGuard(users: map<nat, Account>, contacts: set<(nat, nat)>, sub: Option<string>, name: string)
    : (r: Result<nat>)
    ensures CurrentUser(users, sub).Err? ==> r == Err(CurrentUser(users, sub).error)
    ensures CurrentUser(users, sub).Ok? && AddTarget(users, name).None? ==> r == Err(NotFound("User not found"))
    ensures CurrentUser(users, sub).Ok? && AddTarget(users, name) == Some(CurrentUser(users, sub).value) ==>
      r == Err(BadRequest("You cannot add yourself as a contact"))
    ensures r.Ok? <==> (CurrentUser(users, sub).Ok? && AddTarget(users, name).Some? &&
      AddTarget(users, name).value != CurrentUser(users, sub).value &&
      (CurrentUser(users, sub).value, AddTarget(users, name).value) !in contacts)
    ensures r.Ok? ==> r.value == AddTarget(users, name).value
    ensures (r.Err? && CurrentUser(users, sub).Ok? && AddTarget(users, name).Some? &&
      AddTarget(users, name).value != CurrentUser(users, sub).value) ==>
      r.error == BadRequest("User is already in your contacts")
  {
    match CurrentUser(users, sub)
    case Err(e) => Err(e)
    case Ok(me) =>
      match AddTarget(users, name)
      case None => Err(NotFound("User not found"))
      case Some(k) =>
        if k == me then Err(BadRequest("You cannot add yourself as a contact"))
        else if (me, k) in contacts then Err(BadRequest("User is already in your contacts"))
        else Ok(k)
  }

  /** POST /add-contact/{username}: both edges are inserted. */
  method AddContact(store: Store, sub: Option<string>, name: string) returns (r: Result<string>)
    modifies store
    ensures AddGuard(old(store.users), old(store.contacts), sub, name).Err? ==>
      r == Err(AddGuard(old(store.users), old(store.contacts), sub, name).error) && store.contacts == old(store.contacts)
    ensures AddGuard(old(store.users), old(store.contacts), sub, name).Ok? ==>
      var me := CurrentUser(old(store.users), sub).value;
      var k := AddGuard(old(store.users), old(store.contacts), sub, name).value;
      r == Ok("Added " + name + " to contacts") && store.contacts == old(store.contacts) + {(me, k), (k, me)}
    ensures store.users == old(store.users) && store.messages == old(store.messages)
  {
    var g := AddGuard(store.users, store.contacts, sub, name);
    if g.Err? {
      return Err(g.error);
    }
    var me := CurrentUser(store.users, sub).value;
    var k := g.value;
    store.contacts := store.contacts + {(me, k)};
    store.contacts := store.contacts + {(k, me)};
    r := Ok("Added " + name + " to contacts");
  }

  /** The checks of remove_contact: the token (401), then the user named by username only (404). */
  function RemoveGuard(users: map<nat, Account>, sub: Option<string>, name: string): (r: Result<nat>)
    ensures CurrentUser(users, sub).Err? ==> r == Err(CurrentUser(users, sub).error)
    ensures CurrentUser(users, sub).Ok? && AccountByName(users, name).None? ==> r == Err(NotFound("User not found"))
    ensures r.Ok? <==> CurrentUser(users, sub).Ok? && AccountByName(users, name).Some?
    ensures r.Ok? ==> r.value == AccountByName(users, name).value
  {
    match CurrentUser(users, sub)
    case Err(e) => Err(e)
    case Ok(_) =>
      match AccountByName(users, name)
      case None => Err(NotFound("User not found"))
      case Some(k) => Ok(k)
  }

  /** DELETE /remove-contact/{username}: both edges are deleted, whether or not they exist. */
  method RemoveContact(store: Store, sub: Option<string>, name: string) returns (r: Result<string>)
    modifies store
    ensures RemoveGuard(old(store.users), sub, name).Err? ==>
      r == Err(RemoveGuard(old(store.users), sub, name).error) && store.contacts == old(store.contacts)
    ensures RemoveGuard(old(store.users), sub, name).Ok? ==>
      var me := CurrentUser(old(store.users), sub).value;
      var k := RemoveGuard(old(store.users), sub, name).value;
      r == Ok("Removed " + name + " from contacts") && store.contacts == old(store.contacts) - {(me, k), (k, me)}
    ensures store.users == old(store.users) && store.messages == old(store.messages)
  {
    var g := RemoveGuard(store.users, sub, name);
    if g.Err? {
      return Err(g.error);
    }
    var me := CurrentUser(store.users, sub).value;
    var k := g.value;
    store.contacts := store.contacts - {(me, k)};
    store.contacts := store.contacts - {(k, me)};
    r := Ok("Removed " + name + " from contacts");
  }

  /**
   * Adding and removing keep the relation symmetric; on a symmetric relation
   * an accepted add inserts two new edges, and removing the same pair then
   * gives the relation back.
   */
  lemma AddRemoveKeepSymmetric(contacts: set<(nat, nat)>, me: nat, k: nat)
    requires Symmetric(contacts)
    ensures Symmetric(contacts + {(me, k), (k, me)})
    ensures Symmetric(contacts - {(me, k), (k, me)})
    ensures (me, k) !in contacts ==>
      (k, me) !in contacts && contacts + {(me, k), (k, me)} - {(me, k), (k, me)} == contacts
  {
  }

  /** After an add both users see each other, and after a remove neither does. */
  lemma AddThenBothSee(users: map<nat, Account>, contacts: set<(nat, nat)>, me: nat, k: nat)
    requires me in users && k in users
    ensures var ids := ContactIds(users, contacts + {(me, k), (k, me)}, me);
      k in ids && me in ContactIds(users, contacts + {(me, k), (k, me)}, k)
    ensures k !in ContactIds(users, contacts - {(me, k), (k, me)}, me) &&
      me !in ContactIds(users, contacts - {(me, k), (k, me)}, k)
  {
  }
}
