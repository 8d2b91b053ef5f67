/**
 * The message routes of the older REST backend (backend/routes/chat.py; the
 * first three are repeated in backend/routes.py). Messages are rows addressed
 * by sender and receiver username; a conversation is every row between two
 * names, in either direction, ordered by the timestamp text.
 */
module BackendChat {
  import opened Common
  import opened Sorting
  import opened BackendStore

  /** The row is between the two names, in either direction. */
  predicate Between(l: Letter, me: string, contact: string)
  {
    (l.sender == me && l.receiver == contact) || (l.sender == contact && l.receiver == me)
  }

  /**
   * POST /send: one row with the sender, receiver, content and timestamp of
   * the body, not yet read, under the next id, which is returned. The sender
   * is taken from the body; the token only has to name a user.
   */
  method SendMessage(store: Store, sub: Option<string>, sender: string, receiver: string, content: string,
                     timestamp: string) returns (r: Result<nat>)
    modifies store
    ensures CurrentUser(old(store.users), sub).Err? ==>
      r == Err(CurrentUser(old(store.users), sub).error) && store.messages == old(store.messages)
    ensures CurrentUser(old(store.users), sub).Ok? ==>
      var k := NextId(old(store.messages).Keys);
      r == Ok(k) && store.messages == old(store.messages)[k := Letter(k, sender, receiver, content, timestamp, false)]
    ensures store.users == old(store.users) && store.contacts == old(store.contacts)
  {
    var caller := CurrentUser(store.users, sub);
    if caller.Err? {
      return Err(caller.error);
    }
    var k := NextId(store.messages.Keys);
    store.messages := store.messages[k := Letter(k, sender, receiver, content, timestamp, false)];
    r := Ok(k);
  }

  /** A sent message adds exactly one row, under a fresh id, and keeps every other row. */
  lemma SendAddsOneRow(ms: map<nat, Letter>, sender: string, receiver: string, content: string, timestamp: string)
    ensures var k := NextId(ms.Keys);
      var after := ms[k := Letter(k, sender, receiver, content, timestamp, false)];
      k !in ms && after.Keys == ms.Keys + {k} && |after| == |ms| + 1 &&
      (forall j :: j in ms ==> after[j] == ms[j])
  {
  }

  // ---------------------------------------------------------------------
  // ORDER BY timestamp: text compares character by character (Sorting.StrLe)

  /** The row order of the conversation: by timestamp text. */
  function EarlierOrSame(): ((Letter, Letter) -> bool)
  {
    (x: Letter, y: Letter) => StrLe(x.timestamp, y.timestamp)
  }

  lemma EarlierOrSameIsTotal()
    ensures TotalPreorder(EarlierOrSame())
  {
    forall a: Letter, b: Letter ensures EarlierOrSame()(a, b) || EarlierOrSame()(b, a) {
      StrLeTotal(a.timestamp, b.timestamp);
    }
    forall a: Letter, b: Letter, c: Letter | EarlierOrSame()(a, b) && EarlierOrSame()(b, c)
      ensures EarlierOrSame()(a, c)
    {
      StrLeTransitive(a.timestamp, b.timestamp, c.timestamp);
    }
  }

  // ---------------------------------------------------------------------
  // GET /messages/{contact}

  /** The rows between the two names among `ids`, in the order of `ids`. */
  function PairRows(ms: map<nat, Letter>, ids: seq<nat>, me: string, contact: string): seq<Letter>
    requires forall k :: k in ids ==> k in ms
  {
    if ids == [] then []
    else
      var last := ms[ids[|ids| - 1]];
      PairRows(ms, ids[..|ids| - 1], me, contact) + (if Between(last, me, contact) then [last] else [])
  }

  lemma {:induction false} PairRowsHoldThePair(ms: map<nat, Letter>, ids: seq<nat>, me: string, contact: string)
    requires forall k :: k in ids ==> k in ms
    ensures forall l :: l in PairRows(ms, ids, me, contact) <==> (exists k :: k in ids && ms[k] == l && Between(l, me, contact))
  {
    if ids != [] {
      var init := ids[..|ids| - 1];
      var kl := ids[|ids| - 1];
      assert ids == init + [kl];
      PairRowsHoldThePair(ms, init, me, contact);
      forall l | (exists k :: k in ids && ms[k] == l && Between(l, me, contact))
        ensures l in PairRows(ms, ids, me, contact)
      {
        var k :| k in ids && ms[k] == l && Between(l, me, contact);
        if k != kl {
          assert k in init;
        }
      }
    }
  }

  /** The conversation of the two names, earliest timestamp first. */
  function Conversation(ms: map<nat, Letter>, me: string, contact: string): seq<Letter>
  {
    SortWith(PairRows(ms, Ascending(ms.Keys), me, contact), EarlierOrSame())
  }

  /** GET /messages/{contact}: the conversation of the caller with the contact. */
  function GetMessages(users: map<nat, Account>, ms: map<nat, Letter>, sub: Option<string>, contact: string)
    : (r: Result<seq<Letter>>)
    ensures r.Err? <==> CurrentUser(users, sub).Err?
    ensures r.Err? ==> r.error == CurrentUser(users, sub).error
    ensures r.Ok? ==> r.value == Conversation(ms, users[CurrentUser(users, sub).value].username, contact)
  {
    match CurrentUser(users, sub)
    case Err(e) => Err(e)
    case Ok(me) => Ok(Conversation(ms, users[me].username, contact))
  }

  /**
   * The conversation holds exactly the stored rows between the two names, in
   * either direction, earliest timestamp first.
   */
  lemma ConversationIsThePair(ms: map<nat, Letter>, me: string, contact: string)
    ensures var q := Conversation(ms, me, contact);
      (forall l :: l in q <==> (exists k :: k in ms && ms[k] == l && Between(l, me, contact))) &&
      Sorted(q, EarlierOrSame())
  {
    var ids := Ascending(ms.Keys);
    var p := PairRows(ms, ids, me, contact);
    PairRowsHoldThePair(ms, ids, me, contact);
    var q := Conversation(ms, me, contact);
    assert multiset(q) == multiset(p);
    forall l ensures l in q <==> l in p {
      assert l in q <==> l in multiset(q);
      assert l in p <==> l in multiset(p);
    }
    EarlierOrSameIsTotal();
  }

  /** No row of `ids` is between the two names: the conversation among them is empty. */
  lemma {:induction false} PairRowsNone(ms: map<nat, Letter>, ids: seq<nat>, me: string, contact: string)
    requires forall k :: k in ids ==> k in ms && !Between(ms[k], me, contact)
    ensures PairRows(ms, ids, me, contact) == []
  {
    if ids != [] {
      PairRowsNone(ms, ids[..|ids| - 1], me, contact);
    }
  }

  // ---------------------------------------------------------------------
  // GET /contacts

  /** The other party of a row the caller is part of. */
  function Counterpart(l: Letter, me: string): string
  {
    if l.sender == me then l.receiver else l.sender
  }

  /** Each name the caller has exchanged messages with, once (a message to oneself counts). */
  function Counterparts(ms: map<nat, Letter>, me: string): (names: set<string>)
  {
    set k | k in ms && (ms[k].sender == me || ms[k].receiver == me) :: Counterpart(ms[k], me)
  }

  /** A name is a contact exactly when some stored row is between it and the caller. */
  lemma CounterpartsAreTheConversations(ms: map<nat, Letter>, me: string, name: string)
    ensures name in Counterparts(ms, me) <==> exists k :: k in ms && Between(ms[k], me, name)
  {
    if exists k :: k in ms && Between(ms[k], me, name) {
      var k :| k in ms && Between(ms[k], me, name);
      assert Counterpart(ms[k], me) == name;
    }
  }

  /** GET /contacts of backend/routes/chat.py. */
  function GetContacts(users: map<nat, Account>, ms: map<nat, Letter>, sub: Option<string>): (r: Result<set<string>>)
    ensures r.Err? <==> CurrentUser(users, sub).Err?
    ensures r.Err? ==> r.error == CurrentUser(users, sub).error
    ensures r.Ok? ==> forall name :: name in r.value <==>
      exists k :: k in ms && Between(ms[k], users[CurrentUser(users, sub).value].username, name)
  {
    match CurrentUser(users, sub)
    case Err(e) => Err(e)
    case Ok(me) =>
      var names := Counterparts(ms, users[me].username);
      assert forall name :: name in names <==> exists k :: k in ms && Between(ms[k], users[me].username, name) by {
        forall name ensures name in names <==> exists k :: k in ms && Between(ms[k], users[me].username, name) {
          CounterpartsAreTheConversations(ms, users[me].username, name);
        }
      }
      Ok(names)
  }

  // ---------------------------------------------------------------------
  // DELETE /delete-messages/{contact}

  /** The rows that remain when the conversation of the two names is deleted. */
  function WithoutPair(ms: map<nat, Letter>, me: string, contact: string): (r: map<nat, Letter>)
    ensures forall k :: k in r <==> k in ms && !Between(ms[k], me, contact)
    ensures forall k :: k in r ==> r[k] == ms[k]
  {
    map k | k in ms && !Between(ms[k], me, contact) :: ms[k]
  }

  method DeleteMessages(store: Store, sub: Option<string>, contact: string) returns (r: Result<string>)
    modifies store
    ensures CurrentUser(old(store.users), sub).Err? ==>
      r == Err(CurrentUser(old(store.users), sub).error) && store.messages == old(store.messages)
    ensures CurrentUser(old(store.users), sub).Ok? ==>
      var me := old(store.users)[CurrentUser(old(store.users), sub).value].username;
      r == Ok("All messages with " + contact + " have been deleted") &&
      store.messages == WithoutPair(old(store.messages), me, contact)
    ensures store.users == old(store.users) && store.contacts == old(store.contacts)
  {
    var caller := CurrentUser(store.users, sub);
    if caller.Err? {
      return Err(caller.error);
    }
    var me := store.users[caller.value].username;
    store.messages := WithoutPair(store.messages, me, contact);
    r := Ok("All messages with " + contact + " have been deleted");
  }

  /**
   * After the delete the conversation is empty, from either side, and
   * deleting again changes nothing.
   */
  lemma DeleteEmptiesTheConversation(ms: map<nat, Letter>, me: string, contact: string)
    ensures Conversation(WithoutPair(ms, me, contact), me, contact) == []
    ensures Conversation(WithoutPair(ms, me, contact), contact, me) == []
    ensures WithoutPair(WithoutPair(ms, me, contact), me, contact) == WithoutPair(ms, me, contact)
  {
    var after := WithoutPair(ms, me, contact);
    PairRowsNone(after, Ascending(after.Keys), me, contact);
    PairRowsNone(after, Ascending(after.Keys), contact, me);
  }
}
