/**
 * The page and profile routes of app/routers/views.py: a user's profile, a
 * user's online status, and the room list the chat page is rendered with.
 * The socket registry is a parameter; rendering the page template is not
 * part of this model.
 */
module Views {
  import opened Common
  import opened Schema
  import opened Outbox
  import opened Utils
  import DirectMessages

  /** The user row named by a path id; a negative id names none. */
  function UserRow(t: Tables, id: int): (r: Result<User>)
    ensures r.Ok? <==> id >= 0 && id as nat in t.users
    ensures r.Ok? ==> r.value == t.users[id as nat]
    ensures r.Err? ==> r.error == NotFound("User not found")
  {
    if id >= 0 && id as nat in t.users then Ok(t.users[id as nat]) else Err(NotFound("User not found"))
  }

  /** The text a missing or empty column shows instead. */
  function OrElse(s: Option<string>, fallback: string): (r: string)
    ensures Truthy(s) ==> r == s.value
    ensures !Truthy(s) ==> r == fallback
  {
    if Truthy(s) then s.value else fallback
  }

  datatype Profile = Profile(
    userId: nat, username: string, fullName: string, email: string, avatar: string,
    country: string, phoneNumber: string, bio: string, status: string)

  /** GET /api/user/{user_id}/profile; the status there reads only the stored flag. */
  function UserProfile(t: Tables, id: int): (r: Result<Profile>)
    ensures r.Err? <==> UserRow(t, id).Err?
    ensures r.Err? ==> r.error == NotFound("User not found")
    ensures r.Ok? ==>
      var u := t.users[id as nat];
      r.value.userId == u.id && r.value.username == u.username && r.value.email == u.email &&
      r.value.fullName == OrElse(u.fullName, "") && r.value.avatar == OrElse(u.avatar, DefaultUserAvatar) &&
      r.value.country == OrElse(u.country, "Not provided") && r.value.phoneNumber == OrElse(u.phone, "Not provided") &&
      r.value.bio == OrElse(u.bio, "") && (r.value.status == "online" <==> u.isOnline)
  {
    match UserRow(t, id)
    case Err(e) => Err(e)
    case Ok(u) =>
      Ok(Profile(u.id, u.username, OrElse(u.fullName, ""), u.email, OrElse(u.avatar, DefaultUserAvatar),
        OrElse(u.country, "Not provided"), OrElse(u.phone, "Not provided"), OrElse(u.bio, ""),
        if u.isOnline then "online" else "offline"))
  }

  datatype Status = Status(userId: int, username: string, status: string)

  /**
   * GET /api/user/{user_id}/status: online when the username holds at least
   * one socket in the registry, or when the stored flag says so.
   */
  function UserStatus(t: Tables, reg: Registry, id: int): (r: Result<Status>)
    ensures r.Err? <==> UserRow(t, id).Err?
    ensures r.Err? ==> r.error == NotFound("User not found")
    ensures r.Ok? ==>
      var u := t.users[id as nat];
      r.value.userId == id && r.value.username == u.username &&
      r.value.status in {"online", "offline"} &&
      (r.value.status == "online" <==> SocketsOf(reg, u.username) != {} || u.isOnline)
  {
    match UserRow(t, id)
    case Err(e) => Err(e)
    case Ok(u) =>
      var online := (u.username in reg && |reg[u.username]| > 0) || u.isOnline;
      Ok(Status(id, u.username, if online then "online" else "offline"))
  }

  /**
   * The two routes can disagree, but only one way: a user the profile shows
   * online is online by the status route too; and in a registry without
   * empty entries, the status is online exactly when the username is a key
   * of the registry or the stored flag is set.
   */
  lemma StatusAtLeastProfile(t: Tables, reg: Registry, id: int)
    requires UserRow(t, id).Ok?
    ensures UserProfile(t, id).value.status == "online" ==> UserStatus(t, reg, id).value.status == "online"
    ensures NoEmptyEntries(reg) ==>
      (UserStatus(t, reg, id).value.status == "online" <==> IsOnline(reg, t.users[id as nat].username) || t.users[id as nat].isOnline)
  {
    if NoEmptyEntries(reg) {
      OnlineIffHoldsSocket(reg, t.users[id as nat].username);
    }
  }

  // ---------------------------------------------------------------------
  // chat_page

  /** One room on the chat page. */
  datatype ChatRoom =
    | DirectCard(id: nat, userId: nat, name: string, username: string, email: string, avatar: string,
                 status: string, lastMessage: string, lastMessageTime: string, unreadCount: nat)
    | GroupCard(id: nat, groupName: Option<string>, avatar: string, description: Option<string>, memberCount: nat,
                lastMessage: string, lastMessageTime: string, unreadCount: nat)

  /** The rooms the caller belongs to that have a rooms row (the join of rooms with room_members). */
  function PageRooms(t: Tables, me: nat): (ids: set<nat>)
    ensures forall r :: r in ids <==> (r, me) in t.members && r in t.rooms
  {
    set r | r in RoomsOf(t, me) && r in t.rooms
  }

  /**
   * The card of one room, or `None` when the page leaves it out: a direct
   * room with no other member that has a user row, or a group room without a
   * group row. A direct room shows the other member with the smallest id.
   */
  function CardOf(t: Tables, reg: Registry, room: nat, me: nat): (c: Option<ChatRoom>)
    requires room in t.rooms && TimesValid(t.messages)
    ensures c.Some? ==> c.value.id == room
  {
    var row := t.rooms[room];
    var unread := |UnreadIds(t.messages, room, me)|;
    if !row.isGroup then
      var others := OthersIn(t, room, me);
      if others == {} then None
      else
        var u := t.users[Min(others)];
        var (text, time) := DirectMessages.LastLine(t.messages, room, "Click to start chatting!");
        Some(DirectCard(room, Min(others), DisplayName(u), u.username, u.email, OrElse(u.avatar, DefaultUserAvatar),
          if u.username in reg then "online" else "offline", text, time, unread))
    else if room !in t.groups then None
    else
      var g := t.groups[room];
      var (text, time) := DirectMessages.LastLine(t.messages, room, "Group created. Click to start chatting!");
      Some(GroupCard(room, row.name, OrElse(g.avatar, DefaultGroupAvatar), g.description, |MembersOf(t, room)|,
        text, time, unread))
  }

  /**
   * Which rooms get a card and what it shows: a direct room names its other
   * member with the smallest id and is online when that user holds a socket;
   * a group room counts the room's members; every card counts the unread
   * messages from others, and a room without messages shows "Now" and the
   * text inviting to start.
   */
  lemma CardOfShows(t: Tables, reg: Registry, room: nat, me: nat)
    requires room in t.rooms && TimesValid(t.messages)
    ensures var c := CardOf(t, reg, room, me);
      (c.None? <==> (if t.rooms[room].isGroup then room !in t.groups else OthersIn(t, room, me) == {})) &&
      (c.Some? ==> c.value.unreadCount == |UnreadIds(t.messages, room, me)| && (c.value.GroupCard? <==> t.rooms[room].isGroup)) &&
      (c.Some? && c.value.DirectCard? ==>
        c.value.userId == Min(OthersIn(t, room, me)) &&
        (c.value.status == "online" <==> IsOnline(reg, t.users[c.value.userId].username))) &&
      (c.Some? && c.value.GroupCard? ==> c.value.memberCount == |MembersOf(t, room)|) &&
      (c.Some? ==> (c.value.lastMessageTime == "Now" <==> LastMessageIn(t.messages, room).None?)) &&
      (c.Some? && LastMessageIn(t.messages, room).None? ==>
        c.value.lastMessage == (if c.value.DirectCard? then "Click to start chatting!" else "Group created. Click to start chatting!"))
  {
  }

  /** The cards of `ids` in order, leaving out the rooms the page skips. */
  function Cards(t: Tables, reg: Registry, ids: seq<nat>, me: nat): seq<ChatRoom>
    requires forall r :: r in ids ==> r in t.rooms
    requires TimesValid(t.messages)
  {
    if ids == [] then []
    else
      var init := Cards(t, reg, ids[..|ids| - 1], me);
      match CardOf(t, reg, ids[|ids| - 1], me)
      case None => init
      case Some(c) => init + [c]
  }

  /** The caller's rooms in id order, the order the list is built in. */
  function PageRoomList(t: Tables, me: nat): (ids: seq<nat>)
    ensures forall r :: r in ids ==> r in t.rooms
    ensures StrictlyIncreasing(ids) && forall r :: r in ids <==> r in PageRooms(t, me)
  {
    Ascending(PageRooms(t, me))
  }

  /** GET /chat: the caller's rooms, each as its card, in the order the rooms are read; not sorted. */
  method ChatPage(db: Db, reg: Registry, username: string) returns (r: Result<seq<ChatRoom>>)
    requires TimesValid(db.t.messages)
    ensures DirectMessages.Caller(db.t, username).Err? ==> r == Err(NotFound("User not found"))
    ensures DirectMessages.Caller(db.t, username).Ok? ==>
      var me := DirectMessages.Caller(db.t, username).value;
      r == Ok(Cards(db.t, reg, PageRoomList(db.t, me), me))
  {
    var c := DirectMessages.Caller(db.t, username);
    if c.Err? {
      return Err(c.error);
    }
    var me := c.value;
    var cards := BuildCards(db.t, reg, PageRoomList(db.t, me), me);
    r := Ok(cards);
  }

  /** The loop of GET /chat: one card per listed room that has one, in list order. */
  method BuildCards(t: Tables, reg: Registry, ids: seq<nat>, me: nat) returns (cards: seq<ChatRoom>)
    requires forall r :: r in ids ==> r in t.rooms
    requires TimesValid(t.messages)
    ensures cards == Cards(t, reg, ids, me)
  {
    cards := [];
    for i := 0 to |ids|
      invariant cards == Cards(t, reg, ids[..i], me)
    {
      var card := CardOf(t, reg, ids[i], me);
      CardsSnoc(t, reg, ids[..i + 1], me);
      assert ids[..i + 1][..i] == ids[..i];
      if card.Some? {
        cards := cards + [card.value];
      }
    }
    assert ids[..|ids|] == ids;
  }

  /** The cards of a room list without its last room are the cards of the whole list minus that room's card. */
  lemma CardsSnoc(t: Tables, reg: Registry, ids: seq<nat>, me: nat)
    requires ids != [] && (forall r :: r in ids ==> r in t.rooms) && TimesValid(t.messages)
    ensures var last := ids[|ids| - 1];
      Cards(t, reg, ids, me) ==
        Cards(t, reg, ids[..|ids| - 1], me) + (if CardOf(t, reg, last, me).Some? then [CardOf(t, reg, last, me).value] else [])
  {
  }

  /** Every card on the page is the card `CardOf` gives one of the listed rooms. */
  lemma {:induction false} CardsComeFromRooms(t: Tables, reg: Registry, ids: seq<nat>, me: nat)
    requires forall r :: r in ids ==> r in t.rooms
    requires TimesValid(t.messages)
    ensures var cs := Cards(t, reg, ids, me);
      forall i :: 0 <= i < |cs| ==> cs[i].id in ids && CardOf(t, reg, cs[i].id, me) == Some(cs[i])
  {
    if ids != [] {
      var init := ids[..|ids| - 1];
      CardsSnoc(t, reg, ids, me);
      CardsComeFromRooms(t, reg, init, me);
    }
  }

  /** Every listed room that is not skipped has a card on the page. */
  lemma {:induction false} CardsCoverKeptRooms(t: Tables, reg: Registry, ids: seq<nat>, me: nat)
    requires forall r :: r in ids ==> r in t.rooms
    requires TimesValid(t.messages)
    ensures var cs := Cards(t, reg, ids, me);
      forall r :: r in ids && CardOf(t, reg, r, me).Some? ==> exists i :: 0 <= i < |cs| && cs[i].id == r
  {
    if ids != [] {
      var init := ids[..|ids| - 1];
      var last := ids[|ids| - 1];
      assert ids == init + [last];
      CardsSnoc(t, reg, ids, me);
      CardsCoverKeptRooms(t, reg, init, me);
      var cs0 := Cards(t, reg, init, me);
      var cs := Cards(t, reg, ids, me);
      forall r | r in ids && CardOf(t, reg, r, me).Some?
        ensures exists i :: 0 <= i < |cs| && cs[i].id == r
      {
        if r == last {
          assert cs[|cs0|].id == r;
        } else {
          assert r in init;
          var i :| 0 <= i < |cs0| && cs0[i].id == r;
          assert cs[i].id == r;
        }
      }
    }
  }

  /** Cards come in the order of the rooms, so no room is listed twice. */
  lemma {:induction false} CardsInRoomOrder(t: Tables, reg: Registry, ids: seq<nat>, me: nat)
    requires forall r :: r in ids ==> r in t.rooms
    requires TimesValid(t.messages)
    requires StrictlyIncreasing(ids)
    ensures var cs := Cards(t, reg, ids, me);
      forall i, j :: 0 <= i < j < |cs| ==> cs[i].id < cs[j].id
  {
    if ids != [] {
      var init := ids[..|ids| - 1];
      var last := ids[|ids| - 1];
      assert forall x :: x in init ==> x < last by {
        forall x | x in init ensures x < last {
          var k :| 0 <= k < |init| && init[k] == x;
          assert ids[k] == x;
        }
      }
      CardsSnoc(t, reg, ids, me);
      CardsInRoomOrder(t, reg, init, me);
      CardsComeFromRooms(t, reg, init, me);
    }
  }
}
