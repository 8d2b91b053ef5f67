/**
 * The real-time chat server (app/routers/websockets.py): the chat, presence
 * and notification sockets, and the handlers of the frames a client sends on
 * its chat socket.
 *
 * `Hub` holds the three in-memory registries of that file and the outbox of
 * frames sent so far. Each handler is one atomic step: it checks its guards
 * in the order the server does, updates the store, and appends its frames.
 * The pure functions before the class are the specifications the handlers
 * are proved against.
 */
module Realtime {
  import opened Common
  import opened Schema
  import opened Outbox
  import opened Events
  import opened Utils

  // ---------------------------------------------------------------------
  // Who a handler addresses

  /** The users who share a direct (non-group) room with `user`. */
  function Contacts(t: Tables, user: nat): (ids: set<nat>)
    ensures forall v :: v in ids <==>
      v in t.users && v != user && exists r :: r in DirectRoomsOf(t, user) && (r, v) in t.members
  {
    var rooms := DirectRoomsOf(t, user);
    var ids := set k | k in t.members && k.0 in rooms && k.1 in t.users && k.1 != user :: k.1;
    assert forall v, r :: r in rooms && (r, v) in t.members && v in t.users && v != user ==> v in ids by {
      forall v, r | r in rooms && (r, v) in t.members && v in t.users && v != user ensures v in ids {
        var k := (r, v);
        assert k in t.members && k.0 in rooms;
      }
    }
    ids
  }

  /** Without a direct room there is nobody to tell: the early return of broadcast_status changes nothing. */
  lemma NoDirectRoomNoContacts(t: Tables, user: nat)
    requires DirectRoomsOf(t, user) == {}
    ensures Contacts(t, user) == {}
  {
  }

  // ---------------------------------------------------------------------
  // Guards, in the order the handlers check them

  /** The room exists and the user belongs to it; otherwise the error the handlers reply with. */
  function RoomGuard(t: Tables, room: nat, user: nat): (r: Option<string>)
    ensures r.None? <==> room in t.rooms && IsMember(t, room, user)
    ensures r == Some("Room not found") <==> room !in t.rooms
    ensures r == Some("You are not a member of this room") <==> room in t.rooms && !IsMember(t, room, user)
  {
    if room !in t.rooms then Some("Room not found")
    else if !IsMember(t, room, user) then Some("You are not a member of this room")
    else None
  }

  /** handle_chat_message: both keys present, then the room guard. */
  function ChatGuard(t: Tables, user: nat, msg: Inbound): (r: Option<string>)
    ensures r.None? <==> msg.roomId.Some? && msg.content.Some? && msg.roomId.value in t.rooms && IsMember(t, msg.roomId.value, user)
    ensures (msg.roomId.None? || msg.content.None?) ==> r == Some("Missing required fields")
  {
    if msg.roomId.None? || msg.content.None? then Some("Missing required fields")
    else RoomGuard(t, msg.roomId.value, user)
  }

  /** handle_seen_notification: room_id and message_ids present, then the room guard. */
  function SeenGuard(t: Tables, user: nat, msg: Inbound): (r: Option<string>)
    ensures r.None? <==> msg.roomId.Some? && msg.messageIds.Some? && msg.roomId.value in t.rooms && IsMember(t, msg.roomId.value, user)
    ensures (msg.roomId.None? || msg.messageIds.None?) ==> r == Some("Missing required fields")
  {
    if msg.roomId.None? || msg.messageIds.None? then Some("Missing required fields")
    else RoomGuard(t, msg.roomId.value, user)
  }

  /** handle_typing_notification: room_id and status present, then the room guard. */
  function TypingGuard(t: Tables, user: nat, msg: Inbound): (r: Option<string>)
    ensures r.None? <==> msg.roomId.Some? && msg.status.Some? && msg.roomId.value in t.rooms && IsMember(t, msg.roomId.value, user)
    ensures (msg.roomId.None? || msg.status.None?) ==> r == Some("Missing required fields")
  {
    if msg.roomId.None? || msg.status.None? then Some("Missing required fields")
    else RoomGuard(t, msg.roomId.value, user)
  }

  /** The edited text: the `content` key with surrounding whitespace removed, "" when absent. */
  function EditedText(msg: Inbound): string
  {
    Trim(if msg.content.Some? then msg.content.value else "")
  }

  /** Microseconds from a message's timestamp to `now`. */
  function Age(m: Message, now: DateTime): int
  {
    Instant(now) - Instant(m.timestamp)
  }

  /** Five minutes in microseconds: `total_seconds() / 60 > 5` is an age above this. */
  const EditWindow: int := 300000000

  const TooOldToEdit: string := "Messages can only be edited within 5 minutes of sending"

  /**
   * handle_message_update: message_id, room_id and the trimmed content all
   * truthy; the message exists; the caller sent it; it is at most five
   * minutes old (the source compares minutes, `seconds / 60 > 5`).
   */
  function UpdateGuard(t: Tables, user: nat, msg: Inbound, now: DateTime): (r: Option<string>)
    ensures r.None? <==>
      TruthyId(msg.messageId) && TruthyId(msg.roomId) && EditedText(msg) != "" &&
      msg.messageId.value in t.messages && t.messages[msg.messageId.value].senderId == user &&
      Age(t.messages[msg.messageId.value], now) <= EditWindow
    ensures r == Some(TooOldToEdit) <==>
      TruthyId(msg.messageId) && TruthyId(msg.roomId) && EditedText(msg) != "" &&
      msg.messageId.value in t.messages && t.messages[msg.messageId.value].senderId == user &&
      Age(t.messages[msg.messageId.value], now) > EditWindow
  {
    if !TruthyId(msg.messageId) || !TruthyId(msg.roomId) || EditedText(msg) == "" then Some("Invalid update data")
    else if msg.messageId.value !in t.messages then Some("Message not found")
    else if t.messages[msg.messageId.value].senderId != user then Some("You can only edit your own messages")
    else if Age(t.messages[msg.messageId.value], now) > EditWindow then Some(TooOldToEdit)
    else None
  }

  /**
   * handle_message_update as written: the current time carries the
   * Asia/Bishkek zone while the timestamp read back from the naive column
   * has none, so the subtraction raises TypeError, and the handler's
   * `except` answers "Failed to update message". Every frame that passes the
   * owner check fails, whatever the message's age.
   */
  function UpdateGuardAsWritten(t: Tables, user: nat, msg: Inbound): (r: Option<string>)
    ensures r.Some?
    ensures forall now: DateTime :: UpdateGuard(t, user, msg, now) !in {None, Some(TooOldToEdit)} ==>
      r == UpdateGuard(t, user, msg, now)
    ensures forall now: DateTime :: UpdateGuard(t, user, msg, now) in {None, Some(TooOldToEdit)} ==>
      r == Some("Failed to update message")
  {
    if !TruthyId(msg.messageId) || !TruthyId(msg.roomId) || EditedText(msg) == "" then Some("Invalid update data")
    else if msg.messageId.value !in t.messages then Some("Message not found")
    else if t.messages[msg.messageId.value].senderId != user then Some("You can only edit your own messages")
    else Some("Failed to update message")
  }

  /**
   * The edit window the source intends admits an owner's edit of a message
   * sent at this very instant; the code as written refuses it.
   */
  lemma FreshEditRefusedAsWritten(t: Tables, user: nat, msg: Inbound, now: DateTime)
    requires TruthyId(msg.messageId) && TruthyId(msg.roomId) && EditedText(msg) != ""
    requires msg.messageId.value in t.messages && t.messages[msg.messageId.value].senderId == user
    requires t.messages[msg.messageId.value].timestamp == now
    ensures UpdateGuard(t, user, msg, now) == None
    ensures UpdateGuardAsWritten(t, user, msg) == Some("Failed to update message")
  {
  }

  /** The caller holds the admin flag in the group room the message belongs to. */
  predicate IsGroupAdminOf(t: Tables, m: Message, user: nat)
  {
    m.roomId.Some? && m.roomId.value in t.rooms && t.rooms[m.roomId.value].isGroup &&
    (m.roomId.value, user) in t.members && t.members[(m.roomId.value, user)].isAdmin
  }

  /** handle_message_delete: ids truthy; the message exists; the caller sent it or is an admin of its group room. */
  function DeleteGuard(t: Tables, user: nat, msg: Inbound): (r: Option<string>)
    ensures r.None? <==>
      TruthyId(msg.messageId) && TruthyId(msg.roomId) && msg.messageId.value in t.messages &&
      (t.messages[msg.messageId.value].senderId == user || IsGroupAdminOf(t, t.messages[msg.messageId.value], user))
  {
    if !TruthyId(msg.messageId) || !TruthyId(msg.roomId) then Some("Invalid delete data")
    else if msg.messageId.value !in t.messages then Some("Message not found")
    else if !(t.messages[msg.messageId.value].senderId == user || IsGroupAdminOf(t, t.messages[msg.messageId.value], user)) then
      Some("You can only delete your own messages or any message if you're a group admin")
    else None
  }

  /** handle_call_offer: four keys present; room guard; the target exists and is a member too. */
  function CallOfferGuard(t: Tables, user: nat, msg: Inbound): (r: Option<string>)
    ensures r.None? <==>
      msg.roomId.Some? && msg.targetUserId.Some? && msg.sdp.Some? && msg.callType.Some? &&
      msg.roomId.value in t.rooms && IsMember(t, msg.roomId.value, user) &&
      msg.targetUserId.value in t.users && IsMember(t, msg.roomId.value, msg.targetUserId.value)
  {
    if msg.roomId.None? || msg.targetUserId.None? || msg.sdp.None? || msg.callType.None? then Some("Missing required fields")
    else if RoomGuard(t, msg.roomId.value, user).Some? then RoomGuard(t, msg.roomId.value, user)
    else if msg.targetUserId.value !in t.users then Some("Target user not found")
    else if !IsMember(t, msg.roomId.value, msg.targetUserId.value) then Some("Target user is not a member of this room")
    else None
  }

  /** handle_call_response: three keys present and the target exists; no room check. */
  function CallResponseGuard(t: Tables, msg: Inbound): (r: Option<string>)
    ensures r.None? <==> msg.roomId.Some? && msg.targetUserId.Some? && msg.status.Some? && msg.targetUserId.value in t.users
  {
    if msg.roomId.None? || msg.targetUserId.None? || msg.status.None? then Some("Missing required fields")
    else if msg.targetUserId.value !in t.users then Some("Target user not found")
    else None
  }

  /** handle_ice_candidate: candidate and target present and the target exists. */
  function IceGuard(t: Tables, msg: Inbound): (r: Option<string>)
    ensures r.None? <==> msg.candidate.Some? && msg.targetUserId.Some? && msg.targetUserId.value in t.users
  {
    if msg.candidate.None? || msg.targetUserId.None? then Some("Missing required fields")
    else if msg.targetUserId.value !in t.users then Some("Target user not found")
    else None
  }

  // ---------------------------------------------------------------------
  // Frames

  /** The stored row of a chat message: delivered to the server at once, read by nobody. */
  function ChatRow(id: nat, room: nat, sender: nat, content: string, now: DateTime): (m: Message)
    ensures m.delivered && !m.read && !m.edited && !m.isTranslated
    ensures m.id == id && m.roomId == Some(room) && m.senderId == sender && m.content == content && m.timestamp == now
  {
    NewMessage(id, Some(room), sender, content, now).(delivered := true)
  }

  /** The chat frame the other members receive, with the real sender. */
  function Payload(m: Message, sender: User, isGroup: bool): (p: ChatPayload)
    requires m.roomId.Some? && m.timestamp.Valid()
    ensures p.id == m.id && p.content == m.content && p.senderId == m.senderId && p.roomId == m.roomId.value
    ensures p.sender == sender.username && p.senderName == DisplayName(sender)
    ensures ParseClock(p.time) == Some((m.timestamp.hour, m.timestamp.minute))
    ensures p.delivered && !p.read && p.isGroup == isGroup && p.tempId.None?
  {
    ChatPayload(m.id, m.content, m.senderId, sender.username, DisplayName(sender), m.roomId.value,
      m.timestamp, ClockLabel(m.timestamp.hour, m.timestamp.minute), true, false, isGroup, None)
  }

  /** The frame echoed to the sender: sender "user", plus the client's temp_id when it is truthy. */
  function Echo(p: ChatPayload, tempId: Option<string>): (e: ChatPayload)
    ensures e.sender == "user"
    ensures e.tempId == (if Truthy(tempId) then tempId else None)
    ensures e.(sender := p.sender, tempId := p.tempId) == p
  {
    p.(sender := "user", tempId := if Truthy(tempId) then tempId else None)
  }

  /**
   * The ids among `requested` of messages in the room that the reader did not
   * send, in ascending order: what seen_confirmation and each sender's
   * notifications list.
   */
  function SeenIds(msgs: map<nat, Message>, requested: seq<nat>, room: nat, user: nat): (ids: seq<nat>)
    ensures forall k :: k in ids <==> k in requested && k in msgs && msgs[k].roomId == Some(room) && msgs[k].senderId != user
    ensures StrictlyIncreasing(ids)
  {
    Ascending(SeenSet(msgs, requested, room, user))
  }

  function SeenSet(msgs: map<nat, Message>, requested: seq<nat>, room: nat, user: nat): set<nat>
  {
    set k | k in requested && k in msgs && msgs[k].roomId == Some(room) && msgs[k].senderId != user
  }

  /** The senders of the listed messages, once each. */
  function SendersOf(msgs: map<nat, Message>, ids: seq<nat>): (s: set<nat>)
    ensures forall u :: u in s <==> exists k :: k in ids && k in msgs && msgs[k].senderId == u
  {
    set k | k in ids && k in msgs :: msgs[k].senderId
  }

  /** Two tables that hold the same ids, each in the same room and from the same sender. */
  predicate SameAddressing(a: map<nat, Message>, b: map<nat, Message>)
  {
    a.Keys == b.Keys && forall k :: k in a ==> a[k].roomId == b[k].roomId && a[k].senderId == b[k].senderId
  }

  lemma SeenIdsOnlyReadAddressing(a: map<nat, Message>, b: map<nat, Message>, requested: seq<nat>, room: nat, user: nat)
    requires SameAddressing(a, b)
    ensures SeenIds(a, requested, room, user) == SeenIds(b, requested, room, user)
    ensures forall ids :: SendersOf(a, ids) == SendersOf(b, ids)
  {
    assert SeenSet(a, requested, room, user) == SeenSet(b, requested, room, user);
  }

  /**
   * Marking the room read changes neither which of the requested messages
   * the confirmation lists nor who sent them: the server may compute both
   * after the marking, as it does.
   */
  lemma {:induction false} MarkReadKeepsSeen(msgs: map<nat, Message>, requested: seq<nat>, room: nat, user: nat, now: DateTime)
    ensures SeenIds(MarkRead(msgs, room, user, now), requested, room, user) == SeenIds(msgs, requested, room, user)
    ensures forall ids :: SendersOf(MarkRead(msgs, room, user, now), ids) == SendersOf(msgs, ids)
  {
    var r := MarkRead(msgs, room, user, now);
    assert SameAddressing(r, msgs);
    SeenIdsOnlyReadAddressing(r, msgs, requested, room, user);
  }

  /** For each listed user in turn: the frames on each chat socket, then on each notification socket. */
  function ToChatAndNotify(users: map<nat, User>, chat: Registry, notify: Registry, ids: seq<nat>, evs: seq<Event>): seq<Send<Event>>
  {
    if ids == [] then []
    else ToChatAndNotify(users, chat, notify, ids[..|ids| - 1], evs) +
         ToUsers(users, chat, [ids[|ids| - 1]], evs) + ToUsers(users, notify, [ids[|ids| - 1]], evs)
  }

  /** The read notifications reach exactly the chat and notification sockets of the listed users. */
  lemma {:induction false} ToChatAndNotifyTargets(users: map<nat, User>, chat: Registry, notify: Registry, ids: seq<nat>, evs: seq<Event>)
    ensures forall s :: s in ToChatAndNotify(users, chat, notify, ids, evs) <==>
      (s.to in Reach(users, chat, IdSet(ids)) || s.to in Reach(users, notify, IdSet(ids))) && s.event in evs
  {
    if ids == [] {
      assert IdSet(ids) == {};
    } else {
      var init := ids[..|ids| - 1];
      var u := ids[|ids| - 1];
      var head := ToChatAndNotify(users, chat, notify, init, evs);
      var a := ToUsers(users, chat, [u], evs);
      var b := ToUsers(users, notify, [u], evs);
      var chatBefore := Reach(users, chat, IdSet(init));
      var notifyBefore := Reach(users, notify, IdSet(init));
      assert ToChatAndNotify(users, chat, notify, ids, evs) == head + a + b;
      ToChatAndNotifyTargets(users, chat, notify, init, evs);
      ToOneUserTargets(users, chat, u, evs);
      ToOneUserTargets(users, notify, u, evs);
      ReachSnoc(users, chat, ids);
      ReachSnoc(users, notify, ids);
      forall s: Send<Event> ensures s in head + a + b <==>
        (s.to in chatBefore + SocketsOfUser(users, chat, u) || s.to in notifyBefore + SocketsOfUser(users, notify, u)) &&
        s.event in evs
      {
        assert s in head + a + b <==> s in head || s in a || s in b;
      }
    }
  }

  /**
   * A relay to the other members of a room (chat, typing, edit, delete)
   * reaches a socket iff it is held by a member of the room other than the
   * sender, so offline members get nothing; and, with sockets owned by one
   * user each and unique usernames, no socket of the sender gets it.
   */
  lemma {:induction false} RelayToOthersTargets(t: Tables, reg: Registry, room: nat, user: nat, evs: seq<Event>)
    requires SocketsDisjoint(reg) && UsernamesUnique(t.users)
    ensures forall s :: s in ToUsers(t.users, reg, Ascending(OthersIn(t, room, user)), evs) <==>
      s.event in evs && exists u :: (room, u) in t.members && u != user && s.to in SocketsOfUser(t.users, reg, u)
    ensures forall s :: s in ToUsers(t.users, reg, Ascending(OthersIn(t, room, user)), evs) ==>
      s.to !in SocketsOfUser(t.users, reg, user)
  {
    var others := OthersIn(t, room, user);
    ToUserSetTargets(t.users, reg, others, evs);
    ReachOfOthers(t, reg, room, user);
    SenderOutsideReach(t.users, reg, others, user);
  }

  /** The sockets of the other members of a room are the sockets of any member other than the sender. */
  lemma ReachOfOthers(t: Tables, reg: Registry, room: nat, user: nat)
    ensures forall c :: c in Reach(t.users, reg, OthersIn(t, room, user)) <==>
      exists u :: (room, u) in t.members && u != user && c in SocketsOfUser(t.users, reg, u)
  {
    var others := OthersIn(t, room, user);
    forall c | exists u :: (room, u) in t.members && u != user && c in SocketsOfUser(t.users, reg, u)
      ensures c in Reach(t.users, reg, others)
    {
      var u :| (room, u) in t.members && u != user && c in SocketsOfUser(t.users, reg, u);
      assert u in others;
    }
  }

  /** A room_connections entry with `member`'s socket set to `c`. */
  function Record(entry: map<nat, Conn>, member: nat, c: Conn): map<nat, Conn>
  {
    entry[member := c]
  }

  /** The room_connections entry of each listed member that holds a socket: the last of its sockets the loop visits. */
  function Tracked(entry: map<nat, Conn>, users: map<nat, User>, reg: Registry, ids: seq<nat>): map<nat, Conn>
  {
    if ids == [] then entry
    else
      var prev := Tracked(entry, users, reg, ids[..|ids| - 1]);
      var socks := SocketsOfUser(users, reg, ids[|ids| - 1]);
      if socks == {} then prev else Record(prev, ids[|ids| - 1], Max(socks))
  }

  /**
   * After a chat message, room_connections maps every other member that
   * holds a socket to one of its sockets, and keeps every earlier entry.
   */
  lemma {:induction false} TrackedMembers(entry: map<nat, Conn>, users: map<nat, User>, reg: Registry, ids: seq<nat>)
    ensures Tracked(entry, users, reg, ids).Keys == entry.Keys + (set u | u in ids && SocketsOfUser(users, reg, u) != {})
    ensures forall u :: u in ids && SocketsOfUser(users, reg, u) != {} ==>
      Tracked(entry, users, reg, ids)[u] in SocketsOfUser(users, reg, u)
    ensures forall u :: u in entry && u !in ids ==> Tracked(entry, users, reg, ids)[u] == entry[u]
  {
    if ids != [] {
      var init := ids[..|ids| - 1];
      TrackedMembers(entry, users, reg, init);
      assert forall u :: u in ids <==> u in init || u == ids[|ids| - 1] by {
        assert ids == init + [ids[|ids| - 1]];
      }
    }
  }

  /** room_connections without the user; a room whose map becomes empty is dropped. */
  function DropUser(rc: map<nat, map<nat, Conn>>, user: nat): (r: map<nat, map<nat, Conn>>)
    ensures forall room :: room in r ==> user !in r[room] && room in rc && r[room] == rc[room] - {user}
    ensures forall room :: room in rc ==> (room in r <==> user !in rc[room] || rc[room] - {user} != map[])
  {
    map room | room in rc && (user !in rc[room] || rc[room] - {user} != map[]) :: rc[room] - {user}
  }

  /**
   * Part way through the removal loop: the rooms still to visit are as they
   * were, and every visited room is as DropUser leaves it.
   */
  predicate DropProgress(orig: map<nat, map<nat, Conn>>, rc: map<nat, map<nat, Conn>>, todo: set<nat>, user: nat)
  {
    todo <= orig.Keys &&
    (forall room :: room in rc ==> room in orig) &&
    (forall room :: room in todo ==> room in rc && rc[room] == orig[room]) &&
    (forall room :: room in orig && room !in todo ==>
      (room in rc <==> user !in orig[room] || orig[room] - {user} != map[]) &&
      (room in rc ==> rc[room] == orig[room] - {user}))
  }

  /** One visit of the loop: the user leaves the room, and the room goes when it is left empty. */
  function DropStep(rc: map<nat, map<nat, Conn>>, room: nat, user: nat): map<nat, map<nat, Conn>>
  {
    if room in rc && user in rc[room] then
      (if rc[room] - {user} == map[] then rc - {room} else rc[room := rc[room] - {user}])
    else rc
  }

  lemma DropStepKeepsProgress(orig: map<nat, map<nat, Conn>>, rc: map<nat, map<nat, Conn>>, todo: set<nat>,
                              room: nat, user: nat)
    requires DropProgress(orig, rc, todo, user) && room in todo
    ensures room in rc
    ensures DropProgress(orig, DropStep(rc, room, user), todo - {room}, user)
  {
    if user !in rc[room] {
      assert rc[room] - {user} == rc[room];
    }
  }

  lemma DropProgressDone(orig: map<nat, map<nat, Conn>>, rc: map<nat, map<nat, Conn>>, user: nat)
    requires DropProgress(orig, rc, {}, user)
    ensures rc == DropUser(orig, user)
  {
    var d := DropUser(orig, user);
    assert rc.Keys == d.Keys;
    forall room | room in rc ensures rc[room] == d[room] {
    }
  }

  /**
   * A user whose only chat socket ends in the endpoint's error close stays
   * online: the connect registered the socket and nothing takes it out, where
   * the clean close of the same socket would take the user offline.
   */
  lemma ErrorCloseLeavesUserOnline(reg: Registry, name: string, ws: Conn)
    requires NoEmptyEntries(reg) && !IsOnline(reg, name)
    ensures IsOnline(Register(reg, name, ws), name)
    ensures ws in SocketsOf(Register(reg, name, ws), name)
    ensures !IsOnline(Unregister(Register(reg, name, ws), name, ws), name)
  {
    var r := Register(reg, name, ws);
    assert SocketsOf(r, name) == {ws};
    OnlineIffHoldsSocket(Unregister(r, name, ws), name);
  }

  /** The room entry of a direct room as shown to the other user of a newly created room. */
  function DirectRoomCard(room: Room, creator: User): (c: RoomCard)
    ensures c.id == room.id && !c.isGroup && c.unreadCount == 0
    ensures c.name == Some(DisplayName(creator)) && c.userId == Some(creator.id)
    ensures c.avatar == (if Truthy(creator.avatar) then creator.avatar.value else DefaultUserAvatar)
    ensures c.lastMessage == "Click to start chatting!" && c.lastMessageTime == "Now"
    ensures c.status == Some(if creator.isOnline then "online" else "offline")
  {
    RoomCard(room.id, Some(DisplayName(creator)), Some(creator.username),
      if Truthy(creator.avatar) then creator.avatar.value else DefaultUserAvatar,
      Some(creator.id), false, "Click to start chatting!", "Now", 0,
      Some(if creator.isOnline then "online" else "offline"), None)
  }

  /** The room entry of a newly created group. */
  function GroupRoomCard(room: Room, group: GroupChat): (c: RoomCard)
    ensures c.id == room.id && c.isGroup && c.unreadCount == 0 && c.name == room.name
    ensures c.avatar == (if Truthy(group.avatar) then group.avatar.value else DefaultGroupAvatar)
    ensures c.lastMessage == "Group created. Click to start chatting!" && c.lastMessageTime == "Now"
    ensures c.description == group.description
  {
    RoomCard(room.id, room.name, None,
      if Truthy(group.avatar) then group.avatar.value else DefaultGroupAvatar,
      None, true, "Group created. Click to start chatting!", "Now", 0, None, group.description)
  }

  /** The message after an edit: new text, the edited flag and its time; nothing else changes. */
  function Edited(m: Message, text: string, now: DateTime): (e: Message)
    ensures e.content == text && e.edited && e.editedAt == Some(now)
    ensures e.delivered == m.delivered && e.read == m.read && e.senderId == m.senderId && e.roomId == m.roomId
    ensures e.(content := m.content, edited := m.edited, editedAt := m.editedAt) == m
  {
    m.(content := text, edited := true, editedAt := Some(now))
  }

  /** The answer SDP a call response carries: only for an accepted call, and only when the client sent a non-empty one. */
  function AnswerSdp(msg: Inbound): (r: Option<string>)
    ensures r.Some? <==> msg.status == Some("accepted") && Truthy(msg.sdp)
    ensures r.Some? ==> r == msg.sdp
  {
    if msg.status == Some("accepted") && Truthy(msg.sdp) then msg.sdp else None
  }

  /** The frame types the chat socket handles. */
  const FrameKinds: set<string> :=
    {"message", "seen", "typing", "update_message", "delete_message", "call_offer", "call_response", "ice_candidate"}

  // ---------------------------------------------------------------------
  // The server

  class Hub {
    const db: Db
    /** username -> open chat and presence sockets (`active_connections`). */
    var active: Registry
    /** username -> open notification sockets (`notification_connections`). */
    var notify: Registry
    /** room id -> user id -> the socket last seen for that user (`room_connections`). */
    var roomConns: map<nat, map<nat, Conn>>
    /** Every frame sent so far, in order. */
    var outbox: seq<Send<Event>>

    ghost predicate Valid()
      reads this
    {
      NoEmptyEntries(active) && NoEmptyEntries(notify) && SocketsDisjoint(active)
    }

    constructor (store: Db)
      ensures db == store && Valid()
      ensures active == map[] && notify == map[] && roomConns == map[] && outbox == []
    {
      db := store;
      active := map[];
      notify := map[];
      roomConns := map[];
      outbox := [];
    }

    /** For each user of `ids` in turn, the frames `evs` on each of that user's sockets in `reg`. */
    method SendTo(reg: Registry, ids: seq<nat>, evs: seq<Event>)
      modifies this`outbox
      ensures outbox == old(outbox) + ToUsers(db.t.users, reg, ids, evs)
    {
      var i := 0;
      while i < |ids|
        invariant 0 <= i <= |ids|
        invariant outbox == old(outbox) + ToUsers(db.t.users, reg, ids[..i], evs)
      {
        var socks := Ascending(SocketsOfUser(db.t.users, reg, ids[i]));
        ghost var sent := outbox;
        var j := 0;
        while j < |socks|
          invariant 0 <= j <= |socks|
          invariant outbox == sent + OnSockets(socks[..j], evs)
        {
          AppendAssociative(sent, OnSockets(socks[..j], evs), OnSocket(socks[j], evs));
          outbox := outbox + OnSocket(socks[j], evs);
          OnSocketsSnoc(socks, j, evs);
          j := j + 1;
        }
        assert socks[..j] == socks;
        AppendAssociative(old(outbox), ToUsers(db.t.users, reg, ids[..i], evs), OnSockets(socks, evs));
        ToUsersSnoc(db.t.users, reg, ids, i, evs);
        i := i + 1;
      }
      assert ids[..i] == ids;
    }

    /** broadcast_status: `status` on every socket of every user sharing a direct room with `user`. */
    method BroadcastStatus(user: nat, status: string)
      requires user in db.t.users
      modifies this`outbox
      ensures outbox == old(outbox) +
        ToUsers(db.t.users, active, Ascending(Contacts(db.t, user)), [Status(user, db.t.users[user].username, status)])
    {
      if DirectRoomsOf(db.t, user) == {} {
        NoDirectRoomNoContacts(db.t, user);
        return;
      }
      SendTo(active, Ascending(Contacts(db.t, user)), [Status(user, db.t.users[user].username, status)]);
    }

    // -------------------------------------------------------------------
    // Connections

    /**
     * /ws/chat: `user` is the account the token names, if any (token decoding
     * is not part of this model). Without one the socket is closed with 1008;
     * otherwise it joins the user's sockets and the user's contacts hear "online".
     */
    method ConnectChat(ws: Conn, user: Option<nat>) returns (refused: Option<CloseCode>)
      requires Valid() && IsFreshSocket(active, ws)
      requires user.Some? ==> user.value in db.t.users
      modifies this
      ensures Valid()
      ensures notify == old(notify) && roomConns == old(roomConns)
      ensures user.None? ==> refused == Some(PolicyViolation) && active == old(active) && outbox == old(outbox)
      ensures user.Some? ==> (refused.None? &&
        active == Register(old(active), db.t.users[user.value].username, ws) &&
        outbox == old(outbox) + ToUsers(db.t.users, active, Ascending(Contacts(db.t, user.value)),
          [Status(user.value, db.t.users[user.value].username, "online")]))
    {
      if user.None? {
        return Some(PolicyViolation);
      }
      RegisterKeepsDisjoint(active, db.t.users[user.value].username, ws);
      active := Register(active, db.t.users[user.value].username, ws);
      BroadcastStatus(user.value, "online");
      refused := None;
    }

    /**
     * The chat socket closes: it leaves the user's sockets, the user leaves
     * every room_connections entry, and the contacts hear "offline".
     */
    method DisconnectChat(ws: Conn, user: nat)
      requires Valid() && user in db.t.users
      modifies this
      ensures Valid()
      ensures notify == old(notify)
      ensures active == Unregister(old(active), db.t.users[user].username, ws)
      ensures roomConns == DropUser(old(roomConns), user)
      ensures outbox == old(outbox) + ToUsers(db.t.users, active, Ascending(Contacts(db.t, user)),
        [Status(user, db.t.users[user].username, "offline")])
    {
      UnregisterKeepsDisjoint(active, db.t.users[user].username, ws);
      active := Unregister(active, db.t.users[user].username, ws);
      DropFromRooms(user);
      BroadcastStatus(user, "offline");
    }

    /**
     * The chat endpoint's outer `except Exception`: any error other than the
     * disconnect itself (a frame that is not JSON, a failed send) closes the
     * socket with 1011. The disconnect cleanup never runs, so the socket stays
     * in active_connections and room_connections, and no "offline" goes out.
     */
    method FailChat(ws: Conn, user: nat) returns (close: CloseCode)
      ensures close == UnexpectedCondition && close.Code() == 1011
    {
      close := UnexpectedCondition;
    }

    /** Removes the user from every room_connections entry, dropping entries that become empty. */
    method DropFromRooms(user: nat)
      modifies this`roomConns
      ensures roomConns == DropUser(old(roomConns), user)
    {
      var orig := roomConns;
      var rc := orig;
      var todo := orig.Keys;
      while todo != {}
        invariant DropProgress(orig, rc, todo, user)
        decreases |todo|
      {
        var room :| room in todo;
        DropStepKeepsProgress(orig, rc, todo, room, user);
        if user in rc[room] {
          var rest := rc[room] - {user};
          if rest == map[] {
            rc := rc - {room};
          } else {
            rc := rc[room := rest];
          }
        }
        todo := todo - {room};
      }
      DropProgressDone(orig, rc, user);
      roomConns := rc;
    }

    /**
     * /ws/presence: the user is looked up by username (1008 when there is
     * none); the socket joins the user's sockets, the row is marked online
     * with last_seen = now, and the contacts hear "online".
     */
    method ConnectPresence(ws: Conn, username: string, now: DateTime) returns (refused: Option<CloseCode>)
      requires Valid() && IsFreshSocket(active, ws)
      modifies this, db
      ensures Valid()
      ensures notify == old(notify) && roomConns == old(roomConns)
      ensures UserByName(old(db.t.users), username).None? ==>
        refused == Some(PolicyViolation) && active == old(active) && outbox == old(outbox) && db.t == old(db.t)
      ensures UserByName(old(db.t.users), username).Some? ==>
        var u := UserByName(old(db.t.users), username).value;
        refused.None? &&
        active == Register(old(active), username, ws) &&
        db.t == old(db.t).(users := old(db.t.users)[u := old(db.t.users)[u].(isOnline := true, lastSeen := Some(now))]) &&
        outbox == old(outbox) + ToUsers(db.t.users, active, Ascending(Contacts(db.t, u)), [Status(u, username, "online")])
    {
      var found := UserByName(db.t.users, username);
      if found.None? {
        return Some(PolicyViolation);
      }
      var u := found.value;
      RegisterKeepsDisjoint(active, username, ws);
      active := Register(active, username, ws);
      db.t := db.t.(users := db.t.users[u := db.t.users[u].(isOnline := true, lastSeen := Some(now))]);
      BroadcastStatus(u, "online");
      refused := None;
    }

    /** The presence socket closes: it leaves the user's sockets, the row goes offline with last_seen = now, and the contacts hear "offline". */
    method DisconnectPresence(ws: Conn, user: nat, now: DateTime)
      requires Valid() && user in db.t.users
      modifies this, db
      ensures Valid()
      ensures notify == old(notify) && roomConns == old(roomConns)
      ensures active == Unregister(old(active), old(db.t.users[user].username), ws)
      ensures db.t == old(db.t).(users := old(db.t.users)[user := old(db.t.users[user]).(isOnline := false, lastSeen := Some(now))])
      ensures outbox == old(outbox) + ToUsers(db.t.users, active, Ascending(Contacts(db.t, user)),
        [Status(user, db.t.users[user].username, "offline")])
    {
      UnregisterKeepsDisjoint(active, db.t.users[user].username, ws);
      active := Unregister(active, db.t.users[user].username, ws);
      db.t := db.t.(users := db.t.users[user := db.t.users[user].(isOnline := false, lastSeen := Some(now))]);
      BroadcastStatus(user, "offline");
    }

    /** /ws/notifications: 1008 without an account; otherwise the socket joins the user's notification sockets. */
    method ConnectNotifications(ws: Conn, user: Option<nat>) returns (refused: Option<CloseCode>)
      requires Valid()
      requires user.Some? ==> user.value in db.t.users
      modifies this`notify
      ensures Valid()
      ensures user.None? ==> refused == Some(PolicyViolation) && notify == old(notify)
      ensures user.Some? ==> refused.None? && notify == Register(old(notify), db.t.users[user.value].username, ws)
    {
      if user.None? {
        return Some(PolicyViolation);
      }
      notify := Register(notify, db.t.users[user.value].username, ws);
      refused := None;
    }

    /** The notification socket closes and leaves the user's notification sockets. */
    method DisconnectNotifications(ws: Conn, user: nat)
      requires Valid() && user in db.t.users
      modifies this`notify
      ensures Valid()
      ensures notify == Unregister(old(notify), db.t.users[user].username, ws)
    {
      notify := Unregister(notify, db.t.users[user].username, ws);
    }

    // -------------------------------------------------------------------
    // Frames on the chat socket

    /** Replies on `ws` with an error frame. */
    method Reply(ws: Conn, ev: Event)
      modifies this`outbox
      ensures outbox == old(outbox) + [Send(ws, ev)]
    {
      outbox := outbox + [Send(ws, ev)];
    }

    /**
     * A chat frame of `user`, arriving on `ws` at `now`. After the guards the
     * message is stored delivered and unread, the sender gets the echo first,
     * then every socket of every other member gets the frame, and
     * room_connections records the sender's and each reached member's socket.
     * There is no check for blocked users on this path.
     */
    method HandleChatMessage(ws: Conn, user: nat, msg: Inbound, now: DateTime)
      requires user in db.t.users && now.Valid()
      modifies this`outbox, this`roomConns, db
      ensures ChatHandled(ws, user, msg, now)
    {
      var guard := ChatGuard(db.t, user, msg);
      if guard.Some? {
        Reply(ws, Error(guard.value));
        return;
      }
      PostChat(ws, user, msg.roomId.value, msg.content.value, msg.tempId, now);
    }

    /** What a chat frame did: the guard's error to the sender alone, or the post. */
    twostate predicate ChatHandled(ws: Conn, user: nat, msg: Inbound, now: DateTime)
      requires old(user in db.t.users) && now.Valid()
      reads this, db
    {
      var g := ChatGuard(old(db.t), user, msg);
      if g.Some? then
        db.t == old(db.t) && roomConns == old(roomConns) && outbox == old(outbox) + [Send(ws, Error(g.value))]
      else ChatPosted(ws, user, msg.roomId.value, msg.content.value, msg.tempId, now)
    }

    /**
     * What a chat frame that passed its guards did: the row is stored under
     * the next id; the sender's socket got the echo, then every socket of the
     * other members got the frame with the real sender; the room's
     * room_connections entry holds the sender's socket and, for each member
     * reached, one of that member's sockets.
     */
    twostate predicate ChatPosted(ws: Conn, user: nat, room: nat, content: string, tempId: Option<string>, now: DateTime)
      requires old(user in db.t.users && room in db.t.rooms) && now.Valid()
      reads this, db
    {
      var row := ChatRow(NextId(old(db.t.messages).Keys), room, user, content, now);
      var p := Payload(row, old(db.t.users[user]), old(db.t.rooms[room]).isGroup);
      var entry := if room in old(roomConns) then old(roomConns)[room] else map[];
      var others := Ascending(OthersIn(old(db.t), room, user));
      db.t == old(db.t).(messages := old(db.t.messages)[row.id := row]) &&
      outbox == old(outbox) + [Send(ws, ChatMessage(Echo(p, tempId)))] +
        ToUsers(db.t.users, active, others, [ChatMessage(p)]) &&
      roomConns == old(roomConns)[room := Tracked(Record(entry, user, ws), db.t.users, active, others)]
    }

    /** The success path of a chat frame: store, echo, relay, record sockets. */
    method PostChat(ws: Conn, user: nat, room: nat, content: string, tempId: Option<string>, now: DateTime)
      requires user in db.t.users && room in db.t.rooms && now.Valid()
      modifies this`outbox, this`roomConns, db
      ensures ChatPosted(ws, user, room, content, tempId, now)
    {
      var row := ChatRow(NextId(db.t.messages.Keys), room, user, content, now);
      var isGroup := db.t.rooms[room].isGroup;
      var others := Ascending(OthersIn(db.t, room, user));
      db.t := db.t.(messages := db.t.messages[row.id := row]);
      var p := Payload(row, db.t.users[user], isGroup);
      Reply(ws, ChatMessage(Echo(p, tempId)));
      var entry: map<nat, Conn> := if room in roomConns then roomConns[room] else map[];
      RelayTracked(room, Record(entry, user, ws), others, ChatMessage(p));
    }

    /**
     * Sends `ev` to every socket of the listed users; the room's
     * room_connections entry becomes `start` (which already holds the
     * sender's socket) plus each reached user's socket.
     */
    method RelayTracked(room: nat, start: map<nat, Conn>, ids: seq<nat>, ev: Event)
      modifies this`outbox, this`roomConns
      ensures outbox == old(outbox) + ToUsers(db.t.users, active, ids, [ev])
      ensures roomConns == old(roomConns)[room := Tracked(start, db.t.users, active, ids)]
    {
      var entry := start;
      var i := 0;
      while i < |ids|
        invariant 0 <= i <= |ids|
        invariant roomConns == old(roomConns)
        invariant outbox == old(outbox) + ToUsers(db.t.users, active, ids[..i], [ev])
        invariant entry == Tracked(start, db.t.users, active, ids[..i])
      {
        var socks := Ascending(SocketsOfUser(db.t.users, active, ids[i]));
        entry := RelayToMember(entry, ids[i], socks, ev);
        AppendAssociative(old(outbox), ToUsers(db.t.users, active, ids[..i], [ev]), OnSockets(socks, [ev]));
        ToUsersSnoc(db.t.users, active, ids, i, [ev]);
        TrackedSnoc(start, db.t.users, active, ids, i);
        if socks != [] {
          LastIsMax(socks, SocketsOfUser(db.t.users, active, ids[i]));
        }
        i := i + 1;
      }
      assert ids[..i] == ids;
      roomConns := roomConns[room := entry];
    }

    /** Sends `ev` on each of the member's sockets, recording each of them in turn as the member's socket. */
    method RelayToMember(entry: map<nat, Conn>, member: nat, socks: seq<Conn>, ev: Event) returns (updated: map<nat, Conn>)
      modifies this`outbox
      ensures outbox == old(outbox) + OnSockets(socks, [ev])
      ensures updated == if socks == [] then entry else Record(entry, member, socks[|socks| - 1])
    {
      updated := entry;
      var j := 0;
      while j < |socks|
        invariant 0 <= j <= |socks|
        invariant outbox == old(outbox) + OnSockets(socks[..j], [ev])
        invariant updated == if j == 0 then entry else Record(entry, member, socks[j - 1])
      {
        AppendAssociative(old(outbox), OnSockets(socks[..j], [ev]), OnSocket(socks[j], [ev]));
        outbox := outbox + OnSocket(socks[j], [ev]);
        updated := Record(updated, member, socks[j]);
        OnSocketsSnoc(socks, j, [ev]);
        j := j + 1;
      }
      assert socks[..j] == socks;
    }

    /**
     * A "seen" frame: after the guards every unread message from others in
     * the room is marked read (not only the listed ones); the reader gets the
     * confirmation; then each distinct sender of a listed message hears, on
     * every chat socket and then every notification socket, which messages
     * were read.
     */
    method HandleSeen(ws: Conn, user: nat, msg: Inbound, now: DateTime)
      requires user in db.t.users
      modifies this`outbox, db
      ensures SeenHandled(ws, user, msg, now)
    {
      var guard := SeenGuard(db.t, user, msg);
      if guard.Some? {
        Reply(ws, Error(guard.value));
        return;
      }
      var room := msg.roomId.value;
      ghost var before := db.t.messages;
      var marked := ResetUnreadCount(db, room, user, now);
      MarkReadKeepsSeen(before, msg.messageIds.value, room, user, now);
      var ids := SeenIds(db.t.messages, msg.messageIds.value, room, user);
      var senders := Ascending(SendersOf(db.t.messages, ids));
      Reply(ws, SeenConfirmation(room, ids));
      var name := db.t.users[user].username;
      NotifyReaders(senders, [MessageRead(room, user, name, ids), RoomMessagesRead(room, user, name, now, ids, |ids|)]);
    }

    /** What a "seen" frame did: the guard's error to the reader alone, or the marking and its notices. */
    twostate predicate SeenHandled(ws: Conn, user: nat, msg: Inbound, now: DateTime)
      requires old(user in db.t.users)
      reads this, db
    {
      var g := SeenGuard(old(db.t), user, msg);
      roomConns == old(roomConns) &&
      if g.Some? then db.t == old(db.t) && outbox == old(outbox) + [Send(ws, Error(g.value))]
      else SeenDone(ws, user, msg.roomId.value, msg.messageIds.value, now)
    }

    /**
     * What a "seen" frame that passed its guards did: the room is marked read
     * for the reader; the confirmation lists the requested ids in the room
     * not sent by the reader; each of their senders got message_read and
     * room_messages_read on its chat and its notification sockets.
     */
    twostate predicate SeenDone(ws: Conn, user: nat, room: nat, requested: seq<nat>, now: DateTime)
      requires old(user in db.t.users)
      reads this, db
    {
      var ids := SeenIds(old(db.t.messages), requested, room, user);
      var name := old(db.t.users[user]).username;
      db.t == old(db.t).(messages := MarkRead(old(db.t.messages), room, user, now)) &&
      outbox == old(outbox) + [Send(ws, SeenConfirmation(room, ids))] +
        ToChatAndNotify(db.t.users, active, notify, Ascending(SendersOf(old(db.t.messages), ids)),
          [MessageRead(room, user, name, ids), RoomMessagesRead(room, user, name, now, ids, |ids|)])
    }

    /** For each listed user in turn, `evs` on its chat sockets and then on its notification sockets. */
    method NotifyReaders(ids: seq<nat>, evs: seq<Event>)
      modifies this`outbox
      ensures outbox == old(outbox) + ToChatAndNotify(db.t.users, active, notify, ids, evs)
    {
      var i := 0;
      while i < |ids|
        invariant 0 <= i <= |ids|
        invariant outbox == old(outbox) + ToChatAndNotify(db.t.users, active, notify, ids[..i], evs)
      {
        ghost var done := ToChatAndNotify(db.t.users, active, notify, ids[..i], evs);
        SendTo(active, [ids[i]], evs);
        SendTo(notify, [ids[i]], evs);
        AppendAssociative(old(outbox), done, ToUsers(db.t.users, active, [ids[i]], evs));
        AppendAssociative(old(outbox), done + ToUsers(db.t.users, active, [ids[i]], evs), ToUsers(db.t.users, notify, [ids[i]], evs));
        ToChatAndNotifySnoc(db.t.users, active, notify, ids, i, evs);
        i := i + 1;
      }
      assert ids[..i] == ids;
    }

    /** A "typing" frame: after the guards every chat socket of every other member hears the status. */
    method HandleTyping(ws: Conn, user: nat, msg: Inbound)
      requires user in db.t.users
      modifies this`outbox
      ensures TypingHandled(ws, user, msg)
    {
      var guard := TypingGuard(db.t, user, msg);
      if guard.Some? {
        Reply(ws, Error(guard.value));
        return;
      }
      var room := msg.roomId.value;
      SendTo(active, Ascending(OthersIn(db.t, room, user)), [Typing(room, user, db.t.users[user].username, msg.status.value)]);
    }

    /**
     * An "update_message" frame: after the guards the message gets the
     * trimmed text, edited = true and edited_at = now (delivered and read
     * untouched); the editor gets the acknowledgement, then every other
     * member of the room the frame names hears the edit.
     */
    method HandleUpdate(ws: Conn, user: nat, msg: Inbound, now: DateTime)
      modifies this`outbox, db
      ensures UpdateHandled(ws, user, msg, now)
    {
      var guard := UpdateGuard(db.t, user, msg, now);
      if guard.Some? {
        Reply(ws, Error(guard.value));
        return;
      }
      ApplyEdit(ws, user, msg.messageId.value, msg.roomId.value, EditedText(msg), now);
    }

    /** The edit past handle_message_update's guards: the row, the acknowledgement, the notices. */
    method ApplyEdit(ws: Conn, user: nat, id: nat, room: nat, text: string, now: DateTime)
      requires id in db.t.messages
      modifies this`outbox, db
      ensures roomConns == old(roomConns)
      ensures db.t == old(db.t).(messages := old(db.t.messages)[id := Edited(old(db.t.messages[id]), text, now)])
      ensures outbox == old(outbox) + [Send(ws, MessageUpdatedAck(id, text, now, room))] +
        ToUsers(db.t.users, active, Ascending(OthersIn(db.t, room, user)), [MessageUpdated(id, room, text, true, now)])
    {
      db.t := db.t.(messages := db.t.messages[id := Edited(db.t.messages[id], text, now)]);
      Reply(ws, MessageUpdatedAck(id, text, now, room));
      SendTo(active, Ascending(OthersIn(db.t, room, user)), [MessageUpdated(id, room, text, true, now)]);
    }

    /**
     * A "delete_message" frame: after the guards the row is removed; the
     * deleter gets the confirmation, then every other member of the room the
     * frame names hears who deleted it.
     */
    method HandleDelete(ws: Conn, user: nat, msg: Inbound)
      requires user in db.t.users
      modifies this`outbox, db
      ensures DeleteHandled(ws, user, msg)
    {
      var guard := DeleteGuard(db.t, user, msg);
      if guard.Some? {
        Reply(ws, Error(guard.value));
        return;
      }
      var id := msg.messageId.value;
      var room := msg.roomId.value;
      db.t := db.t.(messages := db.t.messages - {id});
      Reply(ws, MessageDeleted(id, room, None));
      SendTo(active, Ascending(OthersIn(db.t, room, user)), [MessageDeleted(id, room, Some(db.t.users[user].username))]);
    }

    /**
     * A "call_offer" frame: after the guards, an online target gets the offer
     * on every chat socket and the caller hears "ringing"; for an offline
     * target nothing is relayed and the caller hears "failed".
     */
    method HandleCallOffer(ws: Conn, user: nat, msg: Inbound)
      requires user in db.t.users
      modifies this`outbox
      ensures CallOfferHandled(ws, user, msg)
    {
      var guard := CallOfferGuard(db.t, user, msg);
      if guard.Some? {
        Reply(ws, Error(guard.value));
        return;
      }
      var target := msg.targetUserId.value;
      var caller := db.t.users[user];
      if IsOnline(active, db.t.users[target].username) {
        SendTo(active, [target], [CallOffer(msg.roomId.value, user, caller.username, DisplayName(caller), msg.sdp.value, msg.callType.value)]);
        Reply(ws, CallStatus("ringing", None));
      } else {
        Reply(ws, CallStatus("failed", Some("User is offline")));
      }
    }

    /**
     * A "call_response" frame: after the guards, an online target gets the
     * response on every chat socket (with the answer SDP only for an accepted
     * call that carries one) and the responder hears "success"; otherwise the
     * responder hears "failed".
     */
    method HandleCallResponse(ws: Conn, user: nat, msg: Inbound)
      requires user in db.t.users
      modifies this`outbox
      ensures CallResponseHandled(ws, user, msg)
    {
      var guard := CallResponseGuard(db.t, msg);
      if guard.Some? {
        Reply(ws, Error(guard.value));
        return;
      }
      var target := msg.targetUserId.value;
      if IsOnline(active, db.t.users[target].username) {
        SendTo(active, [target], [CallResponse(msg.roomId.value, user, db.t.users[user].username, msg.status.value, AnswerSdp(msg))]);
        Reply(ws, CallResponseSent("success", None));
      } else {
        Reply(ws, CallResponseSent("failed", Some("User is offline")));
      }
    }

    /** An "ice_candidate" frame: after the guards it is forwarded to every chat socket of the target, or dropped silently when the target is offline. */
    method HandleIce(ws: Conn, user: nat, msg: Inbound)
      modifies this`outbox
      ensures IceHandled(ws, user, msg)
    {
      var guard := IceGuard(db.t, msg);
      if guard.Some? {
        Reply(ws, Error(guard.value));
        return;
      }
      var target := msg.targetUserId.value;
      if IsOnline(active, db.t.users[target].username) {
        SendTo(active, [target], [IceCandidate(user, msg.candidate.value)]);
      } else {
        assert ToUsers(db.t.users, active, [target], [IceCandidate(user, msg.candidate.value)]) == [];
      }
    }

    /** What a "typing" frame did: the guard's error to the sender alone, or the status to every other member's chat sockets. */
    twostate predicate TypingHandled(ws: Conn, user: nat, msg: Inbound)
      requires old(user in db.t.users)
      reads this, db
    {
      var g := TypingGuard(old(db.t), user, msg);
      db.t == old(db.t) && roomConns == old(roomConns) &&
      if g.Some? then outbox == old(outbox) + [Send(ws, Error(g.value))]
      else outbox == old(outbox) + ToUsers(db.t.users, active, Ascending(OthersIn(db.t, msg.roomId.value, user)),
        [Typing(msg.roomId.value, user, db.t.users[user].username, msg.status.value)])
    }

    /**
     * What an "update_message" frame did: the guard's error to the editor
     * alone, or the edited row, the acknowledgement and the relay to the
     * other members.
     */
    twostate predicate UpdateHandled(ws: Conn, user: nat, msg: Inbound, now: DateTime)
      reads this, db
    {
      var g := UpdateGuard(old(db.t), user, msg, now);
      roomConns == old(roomConns) &&
      if g.Some? then db.t == old(db.t) && outbox == old(outbox) + [Send(ws, Error(g.value))]
      else
        var id := msg.messageId.value;
        var room := msg.roomId.value;
        db.t == old(db.t).(messages := old(db.t.messages)[id := Edited(old(db.t.messages[id]), EditedText(msg), now)]) &&
        outbox == old(outbox) + [Send(ws, MessageUpdatedAck(id, EditedText(msg), now, room))] +
          ToUsers(db.t.users, active, Ascending(OthersIn(db.t, room, user)), [MessageUpdated(id, room, EditedText(msg), true, now)])
    }

    /**
     * What a "delete_message" frame did: the guard's error to the deleter
     * alone, or the row removed, the confirmation and the notice to the
     * other members.
     */
    twostate predicate DeleteHandled(ws: Conn, user: nat, msg: Inbound)
      requires old(user in db.t.users)
      reads this, db
    {
      var g := DeleteGuard(old(db.t), user, msg);
      roomConns == old(roomConns) &&
      if g.Some? then db.t == old(db.t) && outbox == old(outbox) + [Send(ws, Error(g.value))]
      else
        var id := msg.messageId.value;
        var room := msg.roomId.value;
        db.t == old(db.t).(messages := old(db.t.messages) - {id}) &&
        outbox == old(outbox) + [Send(ws, MessageDeleted(id, room, None))] +
          ToUsers(db.t.users, active, Ascending(OthersIn(db.t, room, user)),
            [MessageDeleted(id, room, Some(db.t.users[user].username))])
    }

    /**
     * What a "call_offer" frame did: the guard's error to the caller alone;
     * or the offer to every chat socket of an online target and "ringing" to
     * the caller; or "failed" to the caller when the target is offline.
     */
    twostate predicate CallOfferHandled(ws: Conn, user: nat, msg: Inbound)
      requires old(user in db.t.users)
      reads this, db
    {
      var g := CallOfferGuard(old(db.t), user, msg);
      db.t == old(db.t) && roomConns == old(roomConns) &&
      if g.Some? then outbox == old(outbox) + [Send(ws, Error(g.value))]
      else
        var target := msg.targetUserId.value;
        var caller := db.t.users[user];
        if IsOnline(active, db.t.users[target].username) then
          outbox == old(outbox) +
            ToUsers(db.t.users, active, [target],
              [CallOffer(msg.roomId.value, user, caller.username, DisplayName(caller), msg.sdp.value, msg.callType.value)]) +
            [Send(ws, CallStatus("ringing", None))]
        else outbox == old(outbox) + [Send(ws, CallStatus("failed", Some("User is offline")))]
    }

    /**
     * What a "call_response" frame did: the guard's error to the responder
     * alone; or the response to every chat socket of an online target and
     * "success" to the responder; or "failed" when the target is offline.
     */
    twostate predicate CallResponseHandled(ws: Conn, user: nat, msg: Inbound)
      requires old(user in db.t.users)
      reads this, db
    {
      var g := CallResponseGuard(old(db.t), msg);
      db.t == old(db.t) && roomConns == old(roomConns) &&
      if g.Some? then outbox == old(outbox) + [Send(ws, Error(g.value))]
      else
        var target := msg.targetUserId.value;
        if IsOnline(active, db.t.users[target].username) then
          outbox == old(outbox) +
            ToUsers(db.t.users, active, [target],
              [CallResponse(msg.roomId.value, user, db.t.users[user].username, msg.status.value, AnswerSdp(msg))]) +
            [Send(ws, CallResponseSent("success", None))]
        else outbox == old(outbox) + [Send(ws, CallResponseSent("failed", Some("User is offline")))]
    }

    /** What an "ice_candidate" frame did: the guard's error to the sender alone, or the candidate to the target's chat sockets. */
    twostate predicate IceHandled(ws: Conn, user: nat, msg: Inbound)
      reads this, db
    {
      var g := IceGuard(old(db.t), msg);
      db.t == old(db.t) && roomConns == old(roomConns) &&
      if g.Some? then outbox == old(outbox) + [Send(ws, Error(g.value))]
      else outbox == old(outbox) + ToUsers(db.t.users, active, [msg.targetUserId.value], [IceCandidate(user, msg.candidate.value)])
    }

    /**
     * One frame on the chat socket, routed by its "type" key. A frame without
     * one, or with a type no handler takes, gets an error reply and changes
     * nothing else. Each handled type does what its handler does.
     */
    method Dispatch(ws: Conn, user: nat, msg: Inbound, now: DateTime)
      requires user in db.t.users && now.Valid()
      modifies this`outbox, this`roomConns, db
      ensures msg.kind == Some("message") ==> ChatHandled(ws, user, msg, now)
      ensures msg.kind == Some("seen") ==> SeenHandled(ws, user, msg, now)
      ensures msg.kind == Some("typing") ==> TypingHandled(ws, user, msg)
      ensures msg.kind == Some("update_message") ==> UpdateHandled(ws, user, msg, now)
      ensures msg.kind == Some("delete_message") ==> DeleteHandled(ws, user, msg)
      ensures msg.kind == Some("call_offer") ==> CallOfferHandled(ws, user, msg)
      ensures msg.kind == Some("call_response") ==> CallResponseHandled(ws, user, msg)
      ensures msg.kind == Some("ice_candidate") ==> IceHandled(ws, user, msg)
      ensures msg.kind.None? ==>
        db.t == old(db.t) && roomConns == old(roomConns) && outbox == old(outbox) + [Send(ws, Error("Invalid message format"))]
      ensures msg.kind.Some? && msg.kind.value !in FrameKinds ==>
        db.t == old(db.t) && roomConns == old(roomConns) && outbox == old(outbox) + [Send(ws, Error("Unknown message type"))]
    {
      if msg.kind.None? {
        Reply(ws, Error("Invalid message format"));
        return;
      }
      var kind := msg.kind.value;
      if kind == "message" {
        HandleChatMessage(ws, user, msg, now);
      } else if kind == "seen" {
        HandleSeen(ws, user, msg, now);
      } else if kind == "typing" {
        HandleTyping(ws, user, msg);
      } else if kind == "update_message" {
        HandleUpdate(ws, user, msg, now);
      } else if kind == "delete_message" {
        HandleDelete(ws, user, msg);
      } else if kind == "call_offer" {
        HandleCallOffer(ws, user, msg);
      } else if kind == "call_response" {
        HandleCallResponse(ws, user, msg);
      } else if kind == "ice_candidate" {
        HandleIce(ws, user, msg);
      } else {
        Reply(ws, Error("Unknown message type"));
      }
    }

    // -------------------------------------------------------------------
    // Notifications the HTTP routes trigger

    /**
     * notify_new_room: when the target exists and is online and the room
     * exists, every chat socket of the target gets the room's entry as the
     * creator's direct chat; otherwise nothing is sent.
     */
    method NotifyNewRoom(room: nat, target: nat, creator: nat)
      requires creator in db.t.users
      modifies this`outbox
      ensures
        if target in db.t.users && IsOnline(active, db.t.users[target].username) && room in db.t.rooms then
          outbox == old(outbox) + ToUsers(db.t.users, active, [target], [NewRoom(DirectRoomCard(db.t.rooms[room], db.t.users[creator]))])
        else outbox == old(outbox)
    {
      if target !in db.t.users || !IsOnline(active, db.t.users[target].username) || room !in db.t.rooms {
        return;
      }
      SendTo(active, [target], [NewRoom(DirectRoomCard(db.t.rooms[room], db.t.users[creator]))]);
    }

    /** notify_new_group: when the room and its group row exist, each listed online user gets the group's entry on every chat socket. */
    method NotifyNewGroup(room: nat, targets: seq<nat>)
      modifies this`outbox
      ensures
        if room in db.t.rooms && room in db.t.groups then
          outbox == old(outbox) + ToUsers(db.t.users, active, targets, [NewRoom(GroupRoomCard(db.t.rooms[room], db.t.groups[room]))])
        else outbox == old(outbox)
    {
      if room !in db.t.rooms || room !in db.t.groups {
        return;
      }
      SendTo(active, targets, [NewRoom(GroupRoomCard(db.t.rooms[room], db.t.groups[room]))]);
    }

    /** notify_group_deleted: each listed online user hears that the group is gone, on every chat socket. */
    method NotifyGroupDeleted(room: nat, targets: seq<nat>)
      modifies this`outbox
      ensures outbox == old(outbox) + ToUsers(db.t.users, active, targets, [GroupDeleted(room)])
    {
      SendTo(active, targets, [GroupDeleted(room)]);
    }
  }

  lemma TrackedSnoc(entry: map<nat, Conn>, users: map<nat, User>, reg: Registry, ids: seq<nat>, i: nat)
    requires i < |ids|
    ensures Tracked(entry, users, reg, ids[..i + 1]) ==
      var prev := Tracked(entry, users, reg, ids[..i]);
      var socks := SocketsOfUser(users, reg, ids[i]);
      if socks == {} then prev else Record(prev, ids[i], Max(socks))
  {
    assert ids[..i + 1][..i] == ids[..i];
  }

  lemma ToChatAndNotifySnoc(users: map<nat, User>, chat: Registry, notify: Registry, ids: seq<nat>, i: nat, evs: seq<Event>)
    requires i < |ids|
    ensures ToChatAndNotify(users, chat, notify, ids[..i + 1], evs) ==
      ToChatAndNotify(users, chat, notify, ids[..i], evs) + ToUsers(users, chat, [ids[i]], evs) + ToUsers(users, notify, [ids[i]], evs)
  {
    assert ids[..i + 1][..i] == ids[..i];
  }

  /** The last element of an ascending enumeration is the largest. */
  lemma LastIsMax(q: seq<nat>, s: set<nat>)
    requires q != [] && StrictlyIncreasing(q) && forall x :: x in q <==> x in s
    ensures s != {} && q[|q| - 1] == Max(s)
  {
    assert q[|q| - 1] in s;
    forall x | x in s ensures x <= q[|q| - 1] {
      var j :| 0 <= j < |q| && q[j] == x;
      if j < |q| - 1 {
        assert q[j] < q[|q| - 1];
      }
    }
  }
}
