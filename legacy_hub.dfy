/**
 * The older socket server (app/routers/chat/websockets.py) and the two
 * socket-sending helpers of app/routers/utils.py. Unlike module Realtime,
 * its registry holds ONE socket per key, and a later connection under the
 * same key replaces the earlier one. Keys are a username (presence and
 * direct-chat sockets) or "group-<id>-<username>" (group-chat sockets).
 * Two more maps remember username <-> user id for the users seen on a
 * socket.
 */
module LegacyHub {
  import opened Common
  import opened Schema
  import opened Outbox
  import opened Utils
  import Events

  /** A registry key: a username, or the key of a user's socket on one group's chat. */
  datatype Key = UserKey(name: string) | GroupKey(group: nat, name: string)

  /** The key of a user's socket: in a group when `scope` names one, otherwise the plain username. */
  function KeyOf(scope: Option<nat>, name: string): Key
  {
    if scope.Some? then GroupKey(scope.value, name) else UserKey(name)
  }

  /** The frames this server sends. */
  datatype LegacyEvent =
    | StatusUpdate(userId: nat, username: string, status: string)
    | ReadReceipt(messageId: nat, readAt: DateTime)
    | DeliveredReceipt(messageId: nat, deliveredAt: DateTime)
      /** A direct message (`sender` is `from`); a status is present only on the echo to the sender. */
    | DirectMessage(id: nat, from: string, content: string, time: Option<string>, deliveryStatus: Option<string>)
      /** A group message; the echo to the sender carries `sender: "user"` (`ownMark`). */
    | GroupMessageFrame(id: nat, senderId: nat, senderName: string, content: string, time: Option<string>, groupId: nat, ownMark: Option<string>)

  /** Why a socket was closed right after it was accepted. */
  datatype Refusal = Refusal(code: Events.CloseCode, reason: string)

  /** One JSON frame on a direct-chat socket; `None` stands for a key the client left out. */
  datatype DirectFrame = DirectFrame(kind: Option<string>, content: string, time: Option<string>, messageId: Option<nat>)

  // ---------------------------------------------------------------------
  // Fan-out over a one-socket registry

  /** What one listed user gets: `ev` on its socket under `scope`, when the user exists and holds one. */
  function ToMember(users: map<nat, User>, conns: map<Key, Conn>, scope: Option<nat>, u: nat, ev: LegacyEvent): (q: seq<Send<LegacyEvent>>)
    ensures |q| <= 1
    ensures q != [] <==> u in users && KeyOf(scope, users[u].username) in conns
    ensures q != [] ==> q[0] == Send(conns[KeyOf(scope, users[u].username)], ev)
  {
    if u in users && KeyOf(scope, users[u].username) in conns
    then [Send(conns[KeyOf(scope, users[u].username)], ev)]
    else []
  }

  /** For each listed user in turn, `ev` on its socket under `scope`. */
  function ToMembers(users: map<nat, User>, conns: map<Key, Conn>, scope: Option<nat>, ids: seq<nat>, ev: LegacyEvent): seq<Send<LegacyEvent>>
  {
    if ids == [] then []
    else ToMembers(users, conns, scope, ids[..|ids| - 1], ev) + ToMember(users, conns, scope, ids[|ids| - 1], ev)
  }

  lemma ToMembersSnoc(users: map<nat, User>, conns: map<Key, Conn>, scope: Option<nat>, ids: seq<nat>, i: nat, ev: LegacyEvent)
    requires i < |ids|
    ensures ToMembers(users, conns, scope, ids[..i + 1], ev) ==
      ToMembers(users, conns, scope, ids[..i], ev) + ToMember(users, conns, scope, ids[i], ev)
  {
    assert ids[..i + 1][..i] == ids[..i];
  }

  /** The socket under `scope` of a user that exists and holds one. */
  predicate Holds(users: map<nat, User>, conns: map<Key, Conn>, scope: Option<nat>, u: nat, c: Conn)
  {
    u in users && KeyOf(scope, users[u].username) in conns && conns[KeyOf(scope, users[u].username)] == c
  }

  /** A frame goes out iff it is `ev` on the socket of a listed user that holds one. */
  lemma {:induction false} ToMembersTargets(users: map<nat, User>, conns: map<Key, Conn>, scope: Option<nat>, ids: seq<nat>, ev: LegacyEvent)
    ensures forall s :: s in ToMembers(users, conns, scope, ids, ev) <==>
      s.event == ev && exists u :: u in ids && Holds(users, conns, scope, u, s.to)
  {
    if ids != [] {
      var init := ids[..|ids| - 1];
      var last := ids[|ids| - 1];
      ToMembersTargets(users, conns, scope, init, ev);
      assert forall u :: u in ids <==> u in init || u == last by {
        assert ids == init + [last];
      }
      var q := ToMember(users, conns, scope, last, ev);
      forall s | s in q ensures s.event == ev && Holds(users, conns, scope, last, s.to) {
        assert s == q[0];
      }
      forall s: Send<LegacyEvent> | s.event == ev && exists u :: u in ids && Holds(users, conns, scope, u, s.to)
        ensures s in ToMembers(users, conns, scope, ids, ev)
      {
        var u :| u in ids && Holds(users, conns, scope, u, s.to);
        if u != last {
          assert u in init;
        }
      }
    }
  }

  /** For each room in turn, `ev` on the socket of each other member of that room. */
  function ToRoomMembers(t: Tables, conns: map<Key, Conn>, rooms: seq<nat>, user: nat, ev: LegacyEvent): seq<Send<LegacyEvent>>
  {
    if rooms == [] then []
    else ToRoomMembers(t, conns, rooms[..|rooms| - 1], user, ev) +
         ToMembers(t.users, conns, None, Ascending(OthersIn(t, rooms[|rooms| - 1], user)), ev)
  }

  lemma ToRoomMembersSnoc(t: Tables, conns: map<Key, Conn>, rooms: seq<nat>, i: nat, user: nat, ev: LegacyEvent)
    requires i < |rooms|
    ensures ToRoomMembers(t, conns, rooms[..i + 1], user, ev) ==
      ToRoomMembers(t, conns, rooms[..i], user, ev) + ToMembers(t.users, conns, None, Ascending(OthersIn(t, rooms[i], user)), ev)
  {
    assert rooms[..i + 1][..i] == rooms[..i];
  }

  /**
   * The presence fan-out reaches a socket iff it is the socket of a user who
   * shares one of the listed rooms with `user`; `user` itself is never
   * addressed. A contact sharing two direct rooms hears it twice.
   */
  lemma {:induction false} ToRoomMembersTargets(t: Tables, conns: map<Key, Conn>, rooms: seq<nat>, user: nat, ev: LegacyEvent)
    ensures forall s :: s in ToRoomMembers(t, conns, rooms, user, ev) <==>
      s.event == ev && exists r, v :: r in rooms && (r, v) in t.members && v != user && Holds(t.users, conns, None, v, s.to)
  {
    if rooms != [] {
      var init := rooms[..|rooms| - 1];
      var last := rooms[|rooms| - 1];
      ToRoomMembersTargets(t, conns, init, user, ev);
      ToMembersTargets(t.users, conns, None, Ascending(OthersIn(t, last, user)), ev);
      assert forall r :: r in rooms <==> r in init || r == last by {
        assert rooms == init + [last];
      }
      forall s: Send<LegacyEvent> | s.event == ev && exists r, v :: r in rooms && (r, v) in t.members && v != user && Holds(t.users, conns, None, v, s.to)
        ensures s in ToRoomMembers(t, conns, rooms, user, ev)
      {
        var r, v :| r in rooms && (r, v) in t.members && v != user && Holds(t.users, conns, None, v, s.to);
        if r != last {
          assert r in init;
        } else {
          assert v in Ascending(OthersIn(t, last, user));
        }
      }
    }
  }

  /** The time a read receipt reports: the row's read_at, or the current time when it has none. */
  function ReceiptTime(m: Message, now: DateTime): DateTime
  {
    if m.readAt.Some? then m.readAt.value else now
  }

  /** One read receipt per message, in the order given. */
  function ReceiptFrames(msgs: seq<Message>, now: DateTime): (evs: seq<LegacyEvent>)
    ensures |evs| == |msgs|
    ensures forall k :: 0 <= k < |msgs| ==> evs[k] == ReadReceipt(msgs[k].id, ReceiptTime(msgs[k], now))
  {
    if msgs == [] then []
    else ReceiptFrames(msgs[..|msgs| - 1], now) + [ReadReceipt(msgs[|msgs| - 1].id, ReceiptTime(msgs[|msgs| - 1], now))]
  }

  // ---------------------------------------------------------------------
  // Rows

  /** Unread messages the contact sent directly to the user (the legacy sender/recipient addressing). */
  predicate UnreadDirect(m: Message, contact: nat, user: nat)
  {
    m.senderId == contact && m.recipientId == Some(user) && !m.read
  }

  function UnreadDirectIds(msgs: map<nat, Message>, contact: nat, user: nat): (ids: set<nat>)
    ensures forall k :: k in ids <==> k in msgs && UnreadDirect(msgs[k], contact, user)
  {
    set k | k in msgs && UnreadDirect(msgs[k], contact, user)
  }

  /** The messages table after opening the chat with `contact`: everything the contact sent the user is read. */
  function MarkDirectRead(msgs: map<nat, Message>, contact: nat, user: nat, now: DateTime): (r: map<nat, Message>)
    ensures r.Keys == msgs.Keys
  {
    map k | k in msgs :: if UnreadDirect(msgs[k], contact, user) then Marked(msgs[k], now) else msgs[k]
  }

  /**
   * Opening the chat reads every message the contact sent the user, marks
   * each at `now`, touches no other message, and leaves nothing unread
   * between them.
   */
  lemma MarkDirectReadEffect(msgs: map<nat, Message>, contact: nat, user: nat, now: DateTime)
    ensures var r := MarkDirectRead(msgs, contact, user, now);
      (forall k :: k in msgs && msgs[k].senderId == contact && msgs[k].recipientId == Some(user) ==> r[k].read) &&
      (forall k :: k in msgs && UnreadDirect(msgs[k], contact, user) ==> r[k] == Marked(msgs[k], now)) &&
      (forall k :: k in msgs && !UnreadDirect(msgs[k], contact, user) ==> r[k] == msgs[k]) &&
      UnreadDirectIds(r, contact, user) == {}
  {
  }

  lemma MarkDirectReadPointwise(msgs: map<nat, Message>, updated: map<nat, Message>, contact: nat, user: nat, now: DateTime)
    requires updated.Keys == msgs.Keys
    requires forall k :: k in msgs ==>
      updated[k] == if k in UnreadDirectIds(msgs, contact, user) then Marked(msgs[k], now) else msgs[k]
    ensures updated == MarkDirectRead(msgs, contact, user, now)
  {
  }

  /** The rows of the listed ids, in order. */
  function RowsOf(msgs: map<nat, Message>, ids: seq<nat>): (rows: seq<Message>)
    requires forall j :: 0 <= j < |ids| ==> ids[j] in msgs
    ensures |rows| == |ids|
    ensures forall j :: 0 <= j < |ids| ==> rows[j] == msgs[ids[j]]
  {
    if ids == [] then [] else RowsOf(msgs, ids[..|ids| - 1]) + [msgs[ids[|ids| - 1]]]
  }

  /** The unread rows keep their ids when they are marked read. */
  lemma UnreadRowsStay(msgs: map<nat, Message>, contact: nat, user: nat, now: DateTime)
    ensures var unread := Ascending(UnreadDirectIds(msgs, contact, user));
      forall j :: 0 <= j < |unread| ==> unread[j] in MarkDirectRead(msgs, contact, user, now)
  {
    var unread := Ascending(UnreadDirectIds(msgs, contact, user));
    forall j | 0 <= j < |unread| ensures unread[j] in MarkDirectRead(msgs, contact, user, now) {
      assert unread[j] in UnreadDirectIds(msgs, contact, user);
    }
  }

  /**
   * The receipts sent on opening a chat carry the opening time: every row
   * they list was just marked read at `now`.
   */
  lemma {:induction false} OpeningReceiptsAtNow(msgs: map<nat, Message>, contact: nat, user: nat, now: DateTime, ids: seq<nat>)
    requires forall j :: 0 <= j < |ids| ==> ids[j] in UnreadDirectIds(msgs, contact, user)
    requires forall k :: k in msgs ==> msgs[k].id == k
    ensures forall j :: 0 <= j < |ids| ==> ids[j] in MarkDirectRead(msgs, contact, user, now)
    ensures forall j :: 0 <= j < |ids| ==>
      ReceiptFrames(RowsOf(MarkDirectRead(msgs, contact, user, now), ids), now)[j] == ReadReceipt(ids[j], now)
  {
    var r := MarkDirectRead(msgs, contact, user, now);
    forall j | 0 <= j < |ids| ensures r[ids[j]].readAt == Some(now) && r[ids[j]].id == msgs[ids[j]].id {
      assert UnreadDirect(msgs[ids[j]], contact, user);
    }
  }

  /** A direct message row: no room, addressed to the recipient; delivered at once when the recipient holds a socket. */
  function DirectRow(id: nat, sender: nat, recipient: nat, content: string, now: DateTime, online: bool): (m: Message)
    ensures m.id == id && m.senderId == sender && m.recipientId == Some(recipient) && m.content == content
    ensures m.roomId.None? && m.timestamp == now && !m.read
    ensures m.delivered == online && (m.deliveredAt.Some? <==> online)
  {
    var row := NewMessage(id, None, sender, content, now).(recipientId := Some(recipient));
    if online then row.(delivered := true, deliveredAt := Some(now)) else row
  }

  /** The other members of a group that have a user row. */
  function GroupOthers(t: Tables, group: nat, user: nat): (ids: set<nat>)
    ensures forall u :: u in ids <==> (group, u) in t.groupMembers && u in t.users && u != user
  {
    set k | k in t.groupMembers && k.0 == group && k.1 in t.users && k.1 != user :: k.1
  }

  /**
   * The receipt for the original sender of a message: on its socket, when it
   * is not the acknowledging user and its id maps to a username that holds a
   * socket; otherwise nothing.
   */
  function Notice(conns: map<Key, Conn>, idToName: map<nat, string>, me: nat, sender: nat, ev: LegacyEvent): (q: seq<Send<LegacyEvent>>)
    ensures q != [] <==> sender != me && sender in idToName && UserKey(idToName[sender]) in conns
    ensures q != [] ==> q == [Send(conns[UserKey(idToName[sender])], ev)]
  {
    if sender != me && sender in idToName && UserKey(idToName[sender]) in conns
    then [Send(conns[UserKey(idToName[sender])], ev)]
    else []
  }

  /**
   * A group message reaches a socket iff it is the group-chat socket of
   * another member of the group; the sender's own key is never addressed.
   */
  lemma GroupRelayTargets(t: Tables, conns: map<Key, Conn>, group: nat, me: nat, ev: LegacyEvent)
    ensures forall s :: s in ToMembers(t.users, conns, Some(group), Ascending(GroupOthers(t, group, me)), ev) <==>
      s.event == ev && exists u :: (group, u) in t.groupMembers && u != me && Holds(t.users, conns, Some(group), u, s.to)
  {
    ToMembersTargets(t.users, conns, Some(group), Ascending(GroupOthers(t, group, me)), ev);
    forall s: Send<LegacyEvent> | s.event == ev && exists u :: (group, u) in t.groupMembers && u != me && Holds(t.users, conns, Some(group), u, s.to)
      ensures exists u :: u in Ascending(GroupOthers(t, group, me)) && Holds(t.users, conns, Some(group), u, s.to)
    {
      var u :| (group, u) in t.groupMembers && u != me && Holds(t.users, conns, Some(group), u, s.to);
      assert u in Ascending(GroupOthers(t, group, me));
    }
  }

  /**
   * The read receipts sent on opening a direct chat: one per unread message
   * of the contact to the user, on the contact's socket, when there was at
   * least one and the contact is online under both its username and its id
   * mapping; otherwise none.
   */
  function OpeningReceipts(t: Tables, conns: map<Key, Conn>, idToName: map<nat, string>, contact: nat, me: nat, now: DateTime): seq<Send<LegacyEvent>>
    requires contact in t.users
  {
    var unread := Ascending(UnreadDirectIds(t.messages, contact, me));
    var marked := MarkDirectRead(t.messages, contact, me, now);
    if unread != [] && UserKey(t.users[contact].username) in conns &&
       contact in idToName && idToName[contact] != "" && UserKey(idToName[contact]) in conns
    then OnSocket(conns[UserKey(idToName[contact])], ReceiptFrames(RowsOf(marked, unread), now))
    else []
  }

  /** The username <-> id maps agree with the users table. */
  predicate MapsAgree(users: map<nat, User>, nameToId: map<string, nat>, idToName: map<nat, string>)
  {
    (forall n :: n in nameToId ==> nameToId[n] in users && users[nameToId[n]].username == n) &&
    (forall i :: i in idToName ==> i in users && users[i].username == idToName[i])
  }

  /** With unique usernames, maps that agree with the table are inverse to each other wherever both are defined. */
  lemma MapsAgreeInverse(users: map<nat, User>, nameToId: map<string, nat>, idToName: map<nat, string>, n: string)
    requires MapsAgree(users, nameToId, idToName) && UsernamesUnique(users)
    requires n in nameToId && nameToId[n] in idToName
    ensures idToName[nameToId[n]] == n
  {
  }

  /** Recording a user's name and id keeps the maps in agreement with the table. */
  lemma RecordKeepsAgreement(users: map<nat, User>, nameToId: map<string, nat>, idToName: map<nat, string>, u: nat)
    requires MapsAgree(users, nameToId, idToName) && u in users
    ensures MapsAgree(users, nameToId[users[u].username := u], idToName[u := users[u].username])
  {
  }

  // ---------------------------------------------------------------------
  // The server

  class Server {
    const db: Db
    /** key -> the one socket registered under it (`active_connections`). */
    var conns: map<Key, Conn>
    var nameToId: map<string, nat>
    var idToName: map<nat, string>
    /** Every frame sent so far, in order. */
    var outbox: seq<Send<LegacyEvent>>

    ghost predicate Valid()
      reads this, db
    {
      MapsAgree(db.t.users, nameToId, idToName)
    }

    constructor (store: Db)
      ensures db == store && conns == map[] && nameToId == map[] && idToName == map[] && outbox == []
      ensures Valid()
    {
      db := store;
      conns := map[];
      nameToId := map[];
      idToName := map[];
      outbox := [];
    }

    method SendOn(c: Conn, ev: LegacyEvent)
      modifies this`outbox
      ensures outbox == old(outbox) + [Send(c, ev)]
    {
      outbox := outbox + [Send(c, ev)];
    }

    /** For each listed user in turn, `ev` on its socket under `scope`. */
    method SendToMembers(scope: Option<nat>, ids: seq<nat>, ev: LegacyEvent)
      modifies this`outbox
      ensures outbox == old(outbox) + ToMembers(db.t.users, conns, scope, ids, ev)
    {
      var i := 0;
      while i < |ids|
        invariant 0 <= i <= |ids|
        invariant outbox == old(outbox) + ToMembers(db.t.users, conns, scope, ids[..i], ev)
      {
        var u := ids[i];
        if u in db.t.users && KeyOf(scope, db.t.users[u].username) in conns {
          AppendAssociative(old(outbox), ToMembers(db.t.users, conns, scope, ids[..i], ev), [Send(conns[KeyOf(scope, db.t.users[u].username)], ev)]);
          SendOn(conns[KeyOf(scope, db.t.users[u].username)], ev);
        }
        ToMembersSnoc(db.t.users, conns, scope, ids, i, ev);
        i := i + 1;
      }
      assert ids[..i] == ids;
    }

    /**
     * broadcast_presence_update: nothing when the id has no (non-empty)
     * username mapping; otherwise, for each direct room of the user and each
     * other member of it, the status on that member's socket when it has one.
     */
    method BroadcastPresence(user: nat, status: string)
      modifies this`outbox
      ensures user in idToName && idToName[user] != "" ==>
        outbox == old(outbox) + ToRoomMembers(db.t, conns, Ascending(DirectRoomsOf(db.t, user)), user,
          StatusUpdate(user, idToName[user], status))
      ensures !(user in idToName && idToName[user] != "") ==> outbox == old(outbox)
    {
      if user !in idToName || idToName[user] == "" {
        return;
      }
      var ev := StatusUpdate(user, idToName[user], status);
      var rooms := Ascending(DirectRoomsOf(db.t, user));
      var i := 0;
      while i < |rooms|
        invariant 0 <= i <= |rooms|
        invariant outbox == old(outbox) + ToRoomMembers(db.t, conns, rooms[..i], user, ev)
      {
        var members := Ascending(OthersIn(db.t, rooms[i], user));
        SendToMembers(None, members, ev);
        AppendAssociative(old(outbox), ToRoomMembers(db.t, conns, rooms[..i], user, ev), ToMembers(db.t.users, conns, None, members, ev));
        ToRoomMembersSnoc(db.t, conns, rooms, i, user, ev);
        i := i + 1;
      }
      assert rooms[..i] == rooms;
    }

    /**
     * send_read_receipts: nothing when the sender has no (non-empty)
     * username mapping or no socket; otherwise one receipt per message, in
     * order, on the sender's socket.
     */
    method SendReadReceipts(sender: nat, msgs: seq<Message>, now: DateTime)
      modifies this`outbox
      ensures sender in idToName && idToName[sender] != "" && UserKey(idToName[sender]) in conns ==>
        outbox == old(outbox) + OnSocket(conns[UserKey(idToName[sender])], ReceiptFrames(msgs, now))
      ensures !(sender in idToName && idToName[sender] != "" && UserKey(idToName[sender]) in conns) ==>
        outbox == old(outbox)
    {
      if sender !in idToName || idToName[sender] == "" || UserKey(idToName[sender]) !in conns {
        return;
      }
      SendReceiptsOn(conns[UserKey(idToName[sender])], msgs, now);
    }

    /** The loop of send_read_receipts: one receipt per message, in order, on socket `c`. */
    method SendReceiptsOn(c: Conn, msgs: seq<Message>, now: DateTime)
      modifies this`outbox
      ensures outbox == old(outbox) + OnSocket(c, ReceiptFrames(msgs, now))
    {
      var evs := ReceiptFrames(msgs, now);
      for i := 0 to |msgs|
        invariant outbox == old(outbox) + OnSocket(c, evs[..i])
      {
        SendOn(c, ReadReceipt(msgs[i].id, ReceiptTime(msgs[i], now)));
        OnSocketSnoc(c, evs, i);
        AppendAssociative(old(outbox), OnSocket(c, evs[..i]), [Send(c, evs[i])]);
      }
      assert evs[..|msgs|] == evs;
    }

    /**
     * /ws/presence: a missing or empty username, or one with no user row,
     * closes the socket with 1008. Otherwise both id maps learn the user, the
     * row goes online with last_seen = now, the socket replaces any earlier
     * one of the username, and the user's direct contacts hear "online".
     */
    method PresenceConnect(ws: Conn, username: Option<string>, now: DateTime) returns (refused: Option<Refusal>)
      requires Valid()
      modifies this, db
      ensures Valid()
      ensures !Truthy(username) ==>
        refused == Some(Refusal(Events.PolicyViolation, "Username is required")) && db.t == old(db.t) &&
        conns == old(conns) && nameToId == old(nameToId) && idToName == old(idToName) && outbox == old(outbox)
      ensures Truthy(username) && UserByName(old(db.t.users), username.value).None? ==>
        refused == Some(Refusal(Events.PolicyViolation, "User not found")) && db.t == old(db.t) &&
        conns == old(conns) && nameToId == old(nameToId) && idToName == old(idToName) && outbox == old(outbox)
      ensures Truthy(username) && UserByName(old(db.t.users), username.value).Some? ==>
        var name := username.value;
        var u := UserByName(old(db.t.users), name).value;
        refused.None? &&
        nameToId == old(nameToId)[name := u] && idToName == old(idToName)[u := name] &&
        db.t == old(db.t).(users := old(db.t.users)[u := old(db.t.users[u]).(isOnline := true, lastSeen := Some(now))]) &&
        conns == old(conns)[UserKey(name) := ws] &&
        outbox == old(outbox) + ToRoomMembers(db.t, conns, Ascending(DirectRoomsOf(db.t, u)), u, StatusUpdate(u, name, "online"))
    {
      if !Truthy(username) {
        return Some(Refusal(Events.PolicyViolation, "Username is required"));
      }
      var name := username.value;
      var found := UserByName(db.t.users, name);
      if found.None? {
        return Some(Refusal(Events.PolicyViolation, "User not found"));
      }
      var u := found.value;
      RecordKeepsAgreement(db.t.users, nameToId, idToName, u);
      nameToId := nameToId[name := u];
      idToName := idToName[u := name];
      db.t := db.t.(users := db.t.users[u := db.t.users[u].(isOnline := true, lastSeen := Some(now))]);
      conns := conns[UserKey(name) := ws];
      BroadcastPresence(u, "online");
      refused := None;
    }

    /**
     * cleanup_user_disconnect: the username's socket and both id mappings are
     * dropped and the row (when it exists) goes offline with last_seen = now.
     * The "offline" broadcast is called without being awaited, so it never
     * runs: nothing is sent.
     */
    method CleanupDisconnect(username: string, user: nat, now: DateTime)
      requires Valid()
      modifies this`conns, this`nameToId, this`idToName, db
      ensures Valid()
      ensures conns == old(conns) - {UserKey(username)}
      ensures nameToId == old(nameToId) - {username} && idToName == old(idToName) - {user}
      ensures user in old(db.t.users) ==>
        db.t == old(db.t).(users := old(db.t.users)[user := old(db.t.users[user]).(isOnline := false, lastSeen := Some(now))])
      ensures user !in old(db.t.users) ==> db.t == old(db.t)
    {
      conns := conns - {UserKey(username)};
      nameToId := nameToId - {username};
      idToName := idToName - {user};
      if user in db.t.users {
        db.t := db.t.(users := db.t.users[user := db.t.users[user].(isOnline := false, lastSeen := Some(now))]);
      }
    }

    /** The frame for the original sender of a message, on its socket, when it is someone else and is online. */
    method NotifySender(me: nat, sender: nat, ev: LegacyEvent)
      modifies this`outbox
      ensures outbox == old(outbox) + Notice(conns, idToName, me, sender, ev)
    {
      if sender != me && sender in idToName && UserKey(idToName[sender]) in conns {
        SendOn(conns[UserKey(idToName[sender])], ev);
      }
    }

    /**
     * /ws/chat/{contact_id}: a missing username, an unknown username or an
     * unknown contact closes the socket with 1008, in that order. Otherwise
     * the socket replaces any earlier one of the username, the id maps learn
     * the user, every unread message the contact sent the user is marked read
     * at `now`, and, when there were some and the contact is online, the
     * contact gets one read receipt per message.
     */
    method OpenDirectChat(ws: Conn, username: Option<string>, contact: nat, now: DateTime) returns (refused: Option<Refusal>)
      requires Valid()
      modifies this, db
      ensures Valid()
      ensures refused.Some? ==>
        db.t == old(db.t) && conns == old(conns) && nameToId == old(nameToId) && idToName == old(idToName) && outbox == old(outbox)
      ensures !Truthy(username) ==> refused == Some(Refusal(Events.PolicyViolation, "Username is required"))
      ensures Truthy(username) && UserByName(old(db.t.users), username.value).None? ==>
        refused == Some(Refusal(Events.PolicyViolation, "User not found"))
      ensures Truthy(username) && UserByName(old(db.t.users), username.value).Some? && contact !in old(db.t.users) ==>
        refused == Some(Refusal(Events.PolicyViolation, "Recipient not found"))
      ensures Truthy(username) && UserByName(old(db.t.users), username.value).Some? && contact in old(db.t.users) ==>
        refused.None? && ChatOpened(ws, username.value, UserByName(old(db.t.users), username.value).value, contact, now)
    {
      if !Truthy(username) {
        return Some(Refusal(Events.PolicyViolation, "Username is required"));
      }
      var name := username.value;
      var found := UserByName(db.t.users, name);
      if found.None? {
        return Some(Refusal(Events.PolicyViolation, "User not found"));
      }
      if contact !in db.t.users {
        return Some(Refusal(Events.PolicyViolation, "Recipient not found"));
      }
      Open(ws, name, found.value, contact, now);
      refused := None;
    }

    /** The part of opening a direct chat after its guards. */
    method Open(ws: Conn, name: string, me: nat, contact: nat, now: DateTime)
      requires Valid() && me in db.t.users && db.t.users[me].username == name && contact in db.t.users
      modifies this`conns, this`nameToId, this`idToName, this`outbox, db
      ensures Valid()
      ensures ChatOpened(ws, name, me, contact, now)
    {
      conns := conns[UserKey(name) := ws];
      RecordKeepsAgreement(db.t.users, nameToId, idToName, me);
      nameToId := nameToId[name := me];
      idToName := idToName[me := name];
      MarkAndReceipt(me, contact, now);
    }

    /** Marks the contact's unread messages to the user read and sends the receipts. */
    method MarkAndReceipt(me: nat, contact: nat, now: DateTime)
      requires contact in db.t.users
      modifies this`outbox, db
      ensures db.t == old(db.t).(messages := MarkDirectRead(old(db.t.messages), contact, me, now))
      ensures outbox == old(outbox) + OpeningReceipts(old(db.t), conns, idToName, contact, me, now)
    {
      var t0 := db.t;
      var _ := MarkUnreadDirect(me, contact, now);
      SendOpeningReceipts(t0, contact, me, now);
    }

    /** The receipts of opening a chat on the tables `t` as they were before the marking. */
    method SendOpeningReceipts(t: Tables, contact: nat, me: nat, now: DateTime)
      requires contact in t.users
      modifies this`outbox
      ensures outbox == old(outbox) + OpeningReceipts(t, conns, idToName, contact, me, now)
    {
      var unread := Ascending(UnreadDirectIds(t.messages, contact, me));
      var marked := MarkDirectRead(t.messages, contact, me, now);
      UnreadRowsStay(t.messages, contact, me, now);
      if unread != [] && UserKey(t.users[contact].username) in conns {
        SendReadReceipts(contact, RowsOf(marked, unread), now);
      }
    }

    /** Marks the contact's unread messages to the user read at `now`; returns their ids in ascending order. */
    method MarkUnreadDirect(me: nat, contact: nat, now: DateTime) returns (unread: seq<nat>)
      modifies db
      ensures unread == Ascending(UnreadDirectIds(old(db.t.messages), contact, me))
      ensures db.t == old(db.t).(messages := MarkDirectRead(old(db.t.messages), contact, me, now))
    {
      var msgs := db.t.messages;
      unread := Ascending(UnreadDirectIds(msgs, contact, me));
      var updated := MarkEach(msgs, unread, now);
      MarkDirectReadPointwise(msgs, updated, contact, me, now);
      db.t := db.t.(messages := updated);
    }

    /**
     * What opening a direct chat did: the socket and the id maps are
     * recorded; the contact's unread messages to the user are read; read
     * receipts went to the contact's socket when there were unread messages
     * and the contact is online under both its username and its id mapping.
     */
    twostate predicate ChatOpened(ws: Conn, name: string, me: nat, contact: nat, now: DateTime)
      requires old(contact in db.t.users)
      reads this, db
    {
      conns == old(conns)[UserKey(name) := ws] &&
      nameToId == old(nameToId)[name := me] && idToName == old(idToName)[me := name] &&
      db.t == old(db.t).(messages := MarkDirectRead(old(db.t.messages), contact, me, now)) &&
      outbox == old(outbox) + OpeningReceipts(old(db.t), conns, idToName, contact, me, now)
    }

    /**
     * handle_text_message: the message is stored for the recipient; when the
     * recipient holds a socket it gets the message, the row is delivered, and
     * the echo says "delivered"; otherwise the echo says "sent".
     */
    method HandleText(ws: Conn, me: nat, recipient: nat, content: string, time: Option<string>, now: DateTime)
      requires me in db.t.users && recipient in db.t.users
      modifies this`outbox, db
      ensures TextSent(ws, me, recipient, content, time, now)
    {
      var online := UserKey(db.t.users[recipient].username) in conns;
      var row := DirectRow(NextId(db.t.messages.Keys), me, recipient, content, now, online);
      db.t := db.t.(messages := db.t.messages[row.id := row]);
      var name := db.t.users[me].username;
      if online {
        SendOn(conns[UserKey(db.t.users[recipient].username)], DirectMessage(row.id, name, content, time, None));
        SendOn(ws, DirectMessage(row.id, name, content, time, Some("delivered")));
      } else {
        SendOn(ws, DirectMessage(row.id, name, content, time, Some("sent")));
      }
    }

    /** What a direct text message did: one new row, the copy to an online recipient, and the echo with its status. */
    twostate predicate TextSent(ws: Conn, me: nat, recipient: nat, content: string, time: Option<string>, now: DateTime)
      requires old(me in db.t.users && recipient in db.t.users)
      reads this, db
    {
      var key := UserKey(old(db.t.users[recipient]).username);
      var online := key in old(conns);
      var id := NextId(old(db.t.messages).Keys);
      var name := old(db.t.users[me]).username;
      db.t == old(db.t).(messages := old(db.t.messages)[id := DirectRow(id, me, recipient, content, now, online)]) &&
      if online then
        outbox == old(outbox) + [Send(old(conns)[key], DirectMessage(id, name, content, time, None)),
                                 Send(ws, DirectMessage(id, name, content, time, Some("delivered")))]
      else outbox == old(outbox) + [Send(ws, DirectMessage(id, name, content, time, Some("sent")))]
    }

    /**
     * What a read receipt did: an unknown id changes nothing; an existing
     * message is marked read at `now` and its sender gets the notice.
     */
    twostate predicate ReadReceiptHandled(me: nat, messageId: Option<nat>, now: DateTime)
      reads this, db
    {
      if messageId.None? || messageId.value !in old(db.t.messages) then db.t == old(db.t) && outbox == old(outbox)
      else
        var id := messageId.value;
        db.t == old(db.t).(messages := old(db.t.messages)[id := Marked(old(db.t.messages[id]), now)]) &&
        outbox == old(outbox) + Notice(conns, idToName, me, old(db.t.messages[id]).senderId, ReadReceipt(id, now))
    }

    /**
     * What a delivery receipt did: an unknown or already delivered message
     * changes nothing; otherwise it becomes delivered at `now` and its sender
     * gets the notice.
     */
    twostate predicate DeliveryReceiptHandled(me: nat, messageId: Option<nat>, now: DateTime)
      reads this, db
    {
      if messageId.None? || messageId.value !in old(db.t.messages) || old(db.t.messages[messageId.value]).delivered then
        db.t == old(db.t) && outbox == old(outbox)
      else
        var id := messageId.value;
        db.t == old(db.t).(messages := old(db.t.messages)[id := old(db.t.messages[id]).(delivered := true, deliveredAt := Some(now))]) &&
        outbox == old(outbox) + Notice(conns, idToName, me, old(db.t.messages[id]).senderId, DeliveredReceipt(id, now))
    }

    /**
     * handle_read_receipt: an existing message is marked read at `now` (even
     * when it already was), and its original sender is told when it is
     * someone else and is online; an unknown id changes nothing.
     */
    method HandleReadReceipt(me: nat, messageId: Option<nat>, now: DateTime)
      modifies this`outbox, db
      ensures ReadReceiptHandled(me, messageId, now)
    {
      if messageId.None? || messageId.value !in db.t.messages {
        return;
      }
      var id := messageId.value;
      var m := db.t.messages[id];
      db.t := db.t.(messages := db.t.messages[id := Marked(m, now)]);
      NotifySender(me, m.senderId, ReadReceipt(id, now));
    }

    /**
     * handle_delivery_receipt: only an existing message not yet delivered
     * changes: it becomes delivered at `now` and its original sender is told
     * when it is someone else and is online.
     */
    method HandleDeliveryReceipt(me: nat, messageId: Option<nat>, now: DateTime)
      modifies this`outbox, db
      ensures DeliveryReceiptHandled(me, messageId, now)
    {
      if messageId.None? || messageId.value !in db.t.messages || db.t.messages[messageId.value].delivered {
        return;
      }
      var id := messageId.value;
      var m := db.t.messages[id];
      db.t := db.t.(messages := db.t.messages[id := m.(delivered := true, deliveredAt := Some(now))]);
      NotifySender(me, m.senderId, DeliveredReceipt(id, now));
    }

    /**
     * handle_direct_message: a frame without a type is a text message; a
     * type other than the three handled ones is ignored.
     */
    method DirectDispatch(ws: Conn, me: nat, recipient: nat, frame: DirectFrame, now: DateTime)
      requires me in db.t.users && recipient in db.t.users
      modifies this`outbox, db
      ensures frame.kind.None? || frame.kind == Some("message") ==> TextSent(ws, me, recipient, frame.content, frame.time, now)
      ensures frame.kind == Some("read_receipt") ==> ReadReceiptHandled(me, frame.messageId, now)
      ensures frame.kind == Some("delivered_receipt") ==> DeliveryReceiptHandled(me, frame.messageId, now)
      ensures frame.kind.Some? && frame.kind.value !in {"message", "read_receipt", "delivered_receipt"} ==>
        db.t == old(db.t) && outbox == old(outbox)
    {
      var kind := if frame.kind.None? then "message" else frame.kind.value;
      if kind == "message" {
        HandleText(ws, me, recipient, frame.content, frame.time, now);
      } else if kind == "read_receipt" {
        HandleReadReceipt(me, frame.messageId, now);
      } else if kind == "delivered_receipt" {
        HandleDeliveryReceipt(me, frame.messageId, now);
      }
    }

    /**
     * /ws/group/{group_id}: a missing username, an unknown username or a
     * caller without a group_members row closes the socket with 1008, in that
     * order; otherwise the socket is stored under the group key and the id
     * maps learn the user.
     */
    method GroupConnect(ws: Conn, username: Option<string>, group: nat) returns (refused: Option<Refusal>)
      requires Valid()
      modifies this`conns, this`nameToId, this`idToName
      ensures Valid()
      ensures refused.Some? ==> conns == old(conns) && nameToId == old(nameToId) && idToName == old(idToName)
      ensures !Truthy(username) ==> refused == Some(Refusal(Events.PolicyViolation, "Username is required"))
      ensures Truthy(username) && UserByName(db.t.users, username.value).None? ==>
        refused == Some(Refusal(Events.PolicyViolation, "User not found"))
      ensures Truthy(username) && UserByName(db.t.users, username.value).Some? ==>
        var u := UserByName(db.t.users, username.value).value;
        if (group, u) !in db.t.groupMembers then refused == Some(Refusal(Events.PolicyViolation, "Not a member of this group"))
        else (refused.None? && conns == old(conns)[GroupKey(group, username.value) := ws] &&
          nameToId == old(nameToId)[username.value := u] && idToName == old(idToName)[u := username.value])
    {
      if !Truthy(username) {
        return Some(Refusal(Events.PolicyViolation, "Username is required"));
      }
      var name := username.value;
      var found := UserByName(db.t.users, name);
      if found.None? {
        return Some(Refusal(Events.PolicyViolation, "User not found"));
      }
      var u := found.value;
      if (group, u) !in db.t.groupMembers {
        return Some(Refusal(Events.PolicyViolation, "Not a member of this group"));
      }
      conns := conns[GroupKey(group, name) := ws];
      RecordKeepsAgreement(db.t.users, nameToId, idToName, u);
      nameToId := nameToId[name := u];
      idToName := idToName[u := name];
      refused := None;
    }

    /** The group socket closes: its key leaves the registry; the id maps stay. */
    method GroupDisconnect(username: string, group: nat)
      modifies this`conns
      ensures conns == old(conns) - {GroupKey(group, username)}
    {
      conns := conns - {GroupKey(group, username)};
    }

    /**
     * handle_group_message: the message is stored with a read row for its
     * own sender; every other member holding a socket on this group's chat
     * gets it; then the sender gets the echo marked as its own.
     */
    method HandleGroupMessage(ws: Conn, me: nat, group: nat, content: string, time: Option<string>, now: DateTime)
      requires me in db.t.users
      modifies this`outbox, db
      ensures
        var id := NextId(old(db.t.groupMessages).Keys);
        var frame := GroupMessageFrame(id, me, DisplayName(old(db.t.users[me])), content, time, group, None);
        db.t == old(db.t).(groupMessages := old(db.t.groupMessages)[id := GroupMessage(id, group, me, content, now)],
                           groupReads := old(db.t.groupReads) + [GroupRead(id, me, now)]) &&
        outbox == old(outbox) + ToMembers(db.t.users, conns, Some(group), Ascending(GroupOthers(db.t, group, me)), frame) +
          [Send(ws, frame.(ownMark := Some("user")))]
    {
      var id := NextId(db.t.groupMessages.Keys);
      db.t := db.t.(groupMessages := db.t.groupMessages[id := GroupMessage(id, group, me, content, now)],
                    groupReads := db.t.groupReads + [GroupRead(id, me, now)]);
      var frame := GroupMessageFrame(id, me, DisplayName(db.t.users[me]), content, time, group, None);
      SendToMembers(Some(group), Ascending(GroupOthers(db.t, group, me)), frame);
      SendOn(ws, frame.(ownMark := Some("user")));
    }
  }
}
