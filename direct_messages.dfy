/**
 * The REST routes of direct chats (app/routers/direct_messages.py): the room
 * list of the caller, get-or-create of the direct room of a pair, one page of
 * a room's history (which also marks the room read), and the user search.
 *
 * The caller is the user whose username the session resolves to; the session
 * itself is not part of this model, so the username is a parameter. The
 * server clock is a parameter too.
 */
module DirectMessages {
  import opened Common
  import opened Schema
  import opened Sorting
  import opened Utils
  import opened Outbox
  import Realtime
  import Events

  /** The caller's row id, or 404 when the session names no user. */
  function Caller(t: Tables, username: string): (r: Result<nat>)
    ensures r.Ok? <==> UserByName(t.users, username).Some?
    ensures r.Ok? ==> r.value in t.users && t.users[r.value].username == username
    ensures r.Err? ==> r.error == NotFound("User not found")
  {
    match UserByName(t.users, username)
    case None => Err(NotFound("User not found"))
    case Some(me) => Ok(me)
  }

  // ---------------------------------------------------------------------
  // The direct room of a pair

  /** The non-group rooms that have both users as members. */
  function SharedDirectRooms(t: Tables, a: nat, b: nat): (ids: set<nat>)
    ensures forall r :: r in ids <==> r in t.rooms && !t.rooms[r].isGroup && (r, a) in t.members && (r, b) in t.members
  {
    DirectRoomsOf(t, a) * DirectRoomsOf(t, b)
  }

  /** The direct room of the pair the lookup finds first (the smallest id), if any. */
  function ExistingDirectRoom(t: Tables, a: nat, b: nat): (r: Option<nat>)
    ensures r.Some? <==> SharedDirectRooms(t, a, b) != {}
    ensures r.Some? ==> r.value in SharedDirectRooms(t, a, b)
    ensures r.Some? ==> forall x :: x in SharedDirectRooms(t, a, b) ==> r.value <= x
  {
    var s := SharedDirectRooms(t, a, b);
    if s == {} then None else Some(Min(s))
  }

  /** The reply of both get-or-create routes. */
  datatype DirectRoomInfo = DirectRoomInfo(id: nat, name: string, username: string, avatar: Option<string>, isGroup: bool)

  function Info(room: nat, target: User): DirectRoomInfo
  {
    DirectRoomInfo(room, DisplayName(target), target.username, target.avatar, false)
  }

  /** The internal name of a new direct room. */
  function DirectRoomName(a: User, b: User): string
  {
    "DM: " + a.username + " - " + b.username
  }

  /**
   * The tables after inserting the room `id` as a non-group room and the two
   * membership rows of the pair; nothing else changes.
   */
  function WithDirectRoom(t: Tables, id: nat, a: nat, b: nat, now: DateTime): (r: Tables)
    requires a in t.users && b in t.users
    ensures r.rooms == t.rooms[id := NewRoom(id, Some(DirectRoomName(t.users[a], t.users[b])), now)]
    ensures forall k :: k in r.members <==> k in t.members || k == (id, a) || k == (id, b)
    ensures forall k :: k in t.members && k.0 != id ==> r.members[k] == t.members[k]
    ensures r.(rooms := t.rooms, members := t.members) == t
  {
    t.(rooms := t.rooms[id := NewRoom(id, Some(DirectRoomName(t.users[a], t.users[b])), now)],
       members := t.members[(id, a) := Membership(now, false)][(id, b) := Membership(now, false)])
  }

  /**
   * When memberships refer to existing rooms, the new room has exactly the
   * two users as members, and a later lookup for the pair finds it.
   */
  lemma NewDirectRoomHasThePair(t: Tables, a: nat, b: nat, now: DateTime)
    requires a in t.users && b in t.users
    requires MembersReferToRooms(t)
    requires SharedDirectRooms(t, a, b) == {}
    ensures var id := NextId(t.rooms.Keys);
      var r := WithDirectRoom(t, id, a, b, now);
      MembersOf(r, id) == {a, b} && !r.rooms[id].isGroup &&
      ExistingDirectRoom(r, a, b) == Some(id) && MembersReferToRooms(r)
  {
    var id := NextId(t.rooms.Keys);
    NewRoomHasTwoMembers(t, id, a, b, now);
    assert MembersReferToRooms(WithDirectRoom(t, id, a, b, now));
    NewRoomIsTheShared(t, id, a, b, now);
  }

  /** A room under an unused id gets exactly the two users as members. */
  lemma NewRoomHasTwoMembers(t: Tables, id: nat, a: nat, b: nat, now: DateTime)
    requires a in t.users && b in t.users
    requires MembersReferToRooms(t) && id !in t.rooms
    ensures MembersOf(WithDirectRoom(t, id, a, b, now), id) == {a, b}
  {
    assert forall u :: (id, u) !in t.members;
  }

  /** With no direct room shared before, the new room is the only one the pair shares. */
  lemma NewRoomIsTheShared(t: Tables, id: nat, a: nat, b: nat, now: DateTime)
    requires a in t.users && b in t.users
    requires SharedDirectRooms(t, a, b) == {}
    ensures SharedDirectRooms(WithDirectRoom(t, id, a, b, now), a, b) == {id}
  {
    var r := WithDirectRoom(t, id, a, b, now);
    forall x | x in SharedDirectRooms(r, a, b) ensures x == id {
      assert x == id || x in SharedDirectRooms(t, a, b);
    }
  }

  /** The guard order of get_direct_room: the caller, then the target id. */
  function DirectRoomGuard(t: Tables, username: string, target: nat): (r: Result<nat>)
    ensures r.Ok? <==> Caller(t, username).Ok? && target in t.users
    ensures r.Ok? ==> r.value == Caller(t, username).value
    ensures Caller(t, username).Err? ==> r == Err(NotFound("User not found"))
    ensures Caller(t, username).Ok? && target !in t.users ==> r == Err(NotFound("Target user not found"))
  {
    match Caller(t, username)
    case Err(e) => Err(e)
    case Ok(me) => if target in t.users then Ok(me) else Err(NotFound("Target user not found"))
  }

  /**
   * The guard order of create_direct_room_by_username: the caller, an empty
   * name, an unknown name, then the caller's own name. On success, the pair
   * (caller, target).
   */
  function ByUsernameGuard(t: Tables, username: string, toAdd: string): (r: Result<(nat, nat)>)
    ensures Caller(t, username).Err? ==> r == Err(NotFound("User not found"))
    ensures Caller(t, username).Ok? && toAdd == "" ==> r == Err(BadRequest("Username to add is required"))
    ensures Caller(t, username).Ok? && toAdd != "" && UserByName(t.users, toAdd).None? ==> r == Err(NotFound("User not found"))
    ensures r.Ok? <==> (Caller(t, username).Ok? && toAdd != "" && UserByName(t.users, toAdd).Some? &&
      Caller(t, username).value != UserByName(t.users, toAdd).value)
    ensures r.Ok? ==> r.value == (Caller(t, username).value, UserByName(t.users, toAdd).value)
    ensures r.Ok? ==> r.value.0 != r.value.1 && r.value.1 in t.users && t.users[r.value.1].username == toAdd
  {
    match Caller(t, username)
    case Err(e) => Err(e)
    case Ok(me) =>
      if toAdd == "" then Err(BadRequest("Username to add is required"))
      else match UserByName(t.users, toAdd)
        case None => Err(NotFound("User not found"))
        case Some(target) =>
          if me == target then Err(BadRequest("Cannot create chat with yourself"))
          else Ok((me, target))
  }

  /**
   * What get-or-create did, given the tables before it: return the existing
   * room untouched; for a pair that is one user twice, fail on the second
   * membership insert (the composite key (room_id, user_id)) with nothing
   * stored; otherwise insert the room with the next id, both memberships, and
   * tell the target about it.
   */
  twostate predicate PairRoomOpened(hub: Realtime.Hub, me: nat, target: nat, now: DateTime, new r: Result<DirectRoomInfo>)
    requires old(me in hub.db.t.users && target in hub.db.t.users)
    reads hub, hub.db
  {
    var t := old(hub.db.t);
    match ExistingDirectRoom(t, me, target)
    case Some(room) =>
      r == Ok(Info(room, t.users[target])) && hub.db.t == t && hub.outbox == old(hub.outbox)
    case None =>
      if me == target then
        r == Err(InternalError("Internal Server Error")) && hub.db.t == t && hub.outbox == old(hub.outbox)
      else
        var id := NextId(t.rooms.Keys);
        var after := WithDirectRoom(t, id, me, target, now);
        r == Ok(Info(id, t.users[target])) && hub.db.t == after &&
        hub.outbox == old(hub.outbox) +
          (if IsOnline(hub.active, t.users[target].username) then
             ToUsers(after.users, hub.active, [target],
               [Events.NewRoom(Realtime.DirectRoomCard(after.rooms[id], t.users[me]))])
           else [])
  }

  method OpenPairRoom(hub: Realtime.Hub, me: nat, target: nat, now: DateTime) returns (r: Result<DirectRoomInfo>)
    requires me in hub.db.t.users && target in hub.db.t.users
    modifies hub.db, hub`outbox
    ensures PairRoomOpened(hub, me, target, now, r)
    ensures hub.active == old(hub.active)
  {
    var t := hub.db.t;
    var existing := ExistingDirectRoom(t, me, target);
    if existing.Some? {
      return Ok(Info(existing.value, t.users[target]));
    }
    if me == target {
      return Err(InternalError("Internal Server Error"));
    }
    var id := NextId(t.rooms.Keys);
    hub.db.t := WithDirectRoom(t, id, me, target, now);
    hub.NotifyNewRoom(id, target, me);
    r := Ok(Info(id, t.users[target]));
  }

  /** GET /api/rooms/direct/{user_id}: get-or-create the direct room with a user id. */
  method GetDirectRoom(hub: Realtime.Hub, username: string, target: nat, now: DateTime) returns (r: Result<DirectRoomInfo>)
    modifies hub.db, hub`outbox
    ensures DirectRoomGuard(old(hub.db.t), username, target).Err? ==>
      r == Err(DirectRoomGuard(old(hub.db.t), username, target).error) &&
      hub.db.t == old(hub.db.t) && hub.outbox == old(hub.outbox)
    ensures DirectRoomGuard(old(hub.db.t), username, target).Ok? ==>
      PairRoomOpened(hub, DirectRoomGuard(old(hub.db.t), username, target).value, target, now, r)
  {
    var g := DirectRoomGuard(hub.db.t, username, target);
    if g.Err? {
      return Err(g.error);
    }
    r := OpenPairRoom(hub, g.value, target, now);
  }

  /** POST /api/rooms/direct: get-or-create the direct room with a username. */
  method CreateDirectRoomByUsername(hub: Realtime.Hub, username: string, toAdd: string, now: DateTime)
    returns (r: Result<DirectRoomInfo>)
    modifies hub.db, hub`outbox
    ensures ByUsernameGuard(old(hub.db.t), username, toAdd).Err? ==>
      r == Err(ByUsernameGuard(old(hub.db.t), username, toAdd).error) &&
      hub.db.t == old(hub.db.t) && hub.outbox == old(hub.outbox)
    ensures ByUsernameGuard(old(hub.db.t), username, toAdd).Ok? ==>
      var pair := ByUsernameGuard(old(hub.db.t), username, toAdd).value;
      PairRoomOpened(hub, pair.0, pair.1, now, r)
  {
    var g := ByUsernameGuard(hub.db.t, username, toAdd);
    if g.Err? {
      return Err(g.error);
    }
    r := OpenPairRoom(hub, g.value.0, g.value.1, now);
  }

  // ---------------------------------------------------------------------
  // One page of a room's history

  /** The guard order of get_room_messages: the caller, the room, then membership. */
  function HistoryGuard(t: Tables, username: string, room: nat): (r: Result<nat>)
    ensures r.Ok? <==> Caller(t, username).Ok? && room in t.rooms && IsMember(t, room, Caller(t, username).value)
    ensures r.Ok? ==> r.value == Caller(t, username).value
    ensures Caller(t, username).Err? ==> r == Err(NotFound("User not found"))
    ensures Caller(t, username).Ok? && room !in t.rooms ==> r == Err(NotFound("Room not found"))
    ensures Caller(t, username).Ok? && room in t.rooms && !IsMember(t, room, Caller(t, username).value) ==>
      r == Err(Forbidden("You don't have access to this room"))
  {
    match Caller(t, username)
    case Err(e) => Err(e)
    case Ok(me) =>
      if room !in t.rooms then Err(NotFound("Room not found"))
      else if !IsMember(t, room, me) then Err(Forbidden("You don't have access to this room"))
      else Ok(me)
  }

  /** A message of the room that the `before_id` filter keeps (a zero or absent id filters nothing). */
  predicate OnPage(m: Message, room: nat, before: Option<int>)
  {
    m.roomId == Some(room) && (before.None? || before.value == 0 || m.id < before.value)
  }

  function CandidateIds(msgs: map<nat, Message>, room: nat, before: Option<int>): (ids: set<nat>)
    ensures forall k :: k in ids <==> k in msgs && OnPage(msgs[k], room, before)
  {
    set k | k in msgs && OnPage(msgs[k], room, before)
  }

  /** The rows the query selects, before ordering (in id order). */
  function Candidates(msgs: map<nat, Message>, room: nat, before: Option<int>): (q: seq<Message>)
    ensures |q| == |CandidateIds(msgs, room, before)|
  {
    var ids := Ascending(CandidateIds(msgs, room, before));
    seq(|ids|, i requires 0 <= i < |ids| => msgs[ids[i]])
  }

  /** The selected rows are exactly the matching messages. */
  lemma CandidatesAreTheMatches(msgs: map<nat, Message>, room: nat, before: Option<int>)
    ensures forall i :: 0 <= i < |Candidates(msgs, room, before)| ==>
      exists k :: k in CandidateIds(msgs, room, before) && msgs[k] == Candidates(msgs, room, before)[i]
    ensures forall k :: k in CandidateIds(msgs, room, before) ==> msgs[k] in Candidates(msgs, room, before)
  {
    var ids := Ascending(CandidateIds(msgs, room, before));
    var q := Candidates(msgs, room, before);
    forall i | 0 <= i < |q|
      ensures exists k :: k in CandidateIds(msgs, room, before) && msgs[k] == q[i]
    {
      assert ids[i] in CandidateIds(msgs, room, before);
    }
    forall k | k in CandidateIds(msgs, room, before) ensures msgs[k] in q {
      assert q[IndexOf(ids, k)] == msgs[k];
    }
  }

  function IndexOf(ids: seq<nat>, k: nat): (i: nat)
    requires k in ids
    ensures i < |ids| && ids[i] == k
  {
    if ids[0] == k then 0 else 1 + IndexOf(ids[1..], k)
  }

  /** `ORDER BY timestamp DESC`. */
  predicate NewerOrSame(a: Message, b: Message)
  {
    Instant(a.timestamp) >= Instant(b.timestamp)
  }

  lemma NewerOrSameIsTotal()
    ensures TotalPreorder(NewerOrSame)
  {
  }

  /** `LIMIT n`; SQLite reads a negative limit as no limit. */
  function Limit<T>(s: seq<T>, n: int): (q: seq<T>)
    ensures |q| == if 0 <= n < |s| then n else |s|
    ensures q <= s
  {
    if 0 <= n < |s| then s[..n] else s
  }

  /** The page the query returns: the newest matching rows first, at most `limit` of them. */
  function Page(msgs: map<nat, Message>, room: nat, before: Option<int>, limit: int): seq<Message>
  {
    Limit(SortWith(Candidates(msgs, room, before), NewerOrSame), limit)
  }

  function Reverse<T>(s: seq<T>): (q: seq<T>)
    ensures |q| == |s|
    ensures forall i :: 0 <= i < |s| ==> q[i] == s[|s| - 1 - i]
  {
    if s == [] then [] else Reverse(s[1..]) + [s[0]]
  }

  /**
   * The page holds at most `limit` rows (all of them for a negative limit), each
   * a message of the room below `before_id`; newest first; and no matching row
   * left off the page is newer than a row on it.
   */
  lemma {:induction false} PageIsNewest(msgs: map<nat, Message>, room: nat, before: Option<int>, limit: int)
    requires forall k :: k in msgs ==> msgs[k].id == k
    ensures var p := Page(msgs, room, before, limit);
      var n := |CandidateIds(msgs, room, before)|;
      |p| == (if 0 <= limit < n then limit else n) &&
      (forall i :: 0 <= i < |p| ==> p[i].id in msgs && msgs[p[i].id] == p[i] && OnPage(p[i], room, before)) &&
      (forall i, j :: 0 <= i < j < |p| ==> Instant(p[i].timestamp) >= Instant(p[j].timestamp)) &&
      (forall k, i :: k in CandidateIds(msgs, room, before) && msgs[k] !in p && 0 <= i < |p| ==>
         Instant(msgs[k].timestamp) <= Instant(p[i].timestamp))
  {
    var c := Candidates(msgs, room, before);
    CandidatesAreTheMatches(msgs, room, before);
    var s := SortWith(c, NewerOrSame);
    NewerOrSameIsTotal();
    var p := Limit(s, limit);
    forall i | 0 <= i < |p| ensures p[i].id in msgs && msgs[p[i].id] == p[i] && OnPage(p[i], room, before) {
      assert p[i] == s[i];
      assert s[i] in multiset(c);
      assert s[i] in c;
    }
    forall k, i | k in CandidateIds(msgs, room, before) && msgs[k] !in p && 0 <= i < |p|
      ensures Instant(msgs[k].timestamp) <= Instant(p[i].timestamp)
    {
      assert msgs[k] in c;
      assert msgs[k] in multiset(s);
      var j :| 0 <= j < |s| && s[j] == msgs[k];
      assert p == s[..|p|];
      assert NewerOrSame(s[i], s[j]);
    }
  }

  /** One entry of the history reply. */
  datatype MessageView = MessageView(
    id: nat,
    content: string,
    senderId: nat,
    sender: string,
    senderName: string,
    timestamp: DateTime,
    time: string,
    delivered: bool,
    read: bool)

  /**
   * A row as the caller sees it: "user" for the caller's own messages, the
   * sender's username (or "unknown") otherwise; the flags as stored.
   */
  function View(users: map<nat, User>, me: nat, m: Message): (v: MessageView)
    requires m.timestamp.Valid()
    ensures v.id == m.id && v.content == m.content && v.delivered == m.delivered && v.read == m.read
    ensures v.sender == "user" <==> m.senderId == me || (m.senderId in users && users[m.senderId].username == "user")
    ensures ParseClock(v.time) == Some((m.timestamp.hour, m.timestamp.minute))
  {
    MessageView(m.id, m.content, m.senderId,
      if m.senderId == me then "user" else if m.senderId in users then users[m.senderId].username else "unknown",
      if m.senderId in users then DisplayName(users[m.senderId]) else "Unknown",
      m.timestamp, ClockLabel(m.timestamp.hour, m.timestamp.minute), m.delivered, m.read)
  }

  /** Formats the rows of a page oldest first: the query's order, reversed. */
  method FormatHistory(users: map<nat, User>, me: nat, rows: seq<Message>) returns (out: seq<MessageView>)
    requires forall i :: 0 <= i < |rows| ==> rows[i].timestamp.Valid()
    ensures |out| == |rows|
    ensures forall k :: 0 <= k < |out| ==> out[k] == View(users, me, Reverse(rows)[k])
  {
    out := [];
    var i := |rows|;
    while i > 0
      invariant 0 <= i <= |rows|
      invariant |out| == |rows| - i
      invariant forall k :: 0 <= k < |out| ==> out[k] == View(users, me, rows[|rows| - 1 - k])
    {
      i := i - 1;
      out := out + [View(users, me, rows[i])];
    }
  }

  /**
   * GET /api/messages/{room_id}: the page, oldest first, built from the rows
   * as they were; then every unread message from others in the room is marked
   * read at `now`.
   */
  method GetRoomMessages(db: Db, username: string, room: nat, before: Option<int>, limit: int, now: DateTime)
    returns (r: Result<seq<MessageView>>)
    requires TimesValid(db.t.messages)
    modifies db
    ensures HistoryGuard(old(db.t), username, room).Err? ==>
      r == Err(HistoryGuard(old(db.t), username, room).error) && db.t == old(db.t)
    ensures HistoryGuard(old(db.t), username, room).Ok? ==>
      var me := HistoryGuard(old(db.t), username, room).value;
      var page := Reverse(Page(old(db.t.messages), room, before, limit));
      r.Ok? && |r.value| == |page| &&
      (forall k :: 0 <= k < |page| ==> page[k].timestamp.Valid() && r.value[k] == View(old(db.t.users), me, page[k])) &&
      db.t == old(db.t).(messages := MarkRead(old(db.t.messages), room, me, now))
  {
    var g := HistoryGuard(db.t, username, room);
    if g.Err? {
      return Err(g.error);
    }
    var me := g.value;
    var rows := Page(db.t.messages, room, before, limit);
    PageRowsValid(db.t.messages, room, before, limit);
    var views := FormatHistory(db.t.users, me, rows);
    var _ := ResetUnreadCount(db, room, me, now);
    r := Ok(views);
  }

  lemma PageRowsValid(msgs: map<nat, Message>, room: nat, before: Option<int>, limit: int)
    requires TimesValid(msgs)
    ensures forall i :: 0 <= i < |Page(msgs, room, before, limit)| ==> Page(msgs, room, before, limit)[i].timestamp.Valid()
    ensures forall i :: 0 <= i < |Reverse(Page(msgs, room, before, limit))| ==>
      Reverse(Page(msgs, room, before, limit))[i].timestamp.Valid()
  {
    var c := Candidates(msgs, room, before);
    CandidatesValid(msgs, room, before);
    var s := SortWith(c, NewerOrSame);
    PermutationKeepsValid(c, s);
    var p := Page(msgs, room, before, limit);
    assert forall i :: 0 <= i < |p| ==> p[i] == s[i];
  }

  lemma CandidatesValid(msgs: map<nat, Message>, room: nat, before: Option<int>)
    requires TimesValid(msgs)
    ensures forall i :: 0 <= i < |Candidates(msgs, room, before)| ==> Candidates(msgs, room, before)[i].timestamp.Valid()
  {
    var ids := Ascending(CandidateIds(msgs, room, before));
    var c := Candidates(msgs, room, before);
    forall i | 0 <= i < |c| ensures c[i].timestamp.Valid() {
      assert c[i] == msgs[ids[i]];
    }
  }

  lemma PermutationKeepsValid(c: seq<Message>, s: seq<Message>)
    requires multiset(s) == multiset(c)
    requires forall i :: 0 <= i < |c| ==> c[i].timestamp.Valid()
    ensures forall i :: 0 <= i < |s| ==> s[i].timestamp.Valid()
  {
    forall i | 0 <= i < |s| ensures s[i].timestamp.Valid() {
      assert s[i] in multiset(c);
      var j :| 0 <= j < |c| && c[j] == s[i];
    }
  }


  // ---------------------------------------------------------------------
  // User search

  function LowerAscii(c: char): char
  {
    if 'A' <= c <= 'Z' then (c as int + 32) as char else c
  }

  /** ASCII case folding, as SQLite's ILIKE compares. */
  function Fold(s: string): (f: string)
    ensures |f| == |s|
    ensures forall i :: 0 <= i < |s| ==> f[i] == LowerAscii(s[i])
  {
    if s == [] then [] else [LowerAscii(s[0])] + Fold(s[1..])
  }

  /** `needle` occurs in `hay` as a contiguous part. */
  predicate Occurs(needle: string, hay: string)
    decreases |hay|
  {
    needle <= hay || (hay != [] && Occurs(needle, hay[1..]))
  }

  /**
   * SQLite's LIKE, case for case: `%` matches any run of characters, `_`
   * exactly one character, and every other character itself. The search
   * gives no ESCAPE clause, so no character of the pattern is literal.
   */
  predicate Like(p: string, s: string)
    decreases |p|, |s|
  {
    if p == [] then s == []
    else if p[0] == '%' then Like(p[1..], s) || (s != [] && Like(p, s[1..]))
    else s != [] && (p[0] == '_' || p[0] == s[0]) && Like(p[1..], s[1..])
  }

  /**
   * `column.ilike(f"%{query}%")`, which SQLAlchemy renders on SQLite as
   * `lower(column) LIKE lower(pattern)`: the folded query between two `%`
   * against the folded text. A `%` or `_` typed in the query is a wildcard.
   */
  predicate Matches(text: string, query: string)
  {
    Like("%" + Fold(query) + "%", Fold(text))
  }

  /** The query holds neither LIKE wildcard. */
  predicate Literal(q: string)
  {
    '%' !in q && '_' !in q
  }

  lemma {:induction false} PercentMatchesAll(s: string)
    ensures Like("%", s)
    decreases |s|
  {
    assert "%"[1..] == [];
    if s != [] {
      PercentMatchesAll(s[1..]);
    }
  }

  /** A literal pattern followed by `%` matches exactly the texts it starts. */
  lemma {:induction false} LiteralThenPercent(p: string, s: string)
    requires Literal(p)
    ensures Like(p + "%", s) <==> p <= s
    decreases |p|
  {
    if p == [] {
      assert p + "%" == "%";
      PercentMatchesAll(s);
    } else {
      assert (p + "%")[0] == p[0];
      assert (p + "%")[1..] == p[1..] + "%";
      assert Literal(p[1..]) by {
        assert forall c :: c in p[1..] ==> c in p;
      }
      if s != [] {
        LiteralThenPercent(p[1..], s[1..]);
        assert p <= s <==> p[0] == s[0] && p[1..] <= s[1..];
      }
    }
  }

  /** A literal pattern between two `%` matches exactly the texts it occurs in. */
  lemma {:induction false} LiteralInPercents(p: string, s: string)
    requires Literal(p)
    ensures Like("%" + p + "%", s) <==> Occurs(p, s)
    decreases |s|
  {
    var pat := "%" + p + "%";
    assert pat[0] == '%';
    assert pat[1..] == p + "%";
    LiteralThenPercent(p, s);
    if s != [] {
      LiteralInPercents(p, s[1..]);
    }
  }

  lemma FoldKeepsLiteral(q: string)
    requires Literal(q)
    ensures Literal(Fold(q))
  {
    forall c | c in Fold(q) ensures c != '%' && c != '_' {
      var i :| 0 <= i < |Fold(q)| && Fold(q)[i] == c;
      assert q[i] != '%' && q[i] != '_';
    }
  }

  /** For a query without wildcards, the ILIKE search is case-blind containment. */
  lemma LiteralQueryIsContainment(text: string, query: string)
    requires Literal(query)
    ensures Matches(text, query) <==> Occurs(Fold(query), Fold(text))
  {
    FoldKeepsLiteral(query);
    LiteralInPercents(Fold(query), Fold(text));
  }

  /** The query "_" is a wildcard: it matches every non-empty text, not only texts holding '_'. */
  lemma UnderscoreMatchesAnyText(text: string)
    ensures Matches(text, "_") <==> text != []
  {
    var t := Fold(text);
    assert Fold("_") == "_";
    var pat := "%" + "_" + "%";
    assert pat == "%_%";
    assert pat[1..] == "_%";
    assert "_%"[1..] == "%";
    assert Matches(text, "_") == Like(pat, t);
    if t != [] {
      PercentMatchesAll(t[1..]);
      assert Like("_%", t);
    } else {
      assert !Like("_%", t);
      assert Like(pat, t) == Like("_%", t);
    }
  }

  /** The search hits the user by username or by a stored full name. */
  predicate UserMatches(u: User, query: string)
  {
    Matches(u.username, query) || (u.fullName.Some? && Matches(u.fullName.value, query))
  }

  function MatchingOthers(t: Tables, me: nat, query: string): (ids: set<nat>)
    ensures forall k :: k in ids <==> k in t.users && k != me && UserMatches(t.users[k], query)
  {
    set k | k in t.users && k != me && UserMatches(t.users[k], query)
  }

  /** The ids the search query returns: the first ten matches in id order. */
  function SearchIds(t: Tables, me: nat, query: string): seq<nat>
  {
    Limit(Ascending(MatchingOthers(t, me, query)), 10)
  }

  /**
   * The search returns at most ten users, never the caller, each a match, in
   * increasing id order; when it returns fewer than ten, it returns every match.
   */
  lemma SearchIdsBounds(t: Tables, me: nat, query: string)
    ensures var ids := SearchIds(t, me, query);
      |ids| <= 10 && me !in ids && StrictlyIncreasing(ids) &&
      (forall k :: k in ids ==> k in t.users && UserMatches(t.users[k], query)) &&
      (|ids| < 10 ==> forall k :: k in t.users && k != me && UserMatches(t.users[k], query) ==> k in ids)
  {
    var all := Ascending(MatchingOthers(t, me, query));
    var ids := SearchIds(t, me, query);
    assert ids == all[..|ids|];
    forall k | k in ids ensures k in all {
      var i :| 0 <= i < |ids| && ids[i] == k;
      assert all[i] == k;
    }
  }

  /** One entry of the search reply. */
  datatype UserHit = UserHit(
    id: nat, username: string, fullName: Option<string>, avatar: Option<string>, hasChat: bool, roomId: Option<nat>)

  /** The entry of a found user: whether a direct room with the caller exists, and which. */
  function Hit(t: Tables, me: nat, k: nat): (h: UserHit)
    requires k in t.users
    ensures h.hasChat <==> SharedDirectRooms(t, me, k) != {}
    ensures h.roomId == ExistingDirectRoom(t, me, k)
    ensures h.username == t.users[k].username
  {
    var u := t.users[k];
    var room := ExistingDirectRoom(t, me, k);
    UserHit(u.id, u.username, u.fullName, u.avatar, room.Some?, room)
  }

  /** The entries of the found users `ids`, built one at a time in the order of `ids`. */
  method BuildHits(t: Tables, me: nat, ids: seq<nat>) returns (hits: seq<UserHit>)
    requires forall k :: k in ids ==> k in t.users
    ensures |hits| == |ids|
    ensures forall i :: 0 <= i < |ids| ==> hits[i] == Hit(t, me, ids[i])
  {
    hits := [];
    var i := 0;
    while i < |ids|
      invariant 0 <= i <= |ids|
      invariant |hits| == i
      invariant forall j :: 0 <= j < i ==> hits[j] == Hit(t, me, ids[j])
    {
      hits := hits + [Hit(t, me, ids[i])];
      i := i + 1;
    }
  }

  /** GET /api/users/search: the hits of the first ten matches. */
  method SearchUsers(db: Db, username: string, query: string) returns (r: Result<seq<UserHit>>)
    ensures Caller(db.t, username).Err? ==> r == Err(NotFound("User not found"))
    ensures Caller(db.t, username).Ok? ==>
      var ids := SearchIds(db.t, Caller(db.t, username).value, query);
      r.Ok? && |r.value| == |ids| &&
      forall i :: 0 <= i < |ids| ==> ids[i] in db.t.users && r.value[i] == Hit(db.t, Caller(db.t, username).value, ids[i])
  {
    var c := Caller(db.t, username);
    if c.Err? {
      return Err(c.error);
    }
    var me := c.value;
    var t := db.t;
    var ids := SearchIds(t, me, query);
    assert forall k :: k in ids ==> k in t.users by {
      SearchIdsBounds(t, me, query);
    }
    var hits := BuildHits(t, me, ids);
    r := Ok(hits);
  }

  // ---------------------------------------------------------------------
  // The room list

  /** One entry of the caller's room list; fields a kind of room does not carry are `None`. */
  datatype RoomEntry = RoomEntry(
    id: nat,
    name: Option<string>,
    username: Option<string>,
    avatar: Option<string>,
    userId: Option<nat>,
    isGroup: bool,
    description: Option<string>,
    memberCount: Option<nat>,
    lastMessage: string,
    lastMessageTime: string,
    unreadCount: nat,
    status: Option<string>)

  /** The room's newest message as text and as "HH:MM", or the placeholders of an empty room. */
  function LastLine(msgs: map<nat, Message>, room: nat, empty: string): (r: (string, string))
    requires TimesValid(msgs)
    ensures r.1 == "Now" <==> LastMessageIn(msgs, room).None?
    ensures LastMessageIn(msgs, room).None? ==> r.0 == empty
    ensures LastMessageIn(msgs, room).Some? ==>
      var m := msgs[LastMessageIn(msgs, room).value];
      r.0 == m.content && ParseClock(r.1) == Some((m.timestamp.hour, m.timestamp.minute)) && '0' <= r.1[0] <= '9'
  {
    match LastMessageIn(msgs, room)
    case None => (empty, "Now")
    case Some(k) =>
      var ts := msgs[k].timestamp;
      var clock := ClockLabel(ts.hour, ts.minute);
      assert clock[..2] == Pad2(ts.hour);
      (msgs[k].content, clock)
  }

  /**
   * A group's entry: its group_chats row's avatar and description when that
   * row exists (the default logo and "" otherwise), the number of membership
   * rows, and the unread messages from others.
   */
  function GroupEntry(t: Tables, room: Room, me: nat): (e: RoomEntry)
    requires TimesValid(t.messages)
    ensures e.id == room.id && e.isGroup && e.name == room.name
    ensures e.memberCount == Some(|MembersOf(t, room.id)|)
    ensures e.unreadCount == |UnreadIds(t.messages, room.id, me)|
    ensures e.avatar == (if room.id in t.groups then t.groups[room.id].avatar else Some(DefaultGroupAvatar))
    ensures e.lastMessageTime == "Now" <==> LastMessageIn(t.messages, room.id).None?
    ensures LastMessageIn(t.messages, room.id).None? ==> e.lastMessage == "Group created. Click to start chatting!"
  {
    var line := LastLine(t.messages, room.id, "Group created. Click to start chatting!");
    RoomEntry(room.id, room.name, None,
      if room.id in t.groups then t.groups[room.id].avatar else Some(DefaultGroupAvatar),
      None, true,
      if room.id in t.groups then t.groups[room.id].description else Some(""),
      Some(|MembersOf(t, room.id)|), line.0, line.1, |UnreadIds(t.messages, room.id, me)|, None)
  }

  /** The other user a direct room is shown as: the first other member, or the caller for a room of one. */
  function OtherUser(t: Tables, room: nat, me: nat): (u: nat)
    requires me in t.users
    ensures u in t.users
    ensures u == me <==> OthersIn(t, room, me) == {}
    ensures u != me ==> u in OthersIn(t, room, me) && forall x :: x in OthersIn(t, room, me) ==> u <= x
  {
    var others := OthersIn(t, room, me);
    if others == {} then me else Min(others)
  }

  /** A direct room's entry, named and pictured after the other user. */
  function DirectEntry(t: Tables, room: Room, me: nat): (e: RoomEntry)
    requires TimesValid(t.messages) && me in t.users
    ensures e.id == room.id && !e.isGroup
    ensures var u := t.users[OtherUser(t, room.id, me)];
      e.name == Some(DisplayName(u)) && e.userId == Some(u.id) &&
      e.status == Some(if u.isOnline then "online" else "offline")
    ensures e.unreadCount == |UnreadIds(t.messages, room.id, me)|
    ensures e.lastMessageTime == "Now" <==> LastMessageIn(t.messages, room.id).None?
    ensures LastMessageIn(t.messages, room.id).None? ==> e.lastMessage == "Click to start chatting!"
  {
    var u := t.users[OtherUser(t, room.id, me)];
    var line := LastLine(t.messages, room.id, "Click to start chatting!");
    RoomEntry(room.id, Some(DisplayName(u)), Some(u.username),
      Some(if Truthy(u.avatar) then u.avatar.value else DefaultUserAvatar),
      Some(u.id), false, None, None, line.0, line.1, |UnreadIds(t.messages, room.id, me)|,
      Some(if u.isOnline then "online" else "offline"))
  }

  function Entry(t: Tables, room: Room, me: nat): RoomEntry
    requires TimesValid(t.messages) && me in t.users
  {
    if room.isGroup then GroupEntry(t, room, me) else DirectEntry(t, room, me)
  }

  /** The caller's rooms that have a rooms row (the join of rooms with room_members). */
  function MyRooms(t: Tables, me: nat): (ids: set<nat>)
    ensures forall r :: r in ids <==> r in t.rooms && (r, me) in t.members
  {
    set r | r in RoomsOf(t, me) && r in t.rooms
  }

  /** `sort(key=last_message_time, reverse=True)`: later labels first, ties kept in order. */
  predicate LaterLabel(a: RoomEntry, b: RoomEntry)
  {
    StrLe(b.lastMessageTime, a.lastMessageTime)
  }

  lemma LaterLabelIsTotal()
    ensures TotalPreorder(LaterLabel)
  {
    StrLeIsTotalOrder();
  }

  /** The entries of the rooms `ids`, in that order. */
  function Entries(t: Tables, me: nat, ids: seq<nat>): (q: seq<RoomEntry>)
    requires TimesValid(t.messages) && me in t.users
    requires forall i :: 0 <= i < |ids| ==> ids[i] in t.rooms
  {
    seq(|ids|, i requires 0 <= i < |ids| => Entry(t, t.rooms[ids[i]], me))
  }

  /** The loop of get_rooms: one entry per room, appended in order. */
  method BuildEntries(t: Tables, me: nat, ids: seq<nat>) returns (entries: seq<RoomEntry>)
    requires TimesValid(t.messages) && me in t.users
    requires forall i :: 0 <= i < |ids| ==> ids[i] in t.rooms
    ensures entries == Entries(t, me, ids)
  {
    entries := [];
    var i := 0;
    while i < |ids|
      invariant 0 <= i <= |ids|
      invariant entries == Entries(t, me, ids[..i])
    {
      assert ids[..i + 1] == ids[..i] + [ids[i]];
      entries := entries + [Entry(t, t.rooms[ids[i]], me)];
      i := i + 1;
    }
    assert ids[..i] == ids;
  }

  /**
   * GET /api/rooms: one entry per room of the caller, built in id order,
   * then ordered by the "HH:MM" label of the last message, latest first;
   * rooms with the same label keep their id order, as Python's stable sort
   * keeps them.
   */
  method GetRooms(db: Db, username: string) returns (r: Result<seq<RoomEntry>>)
    requires TimesValid(db.t.messages)
    ensures Caller(db.t, username).Err? ==> r == Err(NotFound("User not found"))
    ensures Caller(db.t, username).Ok? ==>
      var me := Caller(db.t, username).value;
      var ids := Ascending(MyRooms(db.t, me));
      r.Ok? && |r.value| == |ids| &&
      multiset(r.value) == multiset(Entries(db.t, me, ids)) &&
      Sorted(r.value, LaterLabel) && KeepsTieOrder(r.value, Entries(db.t, me, ids), LaterLabel)
  {
    var c := Caller(db.t, username);
    if c.Err? {
      return Err(c.error);
    }
    var me := c.value;
    var ids := Ascending(MyRooms(db.t, me));
    var entries := BuildEntries(db.t, me, ids);
    LaterLabelIsTotal();
    SortWithIsStable(entries, LaterLabel);
    r := Ok(SortWith(entries, LaterLabel));
  }

  /**
   * In a list ordered by the label, every room without messages ("Now") comes
   * before every room whose label is a clock time: "N" sorts after the digits.
   */
  lemma {:induction false} EmptyRoomsFirst(s: seq<RoomEntry>)
    requires Sorted(s, LaterLabel)
    ensures forall i, j :: (0 <= i < |s| && 0 <= j < |s| && s[j].lastMessageTime == "Now" &&
      s[i].lastMessageTime != [] && '0' <= s[i].lastMessageTime[0] <= '9') ==> j < i
  {
    forall i, j | 0 <= i < |s| && 0 <= j < |s| && s[j].lastMessageTime == "Now" &&
      s[i].lastMessageTime != [] && '0' <= s[i].lastMessageTime[0] <= '9'
      ensures j < i
    {
      if i < j {
        assert false;
      }
    }
  }
}
