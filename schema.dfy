/**
 * The relational store of the chat server (app/database.py): one datatype per
 * table row, the tables as finite maps keyed by their primary keys, and the
 * queries on them that the routers share.
 *
 * A composite primary key ((room_id, user_id) of room_members, (group_id,
 * user_id) of group_members, (user_id, blocked_user_id) of blocked_users) is
 * the key of its map, so a pair occurs at most once by construction. Unique
 * columns (username, email) are predicates over the users table.
 */
module Schema {
  import opened Common

  // ---------------------------------------------------------------------
  // Time

  /**
   * A wall-clock instant as the server clock or a stored column gives it,
   * down to the microsecond, as Python's `datetime` and the stored columns keep it.
   */
  datatype DateTime = DateTime(year: int, month: int, day: int, hour: int, minute: int, second: int, micro: int)
  {
    predicate Valid()
    {
      1 <= year <= 9999 && 1 <= month <= 12 && 1 <= day <= 31 && 0 <= hour < 24 && 0 <= minute < 60 && 0 <= second < 60 &&
      0 <= micro < 1000000
    }

    predicate SameDate(other: DateTime)
    {
      year == other.year && month == other.month && day == other.day
    }
  }

  /** Days since 1970-01-01 of a proleptic Gregorian date. */
  function DaysFromCivil(y: int, m: int, d: int): int
  {
    var yy := if m <= 2 then y - 1 else y;
    var era := yy / 400;
    var yoe := yy - era * 400;
    var mp := if m > 2 then m - 3 else m + 9;
    var doy := (153 * mp + 2) / 5 + d - 1;
    var doe := yoe * 365 + yoe / 4 - yoe / 100 + doy;
    era * 146097 + doe - 719468
  }

  function DayNumber(t: DateTime): int
  {
    DaysFromCivil(t.year, t.month, t.day)
  }

  /** Seconds since the epoch; differences of these are `timedelta.total_seconds()`. */
  function Seconds(t: DateTime): int
  {
    DayNumber(t) * 86400 + t.hour * 3600 + t.minute * 60 + t.second
  }

  /** Microseconds since the epoch: the order of stored timestamps and of `ORDER BY timestamp`. */
  function Instant(t: DateTime): int
  {
    Seconds(t) * 1000000 + t.micro
  }

  // ---------------------------------------------------------------------
  // Rows

  const DefaultUserAvatar: string := "/static/images/shrek.jpg"
  const DefaultGroupAvatar: string := "/static/images/shrek-logo.png"

  datatype User = User(
    id: nat,
    username: string,
    email: string,
    hashedPassword: string,
    fullName: Option<string>,
    bio: Option<string>,
    phone: Option<string>,
    country: Option<string>,
    isOnline: bool,
    lastSeen: Option<DateTime>,
    avatar: Option<string>)

  datatype Room = Room(id: nat, name: Option<string>, isGroup: bool, createdAt: DateTime)

  /** A room_members row; the key (room_id, user_id) is its map key. */
  datatype Membership = Membership(joinedAt: DateTime, isAdmin: bool)

  /**
   * A messages row. The fields from `edited` on are used by the routers but
   * not declared in app/database.py; they are part of the row here. The older
   * chat variant addresses its direct messages by `recipientId`, a column
   * app/database.py does not declare, and leaves `roomId` null although the
   * column is NOT NULL; the row admits both here.
   */
  datatype Message = Message(
    id: nat,
    roomId: Option<nat>,
    senderId: nat,
    content: string,
    timestamp: DateTime,
    delivered: bool,
    read: bool,
    deliveredAt: Option<DateTime>,
    readAt: Option<DateTime>,
    edited: bool,
    editedAt: Option<DateTime>,
    recipientId: Option<nat>,
    originalContent: Option<string>,
    isTranslated: bool,
    translatedAt: Option<DateTime>,
    translatedTo: Option<string>)

  /**
   * A group_chats row; app/database.py gives it the id of the group's rooms
   * row. `name` and `createdAt` are used by the group routes but not declared
   * in app/database.py; they are part of the row here.
   */
  datatype GroupChat = GroupChat(
    id: nat, name: string, description: Option<string>, avatar: Option<string>, createdAt: DateTime)

  /** A group_members row; the key (group_id, user_id) is its map key. */
  datatype GroupMember = GroupMember(isAdmin: bool, addedAt: DateTime)

  /**
   * A group message. The group routes use the tables group_messages and
   * group_message_reads, which app/database.py does not declare; their rows
   * are modelled with the columns the routes use.
   */
  datatype GroupMessage = GroupMessage(id: nat, groupId: nat, senderId: nat, content: string, timestamp: DateTime)

  /** A read receipt of a group message; the table declares no key, so rows form a sequence. */
  datatype GroupRead = GroupRead(messageId: nat, userId: nat, readAt: DateTime)

  datatype Tables = Tables(
    users: map<nat, User>,
    rooms: map<nat, Room>,
    members: map<(nat, nat), Membership>,
    messages: map<nat, Message>,
    groups: map<nat, GroupChat>,
    groupMembers: map<(nat, nat), GroupMember>,
    groupMessages: map<nat, GroupMessage>,
    groupReads: seq<GroupRead>,
    blocked: map<(nat, nat), DateTime>)

  /** The store the routers share; each request reads and replaces its tables. */
  class Db {
    var t: Tables

    constructor (initial: Tables)
      ensures t == initial
    {
      t := initial;
    }
  }

  // ---------------------------------------------------------------------
  // Row defaults

  /** A user row as inserted: offline, with the default avatar. */
  function NewUser(id: nat, username: string, email: string, hashedPassword: string, fullName: Option<string>): (u: User)
    ensures u.id == id && u.username == username && u.email == email && u.hashedPassword == hashedPassword
    ensures !u.isOnline && u.avatar == Some(DefaultUserAvatar)
  {
    User(id, username, email, hashedPassword, fullName, None, None, None, false, None, Some(DefaultUserAvatar))
  }

  /** A room row as inserted: not a group unless the caller says so. */
  function NewRoom(id: nat, name: Option<string>, createdAt: DateTime): (r: Room)
    ensures r.id == id && r.name == name && !r.isGroup
  {
    Room(id, name, false, createdAt)
  }

  /** A message row of a room as inserted: neither delivered nor read, never edited or translated. */
  function NewMessage(id: nat, roomId: Option<nat>, senderId: nat, content: string, timestamp: DateTime): (m: Message)
    ensures m.id == id && m.roomId == roomId && m.senderId == senderId && m.content == content && m.timestamp == timestamp
    ensures !m.delivered && !m.read && !m.edited && !m.isTranslated
    ensures m.recipientId.None? && m.originalContent.None?
  {
    Message(id, roomId, senderId, content, timestamp, false, false, None, None, false, None, None, None, false, None, None)
  }

  // ---------------------------------------------------------------------
  // Integrity of the tables

  predicate UsernamesUnique(users: map<nat, User>)
  {
    forall a, b :: a in users && b in users && users[a].username == users[b].username ==> a == b
  }

  predicate EmailsUnique(users: map<nat, User>)
  {
    forall a, b :: a in users && b in users && users[a].email == users[b].email ==> a == b
  }

  /** Every row is stored under its own id and the unique columns hold. */
  predicate Valid(t: Tables)
  {
    (forall k :: k in t.users ==> t.users[k].id == k) &&
    (forall k :: k in t.rooms ==> t.rooms[k].id == k) &&
    (forall k :: k in t.messages ==> t.messages[k].id == k) &&
    (forall k :: k in t.groups ==> t.groups[k].id == k) &&
    (forall k :: k in t.groupMessages ==> t.groupMessages[k].id == k) &&
    UsernamesUnique(t.users) && EmailsUnique(t.users)
  }

  /** Every membership row names an existing room (the foreign key of room_members). */
  predicate MembersReferToRooms(t: Tables)
  {
    forall k :: k in t.members ==> k.0 in t.rooms
  }

  /** Every group_members row names an existing group. */
  predicate GroupMembersReferToGroups(t: Tables)
  {
    forall k :: k in t.groupMembers ==> k.0 in t.groups
  }

  /** Every stored group message time is a real instant. */
  predicate GroupTimesValid(gm: map<nat, GroupMessage>)
  {
    forall k :: k in gm ==> gm[k].timestamp.Valid()
  }

  /** Every stored message time is a real instant. */
  predicate TimesValid(msgs: map<nat, Message>)
  {
    forall k :: k in msgs ==> msgs[k].timestamp.Valid()
  }

  // ---------------------------------------------------------------------
  // Shared queries

  /** The user row with this username, if any (`.first()`: the smallest id). */
  function UserByName(users: map<nat, User>, name: string): (r: Option<nat>)
    ensures r.Some? ==> r.value in users && users[r.value].username == name
    ensures r.None? ==> forall k :: k in users ==> users[k].username != name
    ensures r.Some? ==> forall k :: k in users && users[k].username == name ==> r.value <= k
  {
    var ks := set k | k in users && users[k].username == name;
    assert forall k :: k in users && users[k].username == name ==> k in ks;
    if ks == {} then None else Some(Min(ks))
  }

  /** The user row with this email, if any (`.first()`: the smallest id). */
  function UserByEmail(users: map<nat, User>, email: string): (r: Option<nat>)
    ensures r.Some? ==> r.value in users && users[r.value].email == email
    ensures r.None? ==> forall k :: k in users ==> users[k].email != email
  {
    var ks := set k | k in users && users[k].email == email;
    assert forall k :: k in users && users[k].email == email ==> k in ks;
    if ks == {} then None else Some(Min(ks))
  }

  /** With unique usernames, the lookup finds the one row that carries the name. */
  lemma UserByNameIsTheUser(users: map<nat, User>, name: string, k: nat)
    requires UsernamesUnique(users)
    requires k in users && users[k].username == name
    ensures UserByName(users, name) == Some(k)
  {
  }

  /** The display name of a user: the full name when set, otherwise the username. */
  function DisplayName(u: User): (s: string)
    ensures Truthy(u.fullName) ==> s == u.fullName.value
    ensures !Truthy(u.fullName) ==> s == u.username
  {
    if Truthy(u.fullName) then u.fullName.value else u.username
  }

  function MembersOf(t: Tables, room: nat): (ids: set<nat>)
    ensures forall u :: u in ids <==> (room, u) in t.members
  {
    set k | k in t.members && k.0 == room :: k.1
  }

  function RoomsOf(t: Tables, user: nat): (ids: set<nat>)
    ensures forall r :: r in ids <==> (r, user) in t.members
  {
    set k | k in t.members && k.1 == user :: k.0
  }

  /** The existing non-group rooms the user belongs to. */
  function DirectRoomsOf(t: Tables, user: nat): (ids: set<nat>)
    ensures forall r :: r in ids <==> (r, user) in t.members && r in t.rooms && !t.rooms[r].isGroup
  {
    set r | r in RoomsOf(t, user) && r in t.rooms && !t.rooms[r].isGroup
  }

  function GroupMembersOf(t: Tables, group: nat): (ids: set<nat>)
    ensures forall u :: u in ids <==> (group, u) in t.groupMembers
  {
    set k | k in t.groupMembers && k.0 == group :: k.1
  }

  predicate IsMember(t: Tables, room: nat, user: nat)
  {
    (room, user) in t.members
  }

  /** The other members of a room that have a user row (the join of room_members with users). */
  function OthersIn(t: Tables, room: nat, user: nat): (ids: set<nat>)
    ensures forall u :: u in ids <==> (room, u) in t.members && u in t.users && u != user
  {
    set k | k in t.members && k.0 == room && k.1 in t.users && k.1 != user :: k.1
  }

  /** Messages in the room from someone else that nobody has marked read. */
  predicate UnreadFromOthers(m: Message, room: nat, user: nat)
  {
    m.roomId == Some(room) && m.senderId != user && !m.read
  }

  function UnreadIds(msgs: map<nat, Message>, room: nat, user: nat): (ids: set<nat>)
    ensures forall k :: k in ids <==> k in msgs && UnreadFromOthers(msgs[k], room, user)
  {
    set k | k in msgs && UnreadFromOthers(msgs[k], room, user)
  }

  /**
   * The key with the largest stamp, the smallest such key among equals, if
   * any: the row an `ORDER BY <time> DESC` query hands back first when rows
   * with equal times come in ascending id order.
   */
  function Newest(stamp: map<nat, int>): (r: Option<nat>)
    ensures r.Some? ==> r.value in stamp && forall k :: k in stamp ==> stamp[k] <= stamp[r.value]
    ensures r.Some? ==> forall k :: k in stamp && stamp[k] == stamp[r.value] ==> r.value <= k
    ensures r.None? <==> stamp.Keys == {}
  {
    if stamp.Keys == {} then None
    else
      var latest := set k | k in stamp && forall j :: j in stamp ==> stamp[j] <= stamp[k];
      assert latest != {} by {
        LatestExists(stamp, stamp.Keys);
        var w :| w in stamp && forall j :: j in stamp ==> stamp[j] <= stamp[w];
        assert w in latest;
      }
      var m := Min(latest);
      assert forall k :: k in stamp && stamp[k] == stamp[m] ==> k in latest;
      Some(m)
  }

  lemma LatestExists(stamp: map<nat, int>, ks: set<nat>)
    requires ks != {} && ks <= stamp.Keys
    ensures exists k :: k in ks && forall j :: j in ks ==> stamp[j] <= stamp[k]
    decreases |ks|
  {
    var y :| y in ks;
    if ks != {y} {
      var rest := ks - {y};
      LatestExists(stamp, rest);
      var k :| k in rest && forall j :: j in rest ==> stamp[j] <= stamp[k];
      if stamp[k] < stamp[y] {
        forall j | j in ks ensures stamp[j] <= stamp[y] {
          if j != y { assert j in rest; }
        }
      } else {
        forall j | j in ks ensures stamp[j] <= stamp[k] {
          if j != y { assert j in rest; }
        }
      }
    } else {
      assert forall j :: j in ks ==> j == y;
    }
  }

  /** The id of the room's newest message, if any (latest timestamp, then smallest id). */
  function LastMessageIn(msgs: map<nat, Message>, room: nat): (r: Option<nat>)
    ensures r.Some? ==> r.value in msgs && msgs[r.value].roomId == Some(room)
    ensures r.Some? ==> forall k :: k in msgs && msgs[k].roomId == Some(room) ==>
      Instant(msgs[k].timestamp) <= Instant(msgs[r.value].timestamp)
    ensures r.Some? ==> forall k ::
      (k in msgs && msgs[k].roomId == Some(room) &&
       Instant(msgs[k].timestamp) == Instant(msgs[r.value].timestamp)) ==> r.value <= k
    ensures r.None? <==> forall k :: k in msgs ==> msgs[k].roomId != Some(room)
  {
    var stamp := map k | k in msgs && msgs[k].roomId == Some(room) :: Instant(msgs[k].timestamp);
    assert forall k :: k in msgs && msgs[k].roomId == Some(room) ==> k in stamp;
    Newest(stamp)
  }
}
