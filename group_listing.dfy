/**
 * The reading routes of app/routers/groups.py: the caller's group list with
 * previews and unread counts, one group's details with its member list, and
 * a group's messages, which the caller thereby marks as read.
 */
module GroupListing {
  import opened Common
  import opened Schema
  import opened Sorting
  import opened Utils
  import Groups

  // ---------------------------------------------------------------------
  // Queries on the group tables

  /** The groups with a member row for `me` and a group row (the inner join of the query). */
  function MyGroups(t: Tables, me: nat): (ids: set<nat>)
    ensures forall g :: g in ids <==> (g, me) in t.groupMembers && g in t.groups
  {
    set k | k in t.groupMembers && k.1 == me && k.0 in t.groups :: k.0
  }

  /** The ids of a group's messages; a group_messages row is keyed by its id column. */
  function GroupMessageIds(t: Tables, g: nat): (ids: set<nat>)
    ensures forall k :: k in ids <==> k in t.groupMessages && t.groupMessages[k].groupId == g
  {
    set k | k in t.groupMessages && t.groupMessages[k].groupId == g
  }

  predicate RowsKeyedById(gm: map<nat, GroupMessage>)
  {
    forall k :: k in gm ==> gm[k].id == k
  }

  /** `ORDER BY timestamp DESC LIMIT 1`: the latest message of the group, the smallest id among equals. */
  function LastGroupMessage(t: Tables, g: nat): (r: Option<nat>)
    ensures r.None? <==> GroupMessageIds(t, g) == {}
    ensures r.Some? ==> (r.value in GroupMessageIds(t, g) &&
      forall k :: k in GroupMessageIds(t, g) ==>
        Instant(t.groupMessages[k].timestamp) <= Instant(t.groupMessages[r.value].timestamp))
    ensures r.Some? ==> forall k ::
      (k in GroupMessageIds(t, g) &&
       Instant(t.groupMessages[k].timestamp) == Instant(t.groupMessages[r.value].timestamp)) ==> r.value <= k
  {
    var stamp := map k | k in GroupMessageIds(t, g) :: Instant(t.groupMessages[k].timestamp);
    assert stamp.Keys == GroupMessageIds(t, g);
    Newest(stamp)
  }

  /** Whether `rows` holds a receipt of message `mid` for user `me`. */
  predicate HasReceipt(rows: seq<GroupRead>, mid: nat, me: nat)
  {
    exists i :: 0 <= i < |rows| && rows[i].messageId == mid && rows[i].userId == me
  }

  /** The number of receipt rows of `me` for messages among `ids` (rows, not distinct messages). */
  function ReadCount(rows: seq<GroupRead>, me: nat, ids: set<nat>): nat
  {
    if rows == [] then 0
    else
      var last := rows[|rows| - 1];
      ReadCount(rows[..|rows| - 1], me, ids) + (if last.userId == me && last.messageId in ids then 1 else 0)
  }

  /** The distinct messages among `ids` that `me` holds a receipt for. */
  function ReadIdSet(rows: seq<GroupRead>, me: nat, ids: set<nat>): set<nat>
  {
    if rows == [] then {}
    else
      var last := rows[|rows| - 1];
      ReadIdSet(rows[..|rows| - 1], me, ids) + (if last.userId == me && last.messageId in ids then {last.messageId} else {})
  }

  /** The unread count of the group list: total messages minus receipt rows, at least 0, and 0 for an empty group. */
  function Unread(t: Tables, g: nat, me: nat): (n: nat)
    ensures n <= |GroupMessageIds(t, g)|
  {
    if LastGroupMessage(t, g).None? then 0
    else
      var total := |GroupMessageIds(t, g)|;
      var read := ReadCount(t.groupReads, me, GroupMessageIds(t, g));
      if total > read then total - read else 0
  }

  lemma {:induction false} ReadIdSetBound(rows: seq<GroupRead>, me: nat, ids: set<nat>)
    ensures |ReadIdSet(rows, me, ids)| <= ReadCount(rows, me, ids)
  {
    if rows != [] {
      var init := rows[..|rows| - 1];
      var last := rows[|rows| - 1];
      ReadIdSetBound(init, me, ids);
      var a := ReadIdSet(init, me, ids);
      if last.userId == me && last.messageId in ids && last.messageId !in a {
        assert |a + {last.messageId}| == |a| + 1;
      }
    }
  }

  lemma {:induction false} ReceiptInReadIdSet(rows: seq<GroupRead>, me: nat, ids: set<nat>, mid: nat)
    requires HasReceipt(rows, mid, me) && mid in ids
    ensures mid in ReadIdSet(rows, me, ids)
  {
    var init := rows[..|rows| - 1];
    var i :| 0 <= i < |rows| && rows[i].messageId == mid && rows[i].userId == me;
    if i < |rows| - 1 {
      assert init[i] == rows[i];
      ReceiptInReadIdSet(init, me, ids, mid);
    }
  }

  /** When `me` holds a receipt for every message of the group, the group shows nothing unread. */
  lemma AllReceiptedMeansNoUnread(t: Tables, g: nat, me: nat)
    requires forall k :: k in GroupMessageIds(t, g) ==> HasReceipt(t.groupReads, k, me)
    ensures Unread(t, g, me) == 0
  {
    var ids := GroupMessageIds(t, g);
    forall k | k in ids ensures k in ReadIdSet(t.groupReads, me, ids) {
      ReceiptInReadIdSet(t.groupReads, me, ids, k);
    }
    SubsetCard(ids, ReadIdSet(t.groupReads, me, ids));
    ReadIdSetBound(t.groupReads, me, ids);
  }

  lemma SubsetCard(a: set<nat>, b: set<nat>)
    requires a <= b
    ensures |a| <= |b|
  {
    assert b == a + (b - a);
    assert a * (b - a) == {};
  }

  // ---------------------------------------------------------------------
  // get_user_groups

  /** A group-list entry; `kind` is the constant "group" that tells it from a direct contact. */
  datatype GroupEntry = GroupEntry(
    id: nat, name: string, description: Option<string>, avatar: Option<string>, createdAt: DateTime,
    lastMessage: string, lastMessageTime: string, unreadCount: nat, memberCount: nat, isAdmin: bool, kind: string)

  /** A message shortened for the list: more than 30 characters become the first 27 and "...". */
  function Preview(content: string): (p: string)
    ensures |content| <= 30 ==> p == content
    ensures |content| > 30 ==> |p| == 30 && p[..27] == content[..27] && p[27..] == "..."
    ensures |p| <= 30 || p == content
  {
    if |content| > 30 then content[..27] + "..." else content
  }

  /**
   * The entry of group `g` for `me`. The line under the name is "You: " or the
   * sender's username and ": ", then the preview; a latest message whose
   * sender has no user row fails the whole request (the code reads the id of
   * the missing sender).
   */
  function EntryOf(t: Tables, g: nat, me: nat, now: DateTime): (r: Result<GroupEntry>)
    requires g in t.groups && (g, me) in t.groupMembers && GroupTimesValid(t.groupMessages)
    ensures r.Err? <==> LastGroupMessage(t, g).Some? && t.groupMessages[LastGroupMessage(t, g).value].senderId !in t.users
    ensures r.Err? ==> r.error == InternalError("Internal Server Error")
  {
    var row := t.groups[g];
    var unread := Unread(t, g, me);
    var count := |GroupMembersOf(t, g)|;
    var admin := t.groupMembers[(g, me)].isAdmin;
    match LastGroupMessage(t, g)
    case None =>
      Ok(GroupEntry(row.id, row.name, row.description, row.avatar, row.createdAt,
        "Click to start chatting!", "Now", unread, count, admin, "group"))
    case Some(k) =>
      var m := t.groupMessages[k];
      if m.senderId !in t.users then Err(InternalError("Internal Server Error"))
      else
        var who := if m.senderId == me then "You: " else t.users[m.senderId].username + ": ";
        Ok(GroupEntry(row.id, row.name, row.description, row.avatar, row.createdAt,
          who + Preview(m.content), FormatMessageTime(now, m.timestamp), unread, count, admin, "group"))
  }

  /**
   * An entry shows the group's own row, the unread count and member count of
   * the group, the caller's admin flag, and the line and time of its latest
   * message ("Click to start chatting!" and "Now" for an empty group, which
   * has nothing unread).
   */
  lemma EntryOfShows(t: Tables, g: nat, me: nat, now: DateTime)
    requires g in t.groups && (g, me) in t.groupMembers && GroupTimesValid(t.groupMessages)
    requires EntryOf(t, g, me, now).Ok?
    ensures var e := EntryOf(t, g, me, now).value;
      var row := t.groups[g];
      e.id == row.id && e.name == row.name && e.description == row.description && e.createdAt == row.createdAt &&
      e.unreadCount == Unread(t, g, me) && e.memberCount == |GroupMembersOf(t, g)| &&
      e.isAdmin == t.groupMembers[(g, me)].isAdmin && e.kind == "group" &&
      (LastGroupMessage(t, g).None? ==>
        e.lastMessage == "Click to start chatting!" && e.lastMessageTime == "Now" && e.unreadCount == 0) &&
      (LastGroupMessage(t, g).Some? ==>
        var m := t.groupMessages[LastGroupMessage(t, g).value];
        e.lastMessage == (if m.senderId == me then "You: " else t.users[m.senderId].username + ": ") + Preview(m.content) &&
        e.lastMessageTime == FormatMessageTime(now, m.timestamp))
  {
  }

  predicate InMyGroups(t: Tables, me: nat, ids: seq<nat>)
  {
    forall i :: 0 <= i < |ids| ==> ids[i] in t.groups && (ids[i], me) in t.groupMembers
  }

  /** The caller's groups in id order, the order the list is built in. */
  function MyGroupList(t: Tables, me: nat): (ids: seq<nat>)
    ensures InMyGroups(t, me, ids) && StrictlyIncreasing(ids)
    ensures |ids| == |MyGroups(t, me)| && forall g :: g in ids <==> g in MyGroups(t, me)
  {
    var ids := Ascending(MyGroups(t, me));
    assert forall i :: 0 <= i < |ids| ==> ids[i] in MyGroups(t, me);
    ids
  }

  /** The entries of `ids` in order, or the first failure. */
  function Entries(t: Tables, me: nat, ids: seq<nat>, now: DateTime): (r: Result<seq<GroupEntry>>)
    requires InMyGroups(t, me, ids)
    requires GroupTimesValid(t.groupMessages)
    ensures r.Ok? ==> |r.value| == |ids|
    ensures r.Err? ==> r.error == InternalError("Internal Server Error")
  {
    if ids == [] then Ok([])
    else
      match Entries(t, me, ids[..|ids| - 1], now)
      case Err(e) => Err(e)
      case Ok(es) =>
        match EntryOf(t, ids[|ids| - 1], me, now)
        case Err(e) => Err(e)
        case Ok(x) => Ok(es + [x])
  }

  /** A failure on a prefix of the groups fails the whole list. */
  lemma {:induction false} EntriesFailFromPrefix(t: Tables, me: nat, ids: seq<nat>, j: nat, now: DateTime)
    requires j <= |ids|
    requires InMyGroups(t, me, ids)
    requires GroupTimesValid(t.groupMessages)
    requires Entries(t, me, ids[..j], now).Err?
    ensures Entries(t, me, ids, now).Err?
    decreases |ids| - j
  {
    if j < |ids| {
      assert ids[..j + 1][..j] == ids[..j];
      assert InMyGroups(t, me, ids[..j + 1]);
      EntriesFailFromPrefix(t, me, ids, j + 1, now);
    } else {
      assert ids[..j] == ids;
    }
  }

  /** The entries of one more group: the entries so far and that group's entry. */
  lemma EntriesSnoc(t: Tables, me: nat, ids: seq<nat>, i: nat, now: DateTime)
    requires i < |ids| && InMyGroups(t, me, ids) && GroupTimesValid(t.groupMessages)
    ensures InMyGroups(t, me, ids[..i]) && InMyGroups(t, me, ids[..i + 1])
    ensures Entries(t, me, ids[..i + 1], now) ==
      match Entries(t, me, ids[..i], now)
      case Err(e) => Err(e)
      case Ok(es) =>
        match EntryOf(t, ids[i], me, now)
        case Err(e) => Err(e)
        case Ok(x) => Ok(es + [x])
  {
    assert ids[..i + 1][..i] == ids[..i];
    assert forall j :: 0 <= j < i + 1 ==> ids[..i + 1][j] == ids[j];
  }

  /** The loop of get_user_groups: one entry per group, appended in order. */
  method BuildEntries(t: Tables, me: nat, ids: seq<nat>, now: DateTime) returns (r: Result<seq<GroupEntry>>)
    requires InMyGroups(t, me, ids)
    requires GroupTimesValid(t.groupMessages)
    ensures r == Entries(t, me, ids, now)
  {
    var acc := [];
    var i := 0;
    while i < |ids|
      invariant 0 <= i <= |ids|
      invariant InMyGroups(t, me, ids[..i])
      invariant Entries(t, me, ids[..i], now) == Ok(acc)
    {
      EntriesSnoc(t, me, ids, i, now);
      var e := EntryOf(t, ids[i], me, now);
      if e.Err? {
        EntriesFailFromPrefix(t, me, ids, i + 1, now);
        return Err(e.error);
      }
      acc := acc + [e.value];
      i := i + 1;
    }
    assert ids[..i] == ids;
    r := Ok(acc);
  }

  /** Python's `sort(key=created_at, reverse=True)`: later creation first, ties kept in order. */
  predicate CreatedLaterOrSame(a: GroupEntry, b: GroupEntry)
  {
    Instant(a.createdAt) >= Instant(b.createdAt)
  }

  lemma CreatedLaterOrSameIsTotal()
    ensures TotalPreorder(CreatedLaterOrSame)
  {
  }

  /**
   * GET /api/groups: one entry per group of the caller, built in id order,
   * then ordered by creation time, latest first; groups created at the
   * same instant keep their id order.
   */
  method GetUserGroups(db: Db, session: Option<string>, now: DateTime) returns (r: Result<seq<GroupEntry>>)
    requires GroupTimesValid(db.t.groupMessages)
    ensures Groups.SessionUser(db.t, session).Err? ==> r == Err(Groups.SessionUser(db.t, session).error)
    ensures Groups.SessionUser(db.t, session).Ok? ==>
      var me := Groups.SessionUser(db.t, session).value;
      var es := Entries(db.t, me, MyGroupList(db.t, me), now);
      (r.Err? <==> es.Err?) && (r.Err? ==> r == es) &&
      (r.Ok? ==>
         multiset(r.value) == multiset(es.value) && Sorted(r.value, CreatedLaterOrSame) &&
         KeepsTieOrder(r.value, es.value, CreatedLaterOrSame))
  {
    var s := Groups.SessionUser(db.t, session);
    if s.Err? {
      return Err(s.error);
    }
    var me := s.value;
    var es := BuildEntries(db.t, me, MyGroupList(db.t, me), now);
    if es.Err? {
      return es;
    }
    CreatedLaterOrSameIsTotal();
    SortWithIsStable(es.value, CreatedLaterOrSame);
    r := Ok(SortWith(es.value, CreatedLaterOrSame));
  }

  /** Entry `i` of a list that is built is the entry of group `ids[i]`. */
  lemma {:induction false} EntriesPointwise(t: Tables, me: nat, ids: seq<nat>, now: DateTime)
    requires InMyGroups(t, me, ids)
    requires GroupTimesValid(t.groupMessages)
    requires Entries(t, me, ids, now).Ok?
    ensures forall i :: 0 <= i < |ids| ==>
      EntryOf(t, ids[i], me, now).Ok? && Entries(t, me, ids, now).value[i] == EntryOf(t, ids[i], me, now).value
  {
    if ids != [] {
      var n := |ids|;
      var init := ids[..n - 1];
      assert InMyGroups(t, me, init);
      EntriesPointwise(t, me, init, now);
      var es := Entries(t, me, init, now).value;
      var x := EntryOf(t, ids[n - 1], me, now).value;
      assert Entries(t, me, ids, now) == Ok(es + [x]);
      forall i | 0 <= i < n
        ensures EntryOf(t, ids[i], me, now).Ok? && Entries(t, me, ids, now).value[i] == EntryOf(t, ids[i], me, now).value
      {
        if i < n - 1 {
          assert init[i] == ids[i];
        }
      }
    }
  }

  // ---------------------------------------------------------------------
  // get_group_details

  /** One member in the details view; the avatar is always the default picture. */
  datatype MemberCard = MemberCard(
    id: nat, name: string, username: string, email: string, avatar: string, isAdmin: bool, status: string, addedAt: DateTime)

  datatype GroupDetails = GroupDetails(
    id: nat, name: string, description: Option<string>, avatar: Option<string>, createdAt: DateTime,
    members: seq<MemberCard>, isAdmin: bool)

  /** The members that have a user row (the inner join with users). */
  function ListedMembers(t: Tables, g: nat): (ids: set<nat>)
    ensures forall u :: u in ids <==> (g, u) in t.groupMembers && u in t.users
  {
    set k | k in t.groupMembers && k.0 == g && k.1 in t.users :: k.1
  }

  /** A member's card; "online" exactly when the username has a socket in the registry `online`. */
  function Card(t: Tables, g: nat, u: nat, online: set<string>): (c: MemberCard)
    requires u in ListedMembers(t, g)
    ensures c.id == t.users[u].id && c.username == t.users[u].username
    ensures c.isAdmin == t.groupMembers[(g, u)].isAdmin && c.addedAt == t.groupMembers[(g, u)].addedAt
    ensures c.status == "online" <==> t.users[u].username in online
    ensures c.status in {"online", "offline"} && c.avatar == DefaultUserAvatar
  {
    var user := t.users[u];
    var row := t.groupMembers[(g, u)];
    MemberCard(user.id, DisplayName(user), user.username, user.email, DefaultUserAvatar, row.isAdmin,
      if user.username in online then "online" else "offline", row.addedAt)
  }

  function Cards(t: Tables, g: nat, us: seq<nat>, online: set<string>): (cs: seq<MemberCard>)
    requires forall i :: 0 <= i < |us| ==> us[i] in ListedMembers(t, g)
    ensures |cs| == |us|
    ensures forall i :: 0 <= i < |us| ==> cs[i] == Card(t, g, us[i], online)
  {
    if us == [] then [] else Cards(t, g, us[..|us| - 1], online) + [Card(t, g, us[|us| - 1], online)]
  }

  /** The loop of get_group_details: one card per listed member, appended in order. */
  method BuildCards(t: Tables, g: nat, us: seq<nat>, online: set<string>) returns (cs: seq<MemberCard>)
    requires forall i :: 0 <= i < |us| ==> us[i] in ListedMembers(t, g)
    ensures cs == Cards(t, g, us, online)
  {
    cs := [];
    var i := 0;
    while i < |us|
      invariant 0 <= i <= |us|
      invariant cs == Cards(t, g, us[..i], online)
    {
      assert us[..i + 1][..i] == us[..i];
      var u := us[i];
      var user := t.users[u];
      var row := t.groupMembers[(g, u)];
      cs := cs + [MemberCard(user.id, DisplayName(user), user.username, user.email, DefaultUserAvatar, row.isAdmin,
        if user.username in online then "online" else "offline", row.addedAt)];
      i := i + 1;
    }
    assert us[..i] == us;
  }

  /** The sort key `(not is_admin, added_at)`: admins first, then earlier additions. */
  predicate AdminFirst(a: MemberCard, b: MemberCard)
  {
    (a.isAdmin && !b.isAdmin) || (a.isAdmin == b.isAdmin && Instant(a.addedAt) <= Instant(b.addedAt))
  }

  lemma AdminFirstIsTotal()
    ensures TotalPreorder(AdminFirst)
  {
  }

  /**
   * GET /api/groups/{group_id}: 403 for a non-member, 404 without a group
   * row; otherwise the group, the caller's admin flag and every member with a
   * user row, admins first and each part by the time it was added; members
   * added at the same instant keep their id order.
   */
  method GetGroupDetails(db: Db, session: Option<string>, g: nat, online: set<string>) returns (r: Result<GroupDetails>)
    ensures Groups.SessionUser(db.t, session).Err? ==> r == Err(Groups.SessionUser(db.t, session).error)
    ensures Groups.SessionUser(db.t, session).Ok? ==>
      var me := Groups.SessionUser(db.t, session).value;
      (CheckGroupMembership(db.t, g, me).Err? ==> r == Err(CheckGroupMembership(db.t, g, me).error)) &&
      (CheckGroupMembership(db.t, g, me).Ok? && g !in db.t.groups ==> r == Err(NotFound("Group not found"))) &&
      (r.Ok? <==> CheckGroupMembership(db.t, g, me).Ok? && g in db.t.groups)
    ensures r.Ok? ==>
      var me := Groups.SessionUser(db.t, session).value;
      var row := db.t.groups[g];
      var ms := r.value.members;
      r.value == GroupDetails(row.id, row.name, row.description, row.avatar, row.createdAt, ms,
        db.t.groupMembers[(g, me)].isAdmin) &&
      multiset(ms) == multiset(Cards(db.t, g, Ascending(ListedMembers(db.t, g)), online)) &&
      Sorted(ms, AdminFirst) && KeepsTieOrder(ms, Cards(db.t, g, Ascending(ListedMembers(db.t, g)), online), AdminFirst)
  {
    var s := Groups.SessionUser(db.t, session);
    if s.Err? {
      return Err(s.error);
    }
    var me := s.value;
    var isMember := CheckGroupMembership(db.t, g, me);
    if isMember.Err? {
      return Err(isMember.error);
    }
    if g !in db.t.groups {
      return Err(NotFound("Group not found"));
    }
    var row := db.t.groups[g];
    var cs := BuildCards(db.t, g, Ascending(ListedMembers(db.t, g)), online);
    AdminFirstIsTotal();
    SortWithIsStable(cs, AdminFirst);
    r := Ok(GroupDetails(row.id, row.name, row.description, row.avatar, row.createdAt,
      SortWith(cs, AdminFirst), isMember.value.isAdmin));
  }

  /** The card at each position is the card of the member at that position. */
  lemma CardIds(t: Tables, g: nat, us: seq<nat>, online: set<string>)
    requires UsersKeyedById(t.users)
    requires forall i :: 0 <= i < |us| ==> us[i] in ListedMembers(t, g)
    ensures forall k :: 0 <= k < |us| ==> Cards(t, g, us, online)[k].id == us[k]
  {
    var cs := Cards(t, g, us, online);
    forall k | 0 <= k < |us| ensures cs[k].id == us[k] {
      assert cs[k] == Card(t, g, us[k], online);
    }
  }

  /**
   * A permutation of cards whose ids are `us`, position by position, has as
   * many cards as `us` has ids, and a card for exactly the ids of `us`.
   */
  lemma PermutedCardsKeepIds(cs: seq<MemberCard>, ms: seq<MemberCard>, us: seq<nat>)
    requires multiset(ms) == multiset(cs) && |cs| == |us|
    requires forall k :: 0 <= k < |us| ==> cs[k].id == us[k]
    ensures |ms| == |us|
    ensures forall u :: u in us <==> exists i :: 0 <= i < |ms| && ms[i].id == u
  {
    assert |ms| == |cs| by {
      assert |multiset(ms)| == |multiset(cs)|;
    }
    forall u ensures u in us <==> exists i :: 0 <= i < |ms| && ms[i].id == u {
      if u in us {
        var k :| 0 <= k < |us| && us[k] == u;
        assert cs[k] in multiset(ms);
        var i :| 0 <= i < |ms| && ms[i] == cs[k];
      }
      if exists i :: 0 <= i < |ms| && ms[i].id == u {
        var i :| 0 <= i < |ms| && ms[i].id == u;
        assert ms[i] in multiset(cs);
        var k :| 0 <= k < |cs| && cs[k] == ms[i];
      }
    }
  }

  /**
   * The member list of the details holds each member with a user row exactly
   * once, and no plain member is listed before an admin.
   */
  lemma MemberListIsTheMembership(t: Tables, g: nat, online: set<string>, ms: seq<MemberCard>)
    requires UsersKeyedById(t.users)
    requires multiset(ms) == multiset(Cards(t, g, Ascending(ListedMembers(t, g)), online))
    requires Sorted(ms, AdminFirst)
    ensures |ms| == |ListedMembers(t, g)|
    ensures forall u :: u in ListedMembers(t, g) <==> exists i :: 0 <= i < |ms| && ms[i].id == u
    ensures forall i, j :: 0 <= i < j < |ms| && ms[j].isAdmin ==> ms[i].isAdmin
  {
    var us := Ascending(ListedMembers(t, g));
    CardIds(t, g, us, online);
    PermutedCardsKeepIds(Cards(t, g, us, online), ms, us);
  }


  /** Every user row carries its own key as its id. */
  predicate UsersKeyedById(users: map<nat, User>)
  {
    forall k :: k in users ==> users[k].id == k
  }

  // ---------------------------------------------------------------------
  // get_group_messages

  /** One message as the group view shows it; `sender` is "user" for the caller's own messages, else "other". */
  datatype GroupMessageView = GroupMessageView(
    id: nat, content: string, senderId: nat, senderName: string, sender: string, time: string)

  /** The rows of the group's messages in id order. */
  function RowsInIdOrder(t: Tables, g: nat): (rows: seq<GroupMessage>)
    ensures |rows| == |GroupMessageIds(t, g)|
  {
    var ids := Ascending(GroupMessageIds(t, g));
    seq(|ids|, i requires 0 <= i < |ids| => t.groupMessages[ids[i]])
  }

  predicate EarlierOrSame(a: GroupMessage, b: GroupMessage)
  {
    Instant(a.timestamp) <= Instant(b.timestamp)
  }

  lemma EarlierOrSameIsTotal()
    ensures TotalPreorder(EarlierOrSame)
  {
  }

  /** `ORDER BY timestamp`: the group's messages oldest first, equal times in id order. */
  function Thread(t: Tables, g: nat): (ms: seq<GroupMessage>)
    ensures multiset(ms) == multiset(RowsInIdOrder(t, g))
    ensures Sorted(ms, EarlierOrSame)
  {
    EarlierOrSameIsTotal();
    SortWith(RowsInIdOrder(t, g), EarlierOrSame)
  }

  /** Every message of the group is in the thread. */
  lemma ThreadHoldsTheGroup(t: Tables, g: nat, k: nat)
    requires k in GroupMessageIds(t, g)
    ensures t.groupMessages[k] in Thread(t, g)
  {
    var ids := Ascending(GroupMessageIds(t, g));
    var rows := RowsInIdOrder(t, g);
    var j :| 0 <= j < |ids| && ids[j] == k;
    assert rows[j] == t.groupMessages[k];
    assert t.groupMessages[k] in multiset(rows);
  }

  /**
   * The receipts the route adds, in thread order: one for each message that
   * has no receipt of `me` yet, counting those added before it.
   */
  function Receipts(rows: seq<GroupRead>, ms: seq<GroupMessage>, me: nat, now: DateTime): seq<GroupRead>
  {
    if ms == [] then []
    else
      var prev := Receipts(rows, ms[..|ms| - 1], me, now);
      var m := ms[|ms| - 1];
      if HasReceipt(rows + prev, m.id, me) then prev else prev + [GroupRead(m.id, me, now)]
  }

  /** The marking loop of get_group_messages. */
  method StageReceipts(rows: seq<GroupRead>, ms: seq<GroupMessage>, me: nat, now: DateTime) returns (added: seq<GroupRead>)
    ensures added == Receipts(rows, ms, me, now)
  {
    added := [];
    var i := 0;
    while i < |ms|
      invariant 0 <= i <= |ms|
      invariant added == Receipts(rows, ms[..i], me, now)
    {
      assert ms[..i + 1][..i] == ms[..i];
      var found := exists j :: 0 <= j < |rows + added| && (rows + added)[j].messageId == ms[i].id && (rows + added)[j].userId == me;
      if !found {
        added := added + [GroupRead(ms[i].id, me, now)];
      }
      i := i + 1;
    }
    assert ms[..i] == ms;
  }

  lemma HasReceiptGrows(rows: seq<GroupRead>, more: seq<GroupRead>, mid: nat, me: nat)
    requires HasReceipt(rows, mid, me)
    ensures HasReceipt(rows + more, mid, me)
  {
    var i :| 0 <= i < |rows| && rows[i].messageId == mid && rows[i].userId == me;
    assert (rows + more)[i] == rows[i];
  }

  /** After the marking every message of the thread has a receipt of `me`. */
  lemma {:induction false} ReceiptsCoverThread(rows: seq<GroupRead>, ms: seq<GroupMessage>, me: nat, now: DateTime)
    ensures forall i :: 0 <= i < |ms| ==> HasReceipt(rows + Receipts(rows, ms, me, now), ms[i].id, me)
  {
    if ms != [] {
      var init := ms[..|ms| - 1];
      var prev := Receipts(rows, init, me, now);
      var all := Receipts(rows, ms, me, now);
      ReceiptsCoverThread(rows, init, me, now);
      var more: seq<GroupRead> := if HasReceipt(rows + prev, ms[|ms| - 1].id, me) then [] else [GroupRead(ms[|ms| - 1].id, me, now)];
      assert rows + all == (rows + prev) + more;
      forall i | 0 <= i < |ms| ensures HasReceipt(rows + all, ms[i].id, me) {
        if i < |ms| - 1 {
          assert init[i] == ms[i];
          HasReceiptGrows(rows + prev, more, ms[i].id, me);
        } else if HasReceipt(rows + prev, ms[i].id, me) {
          HasReceiptGrows(rows + prev, more, ms[i].id, me);
        } else {
          assert (rows + all)[|rows + all| - 1] == GroupRead(ms[i].id, me, now);
        }
      }
    }
  }

  /** Each added receipt is the caller's, stamped `now`, for a thread message that had none. */
  lemma {:induction false} ReceiptsAreFresh(rows: seq<GroupRead>, ms: seq<GroupMessage>, me: nat, now: DateTime)
    ensures var added := Receipts(rows, ms, me, now);
      |added| <= |ms| &&
      forall j :: 0 <= j < |added| ==>
        added[j].userId == me && added[j].readAt == now && !HasReceipt(rows, added[j].messageId, me) &&
        exists i :: 0 <= i < |ms| && ms[i].id == added[j].messageId
  {
    if ms != [] {
      var init := ms[..|ms| - 1];
      ReceiptsAreFresh(rows, init, me, now);
      var prev := Receipts(rows, init, me, now);
      var m := ms[|ms| - 1];
      if !HasReceipt(rows + prev, m.id, me) {
        assert !HasReceipt(rows, m.id, me) by {
          if HasReceipt(rows, m.id, me) {
            HasReceiptGrows(rows, prev, m.id, me);
          }
        }
      }
      forall j | 0 <= j < |prev| ensures exists i :: 0 <= i < |ms| && ms[i].id == prev[j].messageId {
        var i :| 0 <= i < |init| && init[i].id == prev[j].messageId;
        assert ms[i] == init[i];
      }
    }
  }

  /** No receipts are added for a thread that is already marked. */
  lemma {:induction false} NoReceiptsWhenMarked(rows: seq<GroupRead>, ms: seq<GroupMessage>, me: nat, now: DateTime)
    requires forall i :: 0 <= i < |ms| ==> HasReceipt(rows, ms[i].id, me)
    ensures Receipts(rows, ms, me, now) == []
  {
    if ms != [] {
      var init := ms[..|ms| - 1];
      assert forall i :: 0 <= i < |init| ==> init[i] == ms[i];
      NoReceiptsWhenMarked(rows, init, me, now);
      assert rows + [] == rows;
    }
  }

  /** Opening a group twice adds receipts only the first time. */
  lemma ReceiptsIdempotent(rows: seq<GroupRead>, ms: seq<GroupMessage>, me: nat, now: DateTime, later: DateTime)
    ensures Receipts(rows + Receipts(rows, ms, me, now), ms, me, later) == []
  {
    ReceiptsCoverThread(rows, ms, me, now);
    NoReceiptsWhenMarked(rows + Receipts(rows, ms, me, now), ms, me, later);
  }

  /** A message as the view shows it; a sender without a user row is named "Unknown". */
  function ViewOf(t: Tables, m: GroupMessage, me: nat): (v: GroupMessageView)
    requires m.timestamp.Valid()
    ensures v.id == m.id && v.content == m.content && v.senderId == m.senderId
    ensures v.sender == "user" <==> m.senderId == me
    ensures v.sender in {"user", "other"}
    ensures ParseClock(v.time) == Some((m.timestamp.hour, m.timestamp.minute))
    ensures m.senderId in t.users ==> v.senderName == DisplayName(t.users[m.senderId])
    ensures m.senderId !in t.users ==> v.senderName == "Unknown"
  {
    GroupMessageView(m.id, m.content, m.senderId,
      if m.senderId in t.users then DisplayName(t.users[m.senderId]) else "Unknown",
      if m.senderId == me then "user" else "other",
      ClockLabel(m.timestamp.hour, m.timestamp.minute))
  }

  predicate ThreadValid(ms: seq<GroupMessage>)
  {
    forall i :: 0 <= i < |ms| ==> ms[i].timestamp.Valid()
  }

  lemma ThreadIsValid(t: Tables, g: nat)
    requires GroupTimesValid(t.groupMessages)
    ensures ThreadValid(Thread(t, g))
  {
    var ms := Thread(t, g);
    var rows := RowsInIdOrder(t, g);
    var ids := Ascending(GroupMessageIds(t, g));
    forall i | 0 <= i < |ms| ensures ms[i].timestamp.Valid() {
      assert ms[i] in multiset(rows);
      var j :| 0 <= j < |rows| && rows[j] == ms[i];
      assert ids[j] in t.groupMessages;
    }
  }

  /** The views of a thread, one per message, in thread order. */
  function Views(t: Tables, ms: seq<GroupMessage>, me: nat): (vs: seq<GroupMessageView>)
    requires ThreadValid(ms)
    ensures |vs| == |ms|
  {
    if ms == [] then [] else Views(t, ms[..|ms| - 1], me) + [ViewOf(t, ms[|ms| - 1], me)]
  }

  /** The view at each position is the view of the message at that position. */
  lemma {:induction false} ViewsAreTheMessages(t: Tables, ms: seq<GroupMessage>, me: nat)
    requires ThreadValid(ms)
    ensures forall i :: 0 <= i < |ms| ==> Views(t, ms, me)[i] == ViewOf(t, ms[i], me)
  {
    if ms != [] {
      var init := ms[..|ms| - 1];
      ViewsAreTheMessages(t, init, me);
      var head := Views(t, init, me);
      var vs := Views(t, ms, me);
      assert vs == head + [ViewOf(t, ms[|ms| - 1], me)];
      forall i | 0 <= i < |ms| ensures vs[i] == ViewOf(t, ms[i], me) {
        if i < |init| {
          assert vs[i] == head[i];
          assert init[i] == ms[i];
        }
      }
    }
  }

  /** The formatting loop of get_group_messages. */
  method BuildViews(t: Tables, ms: seq<GroupMessage>, me: nat) returns (vs: seq<GroupMessageView>)
    requires ThreadValid(ms)
    ensures vs == Views(t, ms, me)
  {
    vs := [];
    for i := 0 to |ms|
      invariant vs == Views(t, ms[..i], me)
    {
      var m := ms[i];
      var name := if m.senderId in t.users then DisplayName(t.users[m.senderId]) else "Unknown";
      var v := GroupMessageView(m.id, m.content, m.senderId, name,
        if m.senderId == me then "user" else "other", ClockLabel(m.timestamp.hour, m.timestamp.minute));
      assert ms[..i + 1][..i] == ms[..i];
      vs := vs + [v];
    }
    assert ms[..|ms|] == ms;
  }


  /** The tables after the caller opens group `g`: receipts added for the thread. */
  function Opened(t: Tables, g: nat, me: nat, now: DateTime): Tables
  {
    t.(groupReads := t.groupReads + Receipts(t.groupReads, Thread(t, g), me, now))
  }

  /**
   * GET /api/groups/{group_id}/messages: 403 for a non-member; otherwise the
   * thread oldest first, with every message marked as read by the caller.
   */
  method GetGroupMessages(db: Db, session: Option<string>, g: nat, now: DateTime) returns (r: Result<seq<GroupMessageView>>)
    requires GroupTimesValid(db.t.groupMessages)
    modifies db
    ensures Groups.SessionUser(old(db.t), session).Err? ==> r == Err(Groups.SessionUser(old(db.t), session).error) && db.t == old(db.t)
    ensures Groups.SessionUser(old(db.t), session).Ok? ==>
      var me := Groups.SessionUser(old(db.t), session).value;
      var ms := Thread(old(db.t), g);
      (CheckGroupMembership(old(db.t), g, me).Err? ==> r == Err(CheckGroupMembership(old(db.t), g, me).error) && db.t == old(db.t)) &&
      (CheckGroupMembership(old(db.t), g, me).Ok? ==>
        db.t == Opened(old(db.t), g, me, now) &&
        ThreadValid(ms) && r == Ok(Views(old(db.t), ms, me)))
  {
    var s := Groups.SessionUser(db.t, session);
    if s.Err? {
      return Err(s.error);
    }
    var me := s.value;
    var check := CheckGroupMembership(db.t, g, me);
    if check.Err? {
      return Err(check.error);
    }
    var t := db.t;
    var ms := Thread(t, g);
    var added := StageReceipts(t.groupReads, ms, me, now);
    db.t := t.(groupReads := t.groupReads + added);
    ThreadIsValid(t, g);
    var vs := BuildViews(t, ms, me);
    r := Ok(vs);
  }

  /** The thread and the message ids of a group depend on the message table only. */
  lemma SameMessagesSameThread(t: Tables, u: Tables, g: nat)
    requires t.groupMessages == u.groupMessages
    ensures GroupMessageIds(t, g) == GroupMessageIds(u, g)
    ensures RowsInIdOrder(t, g) == RowsInIdOrder(u, g)
    ensures Thread(t, g) == Thread(u, g)
  {
    assert GroupMessageIds(t, g) == GroupMessageIds(u, g);
  }

  /** After opening, the caller holds a receipt for every message of the group. */
  lemma OpenedHasReceipts(t: Tables, g: nat, me: nat, now: DateTime)
    requires RowsKeyedById(t.groupMessages)
    ensures forall k :: k in GroupMessageIds(t, g) ==> HasReceipt(Opened(t, g, me, now).groupReads, k, me)
  {
    var ms := Thread(t, g);
    var marked := Opened(t, g, me, now).groupReads;
    assert marked == t.groupReads + Receipts(t.groupReads, ms, me, now);
    ReceiptsCoverThread(t.groupReads, ms, me, now);
    forall k | k in GroupMessageIds(t, g) ensures HasReceipt(marked, k, me) {
      ThreadHoldsTheGroup(t, g, k);
      var i :| 0 <= i < |ms| && ms[i] == t.groupMessages[k];
      assert ms[i].id == k;
    }
  }

  /** Opening again, at any later time, adds nothing. */
  lemma OpenedIdempotent(t: Tables, g: nat, me: nat, now: DateTime, later: DateTime)
    ensures Opened(Opened(t, g, me, now), g, me, later) == Opened(t, g, me, now)
  {
    var after := Opened(t, g, me, now);
    var ms := Thread(t, g);
    SameMessagesSameThread(t, after, g);
    ReceiptsIdempotent(t.groupReads, ms, me, now, later);
    assert after.groupReads + [] == after.groupReads;
  }

  /**
   * Opening a group leaves it with nothing unread for the caller in the group
   * list, keeps every earlier receipt in place, and opening it again adds nothing.
   */
  lemma OpeningClearsUnread(t: Tables, g: nat, me: nat, now: DateTime, later: DateTime)
    requires RowsKeyedById(t.groupMessages)
    ensures Unread(Opened(t, g, me, now), g, me) == 0
    ensures t.groupReads <= Opened(t, g, me, now).groupReads
    ensures Opened(Opened(t, g, me, now), g, me, later) == Opened(t, g, me, now)
  {
    var after := Opened(t, g, me, now);
    SameMessagesSameThread(t, after, g);
    OpenedHasReceipts(t, g, me, now);
    AllReceiptedMeansNoUnread(after, g, me);
    OpenedIdempotent(t, g, me, now, later);
  }
}
