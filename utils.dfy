/**
 * Helpers of the chat routers (app/routers/utils.py): the time label of a
 * message, the two group-membership guards, and the read-marking of a room.
 * The two socket-sending helpers of that file act on the single-socket
 * registry and are modelled with it, in module LegacyHub.
 */
module Utils {
  import opened Common
  import opened Schema

  // ---------------------------------------------------------------------
  // format_message_time

  /** The value of two decimal digits. */
  function Value2(s: string): nat
    requires |s| == 2 && IsDigits(s)
  {
    DigitValue(s[0]) * 10 + DigitValue(s[1])
  }

  /** The value of four decimal digits. */
  function Value4(s: string): nat
    requires |s| == 4 && IsDigits(s)
  {
    DigitValue(s[0]) * 1000 + DigitValue(s[1]) * 100 + DigitValue(s[2]) * 10 + DigitValue(s[3])
  }

  /** Reads back an "HH:MM" label as (hour, minute). */
  function ParseClock(s: string): Option<(nat, nat)>
  {
    if |s| == 5 && s[2] == ':' && IsDigits(s[..2]) && IsDigits(s[3..])
    then Some((Value2(s[..2]), Value2(s[3..])))
    else None
  }

  /** Reads back a "dd.mm.YYYY" label as (day, month, year). */
  function ParseDate(s: string): Option<(nat, nat, nat)>
  {
    if |s| == 10 && s[2] == '.' && s[5] == '.' && IsDigits(s[..2]) && IsDigits(s[3..5]) && IsDigits(s[6..])
    then Some((Value2(s[..2]), Value2(s[3..5]), Value4(s[6..])))
    else None
  }

  /** Whether `ts` fell on the calendar day before `now`. */
  predicate IsYesterday(now: DateTime, ts: DateTime)
  {
    !now.SameDate(ts) && DayNumber(now) - DayNumber(ts) == 1
  }

  /** "HH:MM" (`strftime("%H:%M")`). */
  function ClockLabel(hour: nat, minute: nat): (s: string)
    requires hour < 24 && minute < 60
    ensures ParseClock(s) == Some((hour, minute))
  {
    var h := Pad2(hour);
    var m := Pad2(minute);
    var s := h + ":" + m;
    assert s[..2] == h && s[3..] == m;
    s
  }

  /** "dd.mm.YYYY" (`strftime("%d.%m.%Y")`). */
  function DateLabel(day: nat, month: nat, year: nat): (s: string)
    requires day < 100 && month < 100 && year < 10000
    ensures ParseDate(s) == Some((day, month, year))
  {
    var d := Pad2(day);
    var m := Pad2(month);
    var y := Pad4(year);
    var s := d + "." + m + "." + y;
    assert s[..2] == d && s[3..5] == m && s[6..] == y;
    s
  }

  /**
   * The label shown next to a message: the clock time for a message of today,
   * "Yesterday" for one of the day before, and the date otherwise. The server
   * clock `now` is a parameter.
   */
  function FormatMessageTime(now: DateTime, ts: DateTime): (s: string)
    requires ts.Valid()
    ensures now.SameDate(ts) ==> ParseClock(s) == Some((ts.hour, ts.minute))
    ensures s == "Yesterday" <==> IsYesterday(now, ts)
    ensures !now.SameDate(ts) && !IsYesterday(now, ts) ==> ParseDate(s) == Some((ts.day, ts.month, ts.year))
  {
    if now.SameDate(ts) then ClockLabel(ts.hour, ts.minute)
    else if IsYesterday(now, ts) then "Yesterday"
    else DateLabel(ts.day, ts.month, ts.year)
  }

  // ---------------------------------------------------------------------
  // Group guards

  /** The caller's group_members row, or 403 when there is none. */
  function CheckGroupMembership(t: Tables, group: nat, user: nat): (r: Result<GroupMember>)
    ensures r.Ok? <==> (group, user) in t.groupMembers
    ensures r.Ok? ==> r.value == t.groupMembers[(group, user)]
    ensures r.Err? ==> r.error == Forbidden("You are not a member of this group")
  {
    if (group, user) in t.groupMembers then Ok(t.groupMembers[(group, user)])
    else Err(Forbidden("You are not a member of this group"))
  }

  /** The caller's group_members row when it carries the admin flag, or 403. */
  function CheckGroupAdmin(t: Tables, group: nat, user: nat): (r: Result<GroupMember>)
    ensures r.Ok? <==> CheckGroupMembership(t, group, user).Ok? && CheckGroupMembership(t, group, user).value.isAdmin
    ensures r.Ok? ==> r == CheckGroupMembership(t, group, user)
    ensures r.Err? ==> r.error == Forbidden("Only admins can perform this action")
  {
    if (group, user) in t.groupMembers && t.groupMembers[(group, user)].isAdmin then Ok(t.groupMembers[(group, user)])
    else Err(Forbidden("Only admins can perform this action"))
  }

  // ---------------------------------------------------------------------
  // reset_unread_count

  /** The message as the read-marking leaves it. */
  function Marked(m: Message, now: DateTime): Message
  {
    m.(read := true, readAt := Some(now))
  }

  /** One row of the read-marking: an unread message from someone else in the room is marked read at `now`. */
  function MarkOne(m: Message, room: nat, user: nat, now: DateTime): (n: Message)
    ensures n.read == (m.read || (m.roomId == Some(room) && m.senderId != user))
    ensures m.senderId == user || m.roomId != Some(room) ==> n == m
    ensures n == m.(read := n.read, readAt := n.readAt)
    ensures !UnreadFromOthers(n, room, user)
  {
    if UnreadFromOthers(m, room, user) then Marked(m, now) else m
  }

  /** The messages table after every unread message from others in the room was marked read at `now`. */
  function MarkRead(msgs: map<nat, Message>, room: nat, user: nat, now: DateTime): (r: map<nat, Message>)
    ensures r.Keys == msgs.Keys
    ensures forall k :: k in msgs ==>
      r[k].read == (msgs[k].read || (msgs[k].roomId == Some(room) && msgs[k].senderId != user))
    ensures forall k :: k in msgs && msgs[k].senderId == user ==> r[k] == msgs[k]
    ensures forall k :: k in msgs && msgs[k].roomId != Some(room) ==> r[k] == msgs[k]
    ensures forall k :: k in msgs ==> r[k] == msgs[k].(read := r[k].read, readAt := r[k].readAt)
    ensures UnreadIds(r, room, user) == {}
  {
    map k | k in msgs :: MarkOne(msgs[k], room, user, now)
  }

  /**
   * A second read-marking of the same room for the same user, at any later
   * time, finds nothing to mark and leaves the table as it was.
   */
  lemma {:induction false} MarkReadIdempotent(msgs: map<nat, Message>, room: nat, user: nat, now: DateTime, later: DateTime)
    ensures UnreadIds(MarkRead(msgs, room, user, now), room, user) == {}
    ensures MarkRead(MarkRead(msgs, room, user, now), room, user, later) == MarkRead(msgs, room, user, now)
  {
    var once := MarkRead(msgs, room, user, now);
    var twice := MarkRead(once, room, user, later);
    forall k | k in once ensures twice[k] == once[k] {
      assert !UnreadFromOthers(once[k], room, user) by {
        assert k !in UnreadIds(once, room, user);
      }
    }
  }

  lemma MarkReadPointwise(msgs: map<nat, Message>, updated: map<nat, Message>, room: nat, user: nat, now: DateTime)
    requires updated.Keys == msgs.Keys
    requires forall k :: k in msgs ==>
      updated[k] == if k in UnreadIds(msgs, room, user) then Marked(msgs[k], now) else msgs[k]
    ensures updated == MarkRead(msgs, room, user, now)
  {
  }

  /** Marks each message of `ids` read at `now`, one after the other. */
  method MarkEach(msgs: map<nat, Message>, ids: seq<nat>, now: DateTime) returns (updated: map<nat, Message>)
    requires forall j :: 0 <= j < |ids| ==> ids[j] in msgs
    ensures updated.Keys == msgs.Keys
    ensures forall k :: k in msgs ==> updated[k] == if k in ids then Marked(msgs[k], now) else msgs[k]
  {
    updated := msgs;
    var i := 0;
    while i < |ids|
      invariant 0 <= i <= |ids|
      invariant updated.Keys == msgs.Keys
      invariant forall k :: k in msgs ==> updated[k] == if k in ids[..i] then Marked(msgs[k], now) else msgs[k]
    {
      var id := ids[i];
      updated := updated[id := Marked(msgs[id], now)];
      assert ids[..i + 1] == ids[..i] + [id];
      i := i + 1;
    }
    assert ids[..i] == ids;
  }

  /**
   * Marks every unread message from others in the room read at `now` and
   * returns how many it marked. The clock is a parameter.
   */
  method ResetUnreadCount(db: Db, room: nat, user: nat, now: DateTime) returns (n: nat)
    modifies db
    ensures n == |UnreadIds(old(db.t.messages), room, user)|
    ensures db.t == old(db.t).(messages := MarkRead(old(db.t.messages), room, user, now))
  {
    var msgs := db.t.messages;
    var unread := Ascending(UnreadIds(msgs, room, user));
    var updated := MarkEach(msgs, unread, now);
    MarkReadPointwise(msgs, updated, room, user, now);
    db.t := db.t.(messages := updated);
    n := |unread|;
  }
}
