/**
 * Blocking between users (app/routers/block_users.py). A block is a directed
 * edge of the blocked_users table, from the user who blocks to the user who
 * is blocked; the edge's value is the time it was made. Blocking and
 * unblocking are idempotent, and each change of an edge is announced to both
 * users through a notifier the model keeps abstract.
 */
module Blocking {
  import opened Common
  import opened Schema
  import DirectMessages

  /** The announcement of a changed edge; how it reaches the two users is not part of this model. */
  datatype BlockNotice = BlockNotice(blocker: nat, blocked: nat, isBlocked: bool)

  /** The row named by a path id, or 404 with `detail`; a negative id names no row. */
  function Target(t: Tables, id: int, detail: string): (r: Result<nat>)
    ensures r.Ok? <==> id >= 0 && id as nat in t.users
    ensures r.Ok? ==> r.value == id as nat
    ensures r.Err? ==> r.error == NotFound(detail)
  {
    if id >= 0 && id as nat in t.users then Ok(id as nat) else Err(NotFound(detail))
  }

  // ---------------------------------------------------------------------
  // block_user

  /**
   * The checks of block_user in order: the caller, the target, then that the
   * two differ. The result is the caller and the target.
   */
  function BlockGuard(t: Tables, username: string, id: int): (r: Result<(nat, nat)>)
    ensures r.Ok? <==> DirectMessages.Caller(t, username).Ok? && Target(t, id, "").Ok? && DirectMessages.Caller(t, username).value as int != id
    ensures r.Ok? ==> r.value == (DirectMessages.Caller(t, username).value, id as nat)
    ensures DirectMessages.Caller(t, username).Err? ==> r == Err(NotFound("User not found"))
    ensures DirectMessages.Caller(t, username).Ok? && Target(t, id, "").Err? ==> r == Err(NotFound("User to block not found"))
    ensures DirectMessages.Caller(t, username).Ok? && DirectMessages.Caller(t, username).value as int == id ==> r == Err(BadRequest("You cannot block yourself"))
  {
    match DirectMessages.Caller(t, username)
    case Err(e) => Err(e)
    case Ok(me) =>
      match Target(t, id, "User to block not found")
      case Err(e) => Err(e)
      case Ok(other) =>
        if me == other then Err(BadRequest("You cannot block yourself")) else Ok((me, other))
  }

  /** POST /api/users/block/{user_id}; the reply message and, when an edge was added, its announcement. */
  method BlockUser(db: Db, username: string, id: int, now: DateTime) returns (r: Result<string>, notice: Option<BlockNotice>)
    modifies db
    ensures BlockGuard(old(db.t), username, id).Err? ==>
      r == Err(BlockGuard(old(db.t), username, id).error) && notice == None && db.t == old(db.t)
    ensures BlockGuard(old(db.t), username, id).Ok? ==>
      var (me, other) := BlockGuard(old(db.t), username, id).value;
      if (me, other) in old(db.t).blocked then
        r == Ok("User is already blocked") && notice == None && db.t == old(db.t)
      else
        r == Ok("User has been blocked") && notice == Some(BlockNotice(me, other, true)) &&
        db.t == old(db.t).(blocked := Blocked(old(db.t).blocked, me, other, now))
  {
    var g := BlockGuard(db.t, username, id);
    if g.Err? {
      return Err(g.error), None;
    }
    var (me, other) := g.value;
    if (me, other) in db.t.blocked {
      return Ok("User is already blocked"), None;
    }
    db.t := db.t.(blocked := db.t.blocked[(me, other) := now]);
    r, notice := Ok("User has been blocked"), Some(BlockNotice(me, other, true));
  }

  /** The edges after `me` blocks `other`: the edge is added unless it exists, keeping its first time. */
  function Blocked(blocked: map<(nat, nat), DateTime>, me: nat, other: nat, now: DateTime): map<(nat, nat), DateTime>
  {
    if (me, other) in blocked then blocked else blocked[(me, other) := now]
  }

  /** The edges after `me` unblocks `other`: that one edge is gone. */
  function Unblocked(blocked: map<(nat, nat), DateTime>, me: nat, other: nat): map<(nat, nat), DateTime>
  {
    blocked - {(me, other)}
  }

  /**
   * Blocking adds exactly the edge me→other and leaves every other edge,
   * the reverse one included; blocking again changes nothing, and unblocking
   * afterwards gives back the edges as they were when there was no block.
   */
  lemma BlockAddsOneEdge(blocked: map<(nat, nat), DateTime>, me: nat, other: nat, now: DateTime, later: DateTime)
    ensures var b := Blocked(blocked, me, other, now);
      (forall k :: k in b <==> k in blocked || k == (me, other)) &&
      (forall k :: k in blocked ==> b[k] == blocked[k]) &&
      Blocked(b, me, other, later) == b &&
      ((other, me) in b <==> (other, me) in blocked || me == other)
    ensures (me, other) !in blocked ==> Unblocked(Blocked(blocked, me, other, now), me, other) == blocked
  {
    if (me, other) !in blocked {
      var b := blocked[(me, other) := now];
      assert b - {(me, other)} == blocked;
    }
  }

  // ---------------------------------------------------------------------
  // unblock_user

  /** The checks of unblock_user in order: the caller, then the target; blocking oneself is not rejected here. */
  function UnblockGuard(t: Tables, username: string, id: int): (r: Result<(nat, nat)>)
    ensures r.Ok? <==> DirectMessages.Caller(t, username).Ok? && Target(t, id, "").Ok?
    ensures r.Ok? ==> r.value == (DirectMessages.Caller(t, username).value, id as nat)
    ensures DirectMessages.Caller(t, username).Err? ==> r == Err(NotFound("User not found"))
    ensures DirectMessages.Caller(t, username).Ok? && Target(t, id, "").Err? ==> r == Err(NotFound("User to unblock not found"))
  {
    match DirectMessages.Caller(t, username)
    case Err(e) => Err(e)
    case Ok(me) =>
      match Target(t, id, "User to unblock not found")
      case Err(e) => Err(e)
      case Ok(other) => Ok((me, other))
  }

  /** DELETE /api/users/unblock/{user_id}. */
  method UnblockUser(db: Db, username: string, id: int) returns (r: Result<string>, notice: Option<BlockNotice>)
    modifies db
    ensures UnblockGuard(old(db.t), username, id).Err? ==>
      r == Err(UnblockGuard(old(db.t), username, id).error) && notice == None && db.t == old(db.t)
    ensures UnblockGuard(old(db.t), username, id).Ok? ==>
      var (me, other) := UnblockGuard(old(db.t), username, id).value;
      if (me, other) !in old(db.t).blocked then
        r == Ok("User is not blocked") && notice == None && db.t == old(db.t)
      else
        r == Ok("User has been unblocked") && notice == Some(BlockNotice(me, other, false)) &&
        db.t == old(db.t).(blocked := Unblocked(old(db.t).blocked, me, other))
  {
    var g := UnblockGuard(db.t, username, id);
    if g.Err? {
      return Err(g.error), None;
    }
    var (me, other) := g.value;
    if (me, other) !in db.t.blocked {
      return Ok("User is not blocked"), None;
    }
    db.t := db.t.(blocked := db.t.blocked - {(me, other)});
    r, notice := Ok("User has been unblocked"), Some(BlockNotice(me, other, false));
  }

  /**
   * Unblocking removes exactly the edge me→other: the reverse edge and every
   * other edge stay, and unblocking again changes nothing.
   */
  lemma UnblockRemovesOneEdge(blocked: map<(nat, nat), DateTime>, me: nat, other: nat)
    ensures var b := Unblocked(blocked, me, other);
      (forall k :: k in b <==> k in blocked && k != (me, other)) &&
      (forall k :: k in b ==> b[k] == blocked[k]) &&
      Unblocked(b, me, other) == b &&
      ((other, me) in b <==> (other, me) in blocked && me != other)
  {
    var b := Unblocked(blocked, me, other);
    assert b - {(me, other)} == b;
  }

  // ---------------------------------------------------------------------
  // check_if_blocked

  datatype BlockState = BlockState(isBlocked: bool, isBlocker: bool)

  /**
   * GET /api/users/check-blocked/{user_id}: whether the caller blocks the
   * target, and whether the target blocks the caller, the two independently.
   */
  function CheckIfBlocked(t: Tables, username: string, id: int): (r: Result<BlockState>)
    ensures DirectMessages.Caller(t, username).Err? ==> r == Err(NotFound("User not found"))
    ensures DirectMessages.Caller(t, username).Ok? && Target(t, id, "").Err? ==> r == Err(NotFound("Target user not found"))
    ensures r.Ok? <==> DirectMessages.Caller(t, username).Ok? && Target(t, id, "").Ok?
    ensures r.Ok? ==>
      var me := DirectMessages.Caller(t, username).value;
      r.value.isBlocked == ((me, id as nat) in t.blocked) && r.value.isBlocker == ((id as nat, me) in t.blocked)
  {
    match DirectMessages.Caller(t, username)
    case Err(e) => Err(e)
    case Ok(me) =>
      match Target(t, id, "Target user not found")
      case Err(e) => Err(e)
      case Ok(other) => Ok(BlockState((me, other) in t.blocked, (other, me) in t.blocked))
  }

  /**
   * A block is seen from both sides: after `a` blocks `b`, `a` sees
   * isBlocked and `b` sees isBlocker; whether `b` blocks `a` is unchanged.
   */
  lemma BlockSeenFromBothSides(t: Tables, a: nat, b: nat, now: DateTime)
    requires UsernamesUnique(t.users)
    requires a in t.users && b in t.users && a != b
    ensures var t2 := t.(blocked := Blocked(t.blocked, a, b, now));
      var mine := CheckIfBlocked(t2, t.users[a].username, b);
      var theirs := CheckIfBlocked(t2, t.users[b].username, a);
      mine.Ok? && mine.value.isBlocked && (mine.value.isBlocker <==> (b, a) in t.blocked) &&
      theirs.Ok? && theirs.value.isBlocker && (theirs.value.isBlocked <==> (b, a) in t.blocked)
  {
    UserByNameIsTheUser(t.users, t.users[a].username, a);
    UserByNameIsTheUser(t.users, t.users[b].username, b);
  }

  // ---------------------------------------------------------------------
  // get_blocked_users

  /** One entry of the blocked list; a user without an avatar shows the default picture. */
  datatype BlockedEntry = BlockedEntry(id: nat, username: string, fullName: Option<string>, avatar: string, blockedAt: DateTime)

  /** The users `me` blocks that have a user row (the join with users). */
  function BlockedBy(t: Tables, me: nat): (ids: set<nat>)
    ensures forall u :: u in ids <==> (me, u) in t.blocked && u in t.users
  {
    set k | k in t.blocked && k.0 == me && k.1 in t.users :: k.1
  }

  function BlockedEntryOf(t: Tables, me: nat, u: nat): (e: BlockedEntry)
    requires u in BlockedBy(t, me)
    ensures e.id == t.users[u].id && e.username == t.users[u].username && e.fullName == t.users[u].fullName
    ensures e.blockedAt == t.blocked[(me, u)]
    ensures e.avatar == (if Truthy(t.users[u].avatar) then t.users[u].avatar.value else DefaultUserAvatar)
  {
    var user := t.users[u];
    BlockedEntry(user.id, user.username, user.fullName,
      if Truthy(user.avatar) then user.avatar.value else DefaultUserAvatar, t.blocked[(me, u)])
  }

  /** GET /api/users/blocked: one entry per blocked user, in id order. */
  method GetBlockedUsers(db: Db, username: string) returns (r: Result<seq<BlockedEntry>>)
    ensures DirectMessages.Caller(db.t, username).Err? ==> r == Err(NotFound("User not found"))
    ensures DirectMessages.Caller(db.t, username).Ok? ==>
      var me := DirectMessages.Caller(db.t, username).value;
      var us := Ascending(BlockedBy(db.t, me));
      r.Ok? && |r.value| == |us| && forall i :: 0 <= i < |us| ==> r.value[i] == BlockedEntryOf(db.t, me, us[i])
  {
    var c := DirectMessages.Caller(db.t, username);
    if c.Err? {
      return Err(c.error);
    }
    var me := c.value;
    var out := BlockedEntries(db.t, me, Ascending(BlockedBy(db.t, me)));
    r := Ok(out);
  }

  /** The loop of get_blocked_users: one entry per listed user, in list order. */
  method BlockedEntries(t: Tables, me: nat, us: seq<nat>) returns (out: seq<BlockedEntry>)
    requires forall i :: 0 <= i < |us| ==> us[i] in BlockedBy(t, me)
    ensures |out| == |us| && forall i :: 0 <= i < |us| ==> out[i] == BlockedEntryOf(t, me, us[i])
  {
    out := [];
    for i := 0 to |us|
      invariant |out| == i
      invariant forall j :: 0 <= j < i ==> out[j] == BlockedEntryOf(t, me, us[j])
    {
      var user := t.users[us[i]];
      var avatar := if Truthy(user.avatar) then user.avatar.value else DefaultUserAvatar;
      out := out + [BlockedEntry(user.id, user.username, user.fullName, avatar, t.blocked[(me, us[i])])];
    }
  }

  /**
   * The blocked list names exactly the existing users on the caller's
   * outgoing edges, each once: a user the caller is blocked by is not in it.
   */
  lemma BlockedListIsOutgoingEdges(t: Tables, me: nat, es: seq<BlockedEntry>)
    requires forall k :: k in t.users ==> t.users[k].id == k
    requires |es| == |Ascending(BlockedBy(t, me))|
    requires forall i :: 0 <= i < |es| ==> es[i] == BlockedEntryOf(t, me, Ascending(BlockedBy(t, me))[i])
    ensures forall u :: (exists i :: 0 <= i < |es| && es[i].id == u) <==> (me, u) in t.blocked && u in t.users
    ensures forall i, j :: 0 <= i < j < |es| ==> es[i].id < es[j].id
  {
    var us := Ascending(BlockedBy(t, me));
    assert forall i :: 0 <= i < |es| ==> es[i].id == us[i];
    forall u | (me, u) in t.blocked && u in t.users ensures exists i :: 0 <= i < |es| && es[i].id == u {
      var i :| 0 <= i < |us| && us[i] == u;
      assert es[i].id == u;
    }
  }
}
