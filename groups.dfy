/**
 * Group membership management (app/routers/groups.py): creating a group with
 * its first members, adding members, removing a member or leaving, changing a
 * member's admin flag, and renaming a group.
 *
 * Each route is a method over the shared store, proved against a function
 * that gives the tables and the reply it leaves behind (the route's
 * "outcome"); the lemmas state what those outcomes promise. Commits are
 * atomic: a request whose final commit fails leaves only what it committed
 * before.
 */
module Groups {
  import opened Common
  import opened Schema
  import opened Utils

  /**
   * The signed-in user of a cookie session: 401 when the session holds no
   * username, 404 when no row carries it.
   */
  function SessionUser(t: Tables, session: Option<string>): (r: Result<nat>)
    ensures !Truthy(session) ==> r == Err(Unauthorized("Not authenticated"))
    ensures Truthy(session) && UserByName(t.users, session.value).None? ==> r == Err(NotFound("User not found"))
    ensures r.Ok? <==> Truthy(session) && UserByName(t.users, session.value).Some?
    ensures r.Ok? ==> r.value in t.users && t.users[r.value].username == session.value
  {
    if !Truthy(session) then Err(Unauthorized("Not authenticated"))
    else match UserByName(t.users, session.value)
      case None => Err(NotFound("User not found"))
      case Some(me) => Ok(me)
  }

  // ---------------------------------------------------------------------
  // The comma-separated id list of a form

  /** Each non-blank piece, stripped and read as an integer; `None` when one is not an integer. */
  function ParsePieces(pieces: seq<string>): Option<seq<int>>
  {
    if pieces == [] then Some([])
    else
      var rest := ParsePieces(pieces[1..]);
      var p := Trim(pieces[0]);
      if p == "" then rest
      else match ParseInt(p)
        case None => None
        case Some(v) => if rest.None? then None else Some([v] + rest.value)
  }

  /** `[int(p.strip()) for p in s.split(',') if p.strip()]`; `None` stands for the ValueError. */
  function ParseIds(s: string): Option<seq<int>>
  {
    ParsePieces(Split(s, ','))
  }

  /** How a client writes a list of ids: decimal numbers joined by commas. */
  function JoinIds(ids: seq<nat>): string
  {
    Join(DecimalPieces(ids), ',')
  }

  /** One decimal piece per id, in order. */
  function DecimalPieces(ids: seq<nat>): (ps: seq<string>)
    ensures |ps| == |ids|
    ensures ids != [] ==> ps[0] == Decimal(ids[0]) && ps[1..] == DecimalPieces(ids[1..])
  {
    if ids == [] then [] else [Decimal(ids[0])] + DecimalPieces(ids[1..])
  }

  lemma {:induction false} ParseDecimalPieces(ids: seq<nat>)
    ensures ParsePieces(DecimalPieces(ids)).Some?
    ensures ParsePieces(DecimalPieces(ids)).value == ids
  {
    if ids != [] {
      assert [ids[0]] + ids[1..] == ids;
      ParseDecimalPieces(ids[1..]);
      DecimalPieceParses(ids[0]);
      PiecesStep(DecimalPieces(ids), ids[0], ids[1..]);
    }
  }

  lemma PiecesStep(ps: seq<string>, v: int, vs: seq<int>)
    requires ps != [] && ParsePieces(ps[1..]) == Some(vs)
    requires Trim(ps[0]) != "" && ParseInt(Trim(ps[0])) == Some(v)
    ensures ParsePieces(ps) == Some([v] + vs)
  {
  }

  /** One piece a client writes survives the strip and reads back as its number. */
  lemma DecimalPieceParses(n: nat)
    ensures Trim(Decimal(n)) == Decimal(n) != ""
    ensures ParseInt(Trim(Decimal(n))) == Some(n)
  {
    var d := Decimal(n);
    assert !IsSpace(d[0]) && !IsSpace(d[|d| - 1]);
    ParseDecimal(n);
  }

  /** A list of ids written by a client reads back as that list. */
  lemma ParseJoinedIds(ids: seq<nat>)
    ensures ParseIds(JoinIds(ids)).Some?
    ensures ParseIds(JoinIds(ids)).value == ids
  {
    var ps := DecimalPieces(ids);
    if ids == [] {
      assert Split("", ',') == [""];
    } else {
      NoCommaInDecimals(ids);
      SplitJoin(ps, ',');
      ParseDecimalPieces(ids);
      assert ParseIds(JoinIds(ids)) == ParsePieces(ps);
    }
  }

  lemma {:induction false} NoCommaInDecimals(ids: seq<nat>)
    ensures forall i :: 0 <= i < |ids| ==> ',' !in DecimalPieces(ids)[i]
  {
    if ids != [] {
      NoCommaInDecimals(ids[1..]);
      var ps := DecimalPieces(ids);
      forall i | 0 <= i < |ids| ensures ',' !in ps[i] {
        if i == 0 {
          assert IsDigits(Decimal(ids[0]));
        } else {
          assert ps[i] == DecimalPieces(ids[1..])[i - 1];
        }
      }
    }
  }

  // ---------------------------------------------------------------------
  // Shared pieces

  /** Whether a listed id names an existing user. */
  predicate NamesUser(t: Tables, id: int)
  {
    id >= 0 && id as nat in t.users
  }

  predicate NoDuplicates(q: seq<nat>)
  {
    forall i, j :: 0 <= i < j < |q| ==> q[i] != q[j]
  }

  /** group_members with each of `us` added to group `g` as a plain member, in order. */
  function AddPlain(gm: map<(nat, nat), GroupMember>, g: nat, us: seq<nat>, now: DateTime): (r: map<(nat, nat), GroupMember>)
    ensures forall k :: k in r <==> k in gm || (k.0 == g && k.1 in us)
    ensures forall k :: k in r && !(k.0 == g && k.1 in us) ==> r[k] == gm[k]
    ensures forall u :: u in us ==> r[(g, u)] == GroupMember(false, now)
  {
    if us == [] then gm
    else AddPlain(gm, g, us[..|us| - 1], now)[(g, us[|us| - 1]) := GroupMember(false, now)]
  }

  lemma AddPlainSnoc(gm: map<(nat, nat), GroupMember>, g: nat, us: seq<nat>, u: nat, now: DateTime)
    ensures AddPlain(gm, g, us + [u], now) == AddPlain(gm, g, us, now)[(g, u) := GroupMember(false, now)]
  {
    assert (us + [u])[..|us|] == us;
  }

  /** The admins of a group. */
  function AdminsOf(t: Tables, g: nat): (ids: set<nat>)
    ensures forall u :: u in ids <==> (g, u) in t.groupMembers && t.groupMembers[(g, u)].isAdmin
  {
    set k | k in t.groupMembers && k.0 == g && t.groupMembers[k].isAdmin :: k.1
  }

  lemma {:induction false} NoDuplicatesCount(q: seq<nat>)
    requires NoDuplicates(q)
    ensures |IdSet(q)| == |q|
  {
    if q != [] {
      var init := q[..|q| - 1];
      NoDuplicatesCount(init);
      assert IdSet(q) == IdSet(init) + {q[|q| - 1]} by {
        assert q == init + [q[|q| - 1]];
      }
      assert q[|q| - 1] !in IdSet(init);
    }
  }

  // ---------------------------------------------------------------------
  // create_group

  /** The reply of create_group. */
  datatype CreatedGroup = CreatedGroup(
    id: nat, name: string, description: Option<string>, createdAt: DateTime, avatar: Option<string>, memberCount: nat)

  /** A group row as inserted: the column default for the avatar. */
  function NewGroup(id: nat, name: string, description: Option<string>, now: DateTime): GroupChat
  {
    GroupChat(id, name, description, Some(DefaultGroupAvatar), now)
  }

  /** The listed ids the creation adds as plain members, in list order: users other than the creator. */
  function Joiners(t: Tables, creator: nat, ids: seq<int>): (q: seq<nat>)
    ensures forall u :: u in q <==> u in t.users && u != creator && u as int in ids
    ensures |q| <= |ids|
  {
    if ids == [] then []
    else
      var init := Joiners(t, creator, ids[..|ids| - 1]);
      var last := ids[|ids| - 1];
      assert ids == ids[..|ids| - 1] + [last];
      if NamesUser(t, last) && last as nat != creator then init + [last as nat] else init
  }

  lemma JoinersSnoc(t: Tables, creator: nat, ids: seq<int>, i: nat)
    requires i < |ids|
    ensures Joiners(t, creator, ids[..i + 1]) ==
      Joiners(t, creator, ids[..i]) + (if NamesUser(t, ids[i]) && ids[i] as nat != creator then [ids[i] as nat] else [])
  {
    assert ids[..i + 1][..i] == ids[..i];
  }

  /**
   * What create_group leaves and replies for the creator `me`. The group row
   * is committed first, so it stays when the id list does not parse (400) or
   * when a listed user appears twice and the second insert hits the key
   * (group_id, user_id) (500); the member rows are then rolled back.
   */
  function CreateOutcome(t: Tables, me: nat, name: string, description: Option<string>, memberIds: string, now: DateTime)
    : (Tables, Result<CreatedGroup>)
  {
    var g := NextId(t.groups.Keys);
    var withGroup := t.(groups := t.groups[g := NewGroup(g, name, description, now)]);
    match ParseIds(memberIds)
    case None => (withGroup, Err(BadRequest("Invalid member ID format")))
    case Some(ids) =>
      var js := Joiners(t, me, ids);
      if !NoDuplicates(js) then (withGroup, Err(InternalError("Internal Server Error")))
      else
        (withGroup.(groupMembers := AddPlain(t.groupMembers[(g, me) := GroupMember(true, now)], g, js, now)),
         Ok(CreatedGroup(g, name, description, now, Some(DefaultGroupAvatar), |ids| + 1)))
  }

  /**
   * The member rows the creation stages after the creator's: one plain row
   * per listed id that names a user other than the creator, in list order.
   */
  method StageJoiners(t: Tables, me: nat, g: nat, ids: seq<int>, base: map<(nat, nat), GroupMember>, now: DateTime)
    returns (js: seq<nat>, pending: map<(nat, nat), GroupMember>)
    ensures js == Joiners(t, me, ids)
    ensures pending == AddPlain(base, g, js, now)
  {
    pending := base;
    js := [];
    var i := 0;
    while i < |ids|
      invariant 0 <= i <= |ids|
      invariant js == Joiners(t, me, ids[..i])
      invariant pending == AddPlain(base, g, js, now)
    {
      var id := ids[i];
      JoinersSnoc(t, me, ids, i);
      if id >= 0 && id as nat in t.users && id as nat != me {
        assert NamesUser(t, id);
        var u: nat := id as nat;
        AddPlainSnoc(base, g, js, u, now);
        pending := pending[(g, u) := GroupMember(false, now)];
        js := js + [u];
      } else {
        assert !(NamesUser(t, id) && id as nat != me);
      }
      i := i + 1;
    }
    assert ids[..i] == ids;
  }

  /** POST /api/groups. */
  method CreateGroup(db: Db, session: Option<string>, name: string, description: Option<string>, memberIds: string, now: DateTime)
    returns (r: Result<CreatedGroup>)
    modifies db
    ensures SessionUser(old(db.t), session).Err? ==> r == Err(SessionUser(old(db.t), session).error) && db.t == old(db.t)
    ensures SessionUser(old(db.t), session).Ok? ==>
      (db.t, r) == CreateOutcome(old(db.t), SessionUser(old(db.t), session).value, name, description, memberIds, now)
  {
    var s := SessionUser(db.t, session);
    if s.Err? {
      return Err(s.error);
    }
    var me := s.value;
    var t := db.t;
    var g := NextId(t.groups.Keys);
    var withGroup := t.(groups := t.groups[g := NewGroup(g, name, description, now)]);
    db.t := withGroup;
    var parsed := ParseIds(memberIds);
    if parsed.None? {
      return Err(BadRequest("Invalid member ID format"));
    }
    var ids := parsed.value;
    var js, pending := StageJoiners(t, me, g, ids, t.groupMembers[(g, me) := GroupMember(true, now)], now);
    if !NoDuplicates(js) {
      return Err(InternalError("Internal Server Error"));
    }
    db.t := withGroup.(groupMembers := pending);
    r := Ok(CreatedGroup(g, name, description, now, Some(DefaultGroupAvatar), |ids| + 1));
  }

  /** The member rows of a new group `g`: the creator as admin, then each joiner as a plain member. */
  lemma SeedShape(gm: map<(nat, nat), GroupMember>, g: nat, me: nat, js: seq<nat>, now: DateTime)
    requires forall u :: (g, u) !in gm
    requires me !in js
    ensures var m := AddPlain(gm[(g, me) := GroupMember(true, now)], g, js, now);
      (forall k :: k in gm ==> k in m && m[k] == gm[k]) &&
      (forall k :: k in m && k.0 != g ==> k in gm) &&
      (forall u :: (g, u) in m <==> u == me || u in js) &&
      (forall u :: (g, u) in m && m[(g, u)].isAdmin <==> u == me)
  {
  }

  /**
   * A successful creation adds a fresh group row, makes the creator its only
   * admin and every other listed user a plain member, skipping ids that name
   * no user and the creator's own id; no other group's rows change.
   */
  lemma CreateGroupSeedsMembers(t: Tables, me: nat, name: string, description: Option<string>, memberIds: string, now: DateTime)
    requires GroupMembersReferToGroups(t)
    requires CreateOutcome(t, me, name, description, memberIds, now).1.Ok?
    ensures var (after, r) := CreateOutcome(t, me, name, description, memberIds, now);
      var g := r.value.id;
      var ids := ParseIds(memberIds).value;
      g !in t.groups && after.groups == t.groups[g := NewGroup(g, name, description, now)] &&
      (forall u :: u in GroupMembersOf(after, g) <==> u == me || (u in t.users && u as int in ids)) &&
      AdminsOf(after, g) == {me} &&
      (forall k :: k in t.groupMembers ==> k in after.groupMembers && after.groupMembers[k] == t.groupMembers[k]) &&
      (forall k :: k in after.groupMembers && k.0 != g ==> k in t.groupMembers)
  {
    CreateOutcomeOk(t, me, name, description, memberIds, now);
    var g := NextId(t.groups.Keys);
    var ids := ParseIds(memberIds).value;
    var js := Joiners(t, me, ids);
    var after := t.(groups := t.groups[g := NewGroup(g, name, description, now)],
                    groupMembers := AddPlain(t.groupMembers[(g, me) := GroupMember(true, now)], g, js, now));
    assert forall u :: (g, u) !in t.groupMembers;
    SeedShape(t.groupMembers, g, me, js, now);
    assert AdminsOf(after, g) == {me} by {
      forall u ensures u in AdminsOf(after, g) <==> u == me {
      }
    }
    forall u ensures u in GroupMembersOf(after, g) <==> u == me || (u in t.users && u as int in ids) {
    }
  }

  /** A successful creation parsed the list and seeds the new group with the creator and the joiners. */
  lemma CreateOutcomeOk(t: Tables, me: nat, name: string, description: Option<string>, memberIds: string, now: DateTime)
    requires CreateOutcome(t, me, name, description, memberIds, now).1.Ok?
    ensures ParseIds(memberIds).Some?
    ensures var g := NextId(t.groups.Keys);
      var ids := ParseIds(memberIds).value;
      var js := Joiners(t, me, ids);
      CreateOutcome(t, me, name, description, memberIds, now) ==
        (t.(groups := t.groups[g := NewGroup(g, name, description, now)],
            groupMembers := AddPlain(t.groupMembers[(g, me) := GroupMember(true, now)], g, js, now)),
         Ok(CreatedGroup(g, name, description, now, Some(DefaultGroupAvatar), |ids| + 1)))
  {
  }

  /**
   * The reply counts every parsed id plus the creator, so it never falls
   * below the real member count and exceeds it exactly when an id was skipped
   * (no such user, or the creator's own id).
   */
  lemma CreateGroupMemberCount(t: Tables, me: nat, name: string, description: Option<string>, memberIds: string, now: DateTime)
    requires GroupMembersReferToGroups(t)
    requires CreateOutcome(t, me, name, description, memberIds, now).1.Ok?
    ensures var (after, r) := CreateOutcome(t, me, name, description, memberIds, now);
      var ids := ParseIds(memberIds).value;
      r.value.memberCount == |ids| + 1 &&
      |GroupMembersOf(after, r.value.id)| <= r.value.memberCount &&
      (|GroupMembersOf(after, r.value.id)| == r.value.memberCount <==>
         forall i :: 0 <= i < |ids| ==> NamesUser(t, ids[i]) && ids[i] != me as int)
  {
    var g := NextId(t.groups.Keys);
    var ids := ParseIds(memberIds).value;
    var js := Joiners(t, me, ids);
    var after := CreateOutcome(t, me, name, description, memberIds, now).0;
    CreateGroupSeedsMembers(t, me, name, description, memberIds, now);
    assert forall u :: u in GroupMembersOf(after, g) <==> u == me || u in js;
    SeededCount(after, g, me, js);
    JoinersCountsKept(t, me, ids);
  }

  lemma SeededCount(t: Tables, g: nat, me: nat, js: seq<nat>)
    requires forall u :: u in GroupMembersOf(t, g) <==> u == me || u in js
    requires me !in js && NoDuplicates(js)
    ensures |GroupMembersOf(t, g)| == |js| + 1
  {
    assert GroupMembersOf(t, g) == IdSet(js) + {me};
    NoDuplicatesCount(js);
  }

  /** The joiners are as many as the listed ids exactly when no id was skipped. */
  lemma {:induction false} JoinersCountsKept(t: Tables, me: nat, ids: seq<int>)
    ensures |Joiners(t, me, ids)| == |ids| <==> forall i :: 0 <= i < |ids| ==> NamesUser(t, ids[i]) && ids[i] != me as int
  {
    if ids != [] {
      var init := ids[..|ids| - 1];
      JoinersCountsKept(t, me, init);
      assert forall i :: 0 <= i < |init| ==> init[i] == ids[i];
    }
  }

  /** A failed creation still leaves the new group row, with no member rows. */
  lemma CreateGroupFailureKeepsGroup(t: Tables, me: nat, name: string, description: Option<string>, memberIds: string, now: DateTime)
    requires CreateOutcome(t, me, name, description, memberIds, now).1.Err?
    ensures var after := CreateOutcome(t, me, name, description, memberIds, now).0;
      var g := NextId(t.groups.Keys);
      g !in t.groups && after == t.(groups := t.groups[g := NewGroup(g, name, description, now)])
  {
  }

  // ---------------------------------------------------------------------
  // add_group_members

  /** One entry of the reply: a user the request added. */
  datatype AddedMember = AddedMember(id: nat, name: string, username: string)

  /** The listed ids the request adds, in list order: existing users that were not members before it. */
  function Newcomers(t: Tables, g: nat, ids: seq<int>): (q: seq<nat>)
    ensures forall u :: u in q <==> u in t.users && (g, u) !in t.groupMembers && u as int in ids
  {
    if ids == [] then []
    else
      var init := Newcomers(t, g, ids[..|ids| - 1]);
      var last := ids[|ids| - 1];
      assert ids == ids[..|ids| - 1] + [last];
      if NamesUser(t, last) && (g, last as nat) !in t.groupMembers then init + [last as nat] else init
  }

  lemma NewcomersSnoc(t: Tables, g: nat, ids: seq<int>, i: nat)
    requires i < |ids|
    ensures Newcomers(t, g, ids[..i + 1]) ==
      Newcomers(t, g, ids[..i]) + (if NamesUser(t, ids[i]) && (g, ids[i] as nat) !in t.groupMembers then [ids[i] as nat] else [])
  {
    assert ids[..i + 1][..i] == ids[..i];
  }

  function Added(t: Tables, us: seq<nat>): (q: seq<AddedMember>)
    requires forall i :: 0 <= i < |us| ==> us[i] in t.users
    ensures |q| == |us|
    ensures forall i :: 0 <= i < |us| ==> q[i] == AddedMember(t.users[us[i]].id, DisplayName(t.users[us[i]]), t.users[us[i]].username)
  {
    seq(|us|, i requires 0 <= i < |us| => AddedMember(t.users[us[i]].id, DisplayName(t.users[us[i]]), t.users[us[i]].username))
  }

  /**
   * What add_group_members leaves and replies for the caller `me`: 403 unless
   * an admin, 400 for an id list that does not parse, 500 when a new user is
   * listed twice (the commit fails); nothing is stored in those cases.
   */
  function AddOutcome(t: Tables, g: nat, me: nat, memberIds: string, now: DateTime): (Tables, Result<seq<AddedMember>>)
  {
    match CheckGroupAdmin(t, g, me)
    case Err(e) => (t, Err(e))
    case Ok(_) =>
      match ParseIds(memberIds)
      case None => (t, Err(BadRequest("Invalid member ID format")))
      case Some(ids) =>
        var ns := Newcomers(t, g, ids);
        if !NoDuplicates(ns) then (t, Err(InternalError("Internal Server Error")))
        else (t.(groupMembers := AddPlain(t.groupMembers, g, ns, now)), Ok(Added(t, ns)))
  }

  /** The member rows the addition stages: one plain row per listed existing non-member, in list order. */
  method StageNewcomers(t: Tables, g: nat, ids: seq<int>, now: DateTime)
    returns (ns: seq<nat>, pending: map<(nat, nat), GroupMember>)
    ensures ns == Newcomers(t, g, ids)
    ensures pending == AddPlain(t.groupMembers, g, ns, now)
  {
    pending := t.groupMembers;
    ns := [];
    var i := 0;
    while i < |ids|
      invariant 0 <= i <= |ids|
      invariant ns == Newcomers(t, g, ids[..i])
      invariant pending == AddPlain(t.groupMembers, g, ns, now)
    {
      NewcomersSnoc(t, g, ids, i);
      var id := ids[i];
      if id >= 0 && (g, id as nat) !in t.groupMembers && id as nat in t.users {
        AddPlainSnoc(t.groupMembers, g, ns, id as nat, now);
        pending := pending[(g, id as nat) := GroupMember(false, now)];
        ns := ns + [id as nat];
      }
      i := i + 1;
    }
    assert ids[..i] == ids;
  }

  /** POST /api/groups/{group_id}/members. */
  method AddGroupMembers(db: Db, session: Option<string>, g: nat, memberIds: string, now: DateTime)
    returns (r: Result<seq<AddedMember>>)
    modifies db
    ensures SessionUser(old(db.t), session).Err? ==> r == Err(SessionUser(old(db.t), session).error) && db.t == old(db.t)
    ensures SessionUser(old(db.t), session).Ok? ==>
      (db.t, r) == AddOutcome(old(db.t), g, SessionUser(old(db.t), session).value, memberIds, now)
  {
    var s := SessionUser(db.t, session);
    if s.Err? {
      return Err(s.error);
    }
    var t := db.t;
    var check := CheckGroupAdmin(t, g, s.value);
    if check.Err? {
      return Err(check.error);
    }
    var parsed := ParseIds(memberIds);
    if parsed.None? {
      return Err(BadRequest("Invalid member ID format"));
    }
    var ns, pending := StageNewcomers(t, g, parsed.value, now);
    if !NoDuplicates(ns) {
      return Err(InternalError("Internal Server Error"));
    }
    db.t := t.(groupMembers := pending);
    r := Ok(Added(t, ns));
  }

  /**
   * A successful addition makes exactly the listed existing non-members plain
   * members; every earlier member keeps its row, admin flag included, and the
   * reply lists the added users in list order.
   */
  lemma AddMembersAddsNewcomers(t: Tables, g: nat, me: nat, memberIds: string, now: DateTime)
    requires AddOutcome(t, g, me, memberIds, now).1.Ok?
    ensures var (after, r) := AddOutcome(t, g, me, memberIds, now);
      var ids := ParseIds(memberIds).value;
      me in AdminsOf(t, g) &&
      (forall u :: u in GroupMembersOf(after, g) <==> u in GroupMembersOf(t, g) || (u in t.users && u as int in ids)) &&
      (forall k :: k in t.groupMembers ==> after.groupMembers[k] == t.groupMembers[k]) &&
      (forall u :: u in GroupMembersOf(after, g) - GroupMembersOf(t, g) ==> !after.groupMembers[(g, u)].isAdmin) &&
      |r.value| == |Newcomers(t, g, ids)| &&
      (forall i :: 0 <= i < |r.value| ==> r.value[i].username == t.users[Newcomers(t, g, ids)[i]].username)
  {
    AddOutcomeOk(t, g, me, memberIds, now);
    NewcomersJoinPlain(t, g, ParseIds(memberIds).value, now);
  }

  /** A successful addition came from an admin and a parsed list, and stages the newcomers of that list. */
  lemma AddOutcomeOk(t: Tables, g: nat, me: nat, memberIds: string, now: DateTime)
    requires AddOutcome(t, g, me, memberIds, now).1.Ok?
    ensures me in AdminsOf(t, g) && ParseIds(memberIds).Some?
    ensures var ns := Newcomers(t, g, ParseIds(memberIds).value);
      AddOutcome(t, g, me, memberIds, now) == (t.(groupMembers := AddPlain(t.groupMembers, g, ns, now)), Ok(Added(t, ns)))
  {
  }

  /** Staging the newcomers of `ids` adds exactly the listed users with no row yet, none of them an admin. */
  lemma NewcomersJoinPlain(t: Tables, g: nat, ids: seq<int>, now: DateTime)
    ensures var after := t.(groupMembers := AddPlain(t.groupMembers, g, Newcomers(t, g, ids), now));
      (forall u :: u in GroupMembersOf(after, g) <==> u in GroupMembersOf(t, g) || (u in t.users && u as int in ids)) &&
      (forall k :: k in t.groupMembers ==> after.groupMembers[k] == t.groupMembers[k]) &&
      (forall u :: u in GroupMembersOf(after, g) - GroupMembersOf(t, g) ==> !after.groupMembers[(g, u)].isAdmin)
  {
    var ns := Newcomers(t, g, ids);
    var after := t.(groupMembers := AddPlain(t.groupMembers, g, ns, now));
    forall u ensures u in GroupMembersOf(after, g) <==> u in GroupMembersOf(t, g) || (u in t.users && u as int in ids) {
    }
  }

  // ---------------------------------------------------------------------
  // remove_group_member

  /**
   * Why remove_group_member refuses, if it does: a caller who is neither an
   * admin nor the member leaving (403), a target with no member row (404),
   * or the group's only admin (400).
   */
  function RemovalRefusal(t: Tables, g: nat, me: nat, target: nat): (e: Option<HttpError>)
    ensures e.None? <==> ((me in AdminsOf(t, g) || me == target) && (g, target) in t.groupMembers &&
      !(target in AdminsOf(t, g) && |AdminsOf(t, g)| == 1))
    ensures me !in AdminsOf(t, g) && me != target ==> e == Some(Forbidden("Only admins can remove members"))
    ensures (me in AdminsOf(t, g) || me == target) && (g, target) !in t.groupMembers ==>
      e == Some(NotFound("Member not found in group"))
  {
    if me !in AdminsOf(t, g) && me != target then Some(Forbidden("Only admins can remove members"))
    else if (g, target) !in t.groupMembers then Some(NotFound("Member not found in group"))
    else if t.groupMembers[(g, target)].isAdmin && |AdminsOf(t, g)| == 1 then
      Some(BadRequest("Cannot remove the last admin. Make someone else an admin first."))
    else None
  }

  /** The tables after the member row is deleted, and the group row too when no member is left. */
  function WithoutMember(t: Tables, g: nat, target: nat): Tables
  {
    var t1 := t.(groupMembers := t.groupMembers - {(g, target)});
    if GroupMembersOf(t1, g) == {} && g in t1.groups then t1.(groups := t1.groups - {g}) else t1
  }

  function RemoveOutcome(t: Tables, g: nat, me: nat, target: nat): (Tables, Result<string>)
  {
    match RemovalRefusal(t, g, me, target)
    case Some(e) => (t, Err(e))
    case None =>
      var after := WithoutMember(t, g, target);
      (after, Ok(if g in t.groups && g !in after.groups then "Member removed and group deleted (no members left)"
                 else "Member removed successfully"))
  }

  /** DELETE /api/groups/{group_id}/members/{member_id}. */
  method RemoveGroupMember(db: Db, session: Option<string>, g: nat, target: nat) returns (r: Result<string>)
    modifies db
    ensures SessionUser(old(db.t), session).Err? ==> r == Err(SessionUser(old(db.t), session).error) && db.t == old(db.t)
    ensures SessionUser(old(db.t), session).Ok? ==>
      (db.t, r) == RemoveOutcome(old(db.t), g, SessionUser(old(db.t), session).value, target)
  {
    var s := SessionUser(db.t, session);
    if s.Err? {
      return Err(s.error);
    }
    var refusal := RemovalRefusal(db.t, g, s.value, target);
    if refusal.Some? {
      return Err(refusal.value);
    }
    db.t := db.t.(groupMembers := db.t.groupMembers - {(g, target)});
    if GroupMembersOf(db.t, g) == {} && g in db.t.groups {
      db.t := db.t.(groups := db.t.groups - {g});
      return Ok("Member removed and group deleted (no members left)");
    }
    r := Ok("Member removed successfully");
  }

  /**
   * Deleting the target's member row, and the group row exactly when the
   * target was the group's last member.
   */
  lemma WithoutMemberDeletesOneRow(t: Tables, g: nat, target: nat)
    ensures var after := WithoutMember(t, g, target);
      (forall k :: k in after.groupMembers <==> k in t.groupMembers && k != (g, target)) &&
      GroupMembersOf(after, g) == GroupMembersOf(t, g) - {target} &&
      AdminsOf(after, g) == AdminsOf(t, g) - {target} &&
      (g !in after.groups <==> g !in t.groups || GroupMembersOf(t, g) <= {target})
  {
    var t1 := t.(groupMembers := t.groupMembers - {(g, target)});
    var after := WithoutMember(t, g, target);
    assert after.groupMembers == t1.groupMembers;
    assert GroupMembersOf(after, g) == GroupMembersOf(t, g) - {target} by {
      forall u ensures u in GroupMembersOf(after, g) <==> u in GroupMembersOf(t, g) - {target} {
        assert (g, u) in after.groupMembers <==> (g, u) in t.groupMembers && u != target;
      }
    }
    assert AdminsOf(after, g) == AdminsOf(t, g) - {target} by {
      forall u ensures u in AdminsOf(after, g) <==> u in AdminsOf(t, g) - {target} {
        assert (g, u) in after.groupMembers <==> (g, u) in t.groupMembers && u != target;
      }
    }
    assert GroupMembersOf(t1, g) == {} <==> GroupMembersOf(t, g) <= {target};
  }

  /** A removal that goes through deletes what WithoutMember deletes; the target was a member. */
  lemma RemovalDeletesOneRow(t: Tables, g: nat, me: nat, target: nat)
    requires RemoveOutcome(t, g, me, target).1.Ok?
    ensures var after := RemoveOutcome(t, g, me, target).0;
      after == WithoutMember(t, g, target) && target in GroupMembersOf(t, g) &&
      (me == target || me in AdminsOf(t, g))
  {
  }

  /**
   * A removal never takes away a group's last admin, so a group is deleted
   * (its last member gone) only when it had no admin left.
   */
  lemma RemovalKeepsAnAdmin(t: Tables, g: nat, me: nat, target: nat)
    requires RemoveOutcome(t, g, me, target).1.Ok?
    ensures var after := RemoveOutcome(t, g, me, target).0;
      (AdminsOf(t, g) != {} ==> AdminsOf(after, g) != {}) &&
      (g in t.groups && g !in after.groups ==> AdminsOf(t, g) == {})
  {
    RemovalDeletesOneRow(t, g, me, target);
    WithoutMemberDeletesOneRow(t, g, target);
    var admins := AdminsOf(t, g);
    if target in admins {
      assert |admins| != 1;
      assert admins == (admins - {target}) + {target};
      assert |admins - {target}| == |admins| - 1;
    }
  }

  // ---------------------------------------------------------------------
  // update_member_status and make_member_admin

  /** The reply of both admin-flag routes; the full name is `null` when the user has none. */
  datatype MemberStatus = MemberStatus(id: nat, name: Option<string>, username: string, isAdmin: bool)

  /**
   * What update_member_status leaves: the caller must be an admin (403), the
   * target a member (404); the target's admin flag becomes `flag`, with no
   * check that an admin remains.
   */
  function SetAdminOutcome(t: Tables, g: nat, me: nat, target: nat, flag: bool): (Tables, Result<MemberStatus>)
  {
    match CheckGroupAdmin(t, g, me)
    case Err(e) => (t, Err(e))
    case Ok(_) =>
      if (g, target) !in t.groupMembers then (t, Err(NotFound("Member not found in group")))
      else
        var after := t.(groupMembers := t.groupMembers[(g, target) := t.groupMembers[(g, target)].(isAdmin := flag)]);
        (after, Ok(MemberStatus(target,
          if target in t.users then t.users[target].fullName else Some("Unknown"),
          if target in t.users then t.users[target].username else "Unknown", flag)))
  }

  /** PUT /api/groups/{group_id}/members/{member_id}. */
  method UpdateMemberStatus(db: Db, session: Option<string>, g: nat, target: nat, flag: bool) returns (r: Result<MemberStatus>)
    modifies db
    ensures SessionUser(old(db.t), session).Err? ==> r == Err(SessionUser(old(db.t), session).error) && db.t == old(db.t)
    ensures SessionUser(old(db.t), session).Ok? ==>
      (db.t, r) == SetAdminOutcome(old(db.t), g, SessionUser(old(db.t), session).value, target, flag)
  {
    var s := SessionUser(db.t, session);
    if s.Err? {
      return Err(s.error);
    }
    var check := CheckGroupAdmin(db.t, g, s.value);
    if check.Err? {
      return Err(check.error);
    }
    if (g, target) !in db.t.groupMembers {
      return Err(NotFound("Member not found in group"));
    }
    var row := db.t.groupMembers[(g, target)];
    var t := db.t;
    db.t := t.(groupMembers := t.groupMembers[(g, target) := row.(isAdmin := flag)]);
    var name := if target in t.users then t.users[target].fullName else Some("Unknown");
    var username := if target in t.users then t.users[target].username else "Unknown";
    r := Ok(MemberStatus(target, name, username, flag));
  }

  /** POST /api/groups/{group_id}/members/{member_id}/make-admin: the same update with the flag set. */
  method MakeMemberAdmin(db: Db, session: Option<string>, g: nat, target: nat) returns (r: Result<MemberStatus>)
    modifies db
    ensures SessionUser(old(db.t), session).Err? ==> r == Err(SessionUser(old(db.t), session).error) && db.t == old(db.t)
    ensures SessionUser(old(db.t), session).Ok? ==>
      (db.t, r) == SetAdminOutcome(old(db.t), g, SessionUser(old(db.t), session).value, target, true)
  {
    r := UpdateMemberStatus(db, session, g, target, true);
  }

  /**
   * Only the target's flag changes; and since nothing checks for a remaining
   * admin, an admin can demote the group's only admin (themself), leaving a
   * group with members and no admin.
   */
  lemma SetAdminChangesOneFlag(t: Tables, g: nat, me: nat, target: nat, flag: bool)
    requires SetAdminOutcome(t, g, me, target, flag).1.Ok?
    ensures var after := SetAdminOutcome(t, g, me, target, flag).0;
      GroupMembersOf(after, g) == GroupMembersOf(t, g) &&
      AdminsOf(after, g) == (if flag then AdminsOf(t, g) + {target} else AdminsOf(t, g) - {target}) &&
      (forall k :: k in t.groupMembers && k != (g, target) ==> after.groupMembers[k] == t.groupMembers[k])
  {
    var m := t.groupMembers;
    var after := t.(groupMembers := m[(g, target) := m[(g, target)].(isAdmin := flag)]);
    assert SetAdminOutcome(t, g, me, target, flag).0 == after;
    assert GroupMembersOf(after, g) == GroupMembersOf(t, g) by {
      forall u ensures u in GroupMembersOf(after, g) <==> u in GroupMembersOf(t, g) {
      }
    }
    var admins := if flag then AdminsOf(t, g) + {target} else AdminsOf(t, g) - {target};
    assert AdminsOf(after, g) == admins by {
      forall u ensures u in AdminsOf(after, g) <==> u in admins {
      }
    }
  }

  lemma {:induction false} LastAdminCanDemoteThemself(t: Tables, g: nat, me: nat, now: DateTime)
    requires t.groupMembers == map[(g, me) := GroupMember(true, now)]
    ensures var after := SetAdminOutcome(t, g, me, me, false).0;
      SetAdminOutcome(t, g, me, me, false).1.Ok? && GroupMembersOf(after, g) == {me} && AdminsOf(after, g) == {}
  {
    var after := t.(groupMembers := map[(g, me) := GroupMember(false, now)]);
    assert CheckGroupAdmin(t, g, me).Ok?;
    assert t.groupMembers[(g, me) := t.groupMembers[(g, me)].(isAdmin := false)] == after.groupMembers;
    assert SetAdminOutcome(t, g, me, me, false).0 == after;
    assert GroupMembersOf(after, g) == {me} by {
      forall u ensures u in GroupMembersOf(after, g) <==> u == me {
      }
    }
    assert AdminsOf(after, g) == {} by {
      forall u ensures u !in AdminsOf(after, g) {
      }
    }
  }

  // ---------------------------------------------------------------------
  // update_group

  /** The reply of update_group. */
  datatype GroupInfo = GroupInfo(id: nat, name: string, description: Option<string>, avatar: Option<string>)

  /** The group row after an edit: a non-empty name replaces the name; any given description replaces it, even "". */
  function Renamed(row: GroupChat, name: Option<string>, description: Option<string>): (r: GroupChat)
    ensures r.name == (if Truthy(name) then name.value else row.name)
    ensures r.description == (if description.Some? then description else row.description)
    ensures r.(name := row.name, description := row.description) == row
  {
    row.(name := if Truthy(name) then name.value else row.name,
         description := if description.Some? then description else row.description)
  }

  /** Editing is idempotent, and an edit with neither field changes nothing. */
  lemma RenamedIdempotent(row: GroupChat, name: Option<string>, description: Option<string>)
    ensures Renamed(Renamed(row, name, description), name, description) == Renamed(row, name, description)
    ensures Renamed(row, None, None) == row
  {
  }

  /** What update_group leaves: 403 unless an admin, 404 without a group row, else the edited row. */
  function UpdateOutcome(t: Tables, g: nat, me: nat, name: Option<string>, description: Option<string>): (Tables, Result<GroupInfo>)
  {
    match CheckGroupAdmin(t, g, me)
    case Err(e) => (t, Err(e))
    case Ok(_) =>
      if g !in t.groups then (t, Err(NotFound("Group not found")))
      else
        var row := Renamed(t.groups[g], name, description);
        (t.(groups := t.groups[g := row]), Ok(GroupInfo(row.id, row.name, row.description, row.avatar)))
  }

  /** PUT /api/groups/{group_id}. */
  method UpdateGroup(db: Db, session: Option<string>, g: nat, name: Option<string>, description: Option<string>)
    returns (r: Result<GroupInfo>)
    modifies db
    ensures SessionUser(old(db.t), session).Err? ==> r == Err(SessionUser(old(db.t), session).error) && db.t == old(db.t)
    ensures SessionUser(old(db.t), session).Ok? ==>
      (db.t, r) == UpdateOutcome(old(db.t), g, SessionUser(old(db.t), session).value, name, description)
  {
    var s := SessionUser(db.t, session);
    if s.Err? {
      return Err(s.error);
    }
    var check := CheckGroupAdmin(db.t, g, s.value);
    if check.Err? {
      return Err(check.error);
    }
    if g !in db.t.groups {
      return Err(NotFound("Group not found"));
    }
    var row := db.t.groups[g];
    if Truthy(name) {
      row := row.(name := name.value);
    }
    if description.Some? {
      row := row.(description := description);
    }
    db.t := db.t.(groups := db.t.groups[g := row]);
    r := Ok(GroupInfo(row.id, row.name, row.description, row.avatar));
  }
}
