/**
 * Socket registries and the outbox the socket handlers write to.
 *
 * A registry maps a username to the set of its open sockets
 * (`active_connections` and `notification_connections` in
 * app/routers/websockets.py). Sending a JSON frame on a socket is modelled as
 * appending a `Send` to an outbox; the order of the outbox is the order in
 * which the handlers send. Where the handlers iterate over a set (the sockets
 * of a user, the members of a room) the model iterates in ascending id order.
 */
module Outbox {
  import opened Common
  import opened Schema

  /** An open WebSocket, identified by a number. */
  type Conn = nat

  /** username -> the sockets that user holds open. */
  type Registry = map<string, set<Conn>>

  /** One frame sent on one socket. */
  datatype Send<E> = Send(to: Conn, event: E)

  // ---------------------------------------------------------------------
  // Registry updates

  function SocketsOf(reg: Registry, name: string): set<Conn>
  {
    if name in reg then reg[name] else {}
  }

  /** A registry never keeps a username whose socket set became empty. */
  predicate NoEmptyEntries(reg: Registry)
  {
    forall name :: name in reg ==> reg[name] != {}
  }

  predicate IsOnline(reg: Registry, name: string)
  {
    name in reg
  }

  /** Connect: create the user's set if absent and add the socket. */
  function Register(reg: Registry, name: string, c: Conn): (r: Registry)
    ensures SocketsOf(r, name) == SocketsOf(reg, name) + {c}
    ensures forall other :: other != name ==> SocketsOf(r, other) == SocketsOf(reg, other)
    ensures r.Keys == reg.Keys + {name}
    ensures NoEmptyEntries(reg) ==> NoEmptyEntries(r)
  {
    if name !in reg then reg[name := {c}] else reg[name := reg[name] + {c}]
  }

  /** Disconnect: discard the socket and drop the username once its set is empty. */
  function Unregister(reg: Registry, name: string, c: Conn): (r: Registry)
    ensures SocketsOf(r, name) == SocketsOf(reg, name) - {c}
    ensures forall other :: other != name ==> SocketsOf(r, other) == SocketsOf(reg, other)
    ensures forall other :: other != name ==> (other in r <==> other in reg)
    ensures NoEmptyEntries(reg) ==> NoEmptyEntries(r)
  {
    if name in reg then
      var rest := reg[name] - {c};
      if rest == {} then reg - {name} else reg[name := rest]
    else reg
  }

  /** In a registry without empty entries, a user is online exactly while holding a socket. */
  lemma OnlineIffHoldsSocket(reg: Registry, name: string)
    requires NoEmptyEntries(reg)
    ensures IsOnline(reg, name) <==> SocketsOf(reg, name) != {}
  {
  }

  /** Disconnecting one socket leaves the user online exactly when another socket remains. */
  lemma {:induction false} OnlineAfterUnregister(reg: Registry, name: string, c: Conn)
    requires NoEmptyEntries(reg)
    ensures IsOnline(Unregister(reg, name, c), name) <==> SocketsOf(reg, name) - {c} != {}
  {
    OnlineIffHoldsSocket(Unregister(reg, name, c), name);
  }

  /** Connecting a new socket and disconnecting it again restores the registry. */
  lemma {:induction false} RegisterUnregisterRoundTrip(reg: Registry, name: string, c: Conn)
    requires NoEmptyEntries(reg)
    requires c !in SocketsOf(reg, name)
    ensures Unregister(Register(reg, name, c), name, c) == reg
  {
    var r := Unregister(Register(reg, name, c), name, c);
    assert forall n :: SocketsOf(r, n) == SocketsOf(reg, n);
    forall n | n in r ensures n in reg && r[n] == reg[n] {
      if n == name { assert SocketsOf(r, n) != {}; }
    }
    forall n | n in reg ensures n in r {
      if n == name { assert SocketsOf(reg, n) - {c} != {}; }
    }
  }

  // ---------------------------------------------------------------------
  // Fan-out

  /** The frames `evs`, in order, on one socket. */
  function OnSocket<E>(c: Conn, evs: seq<E>): (q: seq<Send<E>>)
    ensures |q| == |evs|
    ensures forall k :: 0 <= k < |q| ==> q[k] == Send(c, evs[k])
  {
    if evs == [] then [] else OnSocket(c, evs[..|evs| - 1]) + [Send(c, evs[|evs| - 1])]
  }

  /** One more frame on the socket appends that frame. */
  lemma OnSocketSnoc<E>(c: Conn, evs: seq<E>, i: nat)
    requires i < |evs|
    ensures OnSocket(c, evs[..i + 1]) == OnSocket(c, evs[..i]) + [Send(c, evs[i])]
  {
    assert evs[..i + 1][..i] == evs[..i];
  }

  /** The frames `evs`, in order, on each socket of `conns` in turn. */
  function OnSockets<E>(conns: seq<Conn>, evs: seq<E>): seq<Send<E>>
  {
    if conns == [] then [] else OnSockets(conns[..|conns| - 1], evs) + OnSocket(conns[|conns| - 1], evs)
  }

  /** Sending on one more socket appends that socket's frames. */
  lemma OnSocketsSnoc<E>(conns: seq<Conn>, j: nat, evs: seq<E>)
    requires j < |conns|
    ensures OnSockets(conns[..j + 1], evs) == OnSockets(conns[..j], evs) + OnSocket(conns[j], evs)
  {
    assert conns[..j + 1][..j] == conns[..j];
  }

  /** Every socket of `conns` receives every frame of `evs`, and nothing else is sent. */
  lemma {:induction false} OnSocketsTargets<E>(conns: seq<Conn>, evs: seq<E>)
    ensures forall s :: s in OnSockets(conns, evs) <==> s.to in conns && s.event in evs
  {
    if conns != [] {
      var init := conns[..|conns| - 1];
      OnSocketsTargets(init, evs);
      var last := OnSocket(conns[|conns| - 1], evs);
      forall s ensures s in last <==> s.to == conns[|conns| - 1] && s.event in evs {
        if s.to == conns[|conns| - 1] && s.event in evs {
          var k :| 0 <= k < |evs| && evs[k] == s.event;
          assert last[k] == s;
        }
      }
      assert forall x :: x in conns <==> x in init || x == conns[|conns| - 1] by {
        assert conns == init + [conns[|conns| - 1]];
      }
    }
  }

  /** With one frame per socket, each socket receives it exactly once. */
  lemma {:induction false} OnSocketsLength<E>(conns: seq<Conn>, evs: seq<E>)
    ensures |OnSockets(conns, evs)| == |conns| * |evs|
  {
    if conns != [] {
      OnSocketsLength(conns[..|conns| - 1], evs);
      assert (|conns| - 1) * |evs| + |evs| == |conns| * |evs|;
    }
  }

  /** The sockets of the user with this id, when the user exists and is online. */
  function SocketsOfUser(users: map<nat, User>, reg: Registry, u: nat): set<Conn>
  {
    if u in users then SocketsOf(reg, users[u].username) else {}
  }

  /** Every socket held by one of the users `ids`. */
  function Reach(users: map<nat, User>, reg: Registry, ids: set<nat>): (r: set<Conn>)
    ensures forall c :: c in r <==> exists u :: u in ids && c in SocketsOfUser(users, reg, u)
  {
    set u, c | u in ids && c in SocketsOfUser(users, reg, u) :: c
  }

  /** For each user of `ids` in turn, the frames `evs` on each of that user's sockets. */
  function ToUsers<E>(users: map<nat, User>, reg: Registry, ids: seq<nat>, evs: seq<E>): seq<Send<E>>
  {
    if ids == [] then []
    else ToUsers(users, reg, ids[..|ids| - 1], evs) +
         OnSockets(Ascending(SocketsOfUser(users, reg, ids[|ids| - 1])), evs)
  }

  /** Fan-out to one more user appends that user's frames. */
  lemma ToUsersSnoc<E>(users: map<nat, User>, reg: Registry, ids: seq<nat>, i: nat, evs: seq<E>)
    requires i < |ids|
    ensures ToUsers(users, reg, ids[..i + 1], evs) ==
      ToUsers(users, reg, ids[..i], evs) + OnSockets(Ascending(SocketsOfUser(users, reg, ids[i])), evs)
  {
    assert ids[..i + 1][..i] == ids[..i];
  }

  lemma ReachAddUser(users: map<nat, User>, reg: Registry, ids: set<nat>, u: nat)
    ensures Reach(users, reg, ids + {u}) == Reach(users, reg, ids) + SocketsOfUser(users, reg, u)
  {
    forall c | c in Reach(users, reg, ids + {u})
      ensures c in Reach(users, reg, ids) + SocketsOfUser(users, reg, u)
    {
      var w :| w in ids + {u} && c in SocketsOfUser(users, reg, w);
      if w != u { assert c in Reach(users, reg, ids); }
    }
  }

  /** Adding the last listed user adds that user's sockets to the reach. */
  lemma ReachSnoc(users: map<nat, User>, reg: Registry, ids: seq<nat>)
    requires ids != []
    ensures Reach(users, reg, IdSet(ids)) ==
      Reach(users, reg, IdSet(ids[..|ids| - 1])) + SocketsOfUser(users, reg, ids[|ids| - 1])
  {
    var init := ids[..|ids| - 1];
    var u := ids[|ids| - 1];
    assert IdSet(ids) == IdSet(init) + {u} by {
      assert ids == init + [u];
    }
    ReachAddUser(users, reg, IdSet(init), u);
  }

  /** The frames for one user land exactly on that user's sockets. */
  lemma UserFramesTargets<E>(users: map<nat, User>, reg: Registry, u: nat, evs: seq<E>)
    ensures forall s :: s in OnSockets(Ascending(SocketsOfUser(users, reg, u)), evs) <==>
      s.to in SocketsOfUser(users, reg, u) && s.event in evs
  {
    OnSocketsTargets(Ascending(SocketsOfUser(users, reg, u)), evs);
  }

  /** Fan-out to a single user reaches exactly that user's sockets. */
  lemma ToOneUserTargets<E>(users: map<nat, User>, reg: Registry, u: nat, evs: seq<E>)
    ensures forall s :: s in ToUsers(users, reg, [u], evs) <==>
      s.to in SocketsOfUser(users, reg, u) && s.event in evs
  {
    var tail := OnSockets(Ascending(SocketsOfUser(users, reg, u)), evs);
    assert [u][..0] == [];
    assert ToUsers(users, reg, [u], evs) == [] + tail;
    UserFramesTargets(users, reg, u, evs);
  }

  /**
   * Fan-out reaches exactly the sockets of the listed users: a frame is sent to
   * a socket iff the socket belongs to one of them and the frame is one of `evs`.
   */
  lemma {:induction false} ToUsersTargets<E>(users: map<nat, User>, reg: Registry, ids: seq<nat>, evs: seq<E>)
    ensures forall s :: s in ToUsers(users, reg, ids, evs) <==>
      s.to in Reach(users, reg, IdSet(ids)) && s.event in evs
  {
    if ids == [] {
      assert IdSet(ids) == {};
    } else {
      var init := ids[..|ids| - 1];
      var u := ids[|ids| - 1];
      var head := ToUsers(users, reg, init, evs);
      var tail := OnSockets(Ascending(SocketsOfUser(users, reg, u)), evs);
      var before := Reach(users, reg, IdSet(init));
      var mine := SocketsOfUser(users, reg, u);
      assert ToUsers(users, reg, ids, evs) == head + tail;
      ToUsersTargets(users, reg, init, evs);
      UserFramesTargets(users, reg, u, evs);
      ReachSnoc(users, reg, ids);
      forall s: Send<E> ensures s in head + tail <==> s.to in before + mine && s.event in evs {
        assert s in head + tail <==> s in head || s in tail;
      }
    }
  }

  /** Fan-out to a set of users, taken in ascending id order, reaches exactly their sockets. */
  lemma ToUserSetTargets<E>(users: map<nat, User>, reg: Registry, ids: set<nat>, evs: seq<E>)
    ensures forall s :: s in ToUsers(users, reg, Ascending(ids), evs) <==> s.to in Reach(users, reg, ids) && s.event in evs
  {
    ToUsersTargets(users, reg, Ascending(ids), evs);
    assert IdSet(Ascending(ids)) == ids;
  }

  /** Sockets are owned by one user each: no socket is registered under two names. */
  predicate SocketsDisjoint(reg: Registry)
  {
    forall a, b, c :: a in reg && b in reg && c in reg[a] && c in reg[b] ==> a == b
  }

  /**
   * Fan-out to the other members of a room never reaches a socket of the
   * sender, provided sockets are owned by one user each and usernames are unique.
   */
  lemma SenderOutsideReach(users: map<nat, User>, reg: Registry, others: set<nat>, sender: nat)
    requires SocketsDisjoint(reg) && UsernamesUnique(users)
    requires sender !in others
    ensures forall c :: c in SocketsOfUser(users, reg, sender) ==> c !in Reach(users, reg, others)
  {
    forall c, u | c in SocketsOfUser(users, reg, sender) && u in others
      ensures c !in SocketsOfUser(users, reg, u)
    {
    }
  }

  /** A socket that no user holds yet: a freshly accepted connection. */
  predicate IsFreshSocket(reg: Registry, c: Conn)
  {
    forall name :: name in reg ==> c !in reg[name]
  }

  /** Registering a fresh socket keeps sockets owned by one user each. */
  lemma RegisterKeepsDisjoint(reg: Registry, name: string, c: Conn)
    requires SocketsDisjoint(reg) && IsFreshSocket(reg, c)
    ensures SocketsDisjoint(Register(reg, name, c))
  {
    var r := Register(reg, name, c);
    forall a, b, x | a in r && b in r && x in r[a] && x in r[b] ensures a == b {
      assert x in SocketsOf(r, a) && x in SocketsOf(r, b);
    }
  }

  /** Unregistering keeps sockets owned by one user each. */
  lemma UnregisterKeepsDisjoint(reg: Registry, name: string, c: Conn)
    requires SocketsDisjoint(reg)
    ensures SocketsDisjoint(Unregister(reg, name, c))
  {
    var r := Unregister(reg, name, c);
    forall a, b, x | a in r && b in r && x in r[a] && x in r[b] ensures a == b {
      assert x in SocketsOf(r, a) && x in SocketsOf(r, b);
    }
  }
}
