/**
 * The Socket.IO handlers of the chat server over the process-wide
 * `CONNECTED_USERS` table. Each handler runs as one atomic step; the
 * caller's `request.sid` and the clock reading are parameters, and every
 * `emit(..., broadcast=True)` appends to `outbox`, in emission order.
 */
module Server {
  import opened Wrappers
  import opened Timestamp
  import opened Registry
  import opened Events

  /** How a message handler ends: relayed, or aborted by a missing payload key. */
  datatype Outcome = Relayed | KeyError(key: string)

  /** `after` is `before` followed by one presence snapshot of `t`. */
  ghost predicate EmitsUserList(before: seq<Event>, after: seq<Event>, t: Table)
  {
    && |after| == |before| + 1
    && after[..|before|] == before
    && IsSnapshotOf(after[|before|], t)
  }

  class ChatServer {
    /** `CONNECTED_USERS`: session id to display name. */
    var connectedUsers: Table
    /** Every event broadcast so far, oldest first. */
    var outbox: seq<Event>
    /** Every socket event handled so far, oldest first. */
    ghost var log: seq<Request>

    /**
     * The table is what the handled events make of an empty table, and
     * every broadcast is well formed.
     */
    ghost predicate Valid()
      reads this
    {
      && connectedUsers == Run(map[], log)
      && forall i :: 0 <= i < |outbox| ==> WellFormed(outbox[i])
    }

    /** The process starts with `CONNECTED_USERS = {}` and has sent nothing. */
    constructor ()
      ensures Valid()
      ensures connectedUsers == map[] && outbox == [] && log == []
    {
      connectedUsers := map[];
      outbox := [];
      log := [];
    }

    /** `broadcast_user_list`: broadcast `{count, users}` of the current table. */
    method BroadcastUserList()
      requires Valid()
      modifies this`outbox
      ensures Valid()
      ensures EmitsUserList(old(outbox), outbox, connectedUsers)
    {
      var names := DistinctNames(connectedUsers);
      var e := UserList(|connectedUsers|, names);
      SnapshotBound(e, connectedUsers);
      outbox := outbox + [e];
    }

    /** `handle_connect`: a new connection creates no entry and sends nothing. */
    method HandleConnect(sid: SessionId)
      requires Valid()
      modifies this`log
      ensures Valid()
      ensures log == old(log) + [Connect(sid)]
      ensures connectedUsers == old(connectedUsers) && outbox == old(outbox)
    {
      RunAppend(map[], log, Connect(sid));
      log := log + [Connect(sid)];
    }

    /**
     * `handle_disconnect`: drop the caller's entry if there is one, then
     * always broadcast a user list.
     */
    method HandleDisconnect(sid: SessionId)
      requires Valid()
      modifies this
      ensures Valid()
      ensures log == old(log) + [Disconnect(sid)]
      ensures connectedUsers == old(connectedUsers) - {sid}
      ensures sid !in old(connectedUsers) ==> connectedUsers == old(connectedUsers)
      ensures EmitsUserList(old(outbox), outbox, connectedUsers)
      ensures forall n :: n in outbox[|outbox| - 1].users <==> HeldByOther(old(connectedUsers), sid, n)
    {
      ghost var before := connectedUsers;
      if sid in connectedUsers {
        connectedUsers := connectedUsers - {sid};
      }
      RunAppend(map[], log, Disconnect(sid));
      log := log + [Disconnect(sid)];
      BroadcastUserList();
      forall n ensures n in connectedUsers.Values <==> HeldByOther(before, sid, n) {
        NameAfterDisconnect(before, sid, n);
      }
    }

    /**
     * `handle_register`: insert or overwrite the caller's entry, then
     * broadcast a user list.
     */
    method HandleRegister(sid: SessionId, username: Name)
      requires Valid()
      modifies this
      ensures Valid()
      ensures log == old(log) + [Register(sid, username)]
      ensures connectedUsers == old(connectedUsers)[sid := username]
      ensures EmitsUserList(old(outbox), outbox, connectedUsers)
    {
      connectedUsers := connectedUsers[sid := username];
      RunAppend(map[], log, Register(sid, username));
      log := log + [Register(sid, username)];
      BroadcastUserList();
    }

    /**
     * `handle_message`: set the caller's entry to `data['username']`, stamp
     * the payload with the receive time as "HH:MM", broadcast it, then
     * broadcast a user list. Without a `username` key the handler raises
     * before its first effect.
     */
    method HandleMessage(sid: SessionId, data: Payload, now: Instant) returns (outcome: Outcome)
      requires Valid()
      requires IsClockReading(now)
      modifies this
      ensures Valid()
      ensures log == old(log) + [Message(sid, data)]
      ensures outcome == if UsernameKey in data then Relayed else KeyError(UsernameKey)
      ensures outcome.KeyError? ==> connectedUsers == old(connectedUsers) && outbox == old(outbox)
      ensures outcome.Relayed? ==>
                && connectedUsers == old(connectedUsers)[sid := data[UsernameKey]]
                && EmitsUserList(old(outbox) + [Msg(Stamp(data, now))], outbox, connectedUsers)
    {
      RunAppend(map[], log, Message(sid, data));
      log := log + [Message(sid, data)];
      if UsernameKey !in data {
        return KeyError(UsernameKey);
      }
      connectedUsers := connectedUsers[sid := data[UsernameKey]];
      assert connectedUsers == Run(map[], log);
      var relayed := Stamp(data, now);
      assert WellFormed(Msg(relayed));
      outbox := outbox + [Msg(relayed)];
      BroadcastUserList();
      outcome := Relayed;
    }
  }

  /**
   * The server's entry for a session is what that session's last
   * disconnect, register or message with a username left behind, whatever
   * other sessions did afterwards.
   */
  lemma EntryIsLastTouch(server: ChatServer, i: nat)
    requires server.Valid()
    requires i < |server.log| && Touches(server.log[i])
    requires forall j :: i < j < |server.log| ==> !TouchesSession(server.log[j], server.log[i].sid)
    ensures Lookup(server.connectedUsers, server.log[i].sid) == EntryAfter(server.log[i])
  {
    LastTouchDecides(map[], server.log, i);
  }

  /** A session that never registered, sent a named message or disconnected has no entry. */
  lemma NeverTouchedIsAbsent(server: ChatServer, s: SessionId)
    requires server.Valid()
    requires forall j :: 0 <= j < |server.log| ==> !TouchesSession(server.log[j], s)
    ensures s !in server.connectedUsers
  {
    UntouchedSessionKeepsEntry(map[], server.log, s);
  }

  /**
   * A registers as "Alice", B as "Bob", A sends a text message, B leaves.
   * The server broadcasts five events in this order: the user list after
   * each registration, the stamped text, the user list after the text, and
   * the user list after B leaves, which shows Alice alone.
   */
  method TwoUsersScenario(a: SessionId, b: SessionId, now: Instant) returns (server: ChatServer)
    requires a != b && IsClockReading(now)
    ensures fresh(server) && server.Valid()
    ensures server.connectedUsers == map[a := "Alice"]
    ensures |server.outbox| == 5
    ensures server.outbox[0] == UserList(1, ["Alice"])
    ensures server.outbox[1].UserList? && server.outbox[1].count == 2
    ensures server.outbox[1].users == ["Alice", "Bob"] || server.outbox[1].users == ["Bob", "Alice"]
    ensures server.outbox[2] == Msg(Stamp(AliceText(), now))
    ensures IsSnapshotOf(server.outbox[3], map[a := "Alice", b := "Bob"])
    ensures server.outbox[4] == UserList(1, ["Alice"])
  {
    server := JoinAliceAndBob(a, b);
    PairNameList(server.outbox[1], server.connectedUsers, a, b);
    AliceSendsText(server, a, now);
    BobLeaves(server, a, b);
  }

  /** B disconnects from the table `{a: Alice, b: Bob}`: one user list showing Alice alone follows. */
  method BobLeaves(server: ChatServer, a: SessionId, b: SessionId)
    requires server.Valid() && a != b
    requires server.connectedUsers == map[a := "Alice", b := "Bob"]
    modifies server
    ensures server.Valid() && server.connectedUsers == map[a := "Alice"]
    ensures server.outbox == old(server.outbox) + [UserList(1, ["Alice"])]
  {
    assert map[a := "Alice", b := "Bob"] - {b} == map[a := "Alice"];
    server.HandleDisconnect(b);
    SingleNameList(server.outbox[|server.outbox| - 1], server.connectedUsers, a);
    assert server.outbox == old(server.outbox) + [server.outbox[|server.outbox| - 1]];
  }

  /** The text "hi" that Alice sends in the scenario. */
  function AliceText(): Payload
  {
    map[UsernameKey := "Alice", "type" := "text", "msg" := "hi"]
  }

  /**
   * Alice's session sends a text: the table is unchanged, and the outbox
   * gains the stamped text and then a user list of the same table.
   */
  method AliceSendsText(server: ChatServer, a: SessionId, now: Instant)
    requires server.Valid() && IsClockReading(now)
    requires a in server.connectedUsers && server.connectedUsers[a] == "Alice"
    modifies server
    ensures server.Valid() && server.connectedUsers == old(server.connectedUsers)
    ensures |server.outbox| == |old(server.outbox)| + 2
    ensures server.outbox[..|old(server.outbox)|] == old(server.outbox)
    ensures server.outbox[|old(server.outbox)|] == Msg(Stamp(AliceText(), now))
    ensures IsSnapshotOf(server.outbox[|old(server.outbox)| + 1], server.connectedUsers)
  {
    var n := |server.outbox|;
    var outcome := server.HandleMessage(a, AliceText(), now);
    assert server.outbox[..n + 1][n] == Msg(Stamp(AliceText(), now));
    assert server.outbox[..n + 1][..n] == server.outbox[..n];
    assert server.connectedUsers == old(server.connectedUsers);
  }

  /**
   * A fresh server after A registers as "Alice" and B as "Bob": one user
   * list after each registration, the first showing Alice alone.
   */
  method JoinAliceAndBob(a: SessionId, b: SessionId) returns (server: ChatServer)
    requires a != b
    ensures fresh(server) && server.Valid()
    ensures server.connectedUsers == map[a := "Alice", b := "Bob"]
    ensures |server.outbox| == 2 && server.outbox[0] == UserList(1, ["Alice"])
    ensures IsSnapshotOf(server.outbox[1], map[a := "Alice", b := "Bob"])
  {
    server := new ChatServer();
    server.HandleConnect(a);
    server.HandleRegister(a, "Alice");
    SingleNameList(server.outbox[0], server.connectedUsers, a);
    server.HandleConnect(b);
    server.HandleRegister(b, "Bob");
  }

  /** A snapshot of a table of two sessions with different names lists both names, in either order. */
  lemma PairNameList(e: Event, t: Table, s1: SessionId, s2: SessionId)
    requires IsSnapshotOf(e, t) && t.Keys == {s1, s2} && s1 != s2 && t[s1] != t[s2]
    ensures e.count == 2
    ensures e.users == [t[s1], t[s2]] || e.users == [t[s2], t[s1]]
  {
    assert t.Values == {t[s1], t[s2]};
    DistinctCardinality(e.users);
    assert (set n | n in e.users) == t.Values;
    assert |e.users| == 2;
    assert e.users[0] in t.Values && e.users[1] in t.Values;
  }

  /** A one-session snapshot lists exactly that session's name. */
  lemma SingleNameList(e: Event, t: Table, s: SessionId)
    requires IsSnapshotOf(e, t) && t.Keys == {s}
    ensures e == UserList(1, [t[s]])
  {
    assert t.Values == {t[s]};
    DistinctCardinality(e.users);
    assert (set n | n in e.users) == t.Values;
    assert |e.users| == 1;
    assert e.users[0] in t.Values;
  }

  /** The image message the unregistered session sends: `username` "Alice" and an image URL. */
  function AliceImage(url: string): Payload
  {
    map[UsernameKey := "Alice", "type" := "image", "url" := url, "msg" := ""]
  }

  /**
   * An image message from a session that never registered still creates
   * its entry: the message handler registers the sender whatever the type.
   * The server broadcasts the stamped image and then a user list showing
   * Alice alone.
   */
  method ImageWithoutRegisterScenario(a: SessionId, url: string, now: Instant)
    returns (server: ChatServer, outcome: Outcome)
    requires IsClockReading(now)
    ensures fresh(server) && server.Valid()
    ensures outcome == Relayed
    ensures server.connectedUsers == map[a := "Alice"]
    ensures |server.outbox| == 2
    ensures server.outbox[0] == Msg(Stamp(AliceImage(url), now))
    ensures server.outbox[1] == UserList(1, ["Alice"])
  {
    server := new ChatServer();
    server.HandleConnect(a);
    outcome := server.HandleMessage(a, AliceImage(url), now);
    assert server.outbox[..1][0] == server.outbox[0];
    SingleNameList(server.outbox[1], server.connectedUsers, a);
  }
}
