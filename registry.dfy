/**
 * The connection registry `CONNECTED_USERS`: a process-wide table from the
 * transport's session id to the display name the session last announced.
 * This module gives the table's meaning as pure functions. `Next` is the
 * effect of one socket event on the table, and `Run` is the effect of a
 * sequence of them. The lemmas state the per-session state machine: an
 * entry is decided by the session's own last event that touches it, and
 * nothing another session does can change it.
 */
module Registry {
  import opened Wrappers

  type SessionId = string
  type Name = string
  /** A decoded JSON object sent by a client, string-valued. */
  type Payload = map<string, string>
  type Table = map<SessionId, Name>

  const UsernameKey: string := "username"

  /** One socket event as the server sees it, tagged with the caller's session. */
  datatype Request =
    | Connect(sid: SessionId)
    | Disconnect(sid: SessionId)
    | Register(sid: SessionId, username: Name)
    | Message(sid: SessionId, data: Payload)

  /** A session's entry as an `Option`: `None` when it has none. */
  function Lookup(t: Table, s: SessionId): Option<Name>
  {
    if s in t then Some(t[s]) else None
  }

  /** Whether the event changes its own session's entry (a message without a username aborts first). */
  predicate Touches(r: Request)
  {
    r.Disconnect? || r.Register? || (r.Message? && UsernameKey in r.data)
  }

  predicate TouchesSession(r: Request, s: SessionId)
  {
    r.sid == s && Touches(r)
  }

  /** The entry an event that touches its session leaves behind: removed, or the announced name. */
  function EntryAfter(r: Request): Option<Name>
    requires Touches(r)
  {
    match r
    case Disconnect(_) => None
    case Register(_, n) => Some(n)
    case Message(_, d) => Some(d[UsernameKey])
  }

  /** The table after one event: connect and a username-less message leave it alone. */
  function Next(t: Table, r: Request): (t': Table)
    ensures forall s :: s != r.sid ==> Lookup(t', s) == Lookup(t, s)
    ensures Touches(r) ==> Lookup(t', r.sid) == EntryAfter(r)
    ensures !Touches(r) ==> t' == t
  {
    match r
    case Connect(_) => t
    case Disconnect(s) => if s in t then t - {s} else t
    case Register(s, n) => t[s := n]
    case Message(s, d) => if UsernameKey in d then t[s := d[UsernameKey]] else t
  }

  /** The table after the events `rs`, oldest first, starting from `t`. */
  function Run(t: Table, rs: seq<Request>): Table
    decreases |rs|
  {
    if rs == [] then t else Next(Run(t, rs[..|rs| - 1]), rs[|rs| - 1])
  }

  /** Handling one more event applies `Next` to the table the earlier events left. */
  lemma RunAppend(t: Table, rs: seq<Request>, r: Request)
    ensures Run(t, rs + [r]) == Next(Run(t, rs), r)
  {
  }

  /** A session none of whose events touch the table keeps the entry it started with. */
  lemma {:induction false} UntouchedSessionKeepsEntry(t: Table, rs: seq<Request>, s: SessionId)
    requires forall j :: 0 <= j < |rs| ==> !TouchesSession(rs[j], s)
    ensures Lookup(Run(t, rs), s) == Lookup(t, s)
    decreases |rs|
  {
    if rs != [] {
      var init := rs[..|rs| - 1];
      assert forall j :: 0 <= j < |init| ==> init[j] == rs[j];
      UntouchedSessionKeepsEntry(t, init, s);
    }
  }

  /**
   * Last write wins, per session: after the session's last touching event,
   * its entry is what that event left (removed after a disconnect, the
   * announced name after a register or a message), whatever other sessions do.
   */
  lemma {:induction false} LastTouchDecides(t: Table, rs: seq<Request>, i: nat)
    requires i < |rs| && Touches(rs[i])
    requires forall j :: i < j < |rs| ==> !TouchesSession(rs[j], rs[i].sid)
    ensures Lookup(Run(t, rs), rs[i].sid) == EntryAfter(rs[i])
    decreases |rs|
  {
    var init := rs[..|rs| - 1];
    if i < |rs| - 1 {
      assert forall j :: 0 <= j < |init| ==> init[j] == rs[j];
      LastTouchDecides(t, init, i);
      assert !TouchesSession(rs[|rs| - 1], rs[i].sid);
    }
  }

  /** Sending the same message twice from one session leaves the table as the first did. */
  lemma MessageIdempotent(t: Table, s: SessionId, d: Payload)
    ensures Next(Next(t, Message(s, d)), Message(s, d)) == Next(t, Message(s, d))
  {
  }

  /** No two sessions share a display name. */
  ghost predicate NoSharedNames(t: Table)
  {
    forall s1, s2 :: s1 in t && s2 in t && s1 != s2 ==> t[s1] != t[s2]
  }

  /**
   * The distinct names never outnumber the sessions, and they are as many
   * exactly when no two sessions share a name.
   */
  lemma {:induction false} NamesBound(t: Table)
    ensures |t.Values| <= |t|
    ensures |t.Values| == |t| <==> NoSharedNames(t)
    decreases |t|
  {
    if t != map[] {
      var k :| k in t;
      var rest := t - {k};
      assert rest.Keys == t.Keys - {k};
      assert |rest| == |t| - 1;
      NamesBound(rest);
      forall n | n in t.Values ensures n in rest.Values + {t[k]} {
        var o :| o in t && t[o] == n;
        if o != k { assert rest[o] == n; }
      }
      forall n | n in rest.Values ensures n in t.Values {
        var o :| o in rest && rest[o] == n;
        assert t[o] == n;
      }
      assert t.Values == rest.Values + {t[k]};
      if t[k] in rest.Values {
        var k2 :| k2 in rest && rest[k2] == t[k];
        assert t[k2] == t[k];
        assert !NoSharedNames(t);
      } else {
        assert |t.Values| == |rest.Values| + 1;
        if NoSharedNames(rest) {
          forall s1, s2 | s1 in t && s2 in t && s1 != s2
            ensures t[s1] != t[s2]
          {
            if s1 != k && s2 != k {
              assert rest[s1] != rest[s2];
            } else if s1 == k {
              assert t[s2] == rest[s2] && rest[s2] in rest.Values;
            } else {
              assert t[s1] == rest[s1] && rest[s1] in rest.Values;
            }
          }
        } else {
          var s1, s2 :| s1 in rest && s2 in rest && s1 != s2 && rest[s1] == rest[s2];
          assert t[s1] == t[s2];
        }
      }
    }
  }

  /** Some session other than `s` holds the name `n`. */
  ghost predicate HeldByOther(t: Table, s: SessionId, n: Name)
  {
    exists o :: o in t && o != s && t[o] == n
  }

  /** After a disconnect, a name is still held exactly when another session holds it. */
  lemma NameAfterDisconnect(t: Table, s: SessionId, n: Name)
    ensures n in Next(t, Disconnect(s)).Values <==> HeldByOther(t, s, n)
  {
    var t' := Next(t, Disconnect(s));
    if HeldByOther(t, s, n) {
      var o :| o in t && o != s && t[o] == n;
      assert t'[o] == n;
    }
  }
}
