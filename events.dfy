/**
 * What the server broadcasts: relayed chat payloads carrying a server
 * stamp, and presence snapshots `{count, users}` derived from the registry.
 */
module Events {
  import opened Registry
  import opened Timestamp
  import opened Wrappers

  const TimestampKey: string := "timestamp"

  /** One broadcast: `emit('message', ...)` or `emit('user_list', ...)`. */
  datatype Event =
    | Msg(payload: Payload)
    | UserList(count: nat, users: seq<Name>)

  predicate NoDuplicates(s: seq<Name>)
  {
    forall i, j :: 0 <= i < j < |s| ==> s[i] != s[j]
  }

  /**
   * `e` is a presence snapshot of `t`: the count of sessions, and every name
   * in the table once, in no particular order (the source builds the list
   * from a set).
   */
  ghost predicate IsSnapshotOf(e: Event, t: Table)
  {
    && e.UserList?
    && e.count == |t|
    && NoDuplicates(e.users)
    && (forall n :: n in e.users <==> n in t.Values)
  }

  /** The relayed payload: the client's payload with the receive stamp set or overwritten. */
  function Stamp(data: Payload, at: Instant): (p: Payload)
    requires IsClockReading(at)
    ensures p.Keys == data.Keys + {TimestampKey}
    ensures forall k :: k in data && k != TimestampKey ==> p[k] == data[k]
    ensures IsHHMM(p[TimestampKey])
    ensures ParseHHMM(p[TimestampKey]) == Some((at.hour, at.minute))
  {
    ParseFormat(at.hour, at.minute);
    data[TimestampKey := FormatHHMM(at.hour, at.minute)]
  }

  /** Two messages with the same payload get the same relayed form exactly when received in the same minute. */
  lemma StampSameMinute(data: Payload, a: Instant, b: Instant)
    requires IsClockReading(a) && IsClockReading(b)
    ensures Stamp(data, a) == Stamp(data, b) <==> a.hour == b.hour && a.minute == b.minute
  {
  }

  /** Every relayed message is stamped and every user list is duplicate-free and no longer than its count. */
  ghost predicate WellFormed(e: Event)
  {
    match e
    case Msg(p) => TimestampKey in p && IsHHMM(p[TimestampKey])
    case UserList(c, us) => NoDuplicates(us) && |us| <= c
  }

  /**
   * `list(set(CONNECTED_USERS.values()))`: each distinct name once, in an
   * order the model leaves open.
   */
  method DistinctNames(t: Table) returns (names: seq<Name>)
    ensures NoDuplicates(names)
    ensures forall n :: n in names <==> n in t.Values
  {
    names := [];
    var pending := t.Values;
    while pending != {}
      invariant NoDuplicates(names)
      invariant forall n :: n in names ==> n in t.Values && n !in pending
      invariant forall n :: n in t.Values ==> n in names || n in pending
      invariant pending <= t.Values
      decreases pending
    {
      var n :| n in pending;
      names := names + [n];
      pending := pending - {n};
    }
  }

  /** A duplicate-free list has as many distinct elements as entries. */
  lemma {:induction false} DistinctCardinality(s: seq<Name>)
    requires NoDuplicates(s)
    ensures |set n | n in s| == |s|
    decreases |s|
  {
    if s != [] {
      var tail := s[1..];
      DistinctCardinality(tail);
      assert (set n | n in s) == (set n | n in tail) + {s[0]};
      assert s[0] !in tail;
    }
  }

  /**
   * In a snapshot the names never outnumber the sessions, and they are as
   * many exactly when no two sessions share a name.
   */
  lemma {:induction false} SnapshotBound(e: Event, t: Table)
    requires IsSnapshotOf(e, t)
    ensures |e.users| <= e.count
    ensures |e.users| == e.count <==> NoSharedNames(t)
  {
    DistinctCardinality(e.users);
    assert (set n | n in e.users) == t.Values;
    NamesBound(t);
  }
}
