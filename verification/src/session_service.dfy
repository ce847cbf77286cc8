/** The assistant server's in-memory conversation sessions. The store is a JavaScript
    object keyed by session id, so besides the map from ids to sessions it has an order,
    which `Object.values` and `Object.entries` follow. For the uuid ids the service
    creates, that is the order in which the keys were first added. Time stamps are milliseconds, and the clock and the new
    session's id are parameters. */
module Sessions {
  import opened Common
  import opened Seqs

  datatype Role = User | Assistant

  datatype Message = Message(role: Role, content: string, timestamp: int, actions: Option<seq<string>>)

  datatype ConversationContext = ConversationContext(currentIteration: int, messageCount: int, lastToolCalls: seq<string>)

  const FreshContext := ConversationContext(0, 0, [])

  /** The idle time, in hours, after which `cleanupExpiredSessions` removes a session by default. */
  const DefaultMaxAgeHours: real := 24.0

  datatype Session = Session(id: string, createdAt: int, lastActivity: int, context: ConversationContext,
                             messages: seq<Message>)

  /** A `Partial<Session>`: `None` is a field the update leaves out. */
  datatype SessionUpdate = SessionUpdate(id: Option<string>, createdAt: Option<int>, lastActivity: Option<int>,
                                         context: Option<ConversationContext>, messages: Option<seq<Message>>)

  /** `Object.assign(session, updates)`: each field the update gives replaces the session's. */
  function Assign(s: Session, u: SessionUpdate): (r: Session)
    ensures r.id == u.id.GetOr(s.id) && r.createdAt == u.createdAt.GetOr(s.createdAt)
    ensures r.lastActivity == u.lastActivity.GetOr(s.lastActivity)
    ensures r.context == u.context.GetOr(s.context) && r.messages == u.messages.GetOr(s.messages)
  {
    Session(u.id.GetOr(s.id), u.createdAt.GetOr(s.createdAt), u.lastActivity.GetOr(s.lastActivity),
            u.context.GetOr(s.context), u.messages.GetOr(s.messages))
  }

  /** `keys` without `x`. */
  function Without(keys: seq<string>, x: string): (r: seq<string>)
    ensures forall y :: y in r <==> y in keys && y != x
    ensures x !in keys ==> r == keys
  {
    if keys == [] then []
    else (if keys[0] == x then [] else [keys[0]]) + Without(keys[1..], x)
  }

  lemma {:induction false} WithoutDistinct(keys: seq<string>, x: string)
    requires Distinct(keys)
    ensures Distinct(Without(keys, x))
  {
    if keys != [] {
      WithoutDistinct(keys[1..], x);
      assert keys[0] !in keys[1..];
    }
  }

  lemma {:induction false} WithoutAppend(a: seq<string>, b: seq<string>, x: string)
    ensures Without(a + b, x) == Without(a, x) + Without(b, x)
  {
    if a != [] {
      assert (a + b)[1..] == a[1..] + b;
      WithoutAppend(a[1..], b, x);
    } else {
      assert a + b == b;
    }
  }

  /** Idle for longer than `maxAgeHours` hours at time `now`. */
  predicate Expired(s: Session, now: int, maxAgeHours: real)
  {
    (now - s.lastActivity) as real > maxAgeHours * 3600000.0
  }

  /** The ids in `keys` whose sessions have not expired, in order. */
  function Live(keys: seq<string>, store: map<string, Session>, now: int, maxAgeHours: real): (r: seq<string>)
    requires forall k | k in keys :: k in store
    ensures |r| <= |keys|
    ensures forall k :: k in r <==> k in keys && !Expired(store[k], now, maxAgeHours)
    ensures Distinct(keys) ==> Distinct(r)
  {
    if keys == [] then []
    else
      var init := keys[..|keys| - 1];
      var last := keys[|keys| - 1];
      assert forall k | k in init :: k in keys;
      var r := Live(init, store, now, maxAgeHours) + (if Expired(store[last], now, maxAgeHours) then [] else [last]);
      assert Distinct(keys) ==> last !in init && Distinct(init);
      r
  }

  function NewSession(sessionId: string, now: int): (s: Session)
    ensures s.id == sessionId && s.createdAt == now && s.lastActivity == now
    ensures s.messages == [] && s.context == FreshContext
  {
    Session(sessionId, now, now, FreshContext, [])
  }

  class SessionService {
    var sessions: map<string, Session>
    /** The key order of the `sessions` object. */
    var order: seq<string>

    ghost predicate Valid()
      reads this
    {
      Distinct(order) && forall k :: k in sessions <==> k in order
    }

    constructor()
      ensures Valid() && sessions == map[] && order == []
    {
      sessions, order := map[], [];
    }

    /** `createSession`: a new session with no messages and a fresh context, stored under its
        id (which keeps its place if the id was already there). */
    method CreateSession(sessionId: string, now: int) returns (session: Session)
      requires Valid()
      modifies this
      ensures Valid()
      ensures session == NewSession(sessionId, now)
      ensures sessions == old(sessions)[sessionId := session]
      ensures order == if sessionId in old(sessions) then old(order) else old(order) + [sessionId]
    {
      session := NewSession(sessionId, now);
      if sessionId !in sessions {
        order := order + [sessionId];
      }
      sessions := sessions[sessionId := session];
    }

    /** `getSession`: `None` for an unknown id; otherwise the session, its last activity
        refreshed. */
    method GetSession(sessionId: string, now: int) returns (r: Option<Session>)
      requires Valid()
      modifies this
      ensures Valid() && order == old(order)
      ensures sessionId !in old(sessions) ==> r.None? && sessions == old(sessions)
      ensures sessionId in old(sessions) ==>
                r == Some(old(sessions)[sessionId].(lastActivity := now)) && sessions == old(sessions)[sessionId := r.value]
    {
      if sessionId in sessions {
        var session := sessions[sessionId].(lastActivity := now);
        sessions := sessions[sessionId := session];
        r := Some(session);
      } else {
        r := None;
      }
    }

    /** `updateSession`: false and no change for an unknown id; otherwise the update is
        applied and the last activity refreshed. */
    method UpdateSession(sessionId: string, updates: SessionUpdate, now: int) returns (ok: bool)
      requires Valid()
      modifies this
      ensures Valid() && order == old(order)
      ensures ok <==> sessionId in old(sessions)
      ensures !ok ==> sessions == old(sessions)
      ensures ok ==> sessions == old(sessions)[sessionId := Assign(old(sessions)[sessionId], updates).(lastActivity := now)]
    {
      if sessionId !in sessions {
        return false;
      }
      sessions := sessions[sessionId := Assign(sessions[sessionId], updates).(lastActivity := now)];
      ok := true;
    }

    /** `deleteSession`: true exactly when the session was there; it is gone afterwards. */
    method DeleteSession(sessionId: string) returns (ok: bool)
      requires Valid()
      modifies this
      ensures Valid()
      ensures ok <==> sessionId in old(sessions)
      ensures sessions == old(sessions) - {sessionId} && sessionId !in sessions
      ensures order == Without(old(order), sessionId)
    {
      ok := sessionId in sessions;
      WithoutDistinct(order, sessionId);
      sessions := sessions - {sessionId};
      order := Without(order, sessionId);
    }

    /** `addMessage`: false and no change for an unknown id; otherwise exactly one message,
        stamped `now`, is appended and the last activity refreshed. */
    method AddMessage(sessionId: string, role: Role, content: string, actions: Option<seq<string>>, now: int)
      returns (ok: bool)
      requires Valid()
      modifies this
      ensures Valid() && order == old(order)
      ensures ok <==> sessionId in old(sessions)
      ensures !ok ==> sessions == old(sessions)
      ensures ok ==> sessions == old(sessions)[sessionId := old(sessions)[sessionId].(
                       messages := old(sessions)[sessionId].messages + [Message(role, content, now, actions)],
                       lastActivity := now)]
    {
      if sessionId !in sessions {
        return false;
      }
      var session := sessions[sessionId];
      var messages := session.messages + [Message(role, content, now, actions)];
      sessions := sessions[sessionId := session.(messages := messages, lastActivity := now)];
      ok := true;
    }

    /** `updateContext`: false and no change for an unknown id; otherwise the context is
        replaced and the last activity refreshed. */
    method UpdateContext(sessionId: string, context: ConversationContext, now: int) returns (ok: bool)
      requires Valid()
      modifies this
      ensures Valid() && order == old(order)
      ensures ok <==> sessionId in old(sessions)
      ensures !ok ==> sessions == old(sessions)
      ensures ok ==> sessions == old(sessions)[sessionId := old(sessions)[sessionId].(context := context, lastActivity := now)]
    {
      if sessionId !in sessions {
        return false;
      }
      sessions := sessions[sessionId := sessions[sessionId].(context := context, lastActivity := now)];
      ok := true;
    }

    /** `clearSession`: false and no change for an unknown id; otherwise the messages are
        emptied and the context reset, while the session stays. */
    method ClearSession(sessionId: string, now: int) returns (ok: bool)
      requires Valid()
      modifies this
      ensures Valid() && order == old(order)
      ensures ok <==> sessionId in old(sessions)
      ensures !ok ==> sessions == old(sessions)
      ensures ok ==> sessions == old(sessions)[sessionId := old(sessions)[sessionId].(
                       messages := [], context := FreshContext, lastActivity := now)]
    {
      if sessionId !in sessions {
        return false;
      }
      sessions := sessions[sessionId := sessions[sessionId].(messages := [], context := FreshContext, lastActivity := now)];
      ok := true;
    }

    /** `getAllSessions`: every session once, in key order. */
    method GetAllSessions() returns (all: seq<Session>)
      requires Valid()
      ensures |all| == |order| == |sessions|
      ensures forall i | 0 <= i < |all| :: all[i] == sessions[order[i]]
      ensures forall s :: s in all <==> s in sessions.Values
    {
      var o, m := order, sessions;
      DistinctCard(o);
      assert m.Keys == set k | k in o;
      all := seq(|o|, i requires 0 <= i < |o| && o[i] in m => m[o[i]]);
      forall s | s in m.Values ensures s in all {
        var k :| k in m && m[k] == s;
        var i := IndexOf(o, k);
        assert all[i] == s;
      }
    }

    /** `cleanupExpiredSessions`: removes exactly the sessions idle for longer than
        `maxAgeHours` hours (24 when the argument is left out) and returns how many it
        removed. */
    method CleanupExpiredSessions(maxAgeHours: Option<real>, now: int) returns (cleanedCount: nat)
      requires Valid()
      modifies this
      ensures Valid()
      ensures order == Live(old(order), old(sessions), now, maxAgeHours.GetOr(DefaultMaxAgeHours))
      ensures sessions == Remaining(old(sessions), old(order), now, maxAgeHours.GetOr(DefaultMaxAgeHours))
      ensures cleanedCount == |old(order)| - |order|
    {
      var hours := maxAgeHours.GetOr(DefaultMaxAgeHours);
      var keys, remaining;
      keys, remaining, cleanedCount := Sweep(order, sessions, now, hours);
      LiveIsValid(order, sessions, now, hours);
      sessions, order := remaining, keys;
    }
  }

  /** The loop of `cleanupExpiredSessions` over the store's entries in key order: the keys
      and sessions it leaves and the number of sessions it deletes. */
  method Sweep(entries: seq<string>, store: map<string, Session>, now: int, maxAgeHours: real)
    returns (keys: seq<string>, remaining: map<string, Session>, cleanedCount: nat)
    requires Distinct(entries) && forall k :: k in store <==> k in entries
    ensures keys == Live(entries, store, now, maxAgeHours)
    ensures remaining == Remaining(store, entries, now, maxAgeHours)
    ensures cleanedCount == |entries| - |keys|
  {
    remaining, keys := store, entries;
    ghost var kept: seq<string> := [];
    cleanedCount := 0;
    SweepStart(entries, store, now, maxAgeHours);
    for i := 0 to |entries|
      invariant kept == Live(entries[..i], store, now, maxAgeHours)
      invariant keys == kept + entries[i..]
      invariant remaining == Remaining(store, entries[..i], now, maxAgeHours)
      invariant cleanedCount == i - |kept|
    {
      keys, remaining, cleanedCount, kept := SweepEntry(entries, i, store, now, maxAgeHours, keys, remaining, cleanedCount, kept);
    }
    SweepEnd(entries);
  }

  lemma SweepStart(entries: seq<string>, store: map<string, Session>, now: int, maxAgeHours: real)
    ensures entries == [] + entries[0..] && entries[..0] == []
    ensures Live([], store, now, maxAgeHours) == [] && Remaining(store, [], now, maxAgeHours) == store
  {
  }

  lemma SweepEnd(entries: seq<string>)
    ensures entries[..|entries|] == entries && entries[|entries|..] == []
  {
  }

  /** One pass of the cleanup loop: the session of entry `i` is deleted when it has expired,
      and kept otherwise. */
  method SweepEntry(entries: seq<string>, i: nat, store: map<string, Session>, now: int, maxAgeHours: real,
                    keys: seq<string>, remaining: map<string, Session>, cleanedCount: nat, ghost kept: seq<string>)
    returns (keys': seq<string>, remaining': map<string, Session>, cleanedCount': nat, ghost kept': seq<string>)
    requires Distinct(entries) && (forall k :: k in store <==> k in entries) && i < |entries|
    requires kept == Live(entries[..i], store, now, maxAgeHours)
    requires keys == kept + entries[i..]
    requires remaining == Remaining(store, entries[..i], now, maxAgeHours)
    requires cleanedCount == i - |kept|
    ensures kept' == Live(entries[..i + 1], store, now, maxAgeHours)
    ensures keys' == kept' + entries[i + 1..]
    ensures remaining' == Remaining(store, entries[..i + 1], now, maxAgeHours)
    ensures cleanedCount' == i + 1 - |kept'|
  {
    var sessionId := entries[i];
    KeysStep(entries, i, store, now, maxAgeHours, kept, keys);
    RemainingStep(store, entries, i, now, maxAgeHours);
    if Expired(store[sessionId], now, maxAgeHours) {
      remaining', keys', cleanedCount', kept' := remaining - {sessionId}, Without(keys, sessionId), cleanedCount + 1, kept;
    } else {
      remaining', keys', cleanedCount', kept' := remaining, keys, cleanedCount, kept + [sessionId];
    }
  }

  /** One step of the cleanup loop on the key order: deleting the key it reaches when its
      session has expired, or keeping it otherwise, gives the next step's kept keys and
      key order. */
  lemma KeysStep(entries: seq<string>, i: nat, store: map<string, Session>, now: int, maxAgeHours: real,
                 kept: seq<string>, keys: seq<string>)
    requires Distinct(entries) && (forall k | k in entries :: k in store) && i < |entries|
    requires kept == Live(entries[..i], store, now, maxAgeHours)
    requires keys == kept + entries[i..]
    ensures var id := entries[i];
      if Expired(store[id], now, maxAgeHours) then
        kept == Live(entries[..i + 1], store, now, maxAgeHours) && Without(keys, id) == kept + entries[i + 1..]
      else
        kept + [id] == Live(entries[..i + 1], store, now, maxAgeHours) && keys == kept + [id] + entries[i + 1..]
  {
    LiveSnoc(entries, i, store, now, maxAgeHours);
    if Expired(store[entries[i]], now, maxAgeHours) {
      assert entries[i] !in entries[..i];
      WithoutStep(kept, entries, i);
    } else {
      KeepStep(kept, entries, i);
    }
  }

  /** The sessions left once the expired sessions among `removed` are gone. */
  function Remaining(store: map<string, Session>, removed: seq<string>, now: int, maxAgeHours: real): (r: map<string, Session>)
    ensures forall k :: k in r <==> k in store && !(k in removed && Expired(store[k], now, maxAgeHours))
    ensures forall k | k in r :: r[k] == store[k]
  {
    map k | k in store && !(k in removed && Expired(store[k], now, maxAgeHours)) :: store[k]
  }

  lemma LiveSnoc(entries: seq<string>, i: nat, store: map<string, Session>, now: int, maxAgeHours: real)
    requires i < |entries| && forall k | k in entries :: k in store
    ensures Live(entries[..i + 1], store, now, maxAgeHours)
         == Live(entries[..i], store, now, maxAgeHours) + (if Expired(store[entries[i]], now, maxAgeHours) then [] else [entries[i]])
  {
    assert entries[..i + 1][..i] == entries[..i];
  }

  /** Deleting the key the loop has reached leaves the kept keys and the keys still to come. */
  lemma WithoutStep(before: seq<string>, entries: seq<string>, i: nat)
    requires Distinct(entries) && i < |entries| && entries[i] !in before
    ensures Without(before + entries[i..], entries[i]) == before + entries[i + 1..]
  {
    var id := entries[i];
    assert id !in entries[i + 1..];
    assert entries[i..] == [id] + entries[i + 1..];
    WithoutAppend(before, entries[i..], id);
    WithoutAppend([id], entries[i + 1..], id);
  }

  /** Keeping the key the loop has reached moves it from the keys to come to the kept keys. */
  lemma KeepStep(before: seq<string>, entries: seq<string>, i: nat)
    requires i < |entries|
    ensures before + entries[i..] == before + [entries[i]] + entries[i + 1..]
  {
    assert entries[i..] == [entries[i]] + entries[i + 1..];
  }

  lemma RemainingStep(store: map<string, Session>, entries: seq<string>, i: nat, now: int, maxAgeHours: real)
    requires Distinct(entries) && i < |entries| && entries[i] in store
    ensures var id := entries[i];
      id in Remaining(store, entries[..i], now, maxAgeHours) &&
      Remaining(store, entries[..i], now, maxAgeHours)[id] == store[id] &&
      Remaining(store, entries[..i + 1], now, maxAgeHours)
        == if Expired(store[id], now, maxAgeHours) then Remaining(store, entries[..i], now, maxAgeHours) - {id}
           else Remaining(store, entries[..i], now, maxAgeHours)
  {
    assert entries[..i + 1][..i] == entries[..i];
    assert entries[i] !in entries[..i];
  }

  /** After the loop the order and the map agree again. */
  lemma LiveIsValid(entries: seq<string>, store: map<string, Session>, now: int, maxAgeHours: real)
    requires Distinct(entries) && forall k :: k in store <==> k in entries
    ensures Distinct(Live(entries, store, now, maxAgeHours))
    ensures forall k :: k in Remaining(store, entries, now, maxAgeHours) <==> k in Live(entries, store, now, maxAgeHours)
  {
  }
}
