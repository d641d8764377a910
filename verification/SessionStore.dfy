// portal_session.py: the session store with a time to live.

module SessionStore {
  import opened Text

  type Id = string
  type Fields = map<string, string>

  /** A stored session; times are integers in the clock's unit. */
  datatype Session = Session(fields: Fields, createdAt: int)

  predicate IsExpired(s: Session, now: int, maxAge: int) { now - s.createdAt > maxAge }

  /** The plain timed map: a session can be read while it is in the map and not older than maxAge. */
  function ReadAt(sessions: map<Id, Session>, id: Id, now: int, maxAge: int): Option<Fields> {
    if id in sessions && !IsExpired(sessions[id], now, maxAge) then Some(sessions[id].fields) else None
  }

  /**
   * The store and the plain map of the sessions that were created and not deleted: the store may
   * lack some of them, but only such as are expired already.
   */
  predicate Refines(store: map<Id, Session>, created: map<Id, Session>, now: int, maxAge: int) {
    && (forall id | id in store :: id in created && created[id] == store[id])
    && (forall id | id in created && id !in store :: IsExpired(created[id], now, maxAge))
  }

  /** From then on the two cannot be told apart. */
  lemma RefinesReads(store: map<Id, Session>, created: map<Id, Session>, now: int, maxAge: int, id: Id, later: int)
    requires Refines(store, created, now, maxAge) && now <= later
    ensures ReadAt(store, id, later, maxAge) == ReadAt(created, id, later, maxAge)
    ensures ReadAt(store, id, later, maxAge).Some? <==> id in created && later - created[id].createdAt <= maxAge
  {
  }

  class Store {
    const maxAge: int
    var sessions: map<Id, Session>
    /** The sessions created and not deleted, and the latest time a method was given. */
    ghost var created: map<Id, Session>
    ghost var latest: int

    constructor (maxAge: int)
      ensures this.maxAge == maxAge && created == map[] && Valid()
    {
      this.maxAge := maxAge;
      sessions, created, latest := map[], map[], 0;
    }

    ghost predicate Valid()
      reads this
    {
      Refines(sessions, created, latest, maxAge)
    }

    /** create; the id is the next random token, which has not been used before. */
    method Create(id: Id, fields: Fields, now: int)
      requires Valid() && latest <= now && id !in created
      modifies this
      ensures Valid() && latest == now && created == old(created)[id := Session(fields, now)]
    {
      sessions := sessions[id := Session(fields, now)];
      created, latest := created[id := Session(fields, now)], now;
    }

    /** get: the fields exactly if the id was created, not deleted, and is at most maxAge old. */
    method Get(id: Id, now: int) returns (data: Option<Fields>)
      requires Valid() && latest <= now
      modifies this`sessions, this`latest
      ensures Valid() && latest == now && created == old(created)
      ensures data.Some? <==> id in created && now - created[id].createdAt <= maxAge
      ensures data.Some? ==> data.value == created[id].fields
      ensures forall other | other in sessions :: other in old(sessions)
    {
      latest := now;
      if id !in sessions { return None; }
      var session := sessions[id];
      if IsExpired(session, now, maxAge) {
        sessions := sessions - {id};
        return None;
      }
      return Some(session.fields);
    }

    /** delete. */
    method Delete(id: Id)
      requires Valid()
      modifies this`sessions, this`created
      ensures Valid() && created == old(created) - {id}
    {
      sessions := sessions - {id};
      created := created - {id};
    }

    /** The first loop of _cleanup_expired: the ids that are expired, each once. */
    method ExpiredIds(now: int) returns (expired: seq<Id>)
      ensures forall j, k | 0 <= j < k < |expired| :: expired[j] != expired[k]
      ensures forall id :: id in expired <==> id in sessions && now - sessions[id].createdAt > maxAge
    {
      expired := [];
      var keys := sessions.Keys;
      while keys != {}
        invariant keys <= sessions.Keys
        invariant forall id :: id in expired <==> id in sessions && id !in keys && IsExpired(sessions[id], now, maxAge)
        invariant forall j, k | 0 <= j < k < |expired| :: expired[j] != expired[k]
        decreases |keys|
      {
        var sid :| sid in keys;
        keys := keys - {sid};
        if IsExpired(sessions[sid], now, maxAge) {
          expired := expired + [sid];
        }
      }
    }

    /** _cleanup_expired: exactly the expired sessions are removed, and counted. */
    method CleanupExpired(now: int) returns (removed: nat)
      requires Valid() && latest <= now
      modifies this`sessions, this`latest
      ensures Valid() && latest == now && created == old(created)
      ensures forall id :: id in sessions <==> id in old(sessions) && now - old(sessions)[id].createdAt <= maxAge
      ensures forall id | id in sessions :: sessions[id] == old(sessions)[id]
      ensures removed == |old(sessions)| - |sessions|
    {
      var expired := ExpiredIds(now);
      removed := 0;
      while removed < |expired|
        invariant removed <= |expired|
        invariant forall id :: id in sessions <==> id in old(sessions) && id !in expired[..removed]
        invariant forall id | id in sessions :: sessions[id] == old(sessions)[id]
        invariant removed == |old(sessions)| - |sessions|
      {
        SizeAfterRemoval(sessions, expired[removed]);
        sessions := sessions - {expired[removed]};
        removed := removed + 1;
      }
      latest := now;
    }
  }

  lemma SizeAfterRemoval(m: map<Id, Session>, id: Id)
    requires id in m
    ensures |m - {id}| == |m| - 1
  {
    assert (m - {id}).Keys == m.Keys - {id};
  }
}
