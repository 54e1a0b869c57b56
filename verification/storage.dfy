/** The in-memory session store (`MemStorage`): a map from session id to
    session record with create, get and delete. The id generator and the
    clock are inputs: `freshId` stands for the generated UUID and `now` for
    the creation time. */
module Storage {
  import opened Wrappers
  import opened Schema

  type Store = map<string, UserSession>

  /** Every record is filed under its own id. */
  ghost predicate WellFormed(store: Store)
  {
    forall id :: id in store ==> store[id].id == id
  }

  /** The store after a creation, and the record created. */
  datatype Created = Created(store: Store, session: UserSession)

  /** `createSession`: files a new record for `username` under a fresh id.
      Exactly one entry is added and every existing entry is kept. */
  function CreateSession(store: Store, username: string, freshId: string, now: Instant): (r: Created)
    requires freshId !in store
    ensures r.session.id == freshId && r.session.username == username && r.session.loginTime == now
    ensures r.store.Keys == store.Keys + {freshId}
    ensures |r.store| == |store| + 1
    ensures r.store[freshId] == r.session
    ensures forall id :: id in store ==> r.store[id] == store[id]
    ensures WellFormed(store) ==> WellFormed(r.store)
  {
    var session := UserSession(freshId, username, now);
    Created(store[freshId := session], session)
  }

  /** `getSession`: the record filed under `id`, or absent; a lookup never
      fails and never changes the store. */
  function GetSession(store: Store, id: string): (r: Option<UserSession>)
    ensures r.Some? <==> id in store
    ensures r.Some? ==> r.value == store[id]
  {
    if id in store then Some(store[id]) else None
  }

  /** `deleteSession`: removes the entry for `id` if there is one; removing
      an absent id is not an error. Every other entry is kept. */
  function DeleteSession(store: Store, id: string): (r: Store)
    ensures r.Keys == store.Keys - {id}
    ensures forall other :: other in r ==> r[other] == store[other]
    ensures id in store ==> |r| == |store| - 1
    ensures id !in store ==> r == store
    ensures WellFormed(store) ==> WellFormed(r)
  {
    store - {id}
  }

  /** A created session can be looked up at once, and resolves to exactly
      the record that was returned. */
  lemma GetAfterCreate(store: Store, username: string, freshId: string, now: Instant)
    requires freshId !in store
    ensures GetSession(CreateSession(store, username, freshId, now).store, freshId)
            == Some(UserSession(freshId, username, now))
  {
  }

  /** Creation does not disturb the lookup of any other id. */
  lemma CreateLeavesOthers(store: Store, username: string, freshId: string, now: Instant, other: string)
    requires freshId !in store && other != freshId
    ensures GetSession(CreateSession(store, username, freshId, now).store, other) == GetSession(store, other)
  {
  }

  /** A deleted id no longer resolves. */
  lemma GetAfterDelete(store: Store, id: string)
    ensures GetSession(DeleteSession(store, id), id) == None
  {
  }

  /** Deletion does not disturb the lookup of any other id. */
  lemma DeleteLeavesOthers(store: Store, id: string, other: string)
    requires other != id
    ensures GetSession(DeleteSession(store, id), other) == GetSession(store, other)
  {
  }

  /** Deleting twice is deleting once. */
  lemma DeleteIdempotent(store: Store, id: string)
    ensures DeleteSession(DeleteSession(store, id), id) == DeleteSession(store, id)
  {
  }

  /** Deleting the session just created restores the store: delete undoes
      create. */
  lemma DeleteUndoesCreate(store: Store, username: string, freshId: string, now: Instant)
    requires freshId !in store
    ensures DeleteSession(CreateSession(store, username, freshId, now).store, freshId) == store
  {
  }

  /** Two creations with different fresh ids give two distinct sessions,
      each resolving to its own username. */
  lemma TwoCreationsBothResolve(store: Store, u1: string, u2: string, id1: string, id2: string, t1: Instant, t2: Instant)
    requires id1 !in store && id2 !in store && id1 != id2
    ensures var s1 := CreateSession(store, u1, id1, t1).store;
            var s2 := CreateSession(s1, u2, id2, t2).store;
            && GetSession(s2, id1) == Some(UserSession(id1, u1, t1))
            && GetSession(s2, id2) == Some(UserSession(id2, u2, t2))
            && |s2| == |store| + 2
  {
  }
}
