/** Every history of the CURE runtime: any requests, any clock, any refused driver calls. */
module CureHistory {
  import opened Wrappers
  import opened CureModel
  import opened CureUpsert
  import opened CureInvariants
  import opened CureStore
  import opened CureExtractor
  import opened CureMessages
  import opened CureSystem

  datatype Request =
    | Start(user: string, project: Option<string>, session: string)
    | Record(role: string, content: string)
    | Extraction(answer: Answer)
    | Add(slot: Slot, value: string, confidence: real, status: Status, at: int)
    | ReplaceRow(owner: string, id: nat, text: string, trust: real, time: int)
    | DeleteRow(holder: string, row: nat)

  ghost predicate SoundStore(store: SqliteStore)
    reads store
  {
    Sound(store.working) && Sound(store.committed)
  }

  // An upsert's fault outcomes: each side of the connection is one of three sound tables.
  lemma UnitKeepsSound(before: View, after: View, goal: Db, last: nat, refusals: seq<bool>, done: bool)
    requires Sound(before.working) && Sound(before.committed) && Sound(goal)
    requires !before.inTransaction ==> before.working == before.committed
    requires before.committed.messages <= before.working.messages && goal.messages == before.working.messages
    requires UnitRan(before, after, goal, last, refusals, done)
    ensures Sound(after.working) && Sound(after.committed)
    ensures !after.inTransaction ==> after.working == after.committed
    ensures before.committed.messages <= after.committed.messages <= after.working.messages
  {
  }

  method ServeAdd(system: CureMemorySystem, slot: Slot, value: string, confidence: real, status: Status, at: int)
    requires system.Valid() && SoundStore(system.store) && !status.Superseded?
    modifies system.store
    ensures system.Valid() && SoundStore(system.store)
  {
    ghost var store := system.store;
    ghost var before := store.Seen();
    ghost var m := Memory(None, slot, value, Attributes(confidence, false, None), status, [], None, at);
    UpsertKeepsSound(store.working, m, store.clock, store.calls);
    ghost var u := Upsert(store.working, m, store.clock, store.calls);
    var outcome := system.MemoryAdd(slot, value, confidence, status, at);
    if !Absorbed(before.working.memories, m) {
      UnitKeepsSound(before, store.Seen(), u.db, u.calls, store.refusals, outcome.Done?);
    }
    system.ConservationOutlivesGrowth();
  }

  method ServeReplace(system: CureMemorySystem, user: string, id: nat, value: string, confidence: real, at: int)
    requires system.Valid() && SoundStore(system.store)
    modifies system.store
    ensures system.Valid() && SoundStore(system.store)
  {
    ghost var store := system.store;
    ghost var before := store.Seen();
    ghost var rows := store.working.memories;
    var outcome := system.MemoryReplace(user, id, value, confidence, at);
    if !outcome.NotFound? {
      ReplaceKeepsSound(before.working, id - 1, value, confidence, at, store.clock, before.calls);
      ghost var goal := Replace(before.working, rows[id - 1], Replacement(rows[id - 1], value, confidence, at), store.clock, before.calls);
      UnitKeepsSound(before, store.Seen(), goal, before.calls + 4, store.refusals, outcome.Done?);
    }
    system.ConservationOutlivesGrowth();
  }

  method ServeDelete(system: CureMemorySystem, user: string, id: nat)
    requires system.Valid() && SoundStore(system.store)
    modifies system.store
    ensures system.Valid() && SoundStore(system.store)
  {
    ghost var store := system.store;
    ghost var db, calls := store.working, store.calls;
    var outcome := system.DeleteRow(user, id);
    if !outcome.NotFound? {
      ghost var gone := [db.memories[id - 1]];
      PutDeletes(db.memories, gone, store.clock, calls);
      DeletingKeepsHistory(db.memories, gone, PutAll(db.memories, DeletedAll(gone, store.clock, calls)));
    }
    system.ConservationOutlivesGrowth();
  }

  method ServeExtraction(system: CureMemorySystem, answer: Answer)
    requires system.Valid() && SoundStore(system.store)
    modifies system, system.store
    ensures system.Valid() && SoundStore(system.store)
  {
    ghost var store := system.store;
    ghost var db, calls := store.working, store.calls;
    var outcome, run := system.ExtractRuntimeMemories(answer);
    forall n: nat | n <= |run.cands| ensures Sound(Extract(db, run.gone, run.cands, n, store.clock, calls).db) {
      ExtractKeepsSound(db, run.gone, run.cands, n, store.clock, calls);
    }
  }

  // Lineage, one live row per slot and checkpoint conservation hold of what is committed after any
  // history of requests on a sound database, whatever the clock shows and whichever driver calls are
  // refused. The one condition is on the caller of the raw add: it does not store a row as already
  // superseded.
  method History(start: Db, script: seq<Request>, clock: seq<int>, refusals: seq<bool>, judge: Judge)
    returns (db: Db, checkpoints: map<(string, string), nat>, ghost fed: map<(string, string), seq<Message>>)
    requires Sound(start)
    requires forall k :: 0 <= k < |script| && script[k].Add? ==> !script[k].status.Superseded?
    ensures Sound(db)
    ensures fed.Keys == checkpoints.Keys
    ensures forall key :: key in checkpoints ==>
      && checkpoints[key] <= |db.messages| && fed[key] == Batch(db.messages, key.0, key.1, 0, checkpoints[key])
  {
    var store := new SqliteStore(start, clock, refusals);
    var system := new CureMemorySystem(store, judge);
    for k := 0 to |script|
      invariant system.Valid() && SoundStore(store) && fresh(system) && fresh(store) && system.store == store
    {
      match script[k]
      case Start(user, project, session) =>
        system.StartSession(user, project, session);
      case Record(role, content) =>
        var recorded := system.RecordMessage(role, content);
      case Extraction(answer) =>
        ServeExtraction(system, answer);
      case Add(slot, value, confidence, status, at) =>
        ServeAdd(system, slot, value, confidence, status, at);
      case ReplaceRow(user, id, value, confidence, at) =>
        ServeReplace(system, user, id, value, confidence, at);
      case DeleteRow(user, id) =>
        ServeDelete(system, user, id);
    }
    db, checkpoints, fed := store.committed, system.lastExtracted, system.fed;
  }
}
