/** The CURE memory runtime over the store: add, replace, delete, record and extract, each
    proved to commit exactly its fault-free effect or a prefix of its units, whatever the
    driver refusals. */
module CureSystem {
  import opened Wrappers
  import opened CureModel
  import opened CureUpsert
  import opened CureInvariants
  import opened CureStore
  import opened CureExtractor
  import opened CureMessages

  // `NotFound` is the ValueError of a memory that is missing or terminal.
  datatype Outcome<+T> = Done(value: T) | NotFound | Raised

  datatype ExtractionResult = ExtractionResult(
    candidates: seq<Memory>, deleted: seq<Memory>, errors: seq<string>, persisted: seq<Memory>)

  // What one extraction set out to do and how many of its units committed: the deletion batch is
  // the first, then one per candidate.
  datatype Run = Run(gone: seq<Memory>, cands: seq<Memory>, units: nat)

  // The decision written in full, one driver call after another.
  ghost function Written(before: View, run: Run, clock: seq<int>, n: nat): Extraction
    requires NumberedRows(before.working.memories) && Deletable(before.working.memories, run.gone) && n <= |run.cands|
  {
    Extract(before.working, run.gone, run.cands, n, clock, before.calls)
  }

  // No call is refused and every unit of the extraction is committed. The result reports the deleted
  // rows and the candidates as the writer left them, and the effective row of each candidate.
  ghost predicate ExtractionDone(before: View, after: View, run: Run, clock: seq<int>, refusals: seq<bool>, result: ExtractionResult)
    requires NumberedRows(before.working.memories) && Deletable(before.working.memories, run.gone)
  {
    var x := Written(before, run, clock, |run.cands|);
    && !before.inTransaction && after == View(x.db, x.db, false, x.calls)
    && NoneRefused(refusals, before.calls, x.calls)
    && run.units == |run.cands| + 1
    && result == ExtractionResult(x.candidates, DeletedAll(run.gone, clock, before.calls + 1), [], x.persisted)
  }

  // The last call made is refused and no other. It belongs to the unit after the `run.units` committed
  // ones; only when it is that unit's COMMIT does a transaction stay open, with the unit pending in it.
  ghost predicate Cut(before: View, after: View, run: Run, clock: seq<int>, refusals: seq<bool>)
    requires NumberedRows(before.working.memories) && Deletable(before.working.memories, run.gone) && run.units <= |run.cands|
  {
    var next := Written(before, run, clock, run.units);
    && before.calls < after.calls <= next.calls
    && (run.units > 0 ==> Written(before, run, clock, run.units - 1).calls < after.calls)
    && NoneRefused(refusals, before.calls, after.calls - 1) && Refused(refusals, after.calls - 1)
    && after.inTransaction == (after.calls == next.calls)
    && after.working == if after.inTransaction then next.db else after.committed
  }

  // A call was refused: the committed table is that of a prefix of the units. A transaction open on
  // entry refuses the first BEGIN and nothing moves.
  ghost predicate ExtractionCut(before: View, after: View, run: Run, clock: seq<int>, refusals: seq<bool>)
    requires NumberedRows(before.working.memories) && Deletable(before.working.memories, run.gone)
  {
    && run.units <= |run.cands|
    && after.committed == (if run.units == 0 then before.committed else Written(before, run, clock, run.units - 1).db)
    && if before.inTransaction then run.units == 0 && after == before.(calls := before.calls + 1)
       else Cut(before, after, run, clock, refusals)
  }

  lemma {:induction false} UpsertCalls(db: Db, c: Memory, clock: seq<int>, calls: nat)
    ensures calls <= Upsert(db, c, clock, calls).calls
  {
  }

  lemma {:induction false} DeletableHaveIds(rows: seq<Memory>, gone: seq<Memory>)
    requires NumberedRows(rows) && Deletable(rows, gone)
    ensures forall k :: 0 <= k < |gone| ==> gone[k].id.Some?
  {
    forall k | 0 <= k < |gone| ensures gone[k].id.Some? {
      assert gone[k] in gone;
    }
  }

  lemma {:induction false} CallsGrow(db: Db, gone: seq<Memory>, cands: seq<Memory>, m: nat, n: nat, clock: seq<int>, calls: nat)
    requires NumberedRows(db.memories) && Deletable(db.memories, gone) && m <= n <= |cands|
    ensures calls < Extract(db, gone, cands, m, clock, calls).calls <= Extract(db, gone, cands, n, clock, calls).calls
  {
    hide Upsert, DeleteBatch;
    if n > 0 {
      CallsGrow(db, gone, cands, if m < n then m else n - 1, n - 1, clock, calls);
      var x := Extract(db, gone, cands, n - 1, clock, calls);
      UpsertCalls(x.db, cands[n - 1], clock, x.calls);
    }
  }

  // Unit `n` makes calls of its own, the last of them its COMMIT, and that is the first one refused.
  ghost predicate CommitRefused(before: View, run: Run, clock: seq<int>, refusals: seq<bool>, n: nat)
    requires NumberedRows(before.working.memories) && Deletable(before.working.memories, run.gone) && n <= |run.cands|
  {
    var last := Written(before, run, clock, n).calls;
    && (n > 0 ==> Written(before, run, clock, n - 1).calls < last)
    && 0 < last && NoneRefused(refusals, before.calls, last - 1) && Refused(refusals, last - 1)
  }

  // An extraction that starts with no open transaction ends with one exactly when the first refused
  // call of the units it writes is the COMMIT of one of them.
  lemma {:induction false} CutEndsOpenIff(before: View, after: View, run: Run, clock: seq<int>, refusals: seq<bool>)
    requires NumberedRows(before.working.memories) && Deletable(before.working.memories, run.gone)
    requires ExtractionCut(before, after, run, clock, refusals) && !before.inTransaction
    ensures !NoneRefused(refusals, before.calls, Written(before, run, clock, |run.cands|).calls)
    ensures after.inTransaction <==> exists n: nat :: n <= |run.cands| && CommitRefused(before, run, clock, refusals, n)
  {
    hide Extract;
    CallsGrow(before.working, run.gone, run.cands, run.units, |run.cands|, clock, before.calls);
    if after.inTransaction {
      assert CommitRefused(before, run, clock, refusals, run.units);
    }
    if n: nat :| n <= |run.cands| && CommitRefused(before, run, clock, refusals, n) {
      CallsGrow(before.working, run.gone, run.cands, n, n, clock, before.calls);
      if n < run.units {
        CallsGrow(before.working, run.gone, run.cands, n, run.units - 1, clock, before.calls);
      } else if n > run.units {
        CallsGrow(before.working, run.gone, run.cands, run.units, n - 1, clock, before.calls);
      }
    }
  }

  // An extraction succeeds exactly when none of the calls of its units is refused.
  lemma {:induction false} DoneIff(before: View, after: View, run: Run, clock: seq<int>, refusals: seq<bool>, outcome: Outcome<ExtractionResult>)
    requires NumberedRows(before.working.memories) && Deletable(before.working.memories, run.gone)
    requires !before.inTransaction && !outcome.NotFound?
    requires if outcome.Done? then ExtractionDone(before, after, run, clock, refusals, outcome.value)
             else ExtractionCut(before, after, run, clock, refusals)
    ensures outcome.Done? <==> NoneRefused(refusals, before.calls, Written(before, run, clock, |run.cands|).calls)
  {
    if outcome.Raised? {
      CutEndsOpenIff(before, after, run, clock, refusals);
    }
  }

  // Where an extraction stands after its deletion batch and `i` candidates.
  ghost predicate Reached(view: View, db: Db, gone: seq<Memory>, cands: seq<Memory>, i: nat, clock: seq<int>, start: nat,
                          candidates: seq<Memory>, persisted: seq<Memory>, refusals: seq<bool>)
    requires NumberedRows(db.memories) && Deletable(db.memories, gone) && i <= |cands|
  {
    var x := Extract(db, gone, cands, i, clock, start);
    && view == View(x.db, x.db, false, x.calls) && candidates == x.candidates && persisted == x.persisted
    && NoneRefused(refusals, start, x.calls)
  }

  lemma ReachedNext(view: View, view': View, db: Db, gone: seq<Memory>, cands: seq<Memory>, i: nat, clock: seq<int>, start: nat,
                    candidates: seq<Memory>, persisted: seq<Memory>, saved: Memory, row: Memory, refusals: seq<bool>)
    requires NumberedRows(db.memories) && Deletable(db.memories, gone) && i < |cands|
    requires Reached(view, db, gone, cands, i, clock, start, candidates, persisted, refusals)
    requires Upsert(view.working, cands[i], clock, view.calls) == Upsertion(view'.working, saved, row, view'.calls)
    requires view'.committed == view'.working && !view'.inTransaction && NoneRefused(refusals, view.calls, view'.calls)
    ensures Reached(view', db, gone, cands, i + 1, clock, start, candidates + [saved], persisted + [row], refusals)
  {
  }

  lemma CutAtCandidate(before: View, view: View, view': View, run: Run, clock: seq<int>,
                       candidates: seq<Memory>, persisted: seq<Memory>, refusals: seq<bool>)
    requires NumberedRows(before.working.memories) && Deletable(before.working.memories, run.gone) && 0 < run.units <= |run.cands|
    requires !before.inTransaction
    requires Reached(view, before.working, run.gone, run.cands, run.units - 1, clock, before.calls, candidates, persisted, refusals)
    requires var u := Upsert(view.working, run.cands[run.units - 1], clock, view.calls);
      UnitRan(view, view', u.db, u.calls, refusals, false)
    ensures ExtractionCut(before, view', run, clock, refusals)
  {
    CallsGrow(before.working, run.gone, run.cands, run.units - 1, run.units - 1, clock, before.calls);
    NoneRefusedJoin(refusals, before.calls, view.calls, view'.calls - 1);
  }

  lemma CutAtDeletion(before: View, after: View, run: Run, clock: seq<int>, refusals: seq<bool>)
    requires NumberedRows(before.working.memories) && Deletable(before.working.memories, run.gone) && run.units == 0
    requires !before.inTransaction ==> before.working == before.committed
    requires UnitRan(before, after, DeleteBatch(before.working, run.gone, clock, before.calls),
                     before.calls + |run.gone| + 2, refusals, false)
    ensures ExtractionCut(before, after, run, clock, refusals)
  {
  }

  class CureMemorySystem {
    const store: SqliteStore
    const judge: Judge

    // "" is no session: every session operation raises.
    var user: string
    var session: string
    var project: Option<string>
    var lastExtracted: map<(string, string), nat>
    // What successful extractions have handed to the model so far, per (user, session).
    ghost var fed: map<(string, string), seq<Message>>

    constructor (store: SqliteStore, judge: Judge)
      requires store.Settled()
      ensures this.store == store && this.judge == judge && Valid() && lastExtracted == map[]
    {
      this.store, this.judge := store, judge;
      user, session, project, lastExtracted, fed := "", "", None, map[], map[];
    }

    // Checkpoint conservation: for each (user, session), the batches of its successful extractions
    // are, in order and without repeats, its messages up to the checkpoint.
    ghost predicate Conserved()
      reads this, store
    {
      && fed.Keys == lastExtracted.Keys
      && (session != "" && user != "" ==> (user, session) in lastExtracted)
      && forall key :: key in lastExtracted ==>
           && lastExtracted[key] <= |store.committed.messages|
           && fed[key] == Batch(store.committed.messages, key.0, key.1, 0, lastExtracted[key])
    }

    ghost predicate Valid()
      reads this, store
    {
      store.Settled() && Conserved()
    }

    ghost function Fed(): seq<Message>
      reads this
    {
      if (user, session) in fed then fed[(user, session)] else []
    }

    function Checkpoint(): nat
      reads this
    {
      var key := (user, session);
      if key in lastExtracted then lastExtracted[key] else 0
    }

    // The messages the next extraction of the active session will list.
    function Pending(): seq<Message>
      reads this, store
    {
      ListMessages(store.working.messages, user, session, Checkpoint())
    }

    twostate lemma ConservationOutlivesGrowth()
      requires old(Valid()) && store.Settled() && unchanged(this)
      requires old(store.committed.messages) <= store.committed.messages
      ensures Conserved()
    {
      forall key | key in lastExtracted
        ensures fed[key] == Batch(store.committed.messages, key.0, key.1, 0, lastExtracted[key])
      {
        BatchOfGrownLog(old(store.committed.messages), store.committed.messages, key.0, key.1, 0, lastExtracted[key]);
      }
    }

    method StartSession(user: string, project: Option<string>, session: string)
      requires Valid()
      modifies this
      ensures Valid() && this.user == user && this.project == project && this.session == session
      ensures lastExtracted == if (user, session) in old(lastExtracted) then old(lastExtracted)
                               else old(lastExtracted)[(user, session) := 0]
    {
      this.user, this.project, this.session := user, project, session;
      if (user, session) !in lastExtracted {
        lastExtracted := lastExtracted[(user, session) := 0];
        fed := fed[(user, session) := Batch(store.committed.messages, user, session, 0, 0)];
      }
    }

    method RecordMessage(role: string, content: string) returns (outcome: Outcome<nat>)
      requires Valid()
      modifies store
      ensures Valid()
      ensures session == "" || user == "" ==> outcome.Raised? && unchanged(store)
      ensures store.committed.memories == old(store.committed.memories) || store.committed.memories == old(store.working.memories)
      ensures store.working.memories == old(store.working.memories) || store.working.memories == old(store.committed.memories)
      ensures old(store.AtRest()) ==> store.working.memories == store.committed.memories == old(store.working.memories)
      ensures store.calls >= old(store.calls)
      ensures session != "" && user != "" ==>
        store.Seen() == AfterWrite(old(store.Seen()), InsertMessage(session, user, role, content), store.refusals)
      ensures outcome.Done? <==>
        session != "" && user != "" && NoneRefused(store.refusals, old(store.calls), old(store.calls) + 2)
      // rows move only when a refused record rolls back what an earlier refused commit left pending
      ensures session != "" && user != "" ==>
        (store.working.memories != old(store.working.memories) <==>
          Refused(store.refusals, old(store.calls)) && old(store.inTransaction)
          && old(store.working.memories) != old(store.committed.memories))
      ensures Refused(store.refusals, old(store.calls)) && session != "" && user != "" ==> store.calls == old(store.calls) + 1 && !store.inTransaction
      ensures store.inTransaction && !old(store.inTransaction) ==> store.calls > 0 && Refused(store.refusals, store.calls - 1)
      ensures outcome.Done? ==>
        && store.AtRest() && store.calls == old(store.calls) + 2 && outcome.value == |old(store.working.messages)| + 1
        && store.committed.messages ==
             old(store.working.messages) + [Message(outcome.value, session, user, role, content)]
    {
      if session == "" || user == "" {
        outcome := Raised;
        return;
      }
      var ok := store.Write(InsertMessage(session, user, role, content));
      outcome := if ok then Done(|store.working.messages|) else Raised;
      ConservationOutlivesGrowth();
    }

    // ------------------------------------------------------------------
    // One candidate
    // ------------------------------------------------------------------

    method UpsertMemory(c: Memory) returns (outcome: Outcome<Memory>, saved: Memory)
      requires store.Settled() && c.id.None?
      modifies store
      ensures store.Settled() && !outcome.NotFound?
      ensures old(Absorbed(store.working.memories, c)) ==>
        outcome == Done(old(ActiveRows(store.working.memories, c)[0])) && saved == c && unchanged(store)
      ensures old(!Absorbed(store.working.memories, c)) ==>
        var u := old(Upsert(store.working, c, store.clock, store.calls));
        UnitRan(old(store.Seen()), store.Seen(), u.db, u.calls, store.refusals, outcome.Done?)
      ensures outcome.Done? ==>
        old(Upsert(store.working, c, store.clock, store.calls)) ==
          Upsertion(store.working, saved, outcome.value, store.calls)
    {
      saved := c;
      var rows := store.working.memories;
      if Absorbed(rows, c) {
        outcome := Done(ActiveRows(rows, c)[0]);
        return;
      }
      RetiredNamesRows(rows, c);
      UpsertIsNumbered(store.working, c, store.clock, store.calls);
      var ok;
      ok, saved := SupersedeUnit(c, Retired(rows, c));
      outcome := if ok then Done(saved) else Raised;
    }

    // One candidate's atomic unit.
    method SupersedeUnit(c: Memory, active: seq<Memory>) returns (ok: bool, saved: Memory)
      requires store.Settled() && c.id.None? && NamesRows(active, store.working.memories)
      requires NumberedRows(Supersede(store.working.memories, active, SavedOver(store.working.memories, active, c),
                                      store.clock, store.calls + |active| + 2))
      modifies store
      ensures store.Settled()
      ensures var rows, calls := old(store.working.memories), old(store.calls);
        && UnitRan(old(store.Seen()), store.Seen(),
             old(store.working).(memories :=
               Supersede(rows, active, SavedOver(rows, active, c), store.clock, calls + |active| + 2)),
             calls + 2 * |active| + 3, store.refusals, ok)
        && (ok ==> saved == SavedOver(rows, active, c))
    {
      saved := c;
      ok := store.EnterAtomic();
      if !ok {
        return;
      }
      ok, saved := SupersedeInBlock(c, active, store.working.memories);
      if !ok {
        store.AbortAtomic();
        return;
      }
      ok := store.CommitAtomic();
    }

    // The body of the upsert's atomic block: mark the retired rows, insert the candidate listing
    // them, point them at it.
    method SupersedeInBlock(c: Memory, active: seq<Memory>, ghost rows: seq<Memory>) returns (ok: bool, saved: Memory)
      requires store.InBlock() && store.working.memories == rows && c.id.None? && NamesRows(active, rows)
      modifies store
      ensures store.InBlock() && unchanged(store`committed) && store.working.messages == old(store.working.messages)
      ensures store.Called(old(store.calls), old(store.calls) + 2 * |active| + 1, ok)
      ensures ok ==>
        && saved == SavedOver(rows, active, c)
        && store.working.memories == Supersede(rows, active, saved, store.clock, old(store.calls) + |active| + 1)
    {
      hide Stamped, PutAll, Supersede, NamesRows;
      ghost var start := store.calls;
      var marked, pointed;
      ok, saved, marked := MarkAndInsert(c, active, rows);
      if !ok {
        return;
      }
      ok, pointed := UpdateEach(PointingTo(marked, saved.id.value));
      if !ok {
        return;
      }
      TwoRoundsSupersede(rows, active, saved, marked, pointed, store.clock, start, start + |active| + 1);
    }

    method MarkAndInsert(c: Memory, active: seq<Memory>, ghost rows: seq<Memory>)
      returns (ok: bool, saved: Memory, marked: seq<Memory>)
      requires store.InBlock() && store.working.memories == rows && c.id.None? && NamesRows(active, rows)
      modifies store
      ensures store.InBlock() && unchanged(store`committed) && store.working.messages == old(store.working.messages)
      ensures store.Called(old(store.calls), old(store.calls) + |active| + 1, ok)
      ensures ok ==>
        && Stamped(Marked(active, Superseded), store.clock, old(store.calls), marked)
        && (forall k :: 0 <= k < |marked| ==> marked[k].id.Some?)
        && saved == SavedOver(rows, active, c)
        && store.working.memories == PutAll(rows, marked) + [saved]
    {
      ok, marked := UpdateEach(Marked(active, Superseded));
      saved := c.(supersedes := c.supersedes + IdsOf(active));
      if !ok {
        return;
      }
      ok := store.Write(InsertMemory(saved));
      saved := saved.(id := Some(|store.working.memories|));
    }

    // Writes rows one by one inside an open atomic block, stopping at the first refusal.
    method UpdateEach(items: seq<Memory>) returns (ok: bool, stamped: seq<Memory>)
      requires store.InBlock() && forall k :: 0 <= k < |items| ==> items[k].id.Some?
      modifies store
      ensures store.InBlock() && unchanged(store`committed) && store.working.messages == old(store.working.messages)
      ensures store.Called(old(store.calls), old(store.calls) + |items|, ok)
      ensures ok ==>
        && Stamped(items, store.clock, old(store.calls), stamped)
        && store.working.memories == PutAll(old(store.working.memories), stamped)
    {
      stamped, ok := [], true;
      for k := 0 to |items|
        invariant ok && store.InBlock() && unchanged(store`committed) && store.working.messages == old(store.working.messages)
        invariant store.Called(old(store.calls), old(store.calls) + k, true)
        invariant Stamped(items[..k], store.clock, old(store.calls), stamped)
        invariant store.working.memories == PutAll(old(store.working.memories), stamped)
      {
        var item;
        ok, item := store.UpdateMemory(items[k]);
        if !ok {
          return;
        }
        assert (stamped + [item])[..k] == stamped;
        stamped := stamped + [item];
      }
      assert items[..|items|] == items;
    }

    // ------------------------------------------------------------------
    // The direct surface: add, replace, delete
    // ------------------------------------------------------------------

    method MemoryAdd(slot: Slot, value: string, confidence: real, status: Status, at: int) returns (outcome: Outcome<Memory>)
      requires store.Settled()
      modifies store
      ensures store.Settled() && !outcome.NotFound?
      ensures var m := Memory(None, slot, value, Attributes(confidence, false, None), status, [], None, at);
        if old(Absorbed(store.working.memories, m))
        then outcome == Done(old(ActiveRows(store.working.memories, m)[0])) && unchanged(store)
        else var u := old(Upsert(store.working, m, store.clock, store.calls));
          && UnitRan(old(store.Seen()), store.Seen(), u.db, u.calls, store.refusals, outcome.Done?)
          && (outcome.Done? ==> outcome.value == u.persisted)
    {
      var m := Memory(None, slot, value, Attributes(confidence, false, None), status, [], None, at);
      var saved;
      outcome, saved := UpsertMemory(m);
    }

    // The user's live row with this id, in any project; terminal rows are never matched again.
    method FindLive(user: string, id: nat) returns (row: Option<Memory>)
      requires NumberedRows(store.working.memories)
      ensures var rows := store.working.memories;
        row == if 1 <= id <= |rows| && rows[id - 1].slot.user == user && Live(rows[id - 1]) then Some(rows[id - 1]) else None
    {
      var listed := ListMemories(store.working.memories, user, None, None, None, None);
      for i := 0 to |listed|
        invariant forall j :: 0 <= j < i ==> !(listed[j].id == Some(id) && Live(listed[j]))
      {
        if listed[i].id == Some(id) && Live(listed[i]) {
          assert listed[i] in listed;
          return Some(listed[i]);
        }
      }
      if 1 <= id <= |store.working.memories| {
        var m := store.working.memories[id - 1];
        assert m in listed ==> exists j :: 0 <= j < |listed| && listed[j] == m;
      }
      row := None;
    }

    method MemoryReplace(user: string, id: nat, value: string, confidence: real, at: int) returns (outcome: Outcome<Memory>)
      requires store.Settled()
      modifies store
      ensures store.working.messages == old(store.working.messages) || store.working.messages == old(store.committed.messages)
      ensures var rows := old(store.working.memories);
        if 1 <= id <= |rows| && rows[id - 1].slot.user == user && Live(rows[id - 1])
        then
          var r := Replacement(rows[id - 1], value, confidence, at);
          && !outcome.NotFound?
          && UnitRan(old(store.Seen()), store.Seen(), old(Replace(store.working, rows[id - 1], r, store.clock, store.calls)),
                     old(store.calls) + 4, store.refusals, outcome.Done?)
          && (outcome.Done? ==> outcome.value == r.(id := Some(|rows| + 1)))
          && (outcome.Done? ==> Replaces(rows, id - 1, value, confidence, at, store.committed.memories, outcome.value))
        else outcome == NotFound && unchanged(store)
      ensures store.atomicDepth == 0
    {
      var row := FindLive(user, id);
      if row.None? {
        return NotFound;
      }
      outcome := Raised;
      hide Replaces, Conserved;
      ReplaceRows(store.working, id - 1, value, confidence, at, store.clock, store.calls);
      var replacement := Replacement(row.value, value, confidence, at);
      var prior := row.value.(status := Superseded);
      var ok := store.EnterAtomic();
      if !ok {
        return;
      }
      ok := store.Write(InsertMemory(replacement));
      if !ok {
        store.AbortAtomic();
        return;
      }
      replacement := replacement.(id := Some(|store.working.memories|));
      var stamped;
      ok, stamped := store.UpdateMemory(prior.(supersededBy := replacement.id));
      if !ok {
        store.AbortAtomic();
        return;
      }
      ok := store.CommitAtomic();
      if ok {
        outcome := Done(replacement);
      }
    }

    // The endpoint's delete: one row, its own commit.
    method DeleteRow(user: string, id: nat) returns (outcome: Outcome<nat>)
      requires store.Settled()
      modifies store
      ensures store.atomicDepth == 0
      ensures var rows := old(store.working.memories);
        if 1 <= id <= |rows| && rows[id - 1].slot.user == user && Live(rows[id - 1])
        then
          var after := old(store.working).(memories := PutAll(rows, DeletedAll([rows[id - 1]], store.clock, old(store.calls))));
          && (outcome.Done? <==> NoneRefused(store.refusals, old(store.calls), old(store.calls) + 2)) && !outcome.NotFound?
          && store.inTransaction == (!Refused(store.refusals, old(store.calls)) && Refused(store.refusals, old(store.calls) + 1))
          && store.committed == (if outcome.Done? then after else old(store.committed))
          && (outcome.Done? ==> outcome == Done(id) && store.working == after && !store.inTransaction)
          && (outcome.Raised? && !store.inTransaction ==> store.working == old(store.committed))
          && (outcome.Raised? && store.inTransaction ==> store.working == after)
        else outcome == NotFound && unchanged(store)
    {
      var row := FindLive(user, id);
      if row.None? {
        return NotFound;
      }
      ghost var rows, calls := store.working.memories, store.calls;
      var ok, stamped := store.UpdateMemory(row.value.(status := Deleted));
      assert PutAll(rows, DeletedAll([row.value], store.clock, calls)) == Put(rows, stamped) by {
        assert DeletedAll([row.value], store.clock, calls) == [stamped];
        assert PutAll(rows, [stamped][..0]) == rows;
      }
      outcome := if ok then Done(id) else Raised;
    }

    // ------------------------------------------------------------------
    // The deletion batch and the extraction
    // ------------------------------------------------------------------

    method DeletionUnit(gone: seq<Memory>) returns (ok: bool, deleted: seq<Memory>)
      requires store.Settled() && Deletable(store.working.memories, gone)
      modifies store
      ensures store.Settled()
      ensures UnitRan(old(store.Seen()), store.Seen(), old(DeleteBatch(store.working, gone, store.clock, store.calls)),
                      old(store.calls) + |gone| + 2, store.refusals, ok)
      ensures ok ==> deleted == DeletedAll(gone, store.clock, old(store.calls) + 1)
    {
      ghost var before, start := store.working, store.calls;
      DeletedAreNumbered(before, gone, store.clock, start);
      deleted := [];
      DeletableHaveIds(before.memories, gone);
      ok := store.EnterAtomic();
      if !ok {
        return;
      }
      ok, deleted := UpdateEach(Marked(gone, Deleted));
      if !ok {
        store.AbortAtomic();
        return;
      }
      assert deleted == DeletedAll(gone, store.clock, start + 1);
      ok := store.CommitAtomic();
    }

    method ExtractRuntimeMemories(answer: Answer) returns (outcome: Outcome<ExtractionResult>, ghost run: Run)
      requires Valid()
      modifies this, store
      ensures Valid() && unchanged(`user) && unchanged(`session) && unchanged(`project) && !outcome.NotFound?
      ensures (session == "" || user == "") ==> outcome.Raised?
      ensures old(Deletable(store.working.memories, run.gone))
      ensures forall m :: m in run.gone ==> m.slot.user == user && InLayer(m, project, NamesUser(answer))
      ensures forall c :: c in run.cands ==> c.slot.user == user && InLayer(c, project, NamesUser(answer)) && Fresh(c) && Live(c)
      // what is written is the model's decision on the pending batch
      ensures session != "" && user != "" ==>
        Carries(answer, old(Pending()), old(ListMemories(store.working.memories, user, project, None, None, None)), project,
                judge, outcome.Done? && outcome.value.errors != [], run.gone, run.cands)
      // no session, or a failed model call: nothing changes
      ensures session == "" || user == "" || (outcome.Done? && outcome.value.errors != []) ==>
        unchanged(this) && unchanged(store)
      // success feeds exactly the listed batch
      ensures outcome.Done? && outcome.value.errors == [] ==>
        && ExtractionDone(old(store.Seen()), store.Seen(), run, store.clock, store.refusals, outcome.value)
        && fed == old(fed)[(user, session) := old(Fed()) + old(Pending())]
        && (user, session) in old(lastExtracted)
        && lastExtracted == old(lastExtracted)[(user, session) := Advanced(old(lastExtracted)[(user, session)], old(Pending()))]
      ensures outcome.Raised? && session != "" && user != "" ==>
        unchanged(this) && ExtractionCut(old(store.Seen()), store.Seen(), run, store.clock, store.refusals)
    {
      hide Carries, ExtractionDone, ExtractionCut, InLayer;
      run := Run([], [], 0);
      if session == "" || user == "" {
        outcome := Raised;
        return;
      }
      var key := (user, session);
      var messages := Pending();
      var existing := ListMemories(store.working.memories, user, project, None, None, None);
      var errors, gone, cands := Decide(messages, existing, answer);
      if errors != [] {
        outcome := Done(ExtractionResult([], [], errors, []));
        return;
      }
      outcome, run := WriteDecision(gone, cands);
      ConservationOutlivesGrowth();
      if outcome.Done? {
        AdvanceCheckpoint(messages);
      }
    }

    method AdvanceCheckpoint(messages: seq<Message>)
      requires Valid() && store.AtRest() && messages == Pending() && session != "" && user != ""
      modifies this`lastExtracted, this`fed
      ensures Valid() && fed == old(fed)[(user, session) := old(Fed()) + messages]
      ensures (user, session) in old(lastExtracted)
      ensures lastExtracted == old(lastExtracted)[(user, session) := Advanced(old(lastExtracted)[(user, session)], messages)]
    {
      hide Batch, ListMessages, LargestId;
      var key := (user, session);
      if messages == [] {
        assert Fed() + messages == Fed();
        return;
      }
      var next := MaxId(messages);
      CheckpointMoves(store.working.messages, user, session, lastExtracted[key], next);
      fed := fed[key := Fed() + messages];
      lastExtracted := lastExtracted[key := next];
    }

    // The deletion unit, then one unit per candidate.
    method WriteDecision(gone: seq<Memory>, cands: seq<Memory>) returns (outcome: Outcome<ExtractionResult>, ghost run: Run)
      requires store.Settled() && Deletable(store.working.memories, gone) && forall c :: c in cands ==> c.id.None?
      modifies store
      ensures store.Settled() && old(store.committed.messages) <= store.committed.messages && !outcome.NotFound?
      ensures store.working.messages == old(store.working.messages) || store.working.messages == old(store.committed.messages)
      ensures run.gone == gone && run.cands == cands
      ensures outcome.Done? ==> ExtractionDone(old(store.Seen()), store.Seen(), run, store.clock, store.refusals, outcome.value)
      ensures outcome.Raised? ==> ExtractionCut(old(store.Seen()), store.Seen(), run, store.clock, store.refusals)
    {
      run := Run(gone, cands, 0);
      outcome := Raised;
      ghost var before := store.Seen();
      var ok, deleted := DeletionUnit(gone);
      if !ok {
        CutAtDeletion(before, store.Seen(), run, store.clock, store.refusals);
        return;
      }
      outcome, run := UpsertAll(before, gone, deleted, cands);
    }

    method Decide(messages: seq<Message>, existing: seq<Memory>, answer: Answer)
      returns (errors: seq<string>, gone: seq<Memory>, cands: seq<Memory>)
      requires NumberedRows(store.working.memories)
      requires existing == ListMemories(store.working.memories, user, project, None, None, None)
      requires forall m :: m in messages ==> m.user == user
      ensures Deletable(store.working.memories, gone)
      ensures forall m :: m in gone ==> m.slot.user == user && InLayer(m, project, NamesUser(answer))
      ensures forall c :: c in cands ==> c.slot.user == user && InLayer(c, project, NamesUser(answer)) && Fresh(c) && Live(c)
      ensures Carries(answer, messages, existing, project, judge, errors != [], gone, cands)
      ensures errors != [] ==> gone == [] && cands == []
    {
      ListMemoriesIsOrdered(store.working.memories, user, project, None, None, None);
      ListingHasIds(store.working.memories, existing);
      errors, gone, cands := ExtractDecision(messages, existing, project, answer, judge);
      var readable := Readable(messages, judge);
      if readable != [] && answer.Decided? {
        DecisionIsConfined(store.working.memories, answer.decision, user, project, judge, readable, gone, cands);
      }
    }

    // The candidates' units, in order, after the deletion batch committed.
    method UpsertAll(ghost before: View, gone: seq<Memory>, deleted: seq<Memory>, cands: seq<Memory>)
      returns (outcome: Outcome<ExtractionResult>, ghost run: Run)
      requires NumberedRows(before.working.memories) && Deletable(before.working.memories, gone) && forall c :: c in cands ==> c.id.None?
      requires !before.inTransaction && store.AtRest() && deleted == DeletedAll(gone, store.clock, before.calls + 1)
      requires Reached(store.Seen(), before.working, gone, cands, 0, store.clock, before.calls, [], [], store.refusals)
      modifies store
      ensures store.Settled() && !outcome.NotFound? && run.gone == gone && run.cands == cands
      ensures outcome.Done? ==> ExtractionDone(before, store.Seen(), run, store.clock, store.refusals, outcome.value)
      ensures outcome.Raised? ==> run.units > 0 && ExtractionCut(before, store.Seen(), run, store.clock, store.refusals)
    {
      hide Extract;
      var candidates: seq<Memory>, persisted: seq<Memory> := [], [];
      for i := 0 to |cands|
        invariant store.AtRest()
        invariant Reached(store.Seen(), before.working, gone, cands, i, store.clock, before.calls, candidates, persisted, store.refusals)
      {
        ghost var view := store.Seen();
        run := Run(gone, cands, i + 1);
        var upserted, saved := UpsertMemory(cands[i]);
        if !upserted.Done? {
          CutAtCandidate(before, view, store.Seen(), run, store.clock, candidates, persisted, store.refusals);
          outcome := Raised;
          return;
        }
        ReachedNext(view, store.Seen(), before.working, gone, cands, i, store.clock, before.calls, candidates, persisted, saved,
                    upserted.value, store.refusals);
        candidates, persisted := candidates + [saved], persisted + [upserted.value];
      }
      run := Run(gone, cands, |cands| + 1);
      outcome := Done(ExtractionResult(candidates, deleted, [], persisted));
    }
  }

  ghost predicate NamesUser(answer: Answer) {
    answer.Decided? && NamesUserScope(answer.decision)
  }

  lemma ListingHasIds(rows: seq<Memory>, listed: seq<Memory>)
    requires NumberedRows(rows) && StrictlyNewestFirst(listed) && forall m :: m in listed ==> m in rows
    ensures DistinctIds(listed) && forall m :: m in listed ==> m.id.Some?
  {
    forall i, j | 0 <= i < j < |listed| ensures listed[i].id != listed[j].id {
      assert listed[i] in listed && listed[j] in listed;
    }
  }
}
