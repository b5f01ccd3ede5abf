/** A run in which the recall cache outlives the row it shows: the COMMIT of an extraction's unit is
    refused, the row it left pending is recalled, and the next record, refused too, rolls it back. */
module StaleCache {
  import opened Wrappers
  import opened CureModel
  import opened CureUpsert
  import opened CureStore
  import opened CureExtractor
  import opened CureMessages
  import opened CureSystem
  import opened RecallFill
  import opened CureRecall
  import TraceProtocol
  import TraceWiring
  import opened CureGeneration
  import opened RecallCache
  import opened RunLog

  const CONFIG := Config("u", None, "s", None, 1, Budget(0, 0, iset{}), "memories", iset{("x", "fact", "k", "v")})
  const JUDGE := Judge(iset{}, iset{}, iset{})
  const ITEM := CandidateItem("k", "v", "fact", 1.0, Approved, false, "project", None, 0)
  const ROW := Memory(None, Slot("u", None, "fact", "k"), "v", Attributes(1.0, false, Some("s")), Approved, [], None, 0)
  const HELLO := Message(1, "s", "u", "user", "hello")

  // Calls 0 and 1 record a message, 2 and 3 are the empty deletion unit, 4 to 6 the candidate's unit,
  // 7 the next record's statement.
  const REFUSALS := [false, false, false, false, false, false, true, true]

  lemma {:induction false} OneRowIsRecalled(row: Memory, query: Query, config: Config)
    requires row.status == Approved && Visible(row, config.user, config.project) && Score(row, query, config.occurs) > 0
    requires config.maxMemories > 0 && config.minScore.None? && config.budget.total == 0
    ensures FreshRecall([row], query, config).Some?
  {
    var listed := Listed([row], config);
    assert row in listed;
    var hit := Hit(Score(row, query, config.occurs), row);
    assert hit in Scored(listed, query, config.occurs);
    assert hit in Floored(Ranked(Scored(listed, query, config.occurs)), None);
    var hits := Selected([row], query, config);
    assert hits != [];
    var lines := LinesOf(hits, config.session);
    FillDelivers(lines, config.budget);
    assert lines[0].text != "";
  }

  lemma {:induction false} NoRowNoRecall(query: Query, config: Config)
    ensures FreshRecall([], query, config).None?
  {
    assert Listed([], config) == [];
    assert Selected([], query, config) == [];
  }

  lemma HasMember(rows: seq<Memory>)
    ensures rows == [] || exists m :: m in rows
  {
    if rows != [] {
      assert rows[0] in rows;
    }
  }

  // The model's one candidate becomes ROW, and nothing is deleted.
  lemma {:induction false} DecidedRow(gone: seq<Memory>, cands: seq<Memory>)
    requires Carries(Decided(Decision([], [ITEM])), [HELLO], ListMemories([], "u", None, None, None, None), None, JUDGE, false, gone, cands)
    ensures gone == [] && cands == [ROW]
  {
    var readable := Readable([HELLO], JUDGE);
    assert [HELLO][..0] == [] && Readable([HELLO][..0], JUDGE) == [];
    assert readable == [HELLO];
    assert [ITEM][..0] == [];
    assert MemoryFromCandidate(ITEM, [HELLO], None) == Some(ROW);
    assert cands == CandidatesOf([ITEM], [HELLO], None, JUDGE) == [ROW];
    HasMember(gone);
  }

  // The extraction writes ROW and stops at the COMMIT, its seventh call of the run.
  lemma {:induction false} CutAtCommit(before: View, after: View, run: Run, outcome: Outcome<ExtractionResult>)
    requires before == View(Db([], [HELLO]), Db([], [HELLO]), false, 2) && run.gone == [] && run.cands == [ROW]
    requires Ended(before, after, run, [], REFUSALS, outcome) && (outcome.Done? ==> outcome.value.errors == [])
    ensures after.calls == 7 && after.inTransaction && after.working.memories == [ROW.(id := Some(1))] && after.committed.memories == []
  {
    EmptyTable(before.working);
    assert Written(before, run, [], 0).calls == 4 && Written(before, run, [], 1).calls == 7;
    assert Refused(REFUSALS, 6) && !Refused(REFUSALS, 4) && !Refused(REFUSALS, 5);
  }

  lemma {:induction false} EmptyTable(db: Db)
    requires db.memories == []
    ensures Extract(db, [], [ROW], 0, [], 2) == Extraction(db, [], [], 4)
    ensures var saved := ROW.(id := Some(1)); Extract(db, [], [ROW], 1, [], 2) == Extraction(db.(memories := [saved]), [saved], [saved], 7)
  {
    assert ActiveRows([], ROW) == [] && Retired([], ROW) == [];
  }

  lemma {:induction false} HelloIsPending()
    ensures ListMessages([HELLO], "u", "s", 0) == [HELLO]
  {
    assert [HELLO][..0] == [] && ListMessages([HELLO][..0], "u", "s", 0) == [];
  }

  // A backend with its query set.
  method Started() returns (backend: MemoryBackend)
    ensures fresh(backend) && fresh(backend.system) && fresh(backend.system.store) && fresh(backend.trace)
    ensures backend.Valid() && backend.Anchored() && !backend.finalized && backend.dirty && backend.query == Some(["x"])
    ensures backend.config == CONFIG && backend.system.judge == JUDGE
    ensures backend.system.user == "u" && backend.system.session == "s" && backend.system.lastExtracted == map[("u", "s") := 0]
    ensures backend.system.store.clock == [] && backend.system.store.refusals == REFUSALS
    ensures backend.system.store.Seen() == View(Db([], []), Db([], []), false, 0)
  {
    hide FreshRecall, CureMemorySystem.Conserved, TraceProtocol.Kept;
    var store := new SqliteStore(Db([], []), [], REFUSALS);
    var system := new CureMemorySystem(store, JUDGE);
    system.StartSession("u", None, "s");
    var trace := new TraceWiring.TraceState([], false);
    backend := new MemoryBackend(system, trace, CONFIG);
    backend.SetTask(["x"]);
  }

  // One message recorded.
  method OneMessage() returns (backend: MemoryBackend)
    ensures fresh(backend) && fresh(backend.system) && fresh(backend.system.store) && fresh(backend.trace)
    ensures backend.Valid() && backend.Anchored() && !backend.finalized && backend.dirty && backend.query == Some(["x"])
    ensures backend.config == CONFIG && backend.system.judge == JUDGE
    ensures backend.Ready() && backend.system.Pending() == [HELLO]
    ensures backend.system.store.clock == [] && backend.system.store.refusals == REFUSALS
    ensures backend.system.store.Seen() == View(Db([], [HELLO]), Db([], [HELLO]), false, 2)
  {
    hide FreshRecall, CureMemorySystem.Conserved, TraceProtocol.Kept, MemoryBackend.Valid, MemoryBackend.Undone,
      MemoryBackend.Coherent;
    backend := Started();
    var recorded := backend.Record("user", "hello");
    HelloIsPending();
  }

  // The clean cache shows ROW, which is in no table any more: the run's log has lost it.
  method RowIsRolledBack() returns (backend: MemoryBackend)
    ensures backend.Valid() && !backend.dirty && backend.query.Some?
    ensures backend.cachedRecall.Some?
    ensures FreshRecall(backend.system.store.working.memories, backend.query.value, backend.config).None?
    ensures Lost(backend.world, backend.log)
  {
    backend := OneMessage();
    RecallAndLose(backend);
    backend.UndoneIffLost();
  }

  method RecallAndLose(backend: MemoryBackend)
    requires backend.Valid() && backend.Anchored() && !backend.finalized && backend.dirty && backend.query == Some(["x"])
    requires backend.config == CONFIG && backend.system.judge == JUDGE
    requires backend.Ready() && backend.system.Pending() == [HELLO]
    requires backend.system.store.clock == [] && backend.system.store.refusals == REFUSALS
    requires backend.system.store.Seen() == View(Db([], [HELLO]), Db([], [HELLO]), false, 2)
    modifies backend, backend.system, backend.system.store, backend.trace
    ensures backend.Valid() && !backend.dirty && backend.query.Some?
    ensures backend.cachedRecall.Some?
    ensures FreshRecall(backend.system.store.working.memories, backend.query.value, backend.config).None?
  {
    hide FreshRecall, CureMemorySystem.Conserved, TraceProtocol.Kept, Carries, Ended, Extract;
    ghost var before := backend.system.store.Seen();
    var changes, run, outcome := backend.Extract(Tick(Decided(Decision([], [ITEM])), true, true, []));
    FailedAtCommit(before, backend.system.store.Seen(), run, outcome);
    Lose(backend);
  }

  // From here the store alone decides: ROW is pending in an open transaction.
  method Lose(backend: MemoryBackend)
    requires backend.Valid() && backend.Anchored() && !backend.finalized && backend.dirty && backend.query == Some(["x"])
    requires backend.config == CONFIG && backend.system.store.refusals == REFUSALS
    requires backend.system.session != "" && backend.system.user != ""
    requires backend.system.store.calls == 7 && backend.system.store.inTransaction
    requires backend.system.store.working.memories == [ROW.(id := Some(1))] && backend.system.store.committed.memories == []
    modifies backend, backend.system.store, backend.trace
    ensures backend.Valid() && !backend.dirty && backend.query.Some?
    ensures backend.cachedRecall.Some?
    ensures FreshRecall(backend.system.store.working.memories, backend.query.value, backend.config).None?
  {
    hide FreshRecall, CureMemorySystem.Conserved, TraceProtocol.Kept;
    var recall, cached := backend.RecallContext(false);
    OneRowIsRecalled(ROW.(id := Some(1)), ["x"], CONFIG);
    var recorded := backend.Record("user", "next");
    NoRowNoRecall(["x"], CONFIG);
  }

  lemma FailedAtCommit(before: View, after: View, run: Run, outcome: Outcome<ExtractionResult>)
    requires before == View(Db([], [HELLO]), Db([], [HELLO]), false, 2)
    requires Ended(before, after, run, [], REFUSALS, outcome)
    requires Carries(Decided(Decision([], [ITEM])), [HELLO], ListMemories([], "u", None, None, None, None), None, JUDGE,
                     outcome.Done? && outcome.value.errors != [], run.gone, run.cands)
    ensures after.calls == 7 && after.inTransaction && after.working.memories == [ROW.(id := Some(1))] && after.committed.memories == []
  {
    assert !(outcome.Done? && outcome.value.errors != []);
    DecidedRow(run.gone, run.cands);
    CutAtCommit(before, after, run, outcome);
  }
}
