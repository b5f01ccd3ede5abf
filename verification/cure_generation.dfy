/** One extraction under the recorder: snapshots around the native call, the replay audit, and the
    change series it posts. Here the store, the audit and the protocol meet. */
module CureGeneration {
  import opened Wrappers
  import opened CureModel
  import opened CureUpsert
  import opened CureInvariants
  import opened CureStore
  import CureExtractor
  import CureMessages
  import opened CureSystem
  import opened CureReplay
  import opened TraceProtocol
  import opened TraceWiring

  // ------------------------------------------------------------------
  // The exception fallback: an observed diff of the two snapshots
  // ------------------------------------------------------------------

  // No row appeared and no review status changed.
  ghost predicate Quiet(before: map<nat, Memory>, after: map<nat, Memory>) {
    forall id :: id in after ==> id in before && before[id].status == after[id].status
  }

  // Row `id` became superseded between the snapshots.
  predicate BecameSuperseded(before: map<nat, Memory>, after: map<nat, Memory>, id: nat) {
    id in after && id in before && before[id].status != Superseded && after[id].status == Superseded
  }

  // A new row that some row was superseded by is reported with that row.
  predicate Covered(before: map<nat, Memory>, after: map<nat, Memory>, id: nat) {
    exists other :: other in after && BecameSuperseded(before, after, other) && after[other].supersededBy == Some(id)
  }

  predicate Transitions(before: map<nat, Memory>, after: map<nat, Memory>, id: nat)
    requires id in after
  {
    if id !in before then !Covered(before, after, id) else before[id].status != after[id].status
  }

  function Transition(before: map<nat, Memory>, after: map<nat, Memory>, id: nat): Change
    requires id in after && Transitions(before, after, id)
  {
    var row := after[id];
    if id !in before then Change(Create, [], [row], None)
    else if row.status == Deleted then Change(Delete, [before[id]], [], None)
    else if row.status == Superseded then
      var successor := if row.supersededBy.Some? && row.supersededBy.value in after then Some(after[row.supersededBy.value]) else None;
      Change(Update, [before[id]], if successor.Some? then [successor.value] else [], successor)
    else Change(Update, [before[id]], [row], None)
  }

  // Which kind of change a transition is, and the rows it shows, by the two snapshots.
  lemma TransitionShows(before: map<nat, Memory>, after: map<nat, Memory>, id: nat)
    requires id in after && Transitions(before, after, id)
    ensures var ch := Transition(before, after, id);
      && (ch.action.Create? <==> id !in before) && (id in before ==> before[id].status != after[id].status)
      && (ch.action.Delete? <==> id in before && after[id].status.Deleted?) && !ch.action.Noop?
      && ch.before == (if id in before then [before[id]] else [])
      && (ch.successor.Some? ==> id in before && after[id].status.Superseded? && after[id].supersededBy.Some?)
      && (forall m :: m in ch.after <==> if ch.action.Delete? then false
            else if ch.action.Update? && after[id].status.Superseded?
            then after[id].supersededBy.Some? && after[id].supersededBy.value in after && m == after[after[id].supersededBy.value]
            else m == after[id])
      && (ch.successor.Some? ==> ch.after == [ch.successor.value])
  {
  }

  // A row that appeared is either a transition itself or was covered by one.
  lemma QuietMeansNoTransition(before: map<nat, Memory>, after: map<nat, Memory>)
    ensures Quiet(before, after) <==> forall id :: id in after ==> !Transitions(before, after, id)
  {
  }

  ghost function TransitionIds(before: map<nat, Memory>, after: map<nat, Memory>): set<nat> {
    set id | id in after && Transitions(before, after, id)
  }

  // The changes are the transitions between the snapshots, one each, in some order.
  ghost predicate Diffs(before: map<nat, Memory>, after: map<nat, Memory>, changes: seq<Change>) {
    && |changes| == |TransitionIds(before, after)|
    && (forall id :: id in after && Transitions(before, after, id) ==> Transition(before, after, id) in changes)
    && (forall c :: c in changes ==> exists id :: id in after && Transitions(before, after, id) && c == Transition(before, after, id))
  }

  method DiffChanges(before: map<nat, Memory>, after: map<nat, Memory>) returns (changes: seq<Change>)
    ensures Diffs(before, after, changes)
    ensures changes == [] <==> Quiet(before, after)
  {
    changes := [];
    var todo := after.Keys;
    ghost var found: set<nat> := {};
    while todo != {}
      invariant todo <= after.Keys
      invariant found == (set id | id in after && id !in todo && Transitions(before, after, id)) && |changes| == |found|
      invariant forall id :: id in found ==> Transition(before, after, id) in changes
      invariant forall c :: c in changes ==> exists id :: id in after && Transitions(before, after, id) && c == Transition(before, after, id)
      decreases todo
    {
      var id :| id in todo;
      todo := todo - {id};
      if Transitions(before, after, id) {
        changes := changes + [Transition(before, after, id)];
        found := found + {id};
      }
    }
    assert found == TransitionIds(before, after);
    QuietMeansNoTransition(before, after);
  }

  // ------------------------------------------------------------------
  // The traced extraction
  // ------------------------------------------------------------------

  // What an extraction wrote, as the changes it ought to report.
  ghost function Reported(before: View, run: Run, clock: seq<int>): seq<Change>
    requires NumberedRows(before.working.memories) && Deletable(before.working.memories, run.gone)
  {
    WrittenChanges(before.working, run.gone, run.cands, |run.cands|, clock, before.calls)
  }

  lemma KeyedSnapshot(rows: seq<Memory>, user: string, project: Option<string>)
    requires NumberedRows(rows)
    ensures Keyed(Snapshot(rows, user, project))
  {
  }

  // The audit of an extraction that wrote everything, against the snapshots around it.
  method AuditDone(ghost view: View, ghost view': View, ghost run: Run, ghost clock: seq<int>, ghost refusals: seq<bool>,
                   user: string, project: Option<string>, before: map<nat, Memory>, result: ExtractionResult, after: Option<map<nat, Memory>>)
    returns (changes: seq<Change>, unexplained: seq<Drift>)
    requires NumberedRows(view.working.memories) && Batch(view.working.memories, run.gone, run.cands, user, project)
    requires ExtractionDone(view, view', run, clock, refusals, result)
    requires before == Snapshot(view.working.memories, user, project)
    requires after.Some? ==> after.value == Snapshot(view'.working.memories, user, project)
    requires NumberedRows(view'.working.memories)
    ensures changes == Reported(view, run, clock) && unexplained == []
  {
    hide Replay, Extract, WrittenChanges, Batch, NumberedRows;
    var produced;
    KeyedSnapshot(view.working.memories, user, project);
    KeyedSnapshot(view'.working.memories, user, project);
    changes, produced, unexplained := Classify(Some(before), result, after);
    ReplayRefinesWriter(view.working, run.gone, run.cands, user, project, clock, view.calls,
                        Snapshot(view'.working.memories, user, project));
  }

  // How an extraction may end: cut short, refused by the model with nothing written, or done.
  ghost predicate Ended(before: View, after: View, run: Run, clock: seq<int>, refusals: seq<bool>, outcome: Outcome<ExtractionResult>) {
    && NumberedRows(before.working.memories) && NumberedRows(after.working.memories)
    && Deletable(before.working.memories, run.gone) && !outcome.NotFound?
    && (outcome.Raised? ==> ExtractionCut(before, after, run, clock, refusals))
    && (outcome.Done? && outcome.value.errors != [] ==> after == before)
    && (outcome.Done? && outcome.value.errors == [] ==> ExtractionDone(before, after, run, clock, refusals, outcome.value))
  }

  // The native call, seen from the audit: its batch is one the replay can follow.
  method ExtractBatch(system: CureMemorySystem, answer: CureExtractor.Answer)
    returns (outcome: Outcome<ExtractionResult>, ghost run: Run)
    requires system.Valid() && system.session != "" && system.user != ""
    modifies system, system.store
    ensures system.Valid() && unchanged(system`user) && unchanged(system`session) && unchanged(system`project)
    ensures Ended(old(system.store.Seen()), system.store.Seen(), run, system.store.clock, system.store.refusals, outcome)
    ensures Batch(old(system.store.working.memories), run.gone, run.cands, system.user, system.project)
    ensures CureExtractor.Carries(answer, old(system.Pending()),
      old(ListMemories(system.store.working.memories, system.user, system.project, None, None, None)), old(system.project), system.judge,
      outcome.Done? && outcome.value.errors != [], run.gone, run.cands)
    ensures system.Checkpoint() == if outcome.Done? && outcome.value.errors == []
                                   then CureMessages.Advanced(old(system.Checkpoint()), old(system.Pending())) else old(system.Checkpoint())
  {
    hide CureExtractor.Carries;
    outcome, run := system.ExtractRuntimeMemories(answer);
  }

  method TracedExtraction(system: CureMemorySystem, trace: TraceState, answer: CureExtractor.Answer,
                          beforeFails: bool, afterFails: bool, sizes: seq<nat>)
    returns (outcome: Outcome<ExtractionResult>, changes: seq<Change>, unexplained: seq<Drift>, ghost run: Run)
    requires system.Valid() && trace.Valid() && system.session != "" && system.user != ""
    modifies system, system.store, trace`posts, trace`minted, trace`memoryLaneEnabled
    ensures system.Valid() && trace.Valid() && old(trace.posts) <= trace.posts
    ensures unchanged(system`user) && unchanged(system`session) && unchanged(system`project)
    ensures Ended(old(system.store.Seen()), system.store.Seen(), run, system.store.clock, system.store.refusals, outcome)
    // what is written is the model's decision on the pending batch
    ensures CureExtractor.Carries(answer, old(system.Pending()),
      old(ListMemories(system.store.working.memories, system.user, system.project, None, None, None)), old(system.project), system.judge,
      outcome.Done? && outcome.value.errors != [], run.gone, run.cands)
    // and only success moves the checkpoint, past that batch
    ensures system.Checkpoint() == if outcome.Done? && outcome.value.errors == []
                                   then CureMessages.Advanced(old(system.Checkpoint()), old(system.Pending())) else old(system.Checkpoint())
    // the posts are those of one generation reporting `changes`
    ensures !old(trace.MemoryLaneOn()) ==> trace.posts == old(trace.posts)
    ensures old(trace.MemoryLaneOn()) ==> GenerationOf(trace.posts[|old(trace.posts)|..], old(trace.minted), changes)
    // and for a traced extraction that succeeds they are exactly what it wrote, with nothing unexplained
    ensures outcome.Done? && outcome.value.errors == [] && old(trace.MemoryLaneOn()) && !beforeFails
            && !RefusedStart(trace.posts[|old(trace.posts)|].answer) ==>
      && unexplained == []
      && old(Deletable(system.store.working.memories, run.gone))
      && changes == Reported(old(system.store.Seen()), run, system.store.clock)
    // one that raises reports exactly the units in the table
    ensures outcome.Raised? && old(trace.MemoryLaneOn()) && !beforeFails && !afterFails
            && !RefusedStart(trace.posts[|old(trace.posts)|].answer) ==>
      && old(Deletable(system.store.working.memories, run.gone)) && run.units <= |run.cands|
      && CutReported(old(system.store.Seen()), system.store.Seen(), run, system.store.clock, system.user, system.project, changes)
  {
    hide CutReported, Ended, Diffs, Snapshot, CureExtractor.Carries, Kept, Batch, ExtractionDone, ExtractionCut,
      GenerationOf, WrittenChanges, Deletable, NumberedRows, CureMemorySystem.Conserved;
    var token := trace.GenerationBegin();
    var before: Option<map<nat, Memory>> := None;
    var traced := token.Some? && !token.value.disabled;
    if traced && !beforeFails {
      before := Some(Snapshot(system.store.working.memories, system.user, system.project));
    }
    ghost var view := system.store.Seen();
    outcome, run := ExtractBatch(system, answer);
    changes, unexplained := [], [];
    if traced {
      var after: Option<map<nat, Memory>> := None;
      if !afterFails {
        after := Some(Snapshot(system.store.working.memories, system.user, system.project));
      }
      changes, unexplained := Attribute(view, system.store.Seen(), run, system.store.clock, system.store.refusals,
                                        system.user, system.project, before, outcome, after);
    }
    trace.PostGeneration(token, changes, sizes);
  }

  method Attribute(ghost view: View, ghost view': View, ghost run: Run, ghost clock: seq<int>, ghost refusals: seq<bool>,
                   user: string, project: Option<string>, before: Option<map<nat, Memory>>, outcome: Outcome<ExtractionResult>, after: Option<map<nat, Memory>>)
    returns (changes: seq<Change>, unexplained: seq<Drift>)
    requires Ended(view, view', run, clock, refusals, outcome) && Batch(view.working.memories, run.gone, run.cands, user, project)
    requires !view.inTransaction ==> view.working == view.committed
    requires before.Some? ==> before.value == Snapshot(view.working.memories, user, project)
    requires after.Some? ==> after.value == Snapshot(view'.working.memories, user, project)
    ensures NumberedRows(view.working.memories) && Deletable(view.working.memories, run.gone)
    ensures outcome.Done? && outcome.value.errors == [] && before.Some? ==>
      changes == Reported(view, run, clock) && unexplained == []
    // a failed extraction reports the transitions between the snapshots, if there are both
    ensures outcome.Raised? ==>
      if before.Some? && after.Some? then Diffs(before.value, after.value, changes) else changes == []
    // which is exactly what its committed units wrote, and the unit pending in an open transaction
    ensures outcome.Raised? && before.Some? && after.Some? ==>
      run.units <= |run.cands| && CutReported(view, view', run, clock, user, project, changes)
  {
    changes, unexplained := [], [];
    if outcome.Raised? {
      if before.Some? && after.Some? {
        changes := DiffChanges(before.value, after.value);
        CutIsReported(view, view', run, clock, refusals, user, project, changes);
      }
      return;
    }
    if outcome.value.errors == [] && before.Some? {
      changes, unexplained := AuditDone(view, view', run, clock, refusals, user, project, before.value, outcome.value, after);
      return;
    }
    var produced;
    changes, produced, unexplained := Classify(before, outcome.value, after);
  }

  // ------------------------------------------------------------------
  // What a half-written extraction reports
  // ------------------------------------------------------------------

  // Candidate `k` was stored, not absorbed.
  ghost predicate StoredCandidate(view: View, run: Run, clock: seq<int>, k: nat)
    requires NumberedRows(view.working.memories) && Deletable(view.working.memories, run.gone) && k < |run.cands|
  {
    !Absorbed(Written(view, run, clock, k).db.memories, run.cands[k])
  }

  // Row `i` was live, not deleted, and one of the first `n` candidates stored in its slot superseded it.
  ghost predicate Supplanted(view: View, run: Run, clock: seq<int>, n: nat, i: nat)
    requires NumberedRows(view.working.memories) && Deletable(view.working.memories, run.gone) && n <= |run.cands|
  {
    var rows := view.working.memories;
    && i < |rows| && Live(rows[i]) && rows[i] !in run.gone
    && exists k: nat :: k < n && StoredCandidate(view, run, clock, k) && run.cands[k].slot == rows[i].slot
  }

  lemma {:induction false} UpsertedRow(db: Db, c: Memory, clock: seq<int>, calls: nat, i: nat)
    requires NumberedRows(db.memories) && i < |db.memories|
    ensures var rows, after := db.memories, Upsert(db, c, clock, calls).db.memories;
      && |after| == |rows| + (if Absorbed(rows, c) then 0 else 1)
      && (!Absorbed(rows, c) ==> after[|rows|].slot == c.slot)
      && if !Absorbed(rows, c) && Live(rows[i]) && rows[i].slot == c.slot
         then after[i] == Pointed(rows[i], |rows| + 1, after[i].updatedAt)
         else after[i] == rows[i]
  {
    if !Absorbed(db.memories, c) {
      UpsertRows(db, c, clock, calls);
    }
  }

  // What the first `n` candidates leave of row `i`.
  ghost predicate RowStands(view: View, run: Run, clock: seq<int>, n: nat, i: nat, rows: seq<Memory>)
    requires NumberedRows(view.working.memories) && Deletable(view.working.memories, run.gone) && n <= |run.cands|
    requires i < |view.working.memories|
  {
    var row := view.working.memories[i];
    && |view.working.memories| <= |rows| && rows[i].id == row.id && rows[i].slot == row.slot
    && (row in run.gone ==> rows[i].status.Deleted?)
    && (Supplanted(view, run, clock, n, i) ==>
          && rows[i].status.Superseded? && rows[i].supersededBy.Some?
          && |view.working.memories| < rows[i].supersededBy.value <= |rows|
          && rows[rows[i].supersededBy.value - 1].slot == row.slot)
    && (row !in run.gone && !Supplanted(view, run, clock, n, i) ==> rows[i] == row)
  }

  lemma {:induction false} RowStandsAfterBatch(view: View, run: Run, clock: seq<int>, i: nat)
    requires NumberedRows(view.working.memories) && Deletable(view.working.memories, run.gone) && i < |view.working.memories|
    ensures RowStands(view, run, clock, 0, i, Written(view, run, clock, 0).db.memories)
  {
    DeleteBatchRows(view.working, run.gone, clock, view.calls);
  }

  lemma {:induction false} RowStandsNext(view: View, run: Run, clock: seq<int>, n: nat, i: nat)
    requires NumberedRows(view.working.memories) && Deletable(view.working.memories, run.gone) && n < |run.cands|
    requires i < |view.working.memories| && RowStands(view, run, clock, n, i, Written(view, run, clock, n).db.memories)
    ensures RowStands(view, run, clock, n + 1, i, Written(view, run, clock, n + 1).db.memories)
  {
    hide Extract, Upsert, Absorbed, Supplanted, NumberedRows, Deletable, Live;
    WrittenNext(view, run, clock, n);
    SupplantedNext(view, run, clock, n, i);
    var x := Written(view, run, clock, n);
    UpsertedRow(x.db, run.cands[n], clock, x.calls, i);
    if Supplanted(view, run, clock, n, i) {
      UpsertedRow(x.db, run.cands[n], clock, x.calls, x.db.memories[i].supersededBy.value - 1);
      SupersededIsNotLive(x.db.memories[i]);
    } else if view.working.memories[i] in run.gone {
      DeletedIsNotLive(x.db.memories[i]);
    }
  }

  lemma SupersededIsNotLive(m: Memory)
    requires m.status.Superseded?
    ensures !Live(m)
  {
  }

  lemma DeletedIsNotLive(m: Memory)
    requires m.status.Deleted?
    ensures !Live(m)
  {
  }

  lemma WrittenNext(view: View, run: Run, clock: seq<int>, n: nat)
    requires NumberedRows(view.working.memories) && Deletable(view.working.memories, run.gone) && n < |run.cands|
    ensures var x := Written(view, run, clock, n);
      && NumberedRows(x.db.memories)
      && Written(view, run, clock, n + 1).db == Upsert(x.db, run.cands[n], clock, x.calls).db
  {
  }

  lemma SupplantedNext(view: View, run: Run, clock: seq<int>, n: nat, i: nat)
    requires NumberedRows(view.working.memories) && Deletable(view.working.memories, run.gone) && n < |run.cands|
    requires i < |view.working.memories|
    ensures var row := view.working.memories[i];
      Supplanted(view, run, clock, n + 1, i) <==>
        || Supplanted(view, run, clock, n, i)
        || (Live(row) && row !in run.gone && StoredCandidate(view, run, clock, n) && run.cands[n].slot == row.slot)
  {
    hide StoredCandidate;
  }

  lemma {:induction false} RowsStand(view: View, run: Run, clock: seq<int>, n: nat, i: nat)
    requires NumberedRows(view.working.memories) && Deletable(view.working.memories, run.gone) && n <= |run.cands|
    requires i < |view.working.memories|
    ensures RowStands(view, run, clock, n, i, Written(view, run, clock, n).db.memories)
  {
    hide Extract, RowStands;
    if n == 0 {
      RowStandsAfterBatch(view, run, clock, i);
    } else {
      RowsStand(view, run, clock, n - 1, i);
      RowStandsNext(view, run, clock, n - 1, i);
    }
  }

  // Row `p` is the successor of a visible row the candidates superseded, and is reported with it.
  ghost predicate Heir(view: View, run: Run, clock: seq<int>, n: nat, user: string, project: Option<string>, rows: seq<Memory>, p: nat)
    requires NumberedRows(view.working.memories) && Deletable(view.working.memories, run.gone) && n <= |run.cands|
  {
    exists i: nat :: i < |rows| && i < |view.working.memories| && Supplanted(view, run, clock, n, i) && Visible(view.working.memories[i], user, project)
      && rows[i].supersededBy == Some(p)
  }

  ghost predicate Updates(view: View, run: Run, clock: seq<int>, n: nat, user: string, project: Option<string>, rows: seq<Memory>, i: nat,
                          c: Change)
    requires NumberedRows(view.working.memories) && Deletable(view.working.memories, run.gone) && n <= |run.cands|
  {
    && i < |rows| && i < |view.working.memories| && Supplanted(view, run, clock, n, i) && Visible(view.working.memories[i], user, project)
    && rows[i].supersededBy.Some? && 1 <= rows[i].supersededBy.value <= |rows|
    && var successor := rows[rows[i].supersededBy.value - 1];
       c == Change(Update, [view.working.memories[i]], [successor], Some(successor))
  }

  // What is to be reported of the deletion batch and `n` candidates, which left the table `rows`: each
  // deletion, each visible row superseded with its successor, each other row stored.
  ghost predicate Reports(view: View, run: Run, clock: seq<int>, n: nat, user: string, project: Option<string>, rows: seq<Memory>, c: Change)
    requires NumberedRows(view.working.memories) && Deletable(view.working.memories, run.gone) && n <= |run.cands|
  {
    || (exists m :: m in run.gone && c == Change(Delete, [m], [], None))
    || (exists i: nat :: Updates(view, run, clock, n, user, project, rows, i, c))
    || (exists i: nat :: Creates(view, run, clock, n, user, project, rows, i, c))
  }

  ghost predicate Creates(view: View, run: Run, clock: seq<int>, n: nat, user: string, project: Option<string>, rows: seq<Memory>, i: nat,
                          c: Change)
    requires NumberedRows(view.working.memories) && Deletable(view.working.memories, run.gone) && n <= |run.cands|
  {
    && |view.working.memories| <= i < |rows| && !Heir(view, run, clock, n, user, project, rows, i + 1)
    && c == Change(Create, [], [rows[i]], None)
  }

  // The transition of a row that was there before, if any.
  lemma {:induction false} EarlierTransition(view: View, run: Run, clock: seq<int>, n: nat, user: string, project: Option<string>,
                                             rows: seq<Memory>, i: nat)
    requires NumberedRows(view.working.memories) && Deletable(view.working.memories, run.gone) && n <= |run.cands|
    requires i < |view.working.memories| && Visible(view.working.memories[i], user, project)
    requires RowStands(view, run, clock, n, i, rows) && NumberedRows(rows)
    ensures var before, after := Snapshot(view.working.memories, user, project), Snapshot(rows, user, project);
      var row := view.working.memories[i];
      && i + 1 in before && i + 1 in after && before[i + 1] == row && after[i + 1] == rows[i]
      && (Transitions(before, after, i + 1) <==> row in run.gone || Supplanted(view, run, clock, n, i))
      && (BecameSuperseded(before, after, i + 1) <==> Supplanted(view, run, clock, n, i))
      && (row in run.gone ==> Transition(before, after, i + 1) == Change(Delete, [row], [], None))
      && (Supplanted(view, run, clock, n, i) ==> Updates(view, run, clock, n, user, project, rows, i, Transition(before, after, i + 1)))
  {
    var before, after := Snapshot(view.working.memories, user, project), Snapshot(rows, user, project);
    assert SeenRow(view.working.memories, i + 1, user, project) && SeenRow(rows, i + 1, user, project);
    if Supplanted(view, run, clock, n, i) {
      assert SeenRow(rows, rows[i].supersededBy.value, user, project);
    }
  }

  lemma {:induction false} CoveredIffHeir(view: View, run: Run, clock: seq<int>, n: nat, user: string, project: Option<string>,
                                          rows: seq<Memory>, p: nat)
    requires NumberedRows(view.working.memories) && Batch(view.working.memories, run.gone, run.cands, user, project) && n <= |run.cands|
    requires rows == Written(view, run, clock, n).db.memories
    ensures Covered(Snapshot(view.working.memories, user, project), Snapshot(rows, user, project), p)
      <==> Heir(view, run, clock, n, user, project, rows, p)
  {
    hide Extract, RowStands, Supplanted, BecameSuperseded, Updates, NumberedRows, Deletable, Transitions, Transition;
    var before, after := Snapshot(view.working.memories, user, project), Snapshot(rows, user, project);
    if Covered(before, after, p) {
      var other :| other in after && BecameSuperseded(before, after, other) && after[other].supersededBy == Some(p);
      BecameNeedsBefore(before, after, other);
      RowsStand(view, run, clock, n, other - 1);
      EarlierTransition(view, run, clock, n, user, project, rows, other - 1);
      assert Supplanted(view, run, clock, n, other - 1);
    }
    if Heir(view, run, clock, n, user, project, rows, p) {
      var i: nat :| i < |rows| && i < |view.working.memories| && Supplanted(view, run, clock, n, i) && Visible(view.working.memories[i], user, project)
        && rows[i].supersededBy == Some(p);
      RowsStand(view, run, clock, n, i);
      EarlierTransition(view, run, clock, n, user, project, rows, i);
      assert BecameSuperseded(before, after, i + 1);
    }
  }

  lemma BecameNeedsBefore(before: map<nat, Memory>, after: map<nat, Memory>, id: nat)
    requires BecameSuperseded(before, after, id)
    ensures id in before
  {
  }

  lemma {:induction false} StoredIsVisible(view: View, run: Run, clock: seq<int>, n: nat, user: string, project: Option<string>, i: nat)
    requires NumberedRows(view.working.memories) && Batch(view.working.memories, run.gone, run.cands, user, project) && n <= |run.cands|
    requires |view.working.memories| <= i < |Written(view, run, clock, n).db.memories|
    ensures SeenRow(Written(view, run, clock, n).db.memories, i + 1, user, project)
  {
    ExtractTouches(view.working, run.gone, run.cands, n, clock, view.calls);
    hide Extract;
    var rows := Written(view, run, clock, n).db.memories;
    var k :| 0 <= k < n && rows[i].slot == run.cands[k].slot;
    assert run.cands[k] in run.cands;
  }

  lemma NewInSnapshot(earlier: seq<Memory>, rows: seq<Memory>, user: string, project: Option<string>, id: nat)
    requires |earlier| < id && SeenRow(rows, id, user, project)
    ensures id !in Snapshot(earlier, user, project) && id in Snapshot(rows, user, project)
    ensures Snapshot(rows, user, project)[id] == rows[id - 1]
  {
  }

  // The snapshots show the change `c` at row `id`.
  ghost predicate ShownAt(before: map<nat, Memory>, after: map<nat, Memory>, id: nat, c: Change) {
    id in after && Transitions(before, after, id) && c == Transition(before, after, id)
  }

  lemma DiffsAreShown(before: map<nat, Memory>, after: map<nat, Memory>, changes: seq<Change>, c: Change)
    requires Diffs(before, after, changes)
    ensures c in changes <==> exists id: nat :: ShownAt(before, after, id, c)
  {
    if c in changes {
      var id: nat :| id in after && Transitions(before, after, id) && c == Transition(before, after, id);
      assert ShownAt(before, after, id, c);
    }
  }

  lemma {:induction false} ShownEarlier(view: View, run: Run, clock: seq<int>, n: nat, user: string, project: Option<string>, rows: seq<Memory>,
      before: map<nat, Memory>, after: map<nat, Memory>, i: nat, c: Change)
    requires NumberedRows(view.working.memories) && Batch(view.working.memories, run.gone, run.cands, user, project) && n <= |run.cands|
    requires rows == Written(view, run, clock, n).db.memories
    requires before == Snapshot(view.working.memories, user, project) && after == Snapshot(rows, user, project)
    requires i < |view.working.memories| && Visible(view.working.memories[i], user, project)
    ensures ShownAt(before, after, i + 1, c) <==>
      || (view.working.memories[i] in run.gone && c == Change(Delete, [view.working.memories[i]], [], None))
      || Updates(view, run, clock, n, user, project, rows, i, c)
  {
    RowsStand(view, run, clock, n, i);
    EarlierTransition(view, run, clock, n, user, project, rows, i);
    hide Extract, Snapshot, Batch, RowStands, NumberedRows, Transitions, Transition, Visible;
  }

  lemma {:induction false} ShownLater(view: View, run: Run, clock: seq<int>, n: nat, user: string, project: Option<string>, rows: seq<Memory>,
      before: map<nat, Memory>, after: map<nat, Memory>, i: nat, c: Change)
    requires NumberedRows(view.working.memories) && Batch(view.working.memories, run.gone, run.cands, user, project) && n <= |run.cands|
    requires rows == Written(view, run, clock, n).db.memories
    requires before == Snapshot(view.working.memories, user, project) && after == Snapshot(rows, user, project)
    requires |view.working.memories| <= i < |rows|
    ensures ShownAt(before, after, i + 1, c) <==> Creates(view, run, clock, n, user, project, rows, i, c)
  {
    hide *;
    BatchIsDeletable(view.working.memories, run, user, project);
    StoredIsVisible(view, run, clock, n, user, project, i);
    CoveredIffHeir(view, run, clock, n, user, project, rows, i + 1);
    NewInSnapshot(view.working.memories, rows, user, project, i + 1);
    NewIsShown(before, after, i + 1, c);
    CreatesRow(view, run, clock, n, user, project, rows, i, c);
  }

  lemma CreatesRow(view: View, run: Run, clock: seq<int>, n: nat, user: string, project: Option<string>, rows: seq<Memory>, i: nat, c: Change)
    requires NumberedRows(view.working.memories) && Deletable(view.working.memories, run.gone) && n <= |run.cands|
    requires |view.working.memories| <= i < |rows|
    ensures Creates(view, run, clock, n, user, project, rows, i, c) <==>
      !Heir(view, run, clock, n, user, project, rows, i + 1) && c == Change(Create, [], [rows[i]], None)
  {
    hide Heir, Supplanted, NumberedRows, Deletable;
  }

  lemma NewIsShown(before: map<nat, Memory>, after: map<nat, Memory>, id: nat, c: Change)
    requires id in after && id !in before
    ensures ShownAt(before, after, id, c) <==> !Covered(before, after, id) && c == Change(Create, [], [after[id]], None)
  {
  }

  lemma BatchIsDeletable(rows: seq<Memory>, run: Run, user: string, project: Option<string>)
    requires Batch(rows, run.gone, run.cands, user, project)
    ensures Deletable(rows, run.gone)
  {
  }

  lemma {:induction false} EarlierIsDue(view: View, run: Run, clock: seq<int>, n: nat, user: string, project: Option<string>, rows: seq<Memory>,
      before: map<nat, Memory>, after: map<nat, Memory>, i: nat, c: Change)
    requires NumberedRows(view.working.memories) && Batch(view.working.memories, run.gone, run.cands, user, project) && n <= |run.cands|
    requires rows == Written(view, run, clock, n).db.memories
    requires before == Snapshot(view.working.memories, user, project) && after == Snapshot(rows, user, project)
    requires i < |view.working.memories| && ShownAt(before, after, i + 1, c)
    ensures Reports(view, run, clock, n, user, project, rows, c)
  {
    assert Deletable(view.working.memories, run.gone) && SeenRow(rows, i + 1, user, project);
    SeenBefore(view, run, clock, n, user, project, i + 1);
    ShownEarlier(view, run, clock, n, user, project, rows, before, after, i, c);
    hide ShownAt, Extract, Updates, Creates, Batch, NumberedRows, Deletable, Snapshot;
  }

  lemma {:induction false} LaterIsDue(view: View, run: Run, clock: seq<int>, n: nat, user: string, project: Option<string>, rows: seq<Memory>,
      before: map<nat, Memory>, after: map<nat, Memory>, i: nat, c: Change)
    requires NumberedRows(view.working.memories) && Batch(view.working.memories, run.gone, run.cands, user, project) && n <= |run.cands|
    requires rows == Written(view, run, clock, n).db.memories
    requires before == Snapshot(view.working.memories, user, project) && after == Snapshot(rows, user, project)
    requires |view.working.memories| <= i < |rows| && ShownAt(before, after, i + 1, c)
    ensures Reports(view, run, clock, n, user, project, rows, c)
  {
    assert Deletable(view.working.memories, run.gone);
    hide ShownAt, Extract, Updates, Creates, Batch, NumberedRows, Deletable, Snapshot;
    ShownLater(view, run, clock, n, user, project, rows, before, after, i, c);
  }

  lemma ShownIsSeen(rows: seq<Memory>, user: string, project: Option<string>, before: map<nat, Memory>, id: nat, c: Change)
    requires ShownAt(before, Snapshot(rows, user, project), id, c)
    ensures 1 <= id <= |rows|
  {
  }

  lemma {:induction false} ShownIsDue(view: View, run: Run, clock: seq<int>, n: nat, user: string, project: Option<string>, rows: seq<Memory>,
      before: map<nat, Memory>, after: map<nat, Memory>, c: Change)
    requires NumberedRows(view.working.memories) && Batch(view.working.memories, run.gone, run.cands, user, project) && n <= |run.cands|
    requires rows == Written(view, run, clock, n).db.memories
    requires before == Snapshot(view.working.memories, user, project) && after == Snapshot(rows, user, project)
    ensures (exists id: nat :: ShownAt(before, after, id, c)) ==> Reports(view, run, clock, n, user, project, rows, c)
  {
    hide *;
    BatchIsDeletable(view.working.memories, run, user, project);
    if id: nat :| ShownAt(before, after, id, c) {
      ShownIsSeen(rows, user, project, before, id, c);
      if id <= |view.working.memories| {
        EarlierIsDue(view, run, clock, n, user, project, rows, before, after, id - 1, c);
      } else {
        LaterIsDue(view, run, clock, n, user, project, rows, before, after, id - 1, c);
      }
    }
  }

  lemma SeenBefore(view: View, run: Run, clock: seq<int>, n: nat, user: string, project: Option<string>, id: nat)
    requires NumberedRows(view.working.memories) && Deletable(view.working.memories, run.gone) && n <= |run.cands|
    requires 1 <= id <= |view.working.memories| && SeenRow(Written(view, run, clock, n).db.memories, id, user, project)
    ensures Visible(view.working.memories[id - 1], user, project)
  {
    hide Extract, Supplanted, NumberedRows, Deletable;
    RowsStand(view, run, clock, n, id - 1);
  }

  lemma {:induction false} DueIsShown(view: View, run: Run, clock: seq<int>, n: nat, user: string, project: Option<string>, rows: seq<Memory>,
      before: map<nat, Memory>, after: map<nat, Memory>, c: Change)
    requires NumberedRows(view.working.memories) && Batch(view.working.memories, run.gone, run.cands, user, project) && n <= |run.cands|
    requires rows == Written(view, run, clock, n).db.memories
    requires before == Snapshot(view.working.memories, user, project) && after == Snapshot(rows, user, project)
    ensures Reports(view, run, clock, n, user, project, rows, c) ==> exists id: nat :: ShownAt(before, after, id, c)
  {
    hide Extract, ShownAt, NumberedRows, Snapshot;
    if m :| m in run.gone && c == Change(Delete, [m], [], None) {
      var i: nat :| i < |view.working.memories| && view.working.memories[i] == m;
      ShownEarlier(view, run, clock, n, user, project, rows, before, after, i, c);
    } else if i: nat :| Updates(view, run, clock, n, user, project, rows, i, c) {
      ShownEarlier(view, run, clock, n, user, project, rows, before, after, i, c);
    } else if i: nat :| Creates(view, run, clock, n, user, project, rows, i, c) {
      ShownLater(view, run, clock, n, user, project, rows, before, after, i, c);
    }
  }

  // The changes are exactly what the deletion batch and `n` candidates wrote.
  lemma {:induction false} PrefixIsReported(view: View, run: Run, clock: seq<int>, n: nat, user: string, project: Option<string>,
                                            rows: seq<Memory>, changes: seq<Change>)
    requires NumberedRows(view.working.memories) && Batch(view.working.memories, run.gone, run.cands, user, project) && n <= |run.cands|
    requires rows == Written(view, run, clock, n).db.memories
    requires Diffs(Snapshot(view.working.memories, user, project), Snapshot(rows, user, project), changes)
    ensures forall c :: c in changes <==> Reports(view, run, clock, n, user, project, rows, c)
  {
    hide *;
    BatchIsDeletable(view.working.memories, run, user, project);
    var before, after := Snapshot(view.working.memories, user, project), Snapshot(rows, user, project);
    forall c ensures c in changes <==> Reports(view, run, clock, n, user, project, rows, c) {
      DiffsAreShown(before, after, changes, c);
      ShownIsDue(view, run, clock, n, user, project, rows, before, after, c);
      DueIsShown(view, run, clock, n, user, project, rows, before, after, c);
    }
  }

  // What a cut extraction reports: the committed units, and the pending one when its COMMIT was refused;
  // nothing when no unit reached the table.
  ghost predicate CutReported(view: View, view': View, run: Run, clock: seq<int>, user: string, project: Option<string>, changes: seq<Change>)
    requires NumberedRows(view.working.memories) && Deletable(view.working.memories, run.gone) && run.units <= |run.cands|
  {
    if view.inTransaction || (run.units == 0 && !view'.inTransaction) then changes == []
    else
      var n := if view'.inTransaction then run.units else run.units - 1;
      forall c :: c in changes <==> Reports(view, run, clock, n, user, project, Written(view, run, clock, n).db.memories, c)
  }

  lemma {:induction false} CutIsReported(view: View, view': View, run: Run, clock: seq<int>, refusals: seq<bool>, user: string,
                                         project: Option<string>, changes: seq<Change>)
    requires NumberedRows(view.working.memories) && Batch(view.working.memories, run.gone, run.cands, user, project)
    requires !view.inTransaction ==> view.working == view.committed
    requires ExtractionCut(view, view', run, clock, refusals)
    requires Diffs(Snapshot(view.working.memories, user, project), Snapshot(view'.working.memories, user, project), changes)
    ensures CutReported(view, view', run, clock, user, project, changes)
  {
    hide Extract, Reports, Diffs, NumberedRows, Deletable;
    if view.inTransaction || (run.units == 0 && !view'.inTransaction) {
      assert view'.working.memories == view.working.memories;
      SameIsQuiet(Snapshot(view.working.memories, user, project), changes);
    } else {
      var n := if view'.inTransaction then run.units else run.units - 1;
      PrefixIsReported(view, run, clock, n, user, project, view'.working.memories, changes);
    }
  }

  lemma SameIsQuiet(shot: map<nat, Memory>, changes: seq<Change>)
    requires Diffs(shot, shot, changes)
    ensures changes == []
  {
    assert TransitionIds(shot, shot) == {};
  }
}
