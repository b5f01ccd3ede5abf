/** The audit without a before snapshot. It matches the no-ops of a run against the snapshot taken after
    it, which is not the table the writer matched them against. */
module CureFallback {
  import opened Wrappers
  import opened CureModel
  import opened CureUpsert
  import opened CureReplay

  lemma SnapshotMirrors(rows: seq<Memory>, user: string, project: Option<string>)
    requires NumberedRows(rows)
    ensures Mirrors(Snapshot(rows, user, project), rows, user, project)
  {
  }

  // A no-op is explained by a snapshot exactly when the snapshot's table would absorb it.
  lemma {:induction false} NoopExplainedIff(rows: seq<Memory>, user: string, project: Option<string>, c: Memory)
    requires NumberedRows(rows) && Visible(c, user, project)
    requires project.Some? ==> c.slot.project == project || c.slot.project.None?
    ensures var row := FirstActive(Snapshot(rows, user, project), c);
      (row.Some? && row.value.value == c.value && row.value.status == c.status) <==> Absorbed(rows, c)
  {
    var view := Snapshot(rows, user, project);
    SnapshotMirrors(rows, user, project);
    if ActiveRows(rows, c) != [] {
      FirstActiveAgrees(view, rows, user, project, c);
    }
    forall id: nat ensures FirstActiveId(view, c, id) ==> ActiveRows(rows, c) != [] {
      EligibleIsActive(view, rows, user, project, c, id);
    }
  }

  lemma EligibleIsActive(view: map<nat, Memory>, rows: seq<Memory>, user: string, project: Option<string>, c: Memory, id: nat)
    requires view == Snapshot(rows, user, project)
    ensures FirstActiveId(view, c, id) ==> ActiveRows(rows, c) != []
  {
    if FirstActiveId(view, c, id) {
      assert view[id] in ActiveRows(rows, c);
    }
  }

  ghost predicate NoopsAbsorbed(rows: seq<Memory>, cands: seq<Memory>) {
    forall k :: 0 <= k < |cands| && cands[k].id.None? ==> Absorbed(rows, cands[k])
  }

  lemma {:induction false} ProductsExplainedIff(rows: seq<Memory>, user: string, project: Option<string>, cands: seq<Memory>)
    requires NumberedRows(rows)
    requires forall c :: c in cands && c.id.None? ==>
      Visible(c, user, project) && (project.Some? ==> c.slot.project == project || c.slot.project.None?)
    ensures Products(cands, Some(Snapshot(rows, user, project))).unexplained == [] <==> NoopsAbsorbed(rows, cands)
  {
    hide Absorbed, Snapshot, FirstActive, NumberedRows;
    if cands != [] {
      var front, last := cands[..|cands| - 1], cands[|cands| - 1];
      ProductsExplainedIff(rows, user, project, front);
      assert forall k :: 0 <= k < |front| ==> cands[k] == front[k];
      assert last in cands;
      if last.id.None? {
        NoopExplainedIff(rows, user, project, last);
      }
    }
  }

  lemma {:induction false} UpsertedCandidate(db: Db, c: Memory, clock: seq<int>, calls: nat)
    ensures var u := Upsert(db, c, clock, calls);
      if Absorbed(db.memories, c) then u.candidate == c else u.candidate.id.Some?
  {
  }

  // What the run did to candidate `i`: absorbed it, leaving it without an id, or stored it.
  lemma {:induction false} CandidateAbsorbedIff(db: Db, gone: seq<Memory>, cands: seq<Memory>, n: nat, clock: seq<int>, calls: nat, i: nat)
    requires NumberedRows(db.memories) && Deletable(db.memories, gone) && i < n <= |cands|
    ensures var c := Extract(db, gone, cands, n, clock, calls).candidates[i];
      if Absorbed(Extract(db, gone, cands, i, clock, calls).db.memories, cands[i]) then c == cands[i] else c.id.Some?
  {
    hide Upsert, Absorbed;
    if i < n - 1 {
      CandidateAbsorbedIff(db, gone, cands, n - 1, clock, calls, i);
    } else {
      var x := Extract(db, gone, cands, i, clock, calls);
      UpsertedCandidate(x.db, cands[i], clock, x.calls);
    }
  }

  // The audit of an honest run without its before snapshot is clean exactly when every candidate the
  // writer absorbed would be absorbed by the final table too.
  lemma {:induction false} FallbackIsCleanIff(db: Db, gone: seq<Memory>, cands: seq<Memory>, user: string, project: Option<string>,
                                              clock: seq<int>, calls: nat)
    requires NumberedRows(db.memories) && Batch(db.memories, gone, cands, user, project)
    ensures var x := Extract(db, gone, cands, |cands|, clock, calls);
      Products(x.candidates, Some(Snapshot(x.db.memories, user, project))).unexplained == [] <==>
      forall i: nat :: i < |cands| && Absorbed(Extract(db, gone, cands, i, clock, calls).db.memories, cands[i]) ==>
        Absorbed(x.db.memories, cands[i])
  {
    hide Extract, Absorbed, Products, Snapshot, Deletable, NumberedRows;
    var x := Extract(db, gone, cands, |cands|, clock, calls);
    forall i: nat | i < |cands|
      ensures cands[i] in cands && cands[i].id.None?
      ensures if Absorbed(Extract(db, gone, cands, i, clock, calls).db.memories, cands[i]) then x.candidates[i] == cands[i]
              else x.candidates[i].id.Some?
    {
      CandidateAbsorbedIff(db, gone, cands, |cands|, clock, calls, i);
    }
    ProductsExplainedIff(x.db.memories, user, project, x.candidates);
  }

  // A run of two candidates of which the first is absorbed and the second is not.
  lemma {:induction false} SecondSupersedes(db: Db, same: Memory, other: Memory, clock: seq<int>)
    requires NumberedRows(db.memories) && Absorbed(db.memories, same) && !Absorbed(db.memories, other)
    ensures Extract(db, [], [same, other], 0, clock, 0).db == db
    ensures var x := Extract(db, [], [same, other], 2, clock, 0);
      Supersedes(db.memories, other, x.db.memories, x.candidates[1])
  {
    hide Absorbed;
    var cands := [same, other];
    var x0 := Extract(db, [], cands, 0, clock, 0);
    assert x0.db == db;
    var x1 := Extract(db, [], cands, 1, clock, 0);
    assert x1.db == db by {
      assert Upsert(db, same, clock, x0.calls).db == db;
    }
    UpsertRows(db, other, clock, x1.calls);
    assert Extract(db, [], cands, 2, clock, 0).db == Upsert(db, other, clock, x1.calls).db;
  }

  lemma {:induction false} OneRow(row: Memory, c: Memory)
    requires row.id == Some(1) && Live(row) && row.slot == c.slot
    ensures ActiveRows([row], c) != [] && ActiveRows([row], c)[0] == row
  {
    assert row in ActiveRows([row], c);
    assert ActiveRows([row], c)[0] in ActiveRows([row], c);
  }

  lemma {:induction false} ReplacedIsNotRepeated(row: Memory, same: Memory, other: Memory, after: seq<Memory>, saved: Memory)
    requires Live(row) && row.slot == same.slot == other.slot && other.value != same.value
    requires Supersedes([row], other, after, saved)
    ensures !Absorbed(after, same)
  {
    var active := ActiveRows(after, same);
    if active != [] {
      assert active[0] in active;
      var i :| 0 <= i < |after| && after[i] == active[0];
      assert i == 1;
    }
  }

  // In a table of one live row, a candidate that repeats it and then one that replaces it.
  lemma {:induction false} RepeatThenReplace(row: Memory, same: Memory, other: Memory, clock: seq<int>)
    requires row.id == Some(1) && Live(row) && row.slot == same.slot == other.slot
    requires same.value == row.value && same.status == row.status && other.value != row.value
    ensures var db := Db([row], []);
      && NumberedRows(db.memories) && Absorbed(db.memories, same)
      && Extract(db, [], [same, other], 0, clock, 0).db == db
      && !Absorbed(Extract(db, [], [same, other], 2, clock, 0).db.memories, same)
  {
    var db := Db([row], []);
    OneRow(row, same);
    OneRow(row, other);
    SecondSupersedes(db, same, other, clock);
    var x := Extract(db, [], [same, other], 2, clock, 0);
    hide Extract, Absorbed;
    ReplacedIsNotRepeated(row, same, other, x.db.memories, x.candidates[1]);
  }

  // An honest run the fallback accuses.
  lemma {:induction false} FallbackAccusesHonestRun(clock: seq<int>)
    ensures var row := Memory(Some(1), Slot("u", None, "fact", "k"), "old", Attributes(1.0, false, None), Approved, [], None, 0);
      var cands := [row.(id := None), row.(id := None, value := "new")];
      && NumberedRows([row]) && Batch([row], [], cands, "u", None)
      && var x := Extract(Db([row], []), [], cands, 2, clock, 0);
         Products(x.candidates, Some(Snapshot(x.db.memories, "u", None))).unexplained != []
  {
    hide Extract, Absorbed, Products, Snapshot;
    var row := Memory(Some(1), Slot("u", None, "fact", "k"), "old", Attributes(1.0, false, None), Approved, [], None, 0);
    var cands := [row.(id := None), row.(id := None, value := "new")];
    RepeatThenReplace(row, cands[0], cands[1], clock);
    FallbackIsCleanIff(Db([row], []), [], cands, "u", None, clock, 0);
  }
}
