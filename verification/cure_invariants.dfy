/** What every committed unit of the CURE writer keeps: version lineage, one live row per slot,
    and the borders between users and layers. */
module CureInvariants {
  import opened Wrappers
  import opened CureModel
  import opened CureUpsert

  // A row is superseded exactly when it points at a successor; successor and predecessor name
  // each other, share a slot, and the successor is younger.
  ghost predicate Lineage(rows: seq<Memory>) {
    && NumberedRows(rows)
    && (forall i :: 0 <= i < |rows| ==> (rows[i].status.Superseded? <==> rows[i].supersededBy.Some?))
    && (forall i :: 0 <= i < |rows| && rows[i].supersededBy.Some? ==>
          var p := rows[i].supersededBy.value;
          i + 1 < p <= |rows| && rows[i].slot == rows[p - 1].slot && i + 1 in rows[p - 1].supersedes)
    && (forall i, x: nat :: 0 <= i < |rows| && x in rows[i].supersedes ==>
          1 <= x <= |rows| && rows[x - 1].supersededBy == Some(i + 1))
  }

  ghost predicate OneLivePerSlot(rows: seq<Memory>) {
    forall i, j :: 0 <= i < j < |rows| && Live(rows[i]) && Live(rows[j]) ==> rows[i].slot != rows[j].slot
  }

  ghost predicate Sound(db: Db) {
    WellFormed(db) && Lineage(db.memories) && OneLivePerSlot(db.memories)
  }

  // A memory as the extractor and `memory_add` build it: not yet stored, no history.
  predicate Fresh(c: Memory) {
    c.id.None? && c.supersedes == [] && c.supersededBy.None?
  }

  // The version chain of a row, followed to its end.
  ghost function ChainEnd(rows: seq<Memory>, i: nat): (e: nat)
    requires Lineage(rows) && i < |rows|
    ensures i <= e < |rows| && !rows[e].status.Superseded? && rows[i].slot == rows[e].slot
    ensures e == i <==> !rows[i].status.Superseded?
    decreases |rows| - i
  {
    if rows[i].supersededBy.None? then i else ChainEnd(rows, rows[i].supersededBy.value - 1)
  }

  // Superseding keeps the lineage exactly when the new row is not itself marked superseded, a
  // status that `memory_add` lets its caller choose.
  lemma {:induction false} SupersedingKeepsLineage(rows: seq<Memory>, c: Memory, after: seq<Memory>, saved: Memory)
    requires Lineage(rows) && Fresh(c) && Supersedes(rows, c, after, saved)
    ensures Lineage(after) <==> !c.status.Superseded?
  {
  }

  lemma {:induction false} SupersedingKeepsOneLive(rows: seq<Memory>, c: Memory, after: seq<Memory>, saved: Memory)
    requires OneLivePerSlot(rows) && Supersedes(rows, c, after, saved)
    ensures OneLivePerSlot(after)
  {
  }

  lemma {:induction false} DeletingKeepsHistory(rows: seq<Memory>, gone: seq<Memory>, after: seq<Memory>)
    requires Lineage(rows) && OneLivePerSlot(rows) && Deletes(rows, gone, after)
    requires forall m :: m in gone ==> Live(m)
    ensures Lineage(after) && OneLivePerSlot(after)
  {
    DeletingKeepsOneLive(rows, gone, after);
    DeletingKeepsLineage(rows, gone, after);
  }

  lemma {:induction false} DeletingKeepsOneLive(rows: seq<Memory>, gone: seq<Memory>, after: seq<Memory>)
    requires OneLivePerSlot(rows) && Deletes(rows, gone, after)
    ensures OneLivePerSlot(after)
  {
  }

  lemma {:induction false} DeletingKeepsLineage(rows: seq<Memory>, gone: seq<Memory>, after: seq<Memory>)
    requires Lineage(rows) && Deletes(rows, gone, after)
    requires forall m :: m in gone ==> Live(m)
    ensures Lineage(after)
  {
  }

  // Replacing a live row is superseding by the replacement: the row is the only live one of its slot.
  lemma {:induction false} ReplacingSupersedes(db: Db, i: nat, value: string, confidence: real, at: int,
                                               clock: seq<int>, calls: nat)
    requires NumberedRows(db.memories) && OneLivePerSlot(db.memories) && i < |db.memories| && Live(db.memories[i])
    ensures var r := Replacement(db.memories[i], value, confidence, at);
      Supersedes(db.memories, r.(supersedes := []), Replace(db, db.memories[i], r, clock, calls).memories,
                 r.(id := Some(|db.memories| + 1)))
  {
  }

  // ------------------------------------------------------------------
  // The three units
  // ------------------------------------------------------------------

  lemma {:induction false} UpsertKeepsSound(db: Db, c: Memory, clock: seq<int>, calls: nat)
    requires Sound(db) && Fresh(c)
    ensures Sound(Upsert(db, c, clock, calls).db) <==> !c.status.Superseded?
  {
    if !Absorbed(db.memories, c) {
      UpsertRows(db, c, clock, calls);
      var u := Upsert(db, c, clock, calls);
      SupersedingKeepsLineage(db.memories, c, u.db.memories, u.candidate);
      SupersedingKeepsOneLive(db.memories, c, u.db.memories, u.candidate);
      UpsertIsNumbered(db, c, clock, calls);
    } else {
      assert ActiveRows(db.memories, c)[0] in ActiveRows(db.memories, c);
    }
  }

  lemma {:induction false} DeleteBatchKeepsSound(db: Db, gone: seq<Memory>, clock: seq<int>, calls: nat)
    requires Sound(db) && Deletable(db.memories, gone)
    ensures Sound(DeleteBatch(db, gone, clock, calls))
  {
    DeleteBatchRows(db, gone, clock, calls);
    DeletingKeepsHistory(db.memories, gone, DeleteBatch(db, gone, clock, calls).memories);
  }

  lemma {:induction false} ReplaceKeepsSound(db: Db, i: nat, value: string, confidence: real, at: int,
                                             clock: seq<int>, calls: nat)
    requires Sound(db) && i < |db.memories| && Live(db.memories[i])
    ensures Sound(Replace(db, db.memories[i], Replacement(db.memories[i], value, confidence, at), clock, calls))
  {
    ReplacingSupersedes(db, i, value, confidence, at, clock, calls);
    var r := Replacement(db.memories[i], value, confidence, at);
    var after := Replace(db, db.memories[i], r, clock, calls).memories;
    SupersedingKeepsLineage(db.memories, r.(supersedes := []), after, r.(id := Some(|db.memories| + 1)));
    SupersedingKeepsOneLive(db.memories, r.(supersedes := []), after, r.(id := Some(|db.memories| + 1)));
  }

  // An extraction cut off after any number of units leaves a sound table.
  lemma {:induction false} ExtractKeepsSound(db: Db, gone: seq<Memory>, cands: seq<Memory>, n: nat, clock: seq<int>, calls: nat)
    requires Sound(db) && Deletable(db.memories, gone) && n <= |cands|
    requires forall c :: c in cands ==> Fresh(c) && Live(c)
    ensures Sound(Extract(db, gone, cands, n, clock, calls).db)
  {
    if n == 0 {
      DeleteBatchKeepsSound(db, gone, clock, calls);
    } else {
      ExtractKeepsSound(db, gone, cands, n - 1, clock, calls);
      var x := Extract(db, gone, cands, n - 1, clock, calls);
      assert cands[n - 1] in cands;
      UpsertKeepsSound(x.db, cands[n - 1], clock, x.calls);
    }
  }

  // ------------------------------------------------------------------
  // Which rows an extraction may touch
  // ------------------------------------------------------------------

  ghost predicate Touched(m: Memory, gone: seq<Memory>, cands: seq<Memory>, n: nat)
    requires n <= |cands|
  {
    m in gone || exists k :: 0 <= k < n && m.slot == cands[k].slot
  }

  // No unit moves a row to another slot; a row that changed was deleted or shares a candidate's
  // slot; a row that appeared is in a candidate's slot.
  ghost predicate TouchesOnly(before: seq<Memory>, after: seq<Memory>, gone: seq<Memory>, cands: seq<Memory>, n: nat)
    requires n <= |cands|
  {
    && |before| <= |after|
    && (forall i :: 0 <= i < |before| ==> after[i].slot == before[i].slot)
    && (forall i :: 0 <= i < |before| && after[i] != before[i] ==> Touched(before[i], gone, cands, n))
    && (forall i :: |before| <= i < |after| ==> exists k :: 0 <= k < n && after[i].slot == cands[k].slot)
  }

  lemma {:induction false} TouchOneMore(before: seq<Memory>, middle: seq<Memory>, after: seq<Memory>, saved: Memory,
                                        gone: seq<Memory>, cands: seq<Memory>, n: nat)
    requires 0 < n <= |cands| && TouchesOnly(before, middle, gone, cands, n - 1)
    requires Supersedes(middle, cands[n - 1], after, saved)
    ensures TouchesOnly(before, after, gone, cands, n)
  {
  }

  lemma {:induction false} ExtractTouches(db: Db, gone: seq<Memory>, cands: seq<Memory>, n: nat, clock: seq<int>, calls: nat)
    requires NumberedRows(db.memories) && Deletable(db.memories, gone) && n <= |cands|
    ensures TouchesOnly(db.memories, Extract(db, gone, cands, n, clock, calls).db.memories, gone, cands, n)
  {
    if n == 0 {
      DeleteBatchRows(db, gone, clock, calls);
    } else {
      ExtractTouches(db, gone, cands, n - 1, clock, calls);
      var x := Extract(db, gone, cands, n - 1, clock, calls);
      if !Absorbed(x.db.memories, cands[n - 1]) {
        UpsertRows(x.db, cands[n - 1], clock, x.calls);
        var u := Upsert(x.db, cands[n - 1], clock, x.calls);
        TouchOneMore(db.memories, x.db.memories, u.db.memories, u.candidate, gone, cands, n);
      }
    }
  }

  // `memory_add` accepts the status "superseded": on an empty table the new row claims a successor
  // it does not have.
  lemma AddingSupersededBreaksLineage(clock: seq<int>)
    ensures var c := Memory(None, Slot("u", None, "fact", "k"), "v", Attributes(1.0, false, None), Superseded, [], None, 0);
      Sound(Db([], [])) && Fresh(c) && !Sound(Upsert(Db([], []), c, clock, 0).db)
  {
    var c := Memory(None, Slot("u", None, "fact", "k"), "v", Attributes(1.0, false, None), Superseded, [], None, 0);
    UpsertKeepsSound(Db([], []), c, clock, 0);
  }
}
