/** The three committed effects of the CURE writer, fault free: the upsert of one candidate,
    the deletion batch, and a whole extraction built from them. */
module CureUpsert {
  import opened Wrappers
  import opened CureModel

  // ------------------------------------------------------------------
  // The upsert of one candidate
  // ------------------------------------------------------------------

  // The rows a candidate is matched against, newest first. The layer guard keeps a general
  // candidate away from repo-bound rows.
  function ActiveRows(rows: seq<Memory>, c: Memory): (r: seq<Memory>)
    ensures forall m {:trigger m in r} :: m in r <==>
      && m in rows && Live(m)
      && m.slot.user == c.slot.user && m.slot.memoryType == c.slot.memoryType && m.slot.key == c.slot.key
      && (m.slot.project == c.slot.project || m.slot.project.None?)
  {
    var existing := ListMemories(rows, c.slot.user, c.slot.project, None, Some(c.slot.memoryType), Some(c.slot.key));
    var active := Select(existing, Live);
    if c.slot.project.None? then Select(active, InProject(None)) else active
  }

  predicate InReach(m: Memory, c: Memory) {
    && m.slot.user == c.slot.user && m.slot.memoryType == c.slot.memoryType && m.slot.key == c.slot.key
    && (m.slot.project == c.slot.project || m.slot.project.None?)
  }

  predicate Absorbed(rows: seq<Memory>, c: Memory) {
    var active := ActiveRows(rows, c);
    active != [] && active[0].value == c.value && active[0].status == c.status
  }

  // The rows a candidate supersedes: its own slot only.
  function Retired(rows: seq<Memory>, c: Memory): (r: seq<Memory>)
    ensures forall m {:trigger m in r} :: m in r <==> m in rows && Live(m) && m.slot == c.slot
  {
    var active := ActiveRows(rows, c);
    if c.slot.project.Some? then Select(active, InProject(c.slot.project)) else active
  }

  // Stored rows have ids; the writer lists no others.
  function IdsOf(rows: seq<Memory>): (ids: seq<nat>) {
    if rows == [] then []
    else IdsOf(rows[..|rows| - 1]) + (if rows[|rows| - 1].id.Some? then [rows[|rows| - 1].id.value] else [])
  }

  lemma {:induction false} IdListed(rows: seq<Memory>, x: nat)
    ensures x in IdsOf(rows) <==> exists m :: m in rows && m.id == Some(x)
  {
    if rows != [] {
      var front, last := rows[..|rows| - 1], rows[|rows| - 1];
      IdListed(front, x);
      assert rows == front + [last];
      if m: Memory :| m in rows && m.id == Some(x) {
        assert m in front || m == last;
      }
      if x in IdsOf(front) {
        var m :| m in front && m.id == Some(x);
        assert m in rows;
      }
      assert last in rows;
    }
  }

  function Pointed(m: Memory, successor: nat, at: int): Memory {
    m.(status := Superseded, supersededBy := Some(successor), updatedAt := at)
  }

  function Marked(gone: seq<Memory>, status: Status): (r: seq<Memory>)
    ensures |r| == |gone| && forall k {:trigger r[k]} :: 0 <= k < |gone| ==> r[k] == gone[k].(status := status)
  {
    seq(|gone|, k requires 0 <= k < |gone| => gone[k].(status := status))
  }

  function PointingTo(marked: seq<Memory>, successor: nat): (r: seq<Memory>)
    ensures |r| == |marked| && forall k {:trigger r[k]} :: 0 <= k < |marked| ==> r[k] == marked[k].(supersededBy := Some(successor))
  {
    seq(|marked|, k requires 0 <= k < |marked| => marked[k].(supersededBy := Some(successor)))
  }

  // Consecutive driver calls from `first` on stamp consecutive rows.
  ghost predicate Stamped(items: seq<Memory>, clock: seq<int>, first: nat, stamped: seq<Memory>) {
    |stamped| == |items| && forall k {:trigger stamped[k]} :: 0 <= k < |items| ==> stamped[k] == items[k].(updatedAt := Time(clock, first + k))
  }

  function PointedAll(gone: seq<Memory>, successor: nat, clock: seq<int>, first: nat): (r: seq<Memory>)
    ensures |r| == |gone| && forall k {:trigger r[k]} :: 0 <= k < |gone| ==> r[k] == Pointed(gone[k], successor, Time(clock, first + k))
  {
    seq(|gone|, k requires 0 <= k < |gone| => Pointed(gone[k], successor, Time(clock, first + k)))
  }

  // The candidate as it is inserted.
  function SavedOver(rows: seq<Memory>, gone: seq<Memory>, c: Memory): Memory {
    c.(id := Some(|rows| + 1), supersedes := c.supersedes + IdsOf(gone))
  }

  function Saved(rows: seq<Memory>, c: Memory): Memory {
    SavedOver(rows, Retired(rows, c), c)
  }

  function Supersede(rows: seq<Memory>, gone: seq<Memory>, saved: Memory, clock: seq<int>, first: nat): seq<Memory> {
    PutAll(rows + [saved], PointedAll(gone, |rows| + 1, clock, first))
  }

  datatype Upsertion = Upsertion(db: Db, candidate: Memory, persisted: Memory, calls: nat)

  // The effect of a fault-free upsert whose first driver call has index `calls`:
  // BEGIN, one status write per retired row, the INSERT, one successor write per row, COMMIT.
  function Upsert(db: Db, c: Memory, clock: seq<int>, calls: nat): Upsertion
  {
    if Absorbed(db.memories, c) then
      Upsertion(db, c, ActiveRows(db.memories, c)[0], calls)
    else
      var gone, saved := Retired(db.memories, c), Saved(db.memories, c);
      Upsertion(db.(memories := Supersede(db.memories, gone, saved, clock, calls + |gone| + 2)),
                saved, saved, calls + 2 * |gone| + 3)
  }

  // ------------------------------------------------------------------
  // The deletion batch
  // ------------------------------------------------------------------

  function DeletedAt(m: Memory, at: int): Memory {
    m.(status := Deleted, updatedAt := at)
  }

  function DeletedAll(gone: seq<Memory>, clock: seq<int>, first: nat): (r: seq<Memory>)
    ensures |r| == |gone| && forall k {:trigger r[k]} :: 0 <= k < |gone| ==> r[k] == DeletedAt(gone[k], Time(clock, first + k))
  {
    seq(|gone|, k requires 0 <= k < |gone| => DeletedAt(gone[k], Time(clock, first + k)))
  }

  // BEGIN, one write per row, COMMIT.
  function DeleteBatch(db: Db, gone: seq<Memory>, clock: seq<int>, calls: nat): Db {
    db.(memories := PutAll(db.memories, DeletedAll(gone, clock, calls + 1)))
  }

  // ------------------------------------------------------------------
  // The replacement of one live row by id
  // ------------------------------------------------------------------

  function Replacement(prior: Memory, value: string, confidence: real, at: int): Memory
    requires prior.id.Some?
  {
    Memory(None, prior.slot, value, Attributes(confidence, false, prior.attributes.origin), Approved, [prior.id.value], None, at)
  }

  // BEGIN, the INSERT, the successor write, COMMIT.
  function Replace(db: Db, prior: Memory, replacement: Memory, clock: seq<int>, calls: nat): Db {
    var id := |db.memories| + 1;
    db.(memories := Put(db.memories + [replacement.(id := Some(id))], Pointed(prior, id, Time(clock, calls + 2))))
  }

  // The meaning of replacing row `i`: the new row says `value` with that trust in the old one's slot and
  // supersedes exactly it, the old one is superseded and points at it, and no other row changed.
  ghost predicate Replaces(rows: seq<Memory>, i: nat, value: string, confidence: real, at: int, after: seq<Memory>, row: Memory)
    requires i < |rows|
  {
    && |after| == |rows| + 1 && after[|rows|] == row && row.id == Some(|rows| + 1)
    && row.slot == rows[i].slot && row.value == value && row.status == Approved && row.updatedAt == at
    && row.attributes.confidence == confidence && !row.attributes.needsVerification
    && row.attributes.origin == rows[i].attributes.origin
    && row.supersedes == [i + 1] && row.supersededBy.None?
    && after[i] == rows[i].(status := Superseded, supersededBy := row.id, updatedAt := after[i].updatedAt)
    && forall j :: 0 <= j < |rows| && j != i ==> after[j] == rows[j]
  }

  lemma ReplaceRows(db: Db, i: nat, value: string, confidence: real, at: int, clock: seq<int>, calls: nat)
    requires NumberedRows(db.memories) && i < |db.memories|
    ensures var r := Replacement(db.memories[i], value, confidence, at);
      Replaces(db.memories, i, value, confidence, at, Replace(db, db.memories[i], r, clock, calls).memories,
               r.(id := Some(|db.memories| + 1)))
  {
  }

  // ------------------------------------------------------------------
  // One extraction: the deletion batch, then the candidates in order
  // ------------------------------------------------------------------

  datatype Extraction = Extraction(db: Db, candidates: seq<Memory>, persisted: seq<Memory>, calls: nat)

  // A deletion batch names rows as they were read: distinct live rows of the table.
  ghost predicate Deletable(rows: seq<Memory>, gone: seq<Memory>) {
    DistinctIds(gone) && forall m :: m in gone ==> m in rows && Live(m)
  }

  // The committed effect after the deletion batch and the first `n` candidates.
  function Extract(db: Db, gone: seq<Memory>, cands: seq<Memory>, n: nat, clock: seq<int>, calls: nat): (x: Extraction)
    requires NumberedRows(db.memories) && Deletable(db.memories, gone) && n <= |cands|
    ensures NumberedRows(x.db.memories) && x.db.messages == db.messages
    ensures |x.candidates| == |x.persisted| == n
  {
    if n == 0 then
      DeletedAreNumbered(db, gone, clock, calls);
      Extraction(DeleteBatch(db, gone, clock, calls), [], [], calls + |gone| + 2)
    else
      var x := Extract(db, gone, cands, n - 1, clock, calls);
      var u := Upsert(x.db, cands[n - 1], clock, x.calls);
      UpsertIsNumbered(x.db, cands[n - 1], clock, x.calls);
      Extraction(u.db, x.candidates + [u.candidate], x.persisted + [u.persisted], u.calls)
  }

  // The rows a live candidate retires are distinct rows of the table.
  lemma {:induction false} RetiredNamesRows(rows: seq<Memory>, c: Memory)
    requires NumberedRows(rows)
    ensures NamesRows(Retired(rows, c), rows)
    ensures forall k :: 0 <= k < |Retired(rows, c)| ==> Retired(rows, c)[k] == rows[IdOf(Retired(rows, c)[k]) - 1]
  {
    ActiveRowsAreOrdered(rows, c);
    if c.slot.project.Some? {
      SelectKeepsOrder(ActiveRows(rows, c), InProject(c.slot.project));
    }
    var gone := Retired(rows, c);
    assert StrictlyNewestFirst(gone);
    assert DistinctIds(gone) by {
      forall i, j | 0 <= i < j < |gone| ensures gone[i].id != gone[j].id {
        assert gone[i] in gone && gone[j] in gone;
      }
    }
    assert forall m :: m in gone ==> m in rows;
    NumberedIdsAreDistinct(rows, gone);
  }

  lemma {:induction false} ActiveRowsAreOrdered(rows: seq<Memory>, c: Memory)
    requires NumberedRows(rows)
    ensures StrictlyNewestFirst(ActiveRows(rows, c))
  {
    var existing := ListMemories(rows, c.slot.user, c.slot.project, None, Some(c.slot.memoryType), Some(c.slot.key));
    ListMemoriesIsOrdered(rows, c.slot.user, c.slot.project, None, Some(c.slot.memoryType), Some(c.slot.key));
    SelectKeepsOrder(existing, Live);
    if c.slot.project.None? {
      SelectKeepsOrder(Select(existing, Live), InProject(None));
    }
  }

  // The newest live row in the candidate's reach says the same with the same status.
  ghost predicate Absorbs(rows: seq<Memory>, i: nat, c: Memory) {
    && i < |rows| && InReach(rows[i], c) && Live(rows[i]) && rows[i].value == c.value && rows[i].status == c.status
    && forall j :: 0 <= j < |rows| && j != i && InReach(rows[j], c) && Live(rows[j]) ==>
         rows[i].updatedAt > rows[j].updatedAt || (rows[i].updatedAt == rows[j].updatedAt && i > j)
  }

  lemma {:induction false} AbsorbedIff(rows: seq<Memory>, c: Memory)
    requires NumberedRows(rows)
    ensures Absorbed(rows, c) <==> exists i: nat :: Absorbs(rows, i, c)
  {
    var active := ActiveRows(rows, c);
    ActiveRowsAreOrdered(rows, c);
    if active != [] {
      assert active[0] in active;
      var i: nat :| i < |rows| && rows[i] == active[0];
      forall j | 0 <= j < |rows| && j != i && InReach(rows[j], c) && Live(rows[j]) ensures Newer(rows[i], rows[j]) {
        assert rows[j] in active;
        var k :| 0 <= k < |active| && active[k] == rows[j];
      }
      assert Absorbed(rows, c) ==> Absorbs(rows, i, c);
    }
    if i: nat :| Absorbs(rows, i, c) {
      assert rows[i] in active;
      var k :| 0 <= k < |active| && active[k] == rows[i];
      var j: nat :| j < |rows| && rows[j] == active[0];
      assert InReach(rows[j], c) && Live(rows[j]);
    }
  }

  lemma {:induction false} RetiredIds(rows: seq<Memory>, c: Memory, x: nat)
    requires NumberedRows(rows)
    ensures x in IdsOf(Retired(rows, c)) <==> 1 <= x <= |rows| && Live(rows[x - 1]) && rows[x - 1].slot == c.slot
  {
    var gone := Retired(rows, c);
    IdListed(gone, x);
    if m: Memory :| m in gone && m.id == Some(x) {
      var i :| 0 <= i < |rows| && rows[i] == m;
    }
    if 1 <= x <= |rows| && Live(rows[x - 1]) && rows[x - 1].slot == c.slot {
      assert rows[x - 1] in gone;
    }
  }

  // Row by row, what superseding `gone` by the inserted row `saved` leaves behind.
  lemma {:induction false} SupersedeRows(rows: seq<Memory>, gone: seq<Memory>, saved: Memory, clock: seq<int>, first: nat)
    requires NumberedRows(rows) && saved.id == Some(|rows| + 1) && NamesRows(gone, rows)
    requires forall k :: 0 <= k < |gone| ==> gone[k] == rows[IdOf(gone[k]) - 1]
    ensures var after := Supersede(rows, gone, saved, clock, first);
      && |after| == |rows| + 1 && after[|rows|] == saved
      && forall i :: 0 <= i < |rows| ==>
           after[i] == if rows[i] in gone then Pointed(rows[i], |rows| + 1, after[i].updatedAt) else rows[i]
  {
    var table := rows + [saved];
    var pointed := PointedAll(gone, |rows| + 1, clock, first);
    forall i: nat | i < |table| {
      PutAllOver(table, gone, pointed, i);
    }
    assert saved !in gone;
    assert table[|rows|] == saved;
    forall i | 0 <= i < |rows|
      ensures Supersede(rows, gone, saved, clock, first)[i] ==
        if rows[i] in gone then Pointed(rows[i], |rows| + 1, Supersede(rows, gone, saved, clock, first)[i].updatedAt)
        else rows[i]
    {
      assert table[i] == rows[i];
    }
  }

  // The writer's two rounds of updates, with the insert between them, are one supersession.
  lemma {:induction false} TwoRoundsSupersede(rows: seq<Memory>, gone: seq<Memory>, saved: Memory, marked: seq<Memory>,
                                              pointed: seq<Memory>, clock: seq<int>, round1: nat, round2: nat)
    requires NamesRows(gone, rows) && saved.id == Some(|rows| + 1)
    requires Stamped(Marked(gone, Superseded), clock, round1, marked)
    requires Stamped(PointingTo(marked, saved.id.value), clock, round2, pointed)
    ensures PutAll(PutAll(rows, marked) + [saved], pointed) == Supersede(rows, gone, saved, clock, round2)
  {
    assert NamesRows(marked, rows) by {
      assert forall k :: 0 <= k < |gone| ==> IdOf(marked[k]) == IdOf(gone[k]);
    }
    PutAllTwice(rows, [saved], marked, pointed);
    assert pointed == PointedAll(gone, |rows| + 1, clock, round2);
  }

  // The meaning of superseding: `saved` is `c` under the next id, it lists exactly the live rows of
  // its own slot, those rows are superseded and point at it, and no other row changed.
  ghost predicate Supersedes(rows: seq<Memory>, c: Memory, after: seq<Memory>, saved: Memory) {
    && |after| == |rows| + 1 && after[|rows|] == saved
    && saved == c.(id := Some(|rows| + 1), supersedes := saved.supersedes)
    && (forall i :: 0 <= i < |rows| ==>
          after[i] == if Live(rows[i]) && rows[i].slot == c.slot
                      then rows[i].(status := Superseded, supersededBy := Some(|rows| + 1), updatedAt := after[i].updatedAt)
                      else rows[i])
    && (forall x: nat :: x in saved.supersedes <==>
          x in c.supersedes || (1 <= x <= |rows| && Live(rows[x - 1]) && rows[x - 1].slot == c.slot))
  }

  lemma {:induction false} SupersedeRetired(rows: seq<Memory>, c: Memory, clock: seq<int>, first: nat)
    requires NumberedRows(rows)
    ensures var saved := Saved(rows, c);
      var after := Supersede(rows, Retired(rows, c), saved, clock, first);
      && |after| == |rows| + 1 && after[|rows|] == saved
      && forall i :: 0 <= i < |rows| ==>
           after[i] == if rows[i] in Retired(rows, c) then Pointed(rows[i], |rows| + 1, after[i].updatedAt) else rows[i]
  {
    RetiredNamesRows(rows, c);
    SupersedeRows(rows, Retired(rows, c), Saved(rows, c), clock, first);
  }

  lemma {:induction false} SavedIds(rows: seq<Memory>, c: Memory)
    requires NumberedRows(rows)
    ensures forall x: nat :: x in Saved(rows, c).supersedes <==>
      x in c.supersedes || (1 <= x <= |rows| && Live(rows[x - 1]) && rows[x - 1].slot == c.slot)
  {
    forall x: nat {
      RetiredIds(rows, c, x);
    }
  }

  lemma {:induction false} SupersededRows(rows: seq<Memory>, c: Memory, after: seq<Memory>, saved: Memory)
    requires NumberedRows(rows) && saved == Saved(rows, c)
    requires |after| == |rows| + 1 && after[|rows|] == saved
    requires forall i :: 0 <= i < |rows| ==>
      after[i] == if rows[i] in Retired(rows, c) then Pointed(rows[i], |rows| + 1, after[i].updatedAt) else rows[i]
    ensures Supersedes(rows, c, after, saved)
  {
    SavedIds(rows, c);
    forall i | 0 <= i < |rows| ensures rows[i] in Retired(rows, c) <==> Live(rows[i]) && rows[i].slot == c.slot {
    }
  }

  lemma {:induction false} SupersedeMeans(rows: seq<Memory>, c: Memory, clock: seq<int>, first: nat)
    requires NumberedRows(rows)
    ensures Supersedes(rows, c, Supersede(rows, Retired(rows, c), Saved(rows, c), clock, first), Saved(rows, c))
  {
    SupersedeRetired(rows, c, clock, first);
    SupersededRows(rows, c, Supersede(rows, Retired(rows, c), Saved(rows, c), clock, first), Saved(rows, c));
  }

  lemma {:induction false} UpsertRows(db: Db, c: Memory, clock: seq<int>, calls: nat)
    requires NumberedRows(db.memories) && !Absorbed(db.memories, c)
    ensures Supersedes(db.memories, c, Upsert(db, c, clock, calls).db.memories, Upsert(db, c, clock, calls).candidate)
  {
    SupersedeMeans(db.memories, c, clock, calls + |Retired(db.memories, c)| + 2);
  }

  // The meaning of deleting `gone`: those rows are marked, every other row is as before.
  ghost predicate Deletes(rows: seq<Memory>, gone: seq<Memory>, after: seq<Memory>) {
    && |after| == |rows|
    && forall i :: 0 <= i < |rows| ==>
         after[i] == if rows[i] in gone then rows[i].(status := Deleted, updatedAt := after[i].updatedAt) else rows[i]
  }

  lemma {:induction false} PutDeletes(rows: seq<Memory>, gone: seq<Memory>, clock: seq<int>, first: nat)
    requires NumberedRows(rows) && Deletable(rows, gone)
    ensures Deletes(rows, gone, PutAll(rows, DeletedAll(gone, clock, first)))
  {
    NumberedIdsAreDistinct(rows, gone);
    forall i: nat | i < |rows| {
      PutAllOver(rows, gone, DeletedAll(gone, clock, first), i);
    }
  }

  lemma {:induction false} DeleteBatchRows(db: Db, gone: seq<Memory>, clock: seq<int>, calls: nat)
    requires NumberedRows(db.memories) && Deletable(db.memories, gone)
    ensures Deletes(db.memories, gone, DeleteBatch(db, gone, clock, calls).memories)
  {
    PutDeletes(db.memories, gone, clock, calls + 1);
  }

  lemma {:induction false} DeletedAreNumbered(db: Db, gone: seq<Memory>, clock: seq<int>, calls: nat)
    requires NumberedRows(db.memories) && Deletable(db.memories, gone)
    ensures NumberedRows(DeleteBatch(db, gone, clock, calls).memories)
  {
    DeleteBatchRows(db, gone, clock, calls);
  }

  lemma {:induction false} UpsertIsNumbered(db: Db, c: Memory, clock: seq<int>, calls: nat)
    requires NumberedRows(db.memories)
    ensures NumberedRows(Upsert(db, c, clock, calls).db.memories)
  {
    if !Absorbed(db.memories, c) {
      UpsertRows(db, c, clock, calls);
    }
  }
}
