/** The bridge's replay audit: it re-derives every effect of one extraction from the snapshot taken
    before it and the result, then compares its own view with the snapshot taken after. Proved here:
    the replay agrees with the writer on every decision batch. */
module CureReplay {
  import opened Wrappers
  import opened CureModel
  import opened CureUpsert
  import opened CureSystem

  datatype Action = Create | Update | Delete | Noop

  // The rows as they were when the change was recorded. `successor` carries the supersedes edges
  // from every row of `before`.
  datatype Change = Change(action: Action, before: seq<Memory>, after: seq<Memory>, successor: Option<Memory>)

  datatype Ref = Stored(row: Memory) | Local(candidate: Memory, index: nat)

  datatype Drift =
    | DeletionOutside(row: Option<nat>) | SupersedesOutside(id: nat) | NoActiveMatch(key: string)
    | Appeared(id: nat) | Altered(id: nat) | Vanished(id: nat)

  datatype Audit = Audit(view: map<nat, Memory>, changes: seq<Change>, produced: seq<Ref>, unexplained: seq<Drift>)

  // All rows the extraction can see, by id.
  function Snapshot(rows: seq<Memory>, user: string, project: Option<string>): map<nat, Memory> {
    map id: nat | 1 <= id <= |rows| && SeenRow(rows, id, user, project) :: rows[id - 1]
  }

  predicate SeenRow(rows: seq<Memory>, id: nat, user: string, project: Option<string>) {
    1 <= id <= |rows| && Visible(rows[id - 1], user, project)
  }

  // ------------------------------------------------------------------
  // The first active row of a view
  // ------------------------------------------------------------------

  predicate Eligible(m: Memory, c: Memory) {
    Live(m) && InReach(m, c)
  }

  ghost predicate FirstActiveId(view: map<nat, Memory>, c: Memory, id: nat) {
    && id in view && Eligible(view[id], c)
    && forall other :: other in view && Eligible(view[other], c) ==> other == id || Newer(view[id], view[other])
  }

  ghost function FirstActive(view: map<nat, Memory>, c: Memory): Option<Memory> {
    if exists id: nat :: FirstActiveId(view, c, id) then
      var id: nat :| FirstActiveId(view, c, id);
      Some(view[id])
    else None
  }

  ghost predicate Keyed(view: map<nat, Memory>) {
    forall id :: id in view ==> view[id].id == Some(id)
  }

  lemma FirstActiveIsUnique(view: map<nat, Memory>, c: Memory, id: nat)
    requires Keyed(view) && FirstActiveId(view, c, id)
    ensures FirstActive(view, c) == Some(view[id])
  {
  }

  method FirstActiveRow(view: map<nat, Memory>, c: Memory) returns (row: Option<Memory>)
    requires Keyed(view)
    ensures row == FirstActive(view, c)
    ensures row.None? <==> forall id :: id in view ==> !Eligible(view[id], c)
  {
    row := None;
    var todo := view.Keys;
    while todo != {}
      invariant todo <= view.Keys
      invariant row.None? ==> forall id :: id in view && id !in todo ==> !Eligible(view[id], c)
      invariant row.Some? ==>
        && row.value.id.Some? && row.value.id.value in view.Keys - todo && view[row.value.id.value] == row.value
        && Eligible(row.value, c)
        && forall id :: id in view && id !in todo && Eligible(view[id], c) ==>
             id == row.value.id.value || Newer(row.value, view[id])
      decreases todo
    {
      var id :| id in todo;
      todo := todo - {id};
      if Eligible(view[id], c) && (row.None? || Newer(view[id], row.value)) {
        row := Some(view[id]);
      }
    }
    if row.Some? {
      FirstActiveIsUnique(view, c, row.value.id.value);
    }
  }

  // ------------------------------------------------------------------
  // Replaying one step on the view
  // ------------------------------------------------------------------

  ghost function ReplayDeletion(a: Audit, gone: Memory): Audit {
    if gone.id.None? || gone.id.value !in a.view then
      a.(unexplained := a.unexplained + [DeletionOutside(gone.id)])
    else
      var row := a.view[gone.id.value];
      a.(changes := a.changes + [Change(Delete, [row], [], None)],
         view := a.view[gone.id.value := row.(status := Deleted)])
  }

  function Found(view: map<nat, Memory>, ids: seq<nat>): seq<Memory> {
    if ids == [] then []
    else
      var front, id := Found(view, ids[..|ids| - 1]), ids[|ids| - 1];
      if id in view then front + [view[id]] else front
  }

  function Missing(view: map<nat, Memory>, ids: seq<nat>): seq<Drift> {
    if ids == [] then []
    else
      var front, id := Missing(view, ids[..|ids| - 1]), ids[|ids| - 1];
      if id in view then front else front + [SupersedesOutside(id)]
  }

  function SupersededIn(view: map<nat, Memory>, ids: seq<nat>, successor: nat): map<nat, Memory> {
    map id | id in view :: if id in ids then view[id].(status := Superseded, supersededBy := Some(successor)) else view[id]
  }

  ghost function ReplayNoop(a: Audit, view: Option<map<nat, Memory>>, c: Memory): Audit {
    var active := if view.Some? then FirstActive(view.value, c) else None;
    if active.Some? && active.value.value == c.value && active.value.status == c.status then
      a.(changes := a.changes + [Change(Noop, [active.value], [active.value], None)],
         produced := a.produced + [Stored(active.value)])
    else
      a.(produced := a.produced + [Local(c, |a.produced|)],
         unexplained := if view.Some? then a.unexplained + [NoActiveMatch(c.slot.key)] else a.unexplained)
  }

  ghost function ReplayCandidate(a: Audit, c: Memory): Audit {
    if c.id.None? then ReplayNoop(a, Some(a.view), c)
    else if c.supersedes == [] then
      Audit(a.view[c.id.value := c], a.changes + [Change(Create, [], [c], None)], a.produced + [Stored(c)], a.unexplained)
    else
      Audit(SupersededIn(a.view, c.supersedes, c.id.value)[c.id.value := c],
            a.changes + [Change(Update, Found(a.view, c.supersedes), [c], Some(c))],
            a.produced + [Stored(c)], a.unexplained + Missing(a.view, c.supersedes))
  }

  ghost function ReplayDeletions(a: Audit, gone: seq<Memory>): Audit {
    if gone == [] then a else ReplayDeletion(ReplayDeletions(a, gone[..|gone| - 1]), gone[|gone| - 1])
  }

  ghost function ReplayCandidates(a: Audit, cands: seq<Memory>): Audit {
    if cands == [] then a else ReplayCandidate(ReplayCandidates(a, cands[..|cands| - 1]), cands[|cands| - 1])
  }

  // ------------------------------------------------------------------
  // The replay of one extraction
  // ------------------------------------------------------------------

  function LocalRefs(cands: seq<Memory>): seq<Ref> {
    seq(|cands|, k requires 0 <= k < |cands| => Local(cands[k], k))
  }

  ghost function Replay(before: map<nat, Memory>, result: ExtractionResult): Audit {
    if result.errors != [] then Audit(before, [], LocalRefs(result.candidates), [])
    else ReplayCandidates(ReplayDeletions(Audit(before, [], [], []), result.deleted), result.candidates)
  }

  // Two sets of rows agree on ids, review status and successor.
  ghost predicate Agree(view: map<nat, Memory>, after: map<nat, Memory>) {
    && view.Keys == after.Keys
    && forall id :: id in view ==> view[id].status == after[id].status && view[id].supersededBy == after[id].supersededBy
  }

  method AuditDrift(view: map<nat, Memory>, after: map<nat, Memory>) returns (drift: seq<Drift>)
    ensures drift == [] <==> Agree(view, after)
  {
    drift := [];
    var todo := after.Keys;
    while todo != {}
      invariant todo <= after.Keys
      invariant drift == [] <==> forall id :: id in after && id !in todo ==>
        id in view && view[id].status == after[id].status && view[id].supersededBy == after[id].supersededBy
      decreases todo
    {
      var id :| id in todo;
      todo := todo - {id};
      if id !in view {
        drift := drift + [Appeared(id)];
      } else if view[id].status != after[id].status || view[id].supersededBy != after[id].supersededBy {
        drift := drift + [Altered(id)];
      }
    }
    todo := view.Keys;
    ghost var first := drift;
    while todo != {}
      invariant todo <= view.Keys
      invariant drift == [] <==> first == [] && forall id :: id in view && id !in todo ==> id in after
      decreases todo
    {
      var id :| id in todo;
      todo := todo - {id};
      if id !in after {
        drift := drift + [Vanished(id)];
      }
    }
  }

  // ------------------------------------------------------------------
  // What the writer did, as changes
  // ------------------------------------------------------------------

  function WrittenChange(rows: seq<Memory>, c: Memory): Change {
    if Absorbed(rows, c) then
      var row := ActiveRows(rows, c)[0];
      Change(Noop, [row], [row], None)
    else if Retired(rows, c) == [] then Change(Create, [], [Saved(rows, c)], None)
    else Change(Update, Retired(rows, c), [Saved(rows, c)], Some(Saved(rows, c)))
  }

  function WrittenChanges(db: Db, gone: seq<Memory>, cands: seq<Memory>, n: nat, clock: seq<int>, calls: nat): (r: seq<Change>)
    requires NumberedRows(db.memories) && Deletable(db.memories, gone) && n <= |cands|
    ensures |r| == |gone| + n
  {
    if n == 0 then seq(|gone|, k requires 0 <= k < |gone| => Change(Delete, [gone[k]], [], None))
    else WrittenChanges(db, gone, cands, n - 1, clock, calls)
         + [WrittenChange(Extract(db, gone, cands, n - 1, clock, calls).db.memories, cands[n - 1])]
  }

  // What the change `ch` says of one step of the table, by what moved: nothing moved and a live row says
  // what the candidate says, or one row was added, `before` are the rows that changed, and it is a creation
  // exactly when there are none.
  ghost predicate ShowsStep(ch: Change, rows: seq<Memory>, after: seq<Memory>, c: Memory) {
    if after == rows then
      && ch.action.Noop? && |ch.before| == 1 && ch.after == ch.before && ch.successor.None?
      && ch.before[0] in rows && Live(ch.before[0]) && ch.before[0].value == c.value && ch.before[0].status == c.status
    else
      && |after| == |rows| + 1 && ch.after == [after[|rows|]]
      && (forall m :: m in ch.before <==> exists i :: 0 <= i < |rows| && rows[i] == m && after[i] != rows[i])
      && (if after[..|rows|] == rows then ch.action.Create? && ch.successor.None?
          else ch.action.Update? && ch.successor == Some(after[|rows|]))
  }

  lemma {:induction false} StoredShows(rows: seq<Memory>, c: Memory, after: seq<Memory>, saved: Memory, gone: seq<Memory>)
    requires Supersedes(rows, c, after, saved)
    requires forall m :: m in gone <==> m in rows && Live(m) && m.slot == c.slot
    ensures ShowsStep(if gone == [] then Change(Create, [], [saved], None) else Change(Update, gone, [saved], Some(saved)), rows, after, c)
  {
    forall i | 0 <= i < |rows| ensures after[i] != rows[i] <==> rows[i] in gone {
    }
    if gone == [] {
      assert after[..|rows|] == rows;
    } else {
      assert gone[0] in gone;
      var i :| 0 <= i < |rows| && rows[i] == gone[0];
      assert after[..|rows|][i] != rows[i];
    }
  }

  lemma {:induction false} WrittenChangeShows(db: Db, c: Memory, clock: seq<int>, calls: nat)
    requires NumberedRows(db.memories)
    ensures ShowsStep(WrittenChange(db.memories, c), db.memories, Upsert(db, c, clock, calls).db.memories, c)
  {
    var rows := db.memories;
    if Absorbed(rows, c) {
      assert ActiveRows(rows, c)[0] in ActiveRows(rows, c);
      return;
    }
    UpsertRows(db, c, clock, calls);
    StoredShows(rows, c, Upsert(db, c, clock, calls).db.memories, Saved(rows, c), Retired(rows, c));
    hide ShowsStep, Supersedes, NumberedRows, Saved, ActiveRows;
  }

  // The changes of a whole batch: its deletions, then one change per candidate for its step.
  lemma {:induction false} WrittenChangesShow(db: Db, gone: seq<Memory>, cands: seq<Memory>, n: nat, clock: seq<int>, calls: nat, k: nat)
    requires NumberedRows(db.memories) && Deletable(db.memories, gone) && k < n <= |cands|
    ensures var changes := WrittenChanges(db, gone, cands, n, clock, calls);
      && ShowsStep(changes[|gone| + k], Extract(db, gone, cands, k, clock, calls).db.memories,
                   Extract(db, gone, cands, k + 1, clock, calls).db.memories, cands[k])
      && forall j :: 0 <= j < |gone| ==> changes[j] == Change(Delete, [gone[j]], [], None)
  {
    hide Extract, ShowsStep, WrittenChange, NumberedRows, Deletable, Upsert;
    DeletionsFirst(db, gone, cands, n, clock, calls);
    if k < n - 1 {
      WrittenChangesShow(db, gone, cands, n - 1, clock, calls, k);
    } else {
      var x := Extract(db, gone, cands, k, clock, calls);
      ExtractNext(db, gone, cands, k, clock, calls);
      WrittenChangeShows(x.db, cands[k], clock, x.calls);
    }
  }

  lemma ExtractNext(db: Db, gone: seq<Memory>, cands: seq<Memory>, n: nat, clock: seq<int>, calls: nat)
    requires NumberedRows(db.memories) && Deletable(db.memories, gone) && n < |cands|
    ensures var x := Extract(db, gone, cands, n, clock, calls);
      Extract(db, gone, cands, n + 1, clock, calls).db == Upsert(x.db, cands[n], clock, x.calls).db
  {
  }

  lemma {:induction false} DeletionsFirst(db: Db, gone: seq<Memory>, cands: seq<Memory>, n: nat, clock: seq<int>, calls: nat)
    requires NumberedRows(db.memories) && Deletable(db.memories, gone) && n <= |cands|
    ensures forall j :: 0 <= j < |gone| ==> WrittenChanges(db, gone, cands, n, clock, calls)[j] == Change(Delete, [gone[j]], [], None)
  {
    if n > 0 {
      DeletionsFirst(db, gone, cands, n - 1, clock, calls);
    }
  }

  function StoredRefs(rows: seq<Memory>): seq<Ref> {
    seq(|rows|, k requires 0 <= k < |rows| => Stored(rows[k]))
  }

  // ------------------------------------------------------------------
  // The replay refines the writer
  // ------------------------------------------------------------------

  // The view shows exactly the visible rows. Only the time stamps of rows that became terminal may
  // lag behind: the writer re-stamps those, and the first-active rule never looks at them.
  ghost predicate Mirrors(view: map<nat, Memory>, rows: seq<Memory>, user: string, project: Option<string>) {
    && (forall id: nat :: id in view <==> SeenRow(rows, id, user, project))
    && (forall id: nat :: id in view && SeenRow(rows, id, user, project) ==> SameButStamp(view[id], rows[id - 1]))
  }

  ghost predicate SameButStamp(v: Memory, m: Memory) {
    v == m.(updatedAt := v.updatedAt) && (Live(m) ==> v == m)
  }

  ghost predicate AllVisible(ms: seq<Memory>, user: string, project: Option<string>) {
    forall m :: m in ms ==> Visible(m, user, project)
  }

  // The replay after the deletions `gone` of a batch, and nothing else.
  ghost predicate DeletedSoFar(a: Audit, rows: seq<Memory>, gone: seq<Memory>, user: string, project: Option<string>) {
    && a.produced == [] && a.unexplained == [] && |a.changes| == |gone|
    && (forall k :: 0 <= k < |gone| ==> a.changes[k] == Change(Delete, [gone[k]], [], None))
    && (forall id: nat :: id in a.view <==> SeenRow(rows, id, user, project))
    && (forall id: nat :: id in a.view && SeenRow(rows, id, user, project) ==>
          a.view[id] == if rows[id - 1] in gone then rows[id - 1].(status := Deleted) else rows[id - 1])
  }

  lemma DeletedOneMore(a: Audit, rows: seq<Memory>, front: seq<Memory>, last: Memory, user: string, project: Option<string>)
    requires NumberedRows(rows) && DeletedSoFar(a, rows, front, user, project)
    requires last in rows && Visible(last, user, project) && last !in front
    ensures DeletedSoFar(ReplayDeletion(a, last), rows, front + [last], user, project)
  {
  }

  lemma {:induction false} DeletionsReplayed(rows: seq<Memory>, user: string, project: Option<string>, gone: seq<Memory>)
    requires NumberedRows(rows) && Deletable(rows, gone) && AllVisible(gone, user, project)
    ensures DeletedSoFar(ReplayDeletions(Audit(Snapshot(rows, user, project), [], [], []), gone), rows, gone, user, project)
  {
    if gone != [] {
      var front, last := gone[..|gone| - 1], gone[|gone| - 1];
      assert last in gone && forall m :: m in front ==> m in gone;
      DeletionsReplayed(rows, user, project, front);
      DeletedOneMore(ReplayDeletions(Audit(Snapshot(rows, user, project), [], [], []), front), rows, front, last, user, project);
      assert front + [last] == gone;
    }
  }

  lemma {:induction false} DeletionsMirror(rows: seq<Memory>, after: seq<Memory>, gone: seq<Memory>, user: string,
                                           project: Option<string>, view: map<nat, Memory>)
    requires NumberedRows(rows) && Deletes(rows, gone, after)
    requires forall id: nat :: id in view <==> SeenRow(rows, id, user, project)
    requires forall id: nat :: id in view && SeenRow(rows, id, user, project) ==>
      view[id] == if rows[id - 1] in gone then rows[id - 1].(status := Deleted) else rows[id - 1]
    ensures Mirrors(view, after, user, project)
  {
  }

  // Both first-active rules pick the same row.
  lemma {:induction false} FirstActiveAgrees(view: map<nat, Memory>, rows: seq<Memory>, user: string, project: Option<string>, c: Memory)
    requires NumberedRows(rows) && Mirrors(view, rows, user, project) && Visible(c, user, project)
    requires project.Some? ==> c.slot.project == project || c.slot.project.None?
    requires ActiveRows(rows, c) != []
    ensures FirstActive(view, c) == Some(ActiveRows(rows, c)[0])
  {
    hide ActiveRows, FirstActive, Newer;
    var active := ActiveRows(rows, c);
    ActiveRowsAreOrdered(rows, c);
    assert active[0] in active;
    var i :| 0 <= i < |rows| && rows[i] == active[0];
    assert SeenRow(rows, i + 1, user, project);
    forall other: nat | other in view && Eligible(view[other], c) ensures other == i + 1 || Newer(view[i + 1], view[other]) {
      assert SeenRow(rows, other, user, project);
      assert rows[other - 1] in active;
      var j :| 0 <= j < |active| && active[j] == rows[other - 1];
    }
    assert FirstActiveId(view, c, i + 1);
    FirstActiveIsUnique(view, c, i + 1);
  }

  lemma {:induction false} LiveIsFound(view: map<nat, Memory>, rows: seq<Memory>, user: string, project: Option<string>, m: Memory)
    requires NumberedRows(rows) && Mirrors(view, rows, user, project)
    requires m in rows && Live(m) && Visible(m, user, project)
    ensures m.id.Some? && m.id.value in view && view[m.id.value] == m
  {
    var i :| 0 <= i < |rows| && rows[i] == m;
    assert SeenRow(rows, i + 1, user, project);
  }

  lemma {:induction false} FoundRetired(view: map<nat, Memory>, rows: seq<Memory>, user: string, project: Option<string>, gone: seq<Memory>)
    requires NumberedRows(rows) && Mirrors(view, rows, user, project) && AllVisible(gone, user, project)
    requires forall m :: m in gone ==> m in rows && Live(m)
    ensures Found(view, IdsOf(gone)) == gone && Missing(view, IdsOf(gone)) == []
  {
    if gone == [] {
      return;
    }
    hide IdsOf, Found, Missing, Mirrors, NumberedRows, Visible;
    var front, last := gone[..|gone| - 1], gone[|gone| - 1];
    assert last in gone && forall m :: m in front ==> m in gone;
    FoundRetired(view, rows, user, project, front);
    LiveIsFound(view, rows, user, project, last);
    IdsNext(gone);
    FoundNext(view, IdsOf(front), last.id.value);
    assert front + [last] == gone;
  }

  lemma IdsNext(rows: seq<Memory>)
    requires rows != [] && rows[|rows| - 1].id.Some?
    ensures IdsOf(rows) == IdsOf(rows[..|rows| - 1]) + [rows[|rows| - 1].id.value]
  {
  }

  lemma FoundNext(view: map<nat, Memory>, ids: seq<nat>, id: nat)
    ensures Found(view, ids + [id]) == Found(view, ids) + if id in view then [view[id]] else []
    ensures Missing(view, ids + [id]) == Missing(view, ids) + if id in view then [] else [SupersedesOutside(id)]
  {
    assert (ids + [id])[..|ids|] == ids;
  }

  lemma {:induction false} SupersededMirrors(view: map<nat, Memory>, rows: seq<Memory>, after: seq<Memory>, user: string,
                                             project: Option<string>, c: Memory, saved: Memory)
    requires Mirrors(view, rows, user, project) && Supersedes(rows, c, after, saved)
    requires c.supersedes == [] && Visible(c, user, project)
    ensures Mirrors(SupersededIn(view, saved.supersedes, |rows| + 1)[|rows| + 1 := saved], after, user, project)
  {
  }

  // One candidate: the replay records the writer's change and stored row, and the view keeps mirroring.
  lemma {:induction false} CandidateReplayed(a: Audit, db: Db, c: Memory, user: string, project: Option<string>, clock: seq<int>, calls: nat)
    requires NumberedRows(db.memories) && Mirrors(a.view, db.memories, user, project)
    requires c.id.None? && c.supersedes == [] && Visible(c, user, project)
    requires project.Some? ==> c.slot.project == project || c.slot.project.None?
    ensures var u := Upsert(db, c, clock, calls);
      var a' := ReplayCandidate(a, u.candidate);
      && Mirrors(a'.view, u.db.memories, user, project)
      && a'.changes == a.changes + [WrittenChange(db.memories, c)]
      && a'.produced == a.produced + [Stored(u.persisted)]
      && a'.unexplained == a.unexplained
  {
    var rows := db.memories;
    if Absorbed(rows, c) {
      FirstActiveAgrees(a.view, rows, user, project, c);
    } else {
      CandidateStoredReplayed(a, db, c, user, project, clock, calls);
    }
  }

  lemma {:induction false} StoredReplayed(a: Audit, rows: seq<Memory>, after: seq<Memory>, c: Memory, saved: Memory,
                                          gone: seq<Memory>, user: string, project: Option<string>)
    requires NumberedRows(rows) && Mirrors(a.view, rows, user, project) && Supersedes(rows, c, after, saved)
    requires c.supersedes == [] && Visible(c, user, project)
    requires forall m :: m in gone ==> m in rows && Live(m) && m.slot == c.slot
    requires saved.supersedes == IdsOf(gone)
    ensures var a' := ReplayCandidate(a, saved);
      && Mirrors(a'.view, after, user, project)
      && a'.changes == a.changes + [if gone == [] then Change(Create, [], [saved], None) else Change(Update, gone, [saved], Some(saved))]
      && a'.produced == a.produced + [Stored(saved)]
      && a'.unexplained == a.unexplained
  {
    SupersededMirrors(a.view, rows, after, user, project, c, saved);
    FoundRetired(a.view, rows, user, project, gone);
    IdsOfEmpty(gone);
    if gone == [] {
      assert SupersededIn(a.view, [], |rows| + 1) == a.view;
    }
  }

  lemma {:induction false} CandidateStoredReplayed(a: Audit, db: Db, c: Memory, user: string, project: Option<string>, clock: seq<int>, calls: nat)
    requires NumberedRows(db.memories) && Mirrors(a.view, db.memories, user, project) && !Absorbed(db.memories, c)
    requires c.id.None? && c.supersedes == [] && Visible(c, user, project)
    ensures var u := Upsert(db, c, clock, calls);
      var a' := ReplayCandidate(a, u.candidate);
      && Mirrors(a'.view, u.db.memories, user, project)
      && a'.changes == a.changes + [WrittenChange(db.memories, c)]
      && a'.produced == a.produced + [Stored(u.persisted)]
      && a'.unexplained == a.unexplained
  {
    var u := Upsert(db, c, clock, calls);
    UpsertRows(db, c, clock, calls);
    assert u.candidate.supersedes == IdsOf(Retired(db.memories, c));
    hide ReplayCandidate;
    StoredReplayed(a, db.memories, u.db.memories, c, u.candidate, Retired(db.memories, c), user, project);
  }

  lemma IdsOfEmpty(gone: seq<Memory>)
    requires forall m :: m in gone ==> m.id.Some?
    ensures IdsOf(gone) == [] <==> gone == []
  {
  }

  // A decision batch the extractor may hand to the writer in a session of `user` and `project`.
  ghost predicate Batch(rows: seq<Memory>, gone: seq<Memory>, cands: seq<Memory>, user: string, project: Option<string>) {
    && Deletable(rows, gone) && AllVisible(gone, user, project)
    && forall c :: c in cands ==>
         && c.id.None? && c.supersedes == [] && c.slot.user == user
         && (c.slot.project == project || c.slot.project.None?)
  }

  // The replay `a` accounts for the table `rows`, the changes and the stored rows of the writer.
  ghost predicate Accounts(a: Audit, rows: seq<Memory>, changes: seq<Change>, persisted: seq<Memory>, user: string, project: Option<string>) {
    && Mirrors(a.view, rows, user, project) && a.unexplained == []
    && a.changes == changes && a.produced == StoredRefs(persisted)
  }

  lemma {:induction false} AccountsForDeletions(db: Db, gone: seq<Memory>, user: string, project: Option<string>, clock: seq<int>, calls: nat)
    requires NumberedRows(db.memories) && Deletable(db.memories, gone) && AllVisible(gone, user, project)
    ensures Accounts(ReplayDeletions(Audit(Snapshot(db.memories, user, project), [], [], []), gone),
                     DeleteBatch(db, gone, clock, calls).memories, WrittenChanges(db, gone, [], 0, clock, calls), [], user, project)
  {
    var a := ReplayDeletions(Audit(Snapshot(db.memories, user, project), [], [], []), gone);
    DeletionsReplayed(db.memories, user, project, gone);
    DeleteBatchRows(db, gone, clock, calls);
    DeletionsMirror(db.memories, DeleteBatch(db, gone, clock, calls).memories, gone, user, project, a.view);
  }

  lemma {:induction false} AccountsForOneMore(a: Audit, db: Db, changes: seq<Change>, persisted: seq<Memory>, c: Memory,
                                              user: string, project: Option<string>, clock: seq<int>, calls: nat)
    requires NumberedRows(db.memories) && Accounts(a, db.memories, changes, persisted, user, project)
    requires c.id.None? && c.supersedes == [] && Visible(c, user, project)
    requires project.Some? ==> c.slot.project == project || c.slot.project.None?
    ensures var u := Upsert(db, c, clock, calls);
      Accounts(ReplayCandidate(a, u.candidate), u.db.memories, changes + [WrittenChange(db.memories, c)],
               persisted + [u.persisted], user, project)
  {
    CandidateReplayed(a, db, c, user, project, clock, calls);
    var u := Upsert(db, c, clock, calls);
    assert StoredRefs(persisted + [u.persisted]) == StoredRefs(persisted) + [Stored(u.persisted)];
  }

  lemma {:induction false} BatchReplayed(db: Db, gone: seq<Memory>, cands: seq<Memory>, n: nat, user: string,
                                         project: Option<string>, clock: seq<int>, calls: nat)
    requires NumberedRows(db.memories) && Batch(db.memories, gone, cands, user, project) && n <= |cands|
    ensures var x := Extract(db, gone, cands, n, clock, calls);
      Accounts(ReplayCandidates(ReplayDeletions(Audit(Snapshot(db.memories, user, project), [], [], []), gone), x.candidates),
               x.db.memories, WrittenChanges(db, gone, cands, n, clock, calls), x.persisted, user, project)
  {
    if n == 0 {
      AccountsForDeletions(db, gone, user, project, clock, calls);
    } else {
      hide ReplayCandidate, Upsert, WrittenChange, Accounts, Mirrors;
      BatchReplayed(db, gone, cands, n - 1, user, project, clock, calls);
      var x, x' := Extract(db, gone, cands, n - 1, clock, calls), Extract(db, gone, cands, n, clock, calls);
      var a := ReplayCandidates(ReplayDeletions(Audit(Snapshot(db.memories, user, project), [], [], []), gone), x.candidates);
      assert cands[n - 1] in cands;
      assert x'.candidates[..n - 1] == x.candidates;
      AccountsForOneMore(a, x.db, WrittenChanges(db, gone, cands, n - 1, clock, calls), x.persisted, cands[n - 1],
                         user, project, clock, x.calls);
    }
  }

  // The replay looks up deleted rows by id only.
  lemma {:induction false} ReplayedById(a: Audit, gone: seq<Memory>, deleted: seq<Memory>)
    requires |deleted| == |gone| && forall k :: 0 <= k < |gone| ==> deleted[k].id == gone[k].id
    ensures ReplayDeletions(a, deleted) == ReplayDeletions(a, gone)
  {
    if gone != [] {
      ReplayedById(a, gone[..|gone| - 1], deleted[..|deleted| - 1]);
    }
  }

  // The refinement theorem. For every decision batch the replay records exactly the writer's changes
  // (one per deleted row, one per candidate) and stored rows, and against any after snapshot it
  // reports drift exactly when that snapshot disagrees with the table the writer left.
  lemma ReplayRefinesWriter(db: Db, gone: seq<Memory>, cands: seq<Memory>, user: string, project: Option<string>,
                            clock: seq<int>, calls: nat, after: map<nat, Memory>)
    requires NumberedRows(db.memories) && Batch(db.memories, gone, cands, user, project)
    ensures var x := Extract(db, gone, cands, |cands|, clock, calls);
      var a := Replay(Snapshot(db.memories, user, project),
                      ExtractionResult(x.candidates, DeletedAll(gone, clock, calls + 1), [], x.persisted));
      && a.changes == WrittenChanges(db, gone, cands, |cands|, clock, calls)
      && |a.changes| == |gone| + |cands|
      && a.produced == StoredRefs(x.persisted)
      && a.unexplained == []
      && (Agree(a.view, after) <==> Agree(Snapshot(x.db.memories, user, project), after))
  {
    BatchReplayed(db, gone, cands, |cands|, user, project, clock, calls);
    var x := Extract(db, gone, cands, |cands|, clock, calls);
    var shot, deleted := Snapshot(db.memories, user, project), DeletedAll(gone, clock, calls + 1);
    ReplayedById(Audit(shot, [], [], []), gone, deleted);
    MirrorsAgree(Replay(shot, ExtractionResult(x.candidates, deleted, [], x.persisted)).view, x.db.memories, user, project, after);
  }

  lemma MirrorsAgree(view: map<nat, Memory>, rows: seq<Memory>, user: string, project: Option<string>, after: map<nat, Memory>)
    requires Mirrors(view, rows, user, project)
    ensures Agree(view, after) <==> Agree(Snapshot(rows, user, project), after)
  {
  }

  // ------------------------------------------------------------------
  // The audit as it runs
  // ------------------------------------------------------------------

  // Without a before snapshot nothing can be replayed; only the result's own products are reported.
  // Its no-ops are matched against the after snapshot, which is not the view the writer matched.
  ghost function Products(cands: seq<Memory>, after: Option<map<nat, Memory>>): Audit {
    if cands == [] then Audit(map[], [], [], [])
    else
      var a, c := Products(cands[..|cands| - 1], after), cands[|cands| - 1];
      if c.id.Some? then a.(produced := a.produced + [Stored(c)]) else ReplayNoop(a, after, c)
  }

  // The replay of deletions is without a note exactly when every deleted row was in the snapshot.
  lemma {:induction false} DeletionsExplainedIff(a: Audit, gone: seq<Memory>)
    ensures a.unexplained <= ReplayDeletions(a, gone).unexplained && ReplayDeletions(a, gone).view.Keys == a.view.Keys
    ensures ReplayDeletions(a, gone).unexplained == a.unexplained <==> forall m :: m in gone ==> m.id.Some? && m.id.value in a.view
  {
    if gone != [] {
      DeletionsExplainedIff(a, gone[..|gone| - 1]);
      assert gone == gone[..|gone| - 1] + [gone[|gone| - 1]];
    }
  }

  method AttributeNoop(view: Option<map<nat, Memory>>, c: Memory, changes: seq<Change>, produced: seq<Ref>, unexplained: seq<Drift>,
                       ghost a: Audit)
    returns (changes': seq<Change>, produced': seq<Ref>, unexplained': seq<Drift>)
    requires view.Some? ==> Keyed(view.value)
    requires a.changes == changes && a.produced == produced && a.unexplained == unexplained
    ensures ReplayNoop(a, view, c) == a.(changes := changes', produced := produced', unexplained := unexplained')
    ensures var row := if view.Some? then FirstActive(view.value, c) else None;
      if row.Some? && row.value.value == c.value && row.value.status == c.status then
        && changes' == changes + [Change(Noop, [row.value], [row.value], None)] && produced' == produced + [Stored(row.value)]
        && unexplained' == unexplained
      else
        && changes' == changes && produced' == produced + [Local(c, |produced|)]
        && unexplained' == unexplained + if view.Some? then [NoActiveMatch(c.slot.key)] else []
  {
    changes', produced', unexplained' := changes, produced, unexplained;
    var active: Option<Memory> := None;
    if view.Some? {
      active := FirstActiveRow(view.value, c);
    }
    if active.Some? && active.value.value == c.value && active.value.status == c.status {
      changes' := changes + [Change(Noop, [active.value], [active.value], None)];
      produced' := produced + [Stored(active.value)];
      return;
    }
    produced' := produced + [Local(c, |produced|)];
    if view.Some? {
      unexplained' := unexplained + [NoActiveMatch(c.slot.key)];
    }
  }

  method Classify(before: Option<map<nat, Memory>>, result: ExtractionResult, after: Option<map<nat, Memory>>)
    returns (changes: seq<Change>, produced: seq<Ref>, unexplained: seq<Drift>)
    requires before.Some? ==> Keyed(before.value)
    requires after.Some? ==> Keyed(after.value)
    ensures before.None? && result.errors != [] ==>
      changes == [] && unexplained == [] && produced == LocalRefs(result.candidates)
    ensures before.None? && result.errors == [] ==>
      var a := Products(result.candidates, after);
      changes == a.changes && produced == a.produced && unexplained == a.unexplained
    ensures before.Some? ==>
      var a := Replay(before.value, result);
      && changes == a.changes && produced == a.produced && a.unexplained <= unexplained
      && (unexplained == [] <==> a.unexplained == [] && (after.Some? ==> Agree(a.view, after.value)))
  {
    changes, produced, unexplained := [], [], [];
    if before.None? {
      if result.errors != [] {
        produced := LocalRefs(result.candidates);
        return;
      }
      for i := 0 to |result.candidates|
        invariant var a := Products(result.candidates[..i], after);
          changes == a.changes && produced == a.produced && unexplained == a.unexplained
      {
        assert result.candidates[..i + 1][..i] == result.candidates[..i];
        var c := result.candidates[i];
        if c.id.Some? {
          produced := produced + [Stored(c)];
        } else {
          changes, produced, unexplained :=
            AttributeNoop(after, c, changes, produced, unexplained, Products(result.candidates[..i], after));
        }
      }
      assert result.candidates[..|result.candidates|] == result.candidates;
      return;
    }
    var view := before.value;
    if result.errors == [] {
      view, changes, unexplained := ClassifyDeletions(view, result.deleted);
      ghost var start := Audit(view, changes, [], unexplained);
      view, changes, produced, unexplained := ClassifyCandidates(view, changes, unexplained, result.candidates);
    } else {
      produced := LocalRefs(result.candidates);
    }
    if after.Some? {
      var drift := AuditDrift(view, after.value);
      unexplained := unexplained + drift;
    }
  }

  method ClassifyDeletions(before: map<nat, Memory>, deleted: seq<Memory>)
    returns (view: map<nat, Memory>, changes: seq<Change>, unexplained: seq<Drift>)
    requires Keyed(before)
    ensures Keyed(view)
    ensures ReplayDeletions(Audit(before, [], [], []), deleted) == Audit(view, changes, [], unexplained)
  {
    view, changes, unexplained := before, [], [];
    for i := 0 to |deleted|
      invariant Keyed(view)
      invariant ReplayDeletions(Audit(before, [], [], []), deleted[..i]) == Audit(view, changes, [], unexplained)
    {
      assert deleted[..i + 1][..i] == deleted[..i];
      var id := deleted[i].id;
      if id.None? || id.value !in view {
        unexplained := unexplained + [DeletionOutside(id)];
      } else {
        changes := changes + [Change(Delete, [view[id.value]], [], None)];
        view := view[id.value := view[id.value].(status := Deleted)];
      }
    }
    assert deleted[..|deleted|] == deleted;
  }

  method ClassifyCandidates(before: map<nat, Memory>, changes0: seq<Change>, unexplained0: seq<Drift>, candidates: seq<Memory>)
    returns (view: map<nat, Memory>, changes: seq<Change>, produced: seq<Ref>, unexplained: seq<Drift>)
    requires Keyed(before)
    ensures ReplayCandidates(Audit(before, changes0, [], unexplained0), candidates) == Audit(view, changes, produced, unexplained)
  {
    ghost var start := Audit(before, changes0, [], unexplained0);
    view, changes, produced, unexplained := before, changes0, [], unexplained0;
    for i := 0 to |candidates|
      invariant Keyed(view)
      invariant ReplayCandidates(start, candidates[..i]) == Audit(view, changes, produced, unexplained)
    {
      assert candidates[..i + 1][..i] == candidates[..i];
      var c := candidates[i];
      if c.id.None? {
        changes, produced, unexplained :=
          AttributeNoop(Some(view), c, changes, produced, unexplained, Audit(view, changes, produced, unexplained));
      } else if c.supersedes == [] {
        changes := changes + [Change(Create, [], [c], None)];
        view := view[c.id.value := c];
        produced := produced + [Stored(c)];
      } else {
        var superseded, missing := LookUpSuperseded(view, c.supersedes);
        unexplained := unexplained + missing;
        changes := changes + [Change(Update, superseded, [c], Some(c))];
        view := SupersededIn(view, c.supersedes, c.id.value)[c.id.value := c];
        produced := produced + [Stored(c)];
      }
    }
    assert candidates[..|candidates|] == candidates;
  }

  method LookUpSuperseded(view: map<nat, Memory>, ids: seq<nat>) returns (found: seq<Memory>, missing: seq<Drift>)
    ensures found == Found(view, ids) && missing == Missing(view, ids)
    ensures |found| + |missing| == |ids|
    ensures forall m :: m in found <==> exists k :: 0 <= k < |ids| && ids[k] in view && view[ids[k]] == m
    ensures forall d :: d in missing <==> exists k :: 0 <= k < |ids| && ids[k] !in view && d == SupersedesOutside(ids[k])
  {
    found, missing := [], [];
    for k := 0 to |ids|
      invariant |found| + |missing| == k
      invariant forall m :: m in found <==> exists j :: 0 <= j < k && ids[j] in view && view[ids[j]] == m
      invariant forall d :: d in missing <==> exists j :: 0 <= j < k && ids[j] !in view && d == SupersedesOutside(ids[j])
      invariant found == Found(view, ids[..k]) && missing == Missing(view, ids[..k])
    {
      assert ids[..k + 1][..k] == ids[..k];
      if ids[k] in view {
        found := found + [view[ids[k]]];
      } else {
        missing := missing + [SupersedesOutside(ids[k])];
      }
    }
    assert ids[..|ids|] == ids;
  }
}
