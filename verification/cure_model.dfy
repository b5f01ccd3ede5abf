/** The CURE memory table as a value: rows, the SQL listing, and the upsert rule.

    A `Db` holds what SQLite holds. Row ids are AUTOINCREMENT ids and no statement
    deletes a row, so row `i` of `memories` carries id `i + 1`. `clock` gives
    the time read just before each driver call; nothing assumes it is monotone. */
module CureModel {
  import opened Wrappers

  // The time read just before driver call `k`, and whether that call is refused. Both tables are
  // arbitrary; a run is finite, so a finite table with a default covers every behaviour.
  function Time(clock: seq<int>, k: nat): int {
    if k < |clock| then clock[k] else 0
  }

  predicate Refused(refusals: seq<bool>, k: nat) {
    k < |refusals| && refusals[k]
  }

  datatype Status =
    | Candidate | PendingReview | Approved
    | Deleted | Rejected | Archived | Superseded
    | Other(text: string)

  predicate Inactive(s: Status) {
    s.Deleted? || s.Rejected? || s.Archived? || s.Superseded?
  }

  // Where a memory lives: the rows of one slot are versions of one another. A row without a
  // project is general: every repository of the user sees it.
  datatype Slot = Slot(user: string, project: Option<string>, memoryType: string, key: string)

  datatype Attributes = Attributes(confidence: real, needsVerification: bool, origin: Option<string>)

  datatype Memory = Memory(
    id: Option<nat>, slot: Slot, value: string, attributes: Attributes, status: Status,
    supersedes: seq<nat>, supersededBy: Option<nat>, updatedAt: int)

  datatype Message = Message(id: nat, session: string, user: string, role: string, content: string)

  datatype Db = Db(memories: seq<Memory>, messages: seq<Message>)

  ghost predicate NumberedRows(rows: seq<Memory>) {
    forall i :: 0 <= i < |rows| ==> rows[i].id == Some(i + 1)
  }

  ghost predicate WellFormed(db: Db) {
    && NumberedRows(db.memories)
    && (forall i :: 0 <= i < |db.messages| ==> db.messages[i].id == i + 1)
  }

  predicate Live(m: Memory) {
    !Inactive(m.status)
  }


  // ------------------------------------------------------------------
  // SELECT ... ORDER BY updated_at DESC, id DESC
  // ------------------------------------------------------------------

  function IdOf(m: Memory): int {
    if m.id.Some? then m.id.value else -1
  }

  predicate Newer(a: Memory, b: Memory) {
    a.updatedAt > b.updatedAt || (a.updatedAt == b.updatedAt && IdOf(a) > IdOf(b))
  }

  function Select(rows: seq<Memory>, keep: Memory -> bool): (r: seq<Memory>)
    ensures forall m {:trigger m in r} :: m in r <==> m in rows && keep(m)
  {
    if rows == [] then []
    else (if keep(rows[0]) then [rows[0]] else []) + Select(rows[1..], keep)
  }

  function Insert(m: Memory, sorted: seq<Memory>): (r: seq<Memory>)
    ensures forall x {:trigger x in r} :: x in r <==> x == m || x in sorted
  {
    if sorted == [] then [m]
    else if Newer(m, sorted[0]) then [m] + sorted
    else [sorted[0]] + Insert(m, sorted[1..])
  }

  function NewestFirst(rows: seq<Memory>): (r: seq<Memory>)
    ensures forall m {:trigger m in r} :: m in r <==> m in rows
  {
    if rows == [] then [] else Insert(rows[0], NewestFirst(rows[1..]))
  }

  // A query without a project is not a query for project-less rows: it sees every project.
  predicate Visible(m: Memory, user: string, project: Option<string>) {
    m.slot.user == user && (project.None? || m.slot.project == project || m.slot.project.None?)
  }

  function Where(user: string, project: Option<string>, status: Option<Status>,
                 memoryType: Option<string>, key: Option<string>): Memory -> bool {
    (m: Memory) =>
      && Visible(m, user, project)
      && (status.None? || m.status == status.value)
      && (memoryType.None? || m.slot.memoryType == memoryType.value)
      && (key.None? || m.slot.key == key.value)
  }

  function InProject(project: Option<string>): Memory -> bool {
    (m: Memory) => m.slot.project == project
  }

  function ListMemories(rows: seq<Memory>, user: string, project: Option<string>, status: Option<Status>,
                        memoryType: Option<string>, key: Option<string>): (r: seq<Memory>)
    ensures forall m {:trigger m in r} :: m in r <==>
      && m in rows && m.slot.user == user
      && (project.None? || m.slot.project == project || m.slot.project.None?)
      && (status.None? || m.status == status.value)
      && (memoryType.None? || m.slot.memoryType == memoryType.value)
      && (key.None? || m.slot.key == key.value)
  {
    NewestFirst(Select(rows, Where(user, project, status, memoryType, key)))
  }

  ghost predicate StrictlyNewestFirst(rows: seq<Memory>) {
    forall i, j :: 0 <= i < j < |rows| ==> Newer(rows[i], rows[j])
  }

  ghost predicate DistinctIds(rows: seq<Memory>) {
    forall i, j :: 0 <= i < j < |rows| ==> rows[i].id != rows[j].id
  }

  lemma {:induction false} SelectKeepsIdsDistinct(rows: seq<Memory>, keep: Memory -> bool)
    requires DistinctIds(rows)
    ensures DistinctIds(Select(rows, keep))
  {
    if rows != [] {
      SelectKeepsIdsDistinct(rows[1..], keep);
      var rest := Select(rows[1..], keep);
      forall m | m in rest ensures m.id != rows[0].id {
        var i :| 0 <= i < |rows[1..]| && rows[1..][i] == m;
        assert rows[i + 1] == m;
      }
    }
  }

  lemma {:induction false} SelectKeepsOrder(rows: seq<Memory>, keep: Memory -> bool)
    requires StrictlyNewestFirst(rows)
    ensures StrictlyNewestFirst(Select(rows, keep))
  {
    if rows != [] {
      SelectKeepsOrder(rows[1..], keep);
      forall m | m in Select(rows[1..], keep) ensures Newer(rows[0], m) {
        var i :| 0 <= i < |rows[1..]| && rows[1..][i] == m;
        assert rows[i + 1] == m;
      }
    }
  }

  lemma {:induction false} InsertKeepsOrder(m: Memory, sorted: seq<Memory>)
    requires StrictlyNewestFirst(sorted)
    requires m.id.Some? && forall x :: x in sorted ==> x.id.Some? && x.id != m.id
    ensures StrictlyNewestFirst(Insert(m, sorted))
  {
    if sorted != [] && !Newer(m, sorted[0]) {
      InsertKeepsOrder(m, sorted[1..]);
      assert forall x :: x in sorted[1..] ==> Newer(sorted[0], x) by {
        forall x | x in sorted[1..] ensures Newer(sorted[0], x) {
          var i :| 0 <= i < |sorted[1..]| && sorted[1..][i] == x;
          assert sorted[i + 1] == x;
        }
      }
      assert sorted[0] in sorted;
      assert forall x :: x in Insert(m, sorted[1..]) ==> Newer(sorted[0], x);
    }
  }

  lemma {:induction false} NewestFirstSorts(rows: seq<Memory>)
    requires DistinctIds(rows) && forall m :: m in rows ==> m.id.Some?
    ensures StrictlyNewestFirst(NewestFirst(rows))
  {
    if rows != [] {
      forall m | m in rows[1..] ensures m.id != rows[0].id && m in rows {
        var i :| 0 <= i < |rows[1..]| && rows[1..][i] == m;
        assert rows[i + 1] == m;
      }
      NewestFirstSorts(rows[1..]);
      InsertKeepsOrder(rows[0], NewestFirst(rows[1..]));
    }
  }

  lemma {:induction false} ListMemoriesIsOrdered(rows: seq<Memory>, user: string, project: Option<string>, status: Option<Status>,
                              memoryType: Option<string>, key: Option<string>)
    requires NumberedRows(rows)
    ensures var r := ListMemories(rows, user, project, status, memoryType, key);
      && StrictlyNewestFirst(r)
      && forall i, j :: 0 <= i < j < |r| ==>
           && r[i].id.Some? && r[j].id.Some?
           && (r[i].updatedAt > r[j].updatedAt || (r[i].updatedAt == r[j].updatedAt && r[i].id.value > r[j].id.value))
  {
    var keep := Where(user, project, status, memoryType, key);
    SelectKeepsIdsDistinct(rows, keep);
    NewestFirstSorts(Select(rows, keep));
    var r := ListMemories(rows, user, project, status, memoryType, key);
    forall i | 0 <= i < |r| ensures r[i].id.Some? {
      assert r[i] in r;
    }
  }

  // ------------------------------------------------------------------
  // UPDATE ... WHERE id = ?   (a statement matching no row changes nothing)
  // ------------------------------------------------------------------

  function Put(rows: seq<Memory>, m: Memory): (r: seq<Memory>)
    ensures |r| == |rows|
  {
    if 1 <= IdOf(m) <= |rows| then rows[IdOf(m) - 1 := m] else rows
  }

  function PutAll(rows: seq<Memory>, items: seq<Memory>): (r: seq<Memory>)
    ensures |r| == |rows|
  {
    if items == [] then rows else Put(PutAll(rows, items[..|items| - 1]), items[|items| - 1])
  }

  ghost predicate NamesRows(items: seq<Memory>, rows: seq<Memory>) {
    DistinctIds(items) && forall k :: 0 <= k < |items| ==> 1 <= IdOf(items[k]) <= |rows|
  }

  // What a batch of updates leaves in a row it names, and in one it does not.
  lemma {:induction false} PutAllNamed(rows: seq<Memory>, items: seq<Memory>, k: nat)
    requires NamesRows(items, rows) && k < |items|
    ensures PutAll(rows, items)[IdOf(items[k]) - 1] == items[k]
  {
    if k < |items| - 1 {
      PutAllNamed(rows, items[..|items| - 1], k);
      assert items[k].id != items[|items| - 1].id;
    }
  }

  lemma {:induction false} PutAllUnnamed(rows: seq<Memory>, items: seq<Memory>, i: nat)
    requires NamesRows(items, rows) && i < |rows| && forall k :: 0 <= k < |items| ==> IdOf(items[k]) != i + 1
    ensures PutAll(rows, items)[i] == rows[i]
  {
    if items != [] {
      var front := items[..|items| - 1];
      assert forall k :: 0 <= k < |front| ==> front[k] == items[k];
      PutAllUnnamed(rows, front, i);
    }
  }

  lemma {:induction false} NumberedIdsAreDistinct(rows: seq<Memory>, items: seq<Memory>)
    requires NumberedRows(rows) && DistinctIds(items) && forall m :: m in items ==> m in rows
    ensures NamesRows(items, rows)
    ensures forall k :: 0 <= k < |items| ==> items[k] == rows[IdOf(items[k]) - 1]
  {
    forall k | 0 <= k < |items| ensures 1 <= IdOf(items[k]) <= |rows| && items[k] == rows[IdOf(items[k]) - 1] {
      assert items[k] in rows;
      var i :| 0 <= i < |rows| && rows[i] == items[k];
    }
  }

  // Overwriting the rows `gone` of a table by `items`, seen at row `i`.
  lemma {:induction false} PutAllOver(table: seq<Memory>, gone: seq<Memory>, items: seq<Memory>, i: nat)
    requires NumberedRows(table) && NamesRows(gone, table) && i < |table|
    requires forall k :: 0 <= k < |gone| ==> gone[k] == table[IdOf(gone[k]) - 1]
    requires |items| == |gone| && forall k :: 0 <= k < |gone| ==> items[k].id == gone[k].id
    ensures table[i] !in gone ==> PutAll(table, items)[i] == table[i]
    ensures table[i] in gone ==> exists k :: 0 <= k < |gone| && gone[k] == table[i] && PutAll(table, items)[i] == items[k]
  {
    if table[i] in gone {
      var k :| 0 <= k < |gone| && gone[k] == table[i];
      PutAllNamed(table, items, k);
    } else {
      forall k | 0 <= k < |items| ensures IdOf(items[k]) != i + 1 {
        assert gone[k] in gone;
      }
      PutAllUnnamed(table, items, i);
    }
  }

  // Two rounds of updates of the same rows, with an insert between them, leave what the last round wrote.
  lemma {:induction false} PutAllTwice(rows: seq<Memory>, tail: seq<Memory>, a: seq<Memory>, b: seq<Memory>)
    requires NamesRows(a, rows) && |a| == |b| && forall k :: 0 <= k < |a| ==> b[k].id == a[k].id
    ensures PutAll(PutAll(rows, a) + tail, b) == PutAll(rows + tail, b)
  {
    assert forall k :: 0 <= k < |b| ==> IdOf(b[k]) == IdOf(a[k]);
    assert NamesRows(b, rows);
    var middle := PutAll(rows, a) + tail;
    var left, right := PutAll(middle, b), PutAll(rows + tail, b);
    forall i: nat | i < |left| ensures left[i] == right[i] {
      if k :| 0 <= k < |b| && IdOf(b[k]) == i + 1 {
        PutAllNamed(middle, b, k);
        PutAllNamed(rows + tail, b, k);
      } else {
        PutAllUnnamed(middle, b, i);
        PutAllUnnamed(rows + tail, b, i);
        if i < |rows| {
          PutAllUnnamed(rows, a, i);
        }
      }
    }
  }
}
