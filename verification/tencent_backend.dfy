/** The TencentDB bridge's write side: buffered messages sent in chunks over a gateway that may fail any
    call, and the exactly-once count of produced row versions. */
module TencentBackend {
  import opened Wrappers
  import opened TencentClient

  const ADD_CHUNK_MESSAGES: nat := 100

  type VersionKey = (string, int)

  // An absent version is version 0, the store's default for a fresh row.
  function KeyOf(row: Row): VersionKey {
    (row.id, if row.version.Some? then row.version.value else 0)
  }

  predicate RowIsFresh(row: Row) {
    row.version.None? || row.version.value < 1
  }

  function KeysOf(rows: seq<Row>): set<VersionKey> {
    set i | 0 <= i < |rows| && rows[i].id != "" :: KeyOf(rows[i])
  }

  // A row without a version is its first one.
  predicate Carries(row: Row, id: string, version: int) {
    row.id == id && (row.version == Some(version) || (row.version.None? && version == 0))
  }

  lemma KeysOfMeans(rows: seq<Row>, id: string, version: int)
    ensures (id, version) in KeysOf(rows) <==> id != "" && exists i :: 0 <= i < |rows| && Carries(rows[i], id, version)
  {
    if i :| 0 <= i < |rows| && Carries(rows[i], id, version) {
      assert id != "" ==> KeyOf(rows[i]) in KeysOf(rows);
    }
  }

  predicate CallFails(failures: seq<bool>, k: nat) {
    k < |failures| && failures[k]
  }

  ghost predicate NoneFails(failures: seq<bool>, from: nat, to: nat) {
    forall j: nat :: from <= j < to ==> !CallFails(failures, j)
  }

  // The first of the `n` calls from `from` on that fails, or the one after them.
  function FirstFailure(failures: seq<bool>, from: nat, n: nat): (k: nat)
    ensures from <= k <= from + n && NoneFails(failures, from, k)
    ensures k < from + n ==> CallFails(failures, k)
    decreases n
  {
    if n == 0 || CallFails(failures, from) then from else FirstFailure(failures, from + 1, n - 1)
  }

  function Chunks(messages: nat): nat {
    (messages + ADD_CHUNK_MESSAGES - 1) / ADD_CHUNK_MESSAGES
  }

  function FreshIn(rows: seq<Row>): (n: nat)
    ensures n <= |rows|
  {
    if rows == [] then 0 else FreshIn(rows[..|rows| - 1]) + if RowIsFresh(rows[|rows| - 1]) then 1 else 0
  }

  // `produced` and `seen` after the walk went over `rows`.
  ghost predicate Sighted(rows: seq<Row>, counted: set<VersionKey>, produced: seq<Row>, seen: set<VersionKey>) {
    && seen == counted + KeysOf(rows)
    && KeysOf(produced) == KeysOf(rows) - counted && |produced| == |KeysOf(produced)|
  }

  lemma SightOneMore(rows: seq<Row>, row: Row, counted: set<VersionKey>, produced: seq<Row>, seen: set<VersionKey>)
    requires Sighted(rows, counted, produced, seen)
    ensures if row.id == "" || KeyOf(row) in seen then Sighted(rows + [row], counted, produced, seen)
            else Sighted(rows + [row], counted, produced + [row], seen + {KeyOf(row)})
  {
    KeysOfOneMore(rows, row);
    KeysOfOneMore(produced, row);
    hide KeysOf;
  }

  // The rows whose (id, version) is not in `counted`, each key once, in order of first sighting.
  method FirstSightings(rows: seq<Row>, counted: set<VersionKey>) returns (produced: seq<Row>, seen: set<VersionKey>)
    ensures Sighted(rows, counted, produced, seen)
  {
    hide Sighted, KeysOf;
    produced, seen := [], counted;
    NoneSighted(counted);
    for i := 0 to |rows|
      invariant Sighted(rows[..i], counted, produced, seen)
    {
      SightOneMore(rows[..i], rows[i], counted, produced, seen);
      assert rows[..i + 1] == rows[..i] + [rows[i]];
      if rows[i].id == "" || KeyOf(rows[i]) in seen {
        continue;
      }
      seen := seen + {KeyOf(rows[i])};
      produced := produced + [rows[i]];
    }
    assert rows[..|rows|] == rows;
  }

  lemma NoneSighted(counted: set<VersionKey>)
    ensures Sighted([], counted, [], counted)
  {
  }

  lemma CountedOnce(before: set<VersionKey>, more: set<VersionKey>)
    requires before !! more
    ensures |before + more| == |before| + |more|
  {
  }

  lemma KeysOfOneMore(rows: seq<Row>, row: Row)
    ensures KeysOf(rows + [row]) == KeysOf(rows) + if row.id == "" then {} else {KeyOf(row)}
  {
    var more := rows + [row];
    forall i | 0 <= i < |rows| ensures more[i] == rows[i] {
    }
    assert more[|rows|] == row;
    forall key | key in KeysOf(rows) ensures key in KeysOf(more) {
      var i :| 0 <= i < |rows| && rows[i].id != "" && KeyOf(rows[i]) == key;
      assert more[i] == rows[i];
    }
  }

  // The row versions that count as added: no update of the row has been seen.
  function FirstVersions(keys: set<VersionKey>): set<VersionKey> {
    set key | key in keys && key.1 < 1
  }

  lemma {:induction false} KeysAreFew(rows: seq<Row>)
    ensures |KeysOf(rows)| <= |rows|
  {
    if rows == [] {
      assert KeysOf(rows) == {};
      return;
    }
    hide KeysOf;
    KeysAreFew(rows[..|rows| - 1]);
    KeysOfOneMore(rows[..|rows| - 1], rows[|rows| - 1]);
    assert rows == rows[..|rows| - 1] + [rows[|rows| - 1]];
  }

  // Of rows with distinct keys the fresh ones are as many as their first versions.
  lemma {:induction false} FreshAreFirst(rows: seq<Row>)
    requires |rows| == |KeysOf(rows)|
    ensures FreshIn(rows) == |FirstVersions(KeysOf(rows))|
  {
    if rows == [] {
      assert KeysOf(rows) == {} && FirstVersions(KeysOf(rows)) == {};
      return;
    }
    hide KeysOf, FirstVersions;
    var front, last := rows[..|rows| - 1], rows[|rows| - 1];
    assert rows == front + [last];
    KeysOfOneMore(front, last);
    KeysAreFew(front);
    assert KeyOf(last) !in KeysOf(front) && last.id != "";
    assert KeysOf(front) !! {KeyOf(last)};
    CountedOnce(KeysOf(front), {KeyOf(last)});
    FreshAreFirst(front);
    FirstVersionsJoin(KeysOf(front), {KeyOf(last)});
    FirstVersionOf(last);
  }

  lemma FirstVersionOf(row: Row)
    ensures |FirstVersions({KeyOf(row)})| == if RowIsFresh(row) then 1 else 0
  {
    assert FirstVersions({KeyOf(row)}) == if RowIsFresh(row) then {KeyOf(row)} else {};
  }

  lemma FirstVersionsJoin(a: set<VersionKey>, b: set<VersionKey>)
    requires a !! b
    ensures |FirstVersions(a + b)| == |FirstVersions(a)| + |FirstVersions(b)|
  {
    assert FirstVersions(a + b) == FirstVersions(a) + FirstVersions(b);
    CountedOnce(FirstVersions(a), FirstVersions(b));
  }

  // What one extraction tick came to: not ready, a failed gateway call, or a resolve that was counted.
  datatype Tick = Unready | Failed | Counted(rows: seq<Row>)

  datatype Command = Store(text: string) | Extract(final: bool, drained: bool, answer: Option<seq<Row>>)

  // What decides the ticks of a run: how many messages are stored and confirmed, how many gateway
  // calls were made, and whether an add ever succeeded.
  datatype Shadow = Shadow(stored: nat, confirmed: nat, calls: nat, added: bool)

  function Unsent(s: Shadow): nat {
    if s.confirmed <= s.stored then s.stored - s.confirmed else 0
  }

  predicate ReadyAt(s: Shadow, final: bool) {
    Unsent(s) > 0 || (final && s.added)
  }

  function AddEnd(s: Shadow, failures: seq<bool>): nat {
    FirstFailure(failures, s.calls, Chunks(Unsent(s)))
  }

  // A ready tick counts exactly when its add had no failed call, it drained and it was answered.
  function TickOf(s: Shadow, c: Command, failures: seq<bool>): Tick {
    if c.Store? || !ReadyAt(s, c.final) then Unready
    else if AddEnd(s, failures) == s.calls + Chunks(Unsent(s)) && c.drained && c.answer.Some? then Counted(c.answer.value)
    else Failed
  }

  // The same, said of the failed calls themselves.
  lemma TickCounts(s: Shadow, final: bool, drained: bool, answer: Option<seq<Row>>, failures: seq<bool>)
    ensures var tick, ready := TickOf(s, Extract(final, drained, answer), failures), Unsent(s) > 0 || (final && s.added);
      && (tick.Unready? <==> !ready)
      && (tick.Counted? <==> ready && NoneFails(failures, s.calls, s.calls + (Unsent(s) + 99) / 100) && drained && answer.Some?)
      && (tick.Counted? ==> tick.rows == answer.value)
  {
  }

  // A failed add confirms the chunks of the calls before the failed one, 100 messages each.
  function Stepped(s: Shadow, c: Command, failures: seq<bool>): Shadow {
    if c.Store? then s.(stored := s.stored + 1)
    else if !ReadyAt(s, c.final) then s
    else
      var k := AddEnd(s, failures);
      if k == s.calls + Chunks(Unsent(s)) then Shadow(s.stored, s.stored, k, s.added || Unsent(s) > 0)
      else Shadow(s.stored, s.confirmed + ADD_CHUNK_MESSAGES * (k - s.calls), k + 1, s.added)
  }

  function ShadowAfter(script: seq<Command>, failures: seq<bool>): Shadow {
    if script == [] then Shadow(0, 0, 0, false)
    else Stepped(ShadowAfter(script[..|script| - 1], failures), script[|script| - 1], failures)
  }

  function KeysOfTick(tick: Tick): set<VersionKey> {
    if tick.Counted? then KeysOf(tick.rows) else {}
  }

  class TencentDBBackend {
    // Whether call `k` of conversation/add in this episode fails.
    const failures: seq<bool>
    var calls: nat
    var pending: seq<string>
    var added: bool
    var windowOpen: bool
    var counted: set<VersionKey>
    var memoriesAdded: nat
    var memoriesUpdated: nat
    ghost var confirmed: seq<string>       // messages whose chunk's response came back
    ghost var stored: seq<string>          // every message ever buffered
    ghost var resolved: set<VersionKey>    // row versions any successful extraction's resolve returned

    constructor (failures: seq<bool>)
      ensures Valid() && this.failures == failures && stored == [] && resolved == {} && Now() == Shadow(0, 0, 0, false)
    {
      this.failures := failures;
      calls, pending, added, windowOpen := 0, [], false, false;
      counted, memoriesAdded, memoriesUpdated := {}, 0, 0;
      confirmed, stored, resolved := [], [], {};
    }

    // No message is lost, reordered or confirmed twice; every row version is counted exactly once.
    ghost predicate Valid()
      reads this
    {
      && confirmed + pending == stored
      && counted == resolved
      && memoriesAdded + memoriesUpdated == |counted| && memoriesAdded == |FirstVersions(counted)|
      && (added ==> windowOpen)
    }

    ghost function Now(): Shadow
      reads this
    {
      Shadow(|stored|, |confirmed|, calls, added)
    }

    method StoreMessage(text: string)
      requires Valid()
      modifies this`pending, this`stored
      ensures Valid() && pending == old(pending) + [text] && stored == old(stored) + [text]
      ensures Now() == Stepped(old(Now()), Store(text), failures)
    {
      pending := pending + [text];
      stored := stored + [text];
      assert confirmed + pending == (confirmed + old(pending)) + [text];
    }

    method Post(chunk: seq<string>) returns (ok: bool)
      requires 0 < |chunk| <= ADD_CHUNK_MESSAGES
      modifies this`calls, this`confirmed
      ensures calls == old(calls) + 1 && (ok <==> !CallFails(failures, old(calls)))
      ensures confirmed == old(confirmed) + if ok then chunk else []
    {
      ok := !CallFails(failures, calls);
      calls := calls + 1;
      if ok {
        confirmed := confirmed + chunk;
      }
    }

    // The add succeeds exactly when none of its chunks' calls fails. On a failed call, `persisted` is
    // the length of the confirmed prefix, the chunks of the calls before it.
    method ConversationAdd(messages: seq<string>) returns (ok: bool, persisted: nat)
      modifies this`calls, this`confirmed
      ensures persisted <= |messages| && confirmed == old(confirmed) + messages[..persisted]
      ensures var k := FirstFailure(failures, old(calls), Chunks(|messages|));
        var last := old(calls) + Chunks(|messages|);
        && (ok <==> k == last)
        && calls == (if ok then last else k + 1)
        && persisted == if ok then |messages| else ADD_CHUNK_MESSAGES * (k - old(calls))
    {
      ok, persisted := true, 0;
      while persisted < |messages|
        invariant ok && persisted <= |messages| && confirmed == old(confirmed) + messages[..persisted]
        invariant calls == old(calls) + Chunks(persisted)
        invariant persisted == |messages| || persisted == ADD_CHUNK_MESSAGES * Chunks(persisted)
        invariant NoneFails(failures, old(calls), calls)
      {
        var end := if persisted + ADD_CHUNK_MESSAGES <= |messages| then persisted + ADD_CHUNK_MESSAGES else |messages|;
        ok := Post(messages[persisted..end]);
        if !ok {
          return;
        }
        assert messages[..end] == messages[..persisted] + messages[persisted..end];
        persisted := end;
      }
    }

    // A failed add keeps exactly the unconfirmed tail.
    method SendPending() returns (ok: bool)
      requires confirmed + pending == stored
      modifies this
      ensures var k := FirstFailure(failures, old(calls), Chunks(|old(pending)|));
        var last := old(calls) + Chunks(|old(pending)|);
        && (ok <==> k == last)
        && calls == (if ok then last else k + 1)
        && (!ok ==> |confirmed| == |old(confirmed)| + ADD_CHUNK_MESSAGES * (k - old(calls)))
      ensures ok ==> confirmed == old(stored) && added && pending == old(pending)
      ensures !ok ==> confirmed + pending == old(stored) && pending != [] && added == old(added)
      ensures stored == old(stored) && windowOpen == old(windowOpen) && counted == old(counted) && resolved == old(resolved)
      ensures memoriesAdded == old(memoriesAdded) && memoriesUpdated == old(memoriesUpdated)
    {
      var persisted;
      ok, persisted := ConversationAdd(pending);
      assert pending == pending[..persisted] + pending[persisted..];
      if !ok {
        pending := pending[persisted..];
        return;
      }
      added := true;
    }

    // Rows already counted, and rows without an id, are skipped.
    method CountProduced(rows: seq<Row>) returns (produced: seq<Row>)
      requires Valid()
      modifies this`counted, this`memoriesAdded, this`memoriesUpdated, this`resolved
      ensures Valid() && counted == old(counted) + KeysOf(rows) && resolved == old(resolved) + KeysOf(rows)
      ensures KeysOf(produced) == KeysOf(rows) - old(counted) && |produced| == |KeysOf(produced)|
      ensures memoriesAdded == old(memoriesAdded) + FreshIn(produced)
      ensures memoriesAdded == old(memoriesAdded) + |FirstVersions(KeysOf(rows) - old(counted))|
      ensures memoriesUpdated == old(memoriesUpdated) + |produced| - FreshIn(produced)
    {
      hide KeysOf, FreshIn, FirstVersions;
      ghost var before := counted;
      var seen;
      produced, seen := FirstSightings(rows, counted);
      CountedOnce(before, KeysOf(produced));
      FreshAreFirst(produced);
      FirstVersionsJoin(before, KeysOf(produced));
      assert before + KeysOf(produced) == seen;
      counted := seen;
      memoriesAdded := memoriesAdded + FreshIn(produced);
      memoriesUpdated := memoriesUpdated + (|produced| - FreshIn(produced));
      resolved := resolved + KeysOf(rows);
    }

    // One tick. The add, the drain and the resolve may each fail; only a failed add keeps the buffer,
    // and only a tick that resolves counts.
    method PerformExtraction(final: bool, drained: bool, answer: Option<seq<Row>>) returns (tick: Tick)
      requires Valid()
      modifies this
      ensures Valid() && stored == old(stored)
      ensures tick == TickOf(old(Now()), Extract(final, drained, answer), failures)
      ensures Now() == Stepped(old(Now()), Extract(final, drained, answer), failures)
      ensures resolved == old(resolved) + KeysOfTick(tick)
      // counted exactly when there was something to do, every call of the add went through, it drained and
      // was answered
      ensures var ready, calls := old(pending) != [] || (final && old(added)), (|old(pending)| + 99) / 100;
        && (tick.Unready? <==> !ready)
        && (tick.Counted? <==> ready && NoneFails(failures, old(this.calls), old(this.calls) + calls) && drained && answer.Some?)
        && (tick.Counted? ==> tick.rows == answer.value && pending == [] && confirmed == old(stored))
    {
      hide KeysOf, FirstFailure, FirstVersions, FreshIn, NoneFails;
      TickCounts(Now(), final, drained, answer, failures);
      if pending == [] && !(final && added) {
        return Unready;
      }
      if pending != [] {
        windowOpen := true;
        var sent := SendPending();
        if !sent {
          return Failed;
        }
        pending := [];
      }
      if !drained || (windowOpen && answer.None?) {
        return Failed;
      }
      var rows := if windowOpen then answer.value else [];
      var produced := CountProduced(rows);
      tick := Counted(rows);
    }
  }

  function TextsOf(script: seq<Command>): seq<string> {
    if script == [] then []
    else TextsOf(script[..|script| - 1]) + if script[|script| - 1].Store? then [script[|script| - 1].text] else []
  }

  function KeysOfTicks(ticks: seq<Tick>): set<VersionKey> {
    if ticks == [] then {} else KeysOfTicks(ticks[..|ticks| - 1]) + KeysOfTick(ticks[|ticks| - 1])
  }

  // Any interleaving of stores and ticks, whichever gateway calls fail: what the gateway confirmed,
  // followed by the buffer, is what was stored, in order; how much is confirmed and what each tick
  // came to is decided by the failed calls; and the counters total the distinct row versions that the
  // ticks which resolved were answered.
  method Episode(script: seq<Command>, failures: seq<bool>)
    returns (pending: seq<string>, total: nat, added: nat, ticks: seq<Tick>, ghost confirmed: seq<string>)
    ensures confirmed + pending == TextsOf(script)
    ensures |confirmed| == ShadowAfter(script, failures).confirmed
    ensures |ticks| == |script|
    ensures forall k :: 0 <= k < |ticks| ==> ticks[k] == TickOf(ShadowAfter(script[..k], failures), script[k], failures)
    ensures total == |KeysOfTicks(ticks)| && added == |FirstVersions(KeysOfTicks(ticks))|
  {
    hide KeysOf, TickOf, Stepped, FirstVersions;
    var backend := new TencentDBBackend(failures);
    ticks := [];
    for k := 0 to |script|
      invariant fresh(backend) && backend.Valid() && backend.failures == failures
      invariant backend.stored == TextsOf(script[..k]) && backend.Now() == ShadowAfter(script[..k], failures)
      invariant |ticks| == k && backend.resolved == KeysOfTicks(ticks)
      invariant forall j :: 0 <= j < k ==> ticks[j] == TickOf(ShadowAfter(script[..j], failures), script[j], failures)
    {
      assert script[..k + 1][..k] == script[..k];
      var tick := Serve(backend, script[k]);
      assert (ticks + [tick])[..k] == ticks;
      ticks := ticks + [tick];
    }
    assert script[..|script|] == script;
    pending, total, confirmed := backend.pending, backend.memoriesAdded + backend.memoriesUpdated, backend.confirmed;
    added := backend.memoriesAdded;
  }

  method Serve(backend: TencentDBBackend, c: Command) returns (tick: Tick)
    requires backend.Valid()
    modifies backend
    ensures backend.Valid() && backend.stored == old(backend.stored) + if c.Store? then [c.text] else []
    ensures backend.resolved == old(backend.resolved) + KeysOfTick(tick)
    ensures tick == TickOf(old(backend.Now()), c, backend.failures)
    ensures backend.Now() == Stepped(old(backend.Now()), c, backend.failures)
  {
    tick := Unready;
    match c
    case Store(text) =>
      backend.StoreMessage(text);
    case Extract(final, drained, answer) =>
      tick := backend.PerformExtraction(final, drained, answer);
  }
}
