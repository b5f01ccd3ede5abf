/** The run validator's third check: no (lane, msg) message_end is recorded twice unless something
    annulled the first recording in between. */
module RunValidator {
  import opened Wrappers

  datatype Event =
    | MessageEnd(lane: Option<string>, msg: Option<int>)
    | MessageRetracted(lane: Option<string>, msg: Option<int>)
    | HistoryRewritten(lane: Option<string>, kept: Option<int>)
    | Unrelated

  type Key = (Option<string>, Option<int>)

  predicate Records(e: Event, key: Key) {
    e.MessageEnd? && (e.lane, e.msg) == key
  }

  // A rewrite keeps the messages below `kept`; without a message number or a bound it removes nothing.
  predicate Annuls(e: Event, key: Key) {
    || (e.MessageRetracted? && (e.lane, e.msg) == key)
    || (e.HistoryRewritten? && e.lane == key.0 && key.1.Some? && e.kept.Some? && key.1.value >= e.kept.value)
  }

  // Events `i` and `j` record the same key and nothing between them annuls the first.
  ghost predicate Redundant(events: seq<Event>, i: int, j: int) {
    && 0 <= i < j < |events| && events[i].MessageEnd? && events[i] == events[j]
    && forall k :: i < k < j ==> !Annuls(events[k], (events[i].lane, events[i].msg))
  }

  ghost predicate LiveAfter(events: seq<Event>, n: nat, key: Key)
    requires n <= |events|
  {
    exists i :: 0 <= i < n && Records(events[i], key) && forall k :: i < k < n ==> !Annuls(events[k], key)
  }

  lemma LiveAfterNext(events: seq<Event>, n: nat, key: Key)
    requires n < |events|
    ensures LiveAfter(events, n + 1, key) <==>
      Records(events[n], key) || (LiveAfter(events, n, key) && !Annuls(events[n], key))
  {
  }

  lemma RedundantIffLive(events: seq<Event>, j: nat)
    requires j < |events| && events[j].MessageEnd?
    ensures LiveAfter(events, j, (events[j].lane, events[j].msg)) <==> exists i :: Redundant(events, i, j)
  {
    var key := (events[j].lane, events[j].msg);
    if LiveAfter(events, j, key) {
      var i :| 0 <= i < j && Records(events[i], key) && forall k :: i < k < j ==> !Annuls(events[k], key);
      assert Redundant(events, i, j);
    }
    if i :| Redundant(events, i, j) {
      assert Records(events[i], key);
    }
  }

  // One pass over the log finds exactly the redundant recordings, so the check fails exactly when the
  // log holds two events of the kind described.
  method FindDuplicates(events: seq<Event>) returns (duplicates: seq<nat>)
    ensures forall j :: j in duplicates <==> j < |events| && exists i :: Redundant(events, i, j)
    ensures duplicates != [] <==> exists i, j :: Redundant(events, i, j)
  {
    var live: set<Key> := {};
    duplicates := [];
    for n := 0 to |events|
      invariant forall key :: key in live <==> LiveAfter(events, n, key)
      invariant forall j :: j in duplicates <==> j < n && exists i :: Redundant(events, i, j)
    {
      forall key: Key {
        LiveAfterNext(events, n, key);
      }
      match events[n]
      case MessageEnd(lane, msg) =>
        RedundantIffLive(events, n);
        if (lane, msg) in live {
          duplicates := duplicates + [n];
        }
        live := live + {(lane, msg)};
      case MessageRetracted(lane, msg) =>
        live := live - {(lane, msg)};
      case HistoryRewritten(lane, kept) =>
        live := set key | key in live && !(key.0 == lane && key.1.Some? && kept.Some? && key.1.value >= kept.value);
      case Unrelated =>
    }
    if i, j :| Redundant(events, i, j) {
      var found: nat := j;
      assert found in duplicates;
    }
    if duplicates != [] {
      assert duplicates[0] in duplicates;
    }
  }
}
