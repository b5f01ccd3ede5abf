/** The mem0 bridge's audit of engine receipts against the observed store: claims per memory id on one
    side, the difference of two snapshots on the other. */
module Mem0Audit {
  import opened Wrappers

  datatype Event = Add | Update | Delete | Nothing

  // A receipt without an id (absent or empty) cannot be cited and claims nothing.
  datatype Receipt = Receipt(id: Option<string>, event: Event)

  datatype Action = Creating | Updating | Deleting

  datatype Drift = Unclaimed(id: string, action: Action) | Unreflected(id: string)

  // A snapshot row: its text, or None when the engine carries none. Only non-empty text has a digest.
  type Store = map<string, Option<string>>

  function Digest(text: Option<string>): Option<string> {
    if text == Some("") then None else text
  }

  // ------------------------------------------------------------------
  // Claims
  // ------------------------------------------------------------------

  function ActionOf(e: Event): Option<Action> {
    match e case Add => Some(Creating) case Update => Some(Updating) case Delete => Some(Deleting) case Nothing => None
  }

  predicate Claims(r: Receipt, id: string, action: Action) {
    r.id == Some(id) && id != "" && ActionOf(r.event) == Some(action)
  }

  ghost predicate ClaimedBy(receipts: seq<Receipt>, id: string, action: Action) {
    exists k :: 0 <= k < |receipts| && Claims(receipts[k], id, action)
  }

  // The table lists exactly the receipts' claims.
  ghost predicate ClaimTable(claimed: map<string, set<Action>>, receipts: seq<Receipt>) {
    && (forall id, action :: (id in claimed && action in claimed[id]) <==> ClaimedBy(receipts, id, action))
    && (forall id :: id in claimed ==> claimed[id] != {})
  }

  lemma ClaimedByOneMore(receipts: seq<Receipt>, r: Receipt, id: string, action: Action)
    ensures ClaimedBy(receipts + [r], id, action) <==> ClaimedBy(receipts, id, action) || Claims(r, id, action)
  {
    var more := receipts + [r];
    if ClaimedBy(receipts, id, action) {
      var k :| 0 <= k < |receipts| && Claims(receipts[k], id, action);
      assert more[k] == receipts[k];
    }
    if Claims(r, id, action) {
      assert more[|receipts|] == r;
    }
  }

  method CollectClaims(receipts: seq<Receipt>) returns (claimed: map<string, set<Action>>)
    ensures ClaimTable(claimed, receipts)
  {
    claimed := map[];
    for n := 0 to |receipts|
      invariant ClaimTable(claimed, receipts[..n])
    {
      var r := receipts[n];
      assert receipts[..n + 1] == receipts[..n] + [r];
      forall id, action {
        ClaimedByOneMore(receipts[..n], r, id, action);
      }
      var action := ActionOf(r.event);
      if r.id.Some? && r.id.value != "" && action.Some? {
        var id := r.id.value;
        claimed := claimed[id := (if id in claimed then claimed[id] else {}) + {action.value}];
        assert action.value in claimed[id];
      }
    }
    assert receipts[..|receipts|] == receipts;
  }

  // ------------------------------------------------------------------
  // The audit
  // ------------------------------------------------------------------

  // The action the two snapshots show on an id, if any.
  function Observed(before: Store, after: Store, id: string): Option<Action> {
    if id in after && id !in before then Some(Creating)
    else if id in after && id in before && Digest(before[id]) != Digest(after[id]) then Some(Updating)
    else if id in before && id !in after then Some(Deleting)
    else None
  }

  ghost predicate Receipted(before: Store, after: Store, claimed: map<string, set<Action>>, id: string) {
    var seen := Observed(before, after, id);
    seen.None? || (id in claimed && seen.value in claimed[id])
  }

  ghost predicate Reflected(after: Store, claimed: map<string, set<Action>>, id: string)
    requires id in claimed
  {
    Deleting in claimed[id] <==> id !in after
  }

  // No line of drift: every observed difference has its receipt, every claim its net effect.
  ghost predicate Clean(before: Store, after: Store, claimed: map<string, set<Action>>) {
    && (forall id :: id in before.Keys + after.Keys ==> Receipted(before, after, claimed, id))
    && (forall id :: id in claimed ==> Reflected(after, claimed, id))
  }

  method AuditAgainstState(before: Option<Store>, after: Option<Store>, claimed: map<string, set<Action>>) returns (drift: seq<Drift>)
    ensures before.None? || after.None? ==> drift == []
    ensures before.Some? && after.Some? ==> (drift == [] <==> Clean(before.value, after.value, claimed))
    ensures forall d :: d in drift && d.Unclaimed? ==>
      && before.Some? && after.Some? && Observed(before.value, after.value, d.id) == Some(d.action)
      && !(d.id in claimed && d.action in claimed[d.id])
  {
    drift := [];
    if before.None? || after.None? {
      return;
    }
    var todo := before.value.Keys + after.value.Keys;
    while todo != {}
      invariant todo <= before.value.Keys + after.value.Keys
      invariant drift == [] <==> forall id :: id in before.value.Keys + after.value.Keys && id !in todo ==>
        Receipted(before.value, after.value, claimed, id)
      invariant forall d :: d in drift && d.Unclaimed? ==>
        && Observed(before.value, after.value, d.id) == Some(d.action)
        && !(d.id in claimed && d.action in claimed[d.id])
      decreases todo
    {
      var id :| id in todo;
      todo := todo - {id};
      var seen := Observed(before.value, after.value, id);
      if seen.Some? && !(id in claimed && seen.value in claimed[id]) {
        drift := drift + [Unclaimed(id, seen.value)];
      }
    }
    ghost var first := drift;
    todo := claimed.Keys;
    while todo != {}
      invariant todo <= claimed.Keys
      invariant drift == [] <==> first == [] && forall id :: id in claimed && id !in todo ==> Reflected(after.value, claimed, id)
      invariant forall d :: d in drift && d.Unclaimed? ==>
        && Observed(before.value, after.value, d.id) == Some(d.action)
        && !(d.id in claimed && d.action in claimed[d.id])
      decreases todo
    {
      var id :| id in todo;
      todo := todo - {id};
      if (Deleting in claimed[id]) == (id in after.value) {
        drift := drift + [Unreflected(id)];
      }
    }
  }

  // ------------------------------------------------------------------
  // What a clean audit means
  // ------------------------------------------------------------------

  ghost function DeleteClaimed(claimed: map<string, set<Action>>): set<string> {
    set id | id in claimed && Deleting in claimed[id]
  }

  // The same text, or none on either side; an empty one counts as none.
  predicate SameText(a: Option<string>, b: Option<string>) {
    a == b || ((a.None? || a.value == "") && (b.None? || b.value == ""))
  }

  // Exactly: the ids moved as claimed, what appeared was claimed as an add, what disappeared as a delete,
  // and only text claimed as updated changed. So text is unchanged on every unclaimed id.
  lemma CleanMeans(before: Store, after: Store, claimed: map<string, set<Action>>)
    ensures Clean(before, after, claimed) <==>
      && after.Keys == (before.Keys + claimed.Keys) - DeleteClaimed(claimed)
      && (forall id :: id in after.Keys - before.Keys ==> Creating in claimed[id])
      && (forall id :: id in after.Keys * before.Keys && !SameText(before[id], after[id]) ==>
            id in claimed && Updating in claimed[id])
  {
    if Clean(before, after, claimed) {
      forall id | id in before.Keys + after.Keys + claimed.Keys
        ensures id in after <==> id in (before.Keys + claimed.Keys) - DeleteClaimed(claimed)
        ensures id in after && id !in before ==> id in claimed && Creating in claimed[id]
      {
        assert id in before.Keys + after.Keys ==> Receipted(before, after, claimed, id);
        assert id in claimed ==> Reflected(after, claimed, id);
      }
      forall id | id in after.Keys * before.Keys && !SameText(before[id], after[id])
        ensures id in claimed && Updating in claimed[id]
      {
        assert Receipted(before, after, claimed, id);
      }
    } else if after.Keys == (before.Keys + claimed.Keys) - DeleteClaimed(claimed) {
      forall id | id in claimed ensures Reflected(after, claimed, id) {
        assert id in after.Keys <==> id in (before.Keys + claimed.Keys) - DeleteClaimed(claimed);
      }
    }
  }

  // ------------------------------------------------------------------
  // An honest engine
  // ------------------------------------------------------------------

  datatype Step = Minted(id: string, text: Option<string>) | Rewrote(id: string, text: Option<string>) | Removed(id: string) | Ignored

  // Every action leaves its receipt.
  function ReceiptOf(s: Step): Receipt {
    match s
    case Minted(id, _) => Receipt(Some(id), Add)
    case Rewrote(id, _) => Receipt(Some(id), Update)
    case Removed(id) => Receipt(Some(id), Delete)
    case Ignored => Receipt(None, Nothing)
  }

  function ReceiptsOf(steps: seq<Step>): (r: seq<Receipt>)
    ensures |r| == |steps| && forall k :: 0 <= k < |steps| ==> r[k] == ReceiptOf(steps[k])
  {
    seq(|steps|, k requires 0 <= k < |steps| => ReceiptOf(steps[k]))
  }

  function Apply(store: Store, s: Step): Store {
    match s
    case Minted(id, text) => store[id := text]
    case Rewrote(id, text) => store[id := text]
    case Removed(id) => store - {id}
    case Ignored => store
  }

  function Run(store: Store, steps: seq<Step>): Store {
    if steps == [] then store else Apply(Run(store, steps[..|steps| - 1]), steps[|steps| - 1])
  }

  // Ids the batch or the store before it ever used.
  ghost function Used(store: Store, steps: seq<Step>): set<string> {
    if steps == [] then store.Keys
    else
      var s := steps[|steps| - 1];
      Used(store, steps[..|steps| - 1]) + (if s.Minted? then {s.id} else {})
  }

  // An add mints an id never used before; an update or a delete hits a live one; ids are not empty.
  ghost predicate Honest(store: Store, steps: seq<Step>) {
    steps == [] ||
      var front, s := steps[..|steps| - 1], steps[|steps| - 1];
      && Honest(store, front)
      && (s.Minted? ==> s.id !in Used(store, front) && s.id != "")
      && (s.Rewrote? || s.Removed? ==> s.id in Run(store, front) && s.id != "")
  }

  ghost predicate Did(steps: seq<Step>, id: string, action: Action) {
    ClaimedBy(ReceiptsOf(steps), id, action)
  }

  // What an honest batch leaves of an id: it is live iff it was there or was minted and was not removed,
  // and its text differs only where it was minted or rewritten.
  ghost predicate Left(store: Store, steps: seq<Step>, id: string) {
    var after, used := Run(store, steps), Used(store, steps);
    && (id in used <==> id in store || Did(steps, id, Creating))
    && (id in after <==> id in used && !Did(steps, id, Deleting))
    && (Did(steps, id, Deleting) || Did(steps, id, Updating) ==> id in used)
    && (id in store && id in after && after[id] != store[id] ==> Did(steps, id, Updating))
    && (Did(steps, id, Creating) ==> id !in store)
  }

  lemma {:induction false} DidOneMore(front: seq<Step>, s: Step, id: string, action: Action)
    ensures Did(front + [s], id, action) <==> Did(front, id, action) || Claims(ReceiptOf(s), id, action)
  {
    assert ReceiptsOf(front + [s]) == ReceiptsOf(front) + [ReceiptOf(s)];
    ClaimedByOneMore(ReceiptsOf(front), ReceiptOf(s), id, action);
  }

  lemma {:induction false} OneMoreStep(store: Store, front: seq<Step>, s: Step)
    requires Honest(store, front + [s])
    ensures Run(store, front + [s]) == Apply(Run(store, front), s)
    ensures Used(store, front + [s]) == Used(store, front) + if s.Minted? then {s.id} else {}
    ensures s.Minted? ==> s.id !in Used(store, front) && s.id != ""
    ensures s.Rewrote? || s.Removed? ==> s.id in Run(store, front) && s.id != ""
  {
    assert (front + [s])[..|front|] == front;
  }

  lemma {:induction false} LeftOneMore(store: Store, front: seq<Step>, s: Step, id: string)
    requires Honest(store, front + [s]) && Left(store, front, id)
    ensures Left(store, front + [s], id)
  {
    OneMoreStep(store, front, s);
    hide Run, Used, Honest;
    DidOneMore(front, s, id, Creating);
    DidOneMore(front, s, id, Updating);
    DidOneMore(front, s, id, Deleting);
    hide Did;
  }

  lemma {:induction false} HonestRun(store: Store, steps: seq<Step>, id: string)
    requires Honest(store, steps)
    ensures Left(store, steps, id)
  {
    if steps != [] {
      var front, s := steps[..|steps| - 1], steps[|steps| - 1];
      assert front + [s] == steps;
      HonestRun(store, front, id);
      LeftOneMore(store, front, s, id);
    }
  }

  // An honest engine's receipts always audit clean.
  lemma HonestIsClean(store: Store, steps: seq<Step>, claimed: map<string, set<Action>>)
    requires Honest(store, steps)
    requires ClaimTable(claimed, ReceiptsOf(steps))
    ensures Clean(store, Run(store, steps), claimed)
  {
    var after := Run(store, steps);
    forall id | id in claimed ensures Reflected(after, claimed, id) {
      HonestRun(store, steps, id);
      var action :| action in claimed[id];
      assert Did(steps, id, action);
      assert Deleting in claimed[id] <==> Did(steps, id, Deleting);
    }
    forall id | id in store.Keys + after.Keys ensures Receipted(store, after, claimed, id) {
      HonestRun(store, steps, id);
      var seen := Observed(store, after, id);
      assert seen.Some? ==> Did(steps, id, seen.value);
    }
  }
}
