/** Turning one model decision into deletions and candidates: layer addressing and the gates a
    candidate passes. The model's answer is an arbitrary input; whether a target's words occur in
    a memory, and whether a text is sensitive, are uninterpreted predicates. */
module CureExtractor {
  import opened Wrappers
  import opened CureModel
  import opened CureUpsert
  import opened CureInvariants

  // Texts arrive stripped, scopes stripped and lower-cased.
  datatype DeletionItem = DeletionItem(target: string, scope: string)

  datatype CandidateItem = CandidateItem(
    key: string, value: string, memoryType: string, confidence: real, status: Status,
    needsVerification: bool, scope: string, messageId: Option<nat>, bornAt: int)

  datatype Decision = Decision(deletions: seq<DeletionItem>, candidates: seq<CandidateItem>)

  datatype Judge = Judge(mentions: iset<(string, Memory)>, sensitive: iset<string>, blank: iset<string>)

  // Fail closed: only an exact "user" addresses the shared layer.
  predicate Addressed(m: Memory, scope: string, project: Option<string>) {
    if scope == "user" then m.slot.project.None?
    else if scope == "project" then m.slot.project.Some? && m.slot.project == project
    else m.slot.project == project
  }

  predicate Matches(m: Memory, item: DeletionItem, project: Option<string>, judge: Judge) {
    Live(m) && Addressed(m, item.scope, project) && (item.target, m) in judge.mentions
  }

  ghost predicate Deleting(m: Memory, items: seq<DeletionItem>, project: Option<string>, judge: Judge) {
    exists k :: 0 <= k < |items| && items[k].target != "" && Matches(m, items[k], project, judge)
  }

  // ------------------------------------------------------------------
  // Deletions
  // ------------------------------------------------------------------

  method MatchingMemories(memories: seq<Memory>, item: DeletionItem, project: Option<string>, judge: Judge)
    returns (matches: seq<Memory>)
    ensures forall m :: m in matches <==> m in memories && Matches(m, item, project, judge)
    // "user" reaches the general rows and no others; anything else this repository's rows, and outside a
    // repository the general ones, "project" then none
    ensures forall m :: m in matches <==>
      && m in memories && m.status !in {Deleted, Rejected, Archived, Superseded} && (item.target, m) in judge.mentions
      && m.slot.project == (if item.scope == "user" then None else project)
      && !(item.scope == "project" && project.None?)
  {
    matches := [];
    for i := 0 to |memories|
      invariant forall m :: m in matches <==> m in memories[..i] && Matches(m, item, project, judge)
    {
      if Matches(memories[i], item, project, judge) {
        matches := matches + [memories[i]];
      }
    }
  }

  method SelectDeletions(existing: seq<Memory>, items: seq<DeletionItem>, project: Option<string>, judge: Judge)
    returns (deleted: seq<Memory>)
    requires DistinctIds(existing) && forall m :: m in existing ==> m.id.Some?
    ensures DistinctIds(deleted)
    ensures forall m :: m in deleted <==> m in existing && Deleting(m, items, project, judge)
  {
    var deletedIds: set<nat> := {};
    deleted := [];
    for k := 0 to |items|
      invariant DistinctIds(deleted)
      invariant forall m :: m in deleted ==> m.id.Some? && m.id.value in deletedIds
      invariant forall m :: m in deleted <==> m in existing && Deleting(m, items[..k], project, judge)
      invariant forall m :: m in existing && m.id.value in deletedIds ==> m in deleted
    {
      assert items[..k + 1] == items[..k] + [items[k]];
      DeletingOneMore(items[..k], items[k], project, judge);
      if items[k].target != "" {
        var matches := MatchingMemories(existing, items[k], project, judge);
        for j := 0 to |matches|
          invariant DistinctIds(deleted)
          invariant forall m :: m in deleted ==> m.id.Some? && m.id.value in deletedIds
          invariant forall m :: m in deleted <==>
            m in existing && (Deleting(m, items[..k], project, judge) || m in matches[..j])
          invariant forall m :: m in existing && m.id.value in deletedIds ==> m in deleted
        {
          assert matches[j] in matches;
          if matches[j].id.value !in deletedIds {
            deletedIds := deletedIds + {matches[j].id.value};
            deleted := deleted + [matches[j]];
            SameIdSameRow(existing, matches[j]);
          }
        }
        assert matches[..|matches|] == matches;
      }
    }
    assert items[..|items|] == items;
  }

  lemma SameIdSameRow(rows: seq<Memory>, m: Memory)
    requires DistinctIds(rows) && m in rows
    ensures forall x :: x in rows && x.id == m.id ==> x == m
  {
  }

  lemma DeletingOneMore(items: seq<DeletionItem>, item: DeletionItem, project: Option<string>, judge: Judge)
    ensures forall m :: Deleting(m, items + [item], project, judge) <==>
      Deleting(m, items, project, judge) || (item.target != "" && Matches(m, item, project, judge))
  {
    var longer := items + [item];
    forall m ensures Deleting(m, longer, project, judge) <==>
        Deleting(m, items, project, judge) || (item.target != "" && Matches(m, item, project, judge)) {
      if Deleting(m, items, project, judge) {
        var k :| 0 <= k < |items| && items[k].target != "" && Matches(m, items[k], project, judge);
        assert longer[k] == items[k];
      }
      if item.target != "" && Matches(m, item, project, judge) {
        assert longer[|items|] == item;
      }
    }
  }

  // ------------------------------------------------------------------
  // Candidates
  // ------------------------------------------------------------------

  function FallbackMessage(messages: seq<Message>): (m: Message)
    requires messages != []
    ensures IsFallback(messages, m)
  {
    if exists i :: 0 <= i < |messages| && messages[i].role == "user" then FirstUser(messages) else messages[0]
  }

  function FirstUser(messages: seq<Message>): (m: Message)
    requires exists i :: 0 <= i < |messages| && messages[i].role == "user"
    ensures exists i :: FirstUserAt(messages, i) && m == messages[i]
  {
    if messages[0].role == "user" then
      assert FirstUserAt(messages, 0);
      messages[0]
    else
      var m := FirstUser(messages[1..]);
      assert exists i :: FirstUserAt(messages, i) && m == messages[i] by {
        var i :| FirstUserAt(messages[1..], i) && m == messages[1..][i];
        assert FirstUserAt(messages, i + 1);
      }
      m
  }

  ghost predicate FirstUserAt(messages: seq<Message>, i: int) {
    0 <= i < |messages| && messages[i].role == "user" && forall j :: 0 <= j < i ==> messages[j].role != "user"
  }

  // The first message of the user's own role, or the first of all.
  ghost predicate IsFallback(messages: seq<Message>, m: Message) {
    || (exists i :: FirstUserAt(messages, i) && m == messages[i])
    || (messages != [] && m == messages[0] && forall i :: 0 <= i < |messages| ==> messages[i].role != "user")
  }

  ghost predicate LastOfId(messages: seq<Message>, id: Option<nat>, i: int) {
    0 <= i < |messages| && id == Some(messages[i].id) && forall j :: i < j < |messages| ==> messages[j].id != messages[i].id
  }

  // The message a candidate is drawn from: the one it names, or the fallback when it names none listed.
  ghost predicate IsSource(messages: seq<Message>, id: Option<nat>, m: Message) {
    || (exists i :: LastOfId(messages, id, i) && m == messages[i])
    || ((forall i :: 0 <= i < |messages| ==> id != Some(messages[i].id)) && IsFallback(messages, m))
  }

  // A dict built in list order keeps the last message of an id.
  function SourceMessage(messages: seq<Message>, id: Option<nat>, fallback: Message): (m: Message)
    ensures (exists i :: LastOfId(messages, id, i) && m == messages[i])
      || ((forall i :: 0 <= i < |messages| ==> id != Some(messages[i].id)) && m == fallback)
  {
    if messages == [] then fallback
    else if Some(messages[|messages| - 1].id) == id then
      assert LastOfId(messages, id, |messages| - 1);
      messages[|messages| - 1]
    else
      var front := messages[..|messages| - 1];
      var m := SourceMessage(front, id, fallback);
      assert (exists i :: LastOfId(front, id, i) && m == front[i]) ==> exists i :: LastOfId(messages, id, i) && m == messages[i] by {
        if i :| LastOfId(front, id, i) && m == front[i] {
          assert LastOfId(messages, id, i);
        }
      }
      m
  }

  ghost predicate DrawnFrom(messages: seq<Message>, id: Option<nat>, m: Message, c: Memory) {
    m in messages && IsSource(messages, id, m) && m.user == c.slot.user && c.attributes.origin == Some(m.session)
  }

  function GatedStatus(item: CandidateItem): (s: Status)
    ensures s.Approved? || s.PendingReview? || s.Candidate?
    ensures s.Approved? <==> item.status.Approved? && item.confidence >= 0.85 && !item.needsVerification
    ensures s.PendingReview? <==> item.status.PendingReview? || (item.status.Approved? && !s.Approved?)
  {
    var s := if item.status.PendingReview? || item.status.Approved? then item.status else Candidate;
    if s.Approved? && (item.confidence < 0.85 || item.needsVerification) then PendingReview else s
  }

  // The slot an item addresses, whoever its user is: its own type, "fact" when it gives none, and its key,
  // in the general layer exactly when its scope is "user" or there is no repository.
  ghost predicate NamesSlot(item: CandidateItem, slot: Slot, project: Option<string>) {
    && slot.key == item.key
    && (item.memoryType != "" ==> slot.memoryType == item.memoryType)
    && (item.memoryType == "" ==> slot.memoryType == "fact")
    && (slot.project.None? <==> item.scope == "user" || project.None?)
    && (slot.project.Some? ==> slot.project == project)
  }

  // Fail closed on the layer: anything but an explicit "user" lands in the session's repository.
  function MemoryFromCandidate(item: CandidateItem, messages: seq<Message>, project: Option<string>): (c: Option<Memory>)
    requires messages != []
    ensures c.Some? <==> item.key != "" && item.value != ""
    ensures c.Some? ==> Fresh(c.value) && Live(c.value)
    ensures c.Some? ==> c.value.slot.key == item.key && c.value.value == item.value && c.value.status == GatedStatus(item)
    ensures c.Some? ==> exists m :: DrawnFrom(messages, item.messageId, m, c.value)
    ensures c.Some? ==> NamesSlot(item, c.value.slot, project)
    ensures c.Some? ==> c.value.attributes.confidence == item.confidence && c.value.attributes.needsVerification == item.needsVerification
    ensures c.Some? ==> c.value.updatedAt == item.bornAt
  {
    if item.key == "" || item.value == "" then None
    else
      var message := SourceMessage(messages, item.messageId, FallbackMessage(messages));
      var slot := Slot(message.user, if item.scope == "user" then None else project,
                       if item.memoryType == "" then "fact" else item.memoryType, item.key);
      var c := Memory(None, slot, item.value, Attributes(item.confidence, item.needsVerification, Some(message.session)),
                      GatedStatus(item), [], None, item.bornAt);
      assert DrawnFrom(messages, item.messageId, message, c);
      Some(c)
  }

  // The candidates that become memories: those with a key and a value whose value is not sensitive.
  predicate Accepted(item: CandidateItem, judge: Judge) {
    item.key != "" && item.value != "" && item.value !in judge.sensitive
  }

  // `cs` are the accepted items, all of them, in the decision's order; `picks` says which.
  ghost predicate Accepts(items: seq<CandidateItem>, messages: seq<Message>, project: Option<string>, judge: Judge,
                          cs: seq<Memory>, picks: seq<nat>)
    requires messages != []
  {
    && |picks| == |cs|
    && (forall j, k :: 0 <= j < k < |picks| ==> picks[j] < picks[k])
    && (forall k :: 0 <= k < |picks| ==> picks[k] < |items| && MemoryFromCandidate(items[picks[k]], messages, project) == Some(cs[k]))
    && (forall i :: 0 <= i < |items| ==> (Accepted(items[i], judge) <==> i in picks))
  }

  function CandidatesOf(items: seq<CandidateItem>, messages: seq<Message>, project: Option<string>, judge: Judge): (cs: seq<Memory>)
    requires messages != []
  {
    if items == [] then []
    else
      var front := CandidatesOf(items[..|items| - 1], messages, project, judge);
      var c := MemoryFromCandidate(items[|items| - 1], messages, project);
      if c.None? || c.value.value in judge.sensitive then front else front + [c.value]
  }

  lemma {:induction false} AcceptsOneMore(items: seq<CandidateItem>, item: CandidateItem, messages: seq<Message>, project: Option<string>,
                                          judge: Judge, cs: seq<Memory>, picks: seq<nat>)
    requires messages != [] && Accepts(items, messages, project, judge, cs, picks)
    ensures if Accepted(item, judge)
            then Accepts(items + [item], messages, project, judge,
                         cs + [MemoryFromCandidate(item, messages, project).value], picks + [|items|])
            else Accepts(items + [item], messages, project, judge, cs, picks)
  {
    hide Accepted, MemoryFromCandidate;
    var more := items + [item];
    if Accepted(item, judge) {
      AcceptedHasValue(item, messages, project, judge);
      var picks' := picks + [|items|];
      forall i | 0 <= i < |more| ensures Accepted(more[i], judge) <==> i in picks' {
        if i == |items| {
          assert picks'[|picks|] == i;
        }
      }
    }
  }

  lemma NothingAccepted(messages: seq<Message>, project: Option<string>, judge: Judge)
    requires messages != []
    ensures Accepts([], messages, project, judge, [], [])
  {
  }

  lemma AcceptedHasValue(item: CandidateItem, messages: seq<Message>, project: Option<string>, judge: Judge)
    requires messages != [] && Accepted(item, judge)
    ensures MemoryFromCandidate(item, messages, project).Some?
  {
  }

  lemma {:induction false} AcceptedCandidate(items: seq<CandidateItem>, messages: seq<Message>, project: Option<string>, judge: Judge, c: Memory)
    requires messages != [] && c in CandidatesOf(items, messages, project, judge)
    ensures exists k :: 0 <= k < |items| && Accepted(items[k], judge) && MemoryFromCandidate(items[k], messages, project) == Some(c)
  {
    hide MemoryFromCandidate;
    var front, last := items[..|items| - 1], items[|items| - 1];
    if c in CandidatesOf(front, messages, project, judge) {
      AcceptedCandidate(front, messages, project, judge, c);
      var k :| 0 <= k < |front| && Accepted(front[k], judge) && MemoryFromCandidate(front[k], messages, project) == Some(c);
      assert items[k] == front[k];
    }
  }

  method BuildCandidates(items: seq<CandidateItem>, messages: seq<Message>, project: Option<string>, judge: Judge)
    returns (candidates: seq<Memory>, ghost picks: seq<nat>)
    requires messages != []
    ensures candidates == CandidatesOf(items, messages, project, judge)
    ensures Accepts(items, messages, project, judge, candidates, picks)
  {
    hide Accepts, MemoryFromCandidate, DrawnFrom;
    candidates, picks := [], [];
    NothingAccepted(messages, project, judge);
    for i := 0 to |items|
      invariant candidates == CandidatesOf(items[..i], messages, project, judge)
      invariant Accepts(items[..i], messages, project, judge, candidates, picks)
    {
      assert items[..i + 1][..i] == items[..i];
      assert items[..i + 1] == items[..i] + [items[i]];
      AcceptsOneMore(items[..i], items[i], messages, project, judge, candidates, picks);
      var c := MemoryFromCandidate(items[i], messages, project);
      if c.Some? && c.value.value !in judge.sensitive {
        candidates, picks := candidates + [c.value], picks + [i];
      }
    }
    assert items[..|items|] == items;
  }

  // The decision as applied in a session of `user` and `project`.
  ghost predicate Applied(d: Decision, existing: seq<Memory>, messages: seq<Message>, project: Option<string>, judge: Judge,
                          gone: seq<Memory>, cands: seq<Memory>)
    requires messages != []
  {
    && DistinctIds(gone)
    && (forall m :: m in gone <==> m in existing && Deleting(m, d.deletions, project, judge))
    && cands == CandidatesOf(d.candidates, messages, project, judge)
  }

  // ------------------------------------------------------------------
  // One extraction round
  // ------------------------------------------------------------------

  // The model's reply: a failed call, or a decision.
  datatype Answer = Failed(error: string) | Decided(decision: Decision)

  function Readable(messages: seq<Message>, judge: Judge): (r: seq<Message>)
    ensures forall m {:trigger m in r} :: m in r ==> m in messages
  {
    if messages == [] then []
    else
      var front, last := Readable(messages[..|messages| - 1], judge), messages[|messages| - 1];
      if last.content in judge.blank || last.content in judge.sensitive then front else front + [last]
  }

  // The messages the model reads: those that are neither blank nor sensitive, all of them, in order.
  ghost predicate Reads(messages: seq<Message>, judge: Judge, readable: seq<Message>, picks: seq<nat>) {
    && |picks| == |readable|
    && (forall j, k :: 0 <= j < k < |picks| ==> picks[j] < picks[k])
    && (forall k :: 0 <= k < |picks| ==> picks[k] < |messages| && readable[k] == messages[picks[k]])
    && (forall i :: 0 <= i < |messages| ==>
          (messages[i].content !in judge.blank && messages[i].content !in judge.sensitive <==> i in picks))
  }

  lemma {:induction false} ReadsOneMore(messages: seq<Message>, m: Message, judge: Judge, readable: seq<Message>, picks: seq<nat>)
    requires Reads(messages, judge, readable, picks)
    ensures if m.content in judge.blank || m.content in judge.sensitive then Reads(messages + [m], judge, readable, picks)
            else Reads(messages + [m], judge, readable + [m], picks + [|messages|])
  {
    var more, picks' := messages + [m], picks + [|messages|];
    assert picks'[|picks|] == |messages|;
    assert forall i :: 0 <= i < |messages| ==> more[i] == messages[i];
  }

  lemma {:induction false} ReadableIsRead(messages: seq<Message>, judge: Judge)
    ensures exists picks: seq<nat> :: Reads(messages, judge, Readable(messages, judge), picks)
  {
    if messages == [] {
      var none: seq<nat> := [];
      assert Reads(messages, judge, Readable(messages, judge), none);
    } else {
      var front, last := messages[..|messages| - 1], messages[|messages| - 1];
      ReadableIsRead(front, judge);
      var picks: seq<nat> :| Reads(front, judge, Readable(front, judge), picks);
      ReadsOneMore(front, last, judge, Readable(front, judge), picks);
      hide Reads;
      assert front + [last] == messages;
      assert Reads(messages, judge, Readable(messages, judge),
                   if last.content in judge.blank || last.content in judge.sensitive then picks else picks + [|front|]);
    }
  }

  method ReadableMessages(messages: seq<Message>, judge: Judge) returns (readable: seq<Message>)
    ensures readable == Readable(messages, judge)
    ensures exists picks: seq<nat> :: Reads(messages, judge, readable, picks)
  {
    ReadableIsRead(messages, judge);
    readable := [];
    for i := 0 to |messages|
      invariant readable == Readable(messages[..i], judge)
    {
      assert messages[..i + 1][..i] == messages[..i];
      if messages[i].content !in judge.blank && messages[i].content !in judge.sensitive {
        readable := readable + [messages[i]];
      }
    }
    assert messages[..|messages|] == messages;
  }

  // What the model's reply to these messages comes to: nothing without anything to read or after a
  // failed call, else the decision as applied.
  ghost predicate Carries(answer: Answer, messages: seq<Message>, existing: seq<Memory>, project: Option<string>, judge: Judge,
                          failed: bool, gone: seq<Memory>, cands: seq<Memory>) {
    var readable := Readable(messages, judge);
    && (failed <==> readable != [] && answer.Failed?)
    && if readable == [] || answer.Failed? then gone == [] && cands == []
       else Applied(answer.decision, existing, readable, project, judge, gone, cands)
  }

  // Nothing to read: the model is not asked. A failed call decides nothing and reports an error.
  method ExtractDecision(messages: seq<Message>, existing: seq<Memory>, project: Option<string>, answer: Answer, judge: Judge)
    returns (errors: seq<string>, deleted: seq<Memory>, candidates: seq<Memory>)
    requires DistinctIds(existing) && forall m :: m in existing ==> m.id.Some?
    ensures Carries(answer, messages, existing, project, judge, errors != [], deleted, candidates)
  {
    errors, deleted, candidates := [], [], [];
    var readable := ReadableMessages(messages, judge);
    if readable == [] {
      return;
    }
    match answer
    case Failed(error) =>
      errors := ["llm_decision_failed:" + error];
    case Decided(decision) =>
      deleted := SelectDeletions(existing, decision.deletions, project, judge);
      ghost var picks;
      candidates, picks := BuildCandidates(decision.candidates, readable, project, judge);
  }

  // ------------------------------------------------------------------
  // Layer and user isolation
  // ------------------------------------------------------------------

  ghost predicate NamesUserScope(d: Decision) {
    || (exists k :: 0 <= k < |d.deletions| && d.deletions[k].scope == "user")
    || (exists k :: 0 <= k < |d.candidates| && d.candidates[k].scope == "user")
  }

  // What a decision selects: this user's rows of this repository, and general rows only on "user".
  lemma {:induction false} DecisionIsConfined(rows: seq<Memory>, d: Decision, user: string, project: Option<string>, judge: Judge,
                                              messages: seq<Message>, gone: seq<Memory>, cands: seq<Memory>)
    requires messages != [] && forall m :: m in messages ==> m.user == user
    requires Applied(d, ListMemories(rows, user, project, None, None, None), messages, project, judge, gone, cands)
    ensures Deletable(rows, gone)
    ensures forall m :: m in gone ==> m.slot.user == user && InLayer(m, project, NamesUserScope(d))
    ensures forall c :: c in cands ==> c.slot.user == user && InLayer(c, project, NamesUserScope(d)) && Fresh(c) && Live(c)
  {
    forall c | c in cands
      ensures c.slot.user == user && InLayer(c, project, NamesUserScope(d)) && Fresh(c) && Live(c)
    {
      AcceptedCandidate(d.candidates, messages, project, judge, c);
    }
  }

  predicate InLayer(m: Memory, project: Option<string>, shared: bool) {
    m.slot.project == project || (m.slot.project.None? && shared)
  }

  lemma {:induction false} ExtractionIsIsolated(db: Db, user: string, project: Option<string>, shared: bool,
                                                gone: seq<Memory>, cands: seq<Memory>, n: nat, clock: seq<int>, calls: nat)
    requires NumberedRows(db.memories) && Deletable(db.memories, gone) && n <= |cands|
    requires forall m :: m in gone ==> m.slot.user == user && InLayer(m, project, shared)
    requires forall c :: c in cands ==> c.slot.user == user && InLayer(c, project, shared)
    ensures var before, after := db.memories, Extract(db, gone, cands, n, clock, calls).db.memories;
      // only this user's rows of this layer change or appear
      forall i :: 0 <= i < |after| && (i < |before| ==> after[i] != before[i]) ==>
        after[i].slot.user == user && InLayer(after[i], project, shared)
  {
    hide Extract;
    ExtractTouches(db, gone, cands, n, clock, calls);
    assert forall k :: 0 <= k < n ==> cands[k] in cands;
  }

  // An item of the decision accounts for the row: a deletion that matches it as it was, or a candidate
  // that names its slot. A general row of a repository's session takes an item that names scope "user".
  ghost predicate AccountedFor(d: Decision, before: seq<Memory>, m: Memory, i: nat, project: Option<string>, judge: Judge) {
    var shared := project.Some? && m.slot.project.None?;
    || (i < |before| &&
          exists k :: 0 <= k < |d.deletions| && d.deletions[k].target != "" &&
            Matches(before[i], d.deletions[k], project, judge) && (shared ==> d.deletions[k].scope == "user"))
    || (exists k :: 0 <= k < |d.candidates| && Accepted(d.candidates[k], judge) &&
          NamesSlot(d.candidates[k], m.slot, project))
  }

  lemma {:induction false} TouchedIsAccountedFor(db: Db, d: Decision, user: string, project: Option<string>, judge: Judge, messages: seq<Message>,
                                                 gone: seq<Memory>, cands: seq<Memory>, n: nat, after: seq<Memory>, i: nat)
    requires messages != [] && n <= |cands|
    requires Applied(d, ListMemories(db.memories, user, project, None, None, None), messages, project, judge, gone, cands)
    requires TouchesOnly(db.memories, after, gone, cands, n)
    requires i < |after| && (i < |db.memories| ==> after[i] != db.memories[i])
    ensures AccountedFor(d, db.memories, after[i], i, project, judge)
  {
    if i < |db.memories| && db.memories[i] in gone {
      var k :| 0 <= k < |d.deletions| && d.deletions[k].target != "" && Matches(db.memories[i], d.deletions[k], project, judge);
    } else {
      var j :| 0 <= j < n && after[i].slot == cands[j].slot;
      assert cands[j] in cands;
      AcceptedCandidate(d.candidates, messages, project, judge, cands[j]);
    }
  }

  // The whole statement for one decision: an extraction of `user` in `project`, cut off anywhere,
  // loses no row, changes or adds only rows of that user in that repository or the general layer, and
  // each of them because of an item of the decision that addresses its layer.
  lemma DecisionIsIsolated(db: Db, d: Decision, user: string, project: Option<string>, judge: Judge, messages: seq<Message>,
                           gone: seq<Memory>, cands: seq<Memory>, n: nat, clock: seq<int>, calls: nat)
    requires NumberedRows(db.memories) && messages != [] && forall m :: m in messages ==> m.user == user
    requires Applied(d, ListMemories(db.memories, user, project, None, None, None), messages, project, judge, gone, cands)
    requires n <= |cands|
    ensures Deletable(db.memories, gone)
    ensures var before, after := db.memories, Extract(db, gone, cands, n, clock, calls).db.memories;
      && (forall i :: 0 <= i < |after| && (i < |before| ==> after[i] != before[i]) ==>
            after[i].slot.user == user && (after[i].slot.project == project || after[i].slot.project.None?))
      && (project.Some? && !NamesUserScope(d) ==>
            forall i :: 0 <= i < |after| && after[i].slot.project.None? ==> i < |before| && after[i] == before[i])
      && |before| <= |after|
      && (forall i: nat :: i < |after| && (i < |before| ==> after[i] != before[i]) ==>
            AccountedFor(d, before, after[i], i, project, judge))
  {
    DecisionIsConfined(db.memories, d, user, project, judge, messages, gone, cands);
    ExtractionIsIsolated(db, user, project, NamesUserScope(d), gone, cands, n, clock, calls);
    ExtractTouches(db, gone, cands, n, clock, calls);
    hide Extract;
    var before, after := db.memories, Extract(db, gone, cands, n, clock, calls).db.memories;
    forall i: nat | i < |after| && (i < |before| ==> after[i] != before[i])
      ensures AccountedFor(d, before, after[i], i, project, judge)
    {
      TouchedIsAccountedFor(db, d, user, project, judge, messages, gone, cands, n, after, i);
    }
  }
}
