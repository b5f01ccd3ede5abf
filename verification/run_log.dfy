/** A run of the backend as a log of what reached the store and the cache. The log alone decides which
    rows a clean cache was rendered from, and whether a record has moved the rows since. */
module RunLog {
  import opened Wrappers
  import opened CureModel
  import opened CureStore
  import CureExtractor
  import opened CureMessages
  import opened CureSystem
  import opened CureGeneration

  // Where a run starts and what the world decides in it.
  datatype World = World(start: View, checkpoint: nat, user: string, session: string, project: Option<string>,
                         clock: seq<int>, refusals: seq<bool>, judge: CureExtractor.Judge)

  // A record that reached the driver, a counted extraction with what it left, a search whose answer was
  // memoized, or a new query.
  datatype Entry =
    | Noted(role: string, content: string)
    | Extracted(after: View, run: Run, outcome: Outcome<ExtractionResult>)
    | Searched
    | Queried

  // How many searches, counted extractions and queries a log holds.
  datatype Tally = Tally(searches: nat, extractions: nat, queries: nat)

  predicate Active(w: World) {
    w.session != "" && w.user != ""
  }

  function ViewAfter(w: World, log: seq<Entry>): View {
    if log == [] then w.start
    else
      var v := ViewAfter(w, log[..|log| - 1]);
      match log[|log| - 1]
      case Noted(role, content) => AfterWrite(v, InsertMessage(w.session, w.user, role, content), w.refusals)
      case Extracted(after, _, _) => after
      case Searched => v
      case Queried => v
  }

  function CheckpointAfter(w: World, log: seq<Entry>): nat
    decreases |log|, 0
  {
    if log == [] then w.checkpoint
    else
      var front, last := log[..|log| - 1], log[|log| - 1];
      if last.Extracted? && last.outcome.Done? && last.outcome.value.errors == []
      then Advanced(CheckpointAfter(w, front), PendingAt(w, front)) else CheckpointAfter(w, front)
  }

  // The messages an extraction would list next.
  function PendingAt(w: World, log: seq<Entry>): seq<Message>
    decreases |log|, 1
  {
    ListMessages(ViewAfter(w, log).working.messages, w.user, w.session, CheckpointAfter(w, log))
  }

  // The entry is an extraction of the pending messages, by one of the ways an extraction may end.
  ghost predicate ExtractedFrom(w: World, log: seq<Entry>, answer: CureExtractor.Answer, e: Entry) {
    var v := ViewAfter(w, log);
    && e.Extracted? && Ended(v, e.after, e.run, w.clock, w.refusals, e.outcome)
    && CureExtractor.Carries(answer, PendingAt(w, log), ListMemories(v.working.memories, w.user, w.project, None, None, None),
                             w.project, w.judge, e.outcome.Done? && e.outcome.value.errors != [], e.run.gone, e.run.cands)
  }

  // Every entry follows from those before it; in particular nothing is searched while the cache is clean.
  ghost predicate Possible(w: World, log: seq<Entry>) {
    log == [] ||
      var front, last := log[..|log| - 1], log[|log| - 1];
      && Possible(w, front) && (last.Searched? ==> !CacheClean(front))
      && (last.Extracted? ==> exists answer :: ExtractedFrom(w, front, answer, last))
  }

  // An extraction is due: there is a session, and it has messages past the checkpoint.
  predicate Due(w: World, log: seq<Entry>) {
    Active(w) && PendingAt(w, log) != []
  }

  // A tick with the model's answer, or none.
  ghost predicate Ticked(w: World, log: seq<Entry>, answer: Option<CureExtractor.Answer>, log': seq<Entry>) {
    if answer.Some? && Due(w, log) then
      |log'| == |log| + 1 && log <= log' && ExtractedFrom(w, log, answer.value, log'[|log|])
    else log' == log
  }

  // ------------------------------------------------------------------
  // The cache
  // ------------------------------------------------------------------

  // A search and nothing but records since.
  predicate CacheClean(log: seq<Entry>) {
    log != [] && (log[|log| - 1].Searched? || (log[|log| - 1].Noted? && CacheClean(log[..|log| - 1])))
  }

  // The rows at the last search.
  function RecalledRows(w: World, log: seq<Entry>): seq<Memory> {
    if log == [] then []
    else if log[|log| - 1].Searched? then ViewAfter(w, log).working.memories
    else RecalledRows(w, log[..|log| - 1])
  }

  function Rows(w: World, log: seq<Entry>): seq<Memory> {
    ViewAfter(w, log).working.memories
  }

  function TallyOf(log: seq<Entry>): Tally {
    if log == [] then Tally(0, 0, 0)
    else
      var t := TallyOf(log[..|log| - 1]);
      match log[|log| - 1]
      case Noted(_, _) => t
      case Extracted(_, _, _) => t.(extractions := t.extractions + 1)
      case Searched => t.(searches := t.searches + 1)
      case Queried => t.(queries := t.queries + 1)
  }

  // Every search, and a dirty cache, is paid for by a query or an extraction.
  lemma {:induction false} SearchesArePaid(w: World, log: seq<Entry>)
    requires Possible(w, log) && log != [] && log[0].Queried?
    ensures TallyOf(log).searches + (if CacheClean(log) then 0 else 1) <= TallyOf(log).queries + TallyOf(log).extractions
  {
    var front := log[..|log| - 1];
    if front != [] {
      SearchesArePaid(w, front);
    }
  }

  // A record made now would roll back rows: its statement will be refused, while rows that an earlier
  // refused COMMIT left pending are still in an open transaction.
  ghost predicate Loses(v: View, refusals: seq<bool>) {
    Refused(refusals, v.calls) && v.inTransaction && v.working.memories != v.committed.memories
  }

  // One of the records since the last other entry did.
  ghost predicate Lost(w: World, log: seq<Entry>) {
    log != [] && log[|log| - 1].Noted?
    && (Loses(ViewAfter(w, log[..|log| - 1]), w.refusals) || Lost(w, log[..|log| - 1]))
  }

  // ------------------------------------------------------------------
  // One more entry
  // ------------------------------------------------------------------

  lemma AfterNote(w: World, log: seq<Entry>, role: string, content: string)
    requires Possible(w, log)
    ensures var log' := log + [Noted(role, content)];
      && Possible(w, log')
      && ViewAfter(w, log') == AfterWrite(ViewAfter(w, log), InsertMessage(w.session, w.user, role, content), w.refusals)
      && CheckpointAfter(w, log') == CheckpointAfter(w, log) && TallyOf(log') == TallyOf(log)
      && CacheClean(log') == CacheClean(log) && RecalledRows(w, log') == RecalledRows(w, log)
      && (Lost(w, log') <==> Loses(ViewAfter(w, log), w.refusals) || Lost(w, log))
  {
    var log' := log + [Noted(role, content)];
    assert log'[..|log'| - 1] == log;
  }

  lemma AfterQuery(w: World, log: seq<Entry>)
    requires Possible(w, log)
    ensures var log', t := log + [Queried], TallyOf(log);
      && Possible(w, log') && ViewAfter(w, log') == ViewAfter(w, log) && CheckpointAfter(w, log') == CheckpointAfter(w, log)
      && TallyOf(log') == t.(queries := t.queries + 1) && !CacheClean(log')
  {
    var log' := log + [Queried];
    assert log'[..|log'| - 1] == log;
  }

  lemma AfterSearch(w: World, log: seq<Entry>)
    requires Possible(w, log) && !CacheClean(log)
    ensures var log', t := log + [Searched], TallyOf(log);
      && Possible(w, log') && ViewAfter(w, log') == ViewAfter(w, log) && CheckpointAfter(w, log') == CheckpointAfter(w, log)
      && TallyOf(log') == t.(searches := t.searches + 1)
      && CacheClean(log') && RecalledRows(w, log') == Rows(w, log)
  {
    var log' := log + [Searched];
    assert log'[..|log'| - 1] == log;
  }

  lemma AfterExtraction(w: World, log: seq<Entry>, answer: CureExtractor.Answer, e: Entry)
    requires Possible(w, log) && ExtractedFrom(w, log, answer, e)
    ensures var log', t := log + [e], TallyOf(log);
      && Possible(w, log') && ViewAfter(w, log') == e.after
      && CheckpointAfter(w, log') == (if e.outcome.Done? && e.outcome.value.errors == []
                                      then Advanced(CheckpointAfter(w, log), PendingAt(w, log)) else CheckpointAfter(w, log))
      && TallyOf(log') == t.(extractions := t.extractions + 1) && !CacheClean(log')
  {
    var log' := log + [e];
    assert log'[..|log'| - 1] == log;
  }

  ghost predicate Closed(v: View) {
    !v.inTransaction ==> v.working == v.committed
  }

  lemma {:induction false} ViewsClose(w: World, log: seq<Entry>)
    requires Possible(w, log) && Closed(w.start)
    ensures Closed(ViewAfter(w, log))
  {
    if log != [] {
      var front, last := log[..|log| - 1], log[|log| - 1];
      ViewsClose(w, front);
      if last.Extracted? {
        var answer :| ExtractedFrom(w, front, answer, last);
        EndedCloses(ViewAfter(w, front), last.after, last.run, w.clock, w.refusals, last.outcome);
      }
    }
  }

  lemma EndedCloses(view: View, view': View, run: Run, clock: seq<int>, refusals: seq<bool>, outcome: Outcome<ExtractionResult>)
    requires Ended(view, view', run, clock, refusals, outcome) && Closed(view)
    ensures Closed(view')
  {
  }

  // A clean cache was rendered from other rows than there are now exactly when a record since its
  // search rolled rows back.
  lemma {:induction false} RowsMovedIffLost(w: World, log: seq<Entry>)
    requires Possible(w, log) && Closed(w.start) && CacheClean(log)
    ensures RecalledRows(w, log) != Rows(w, log) <==> Lost(w, log)
    ensures Lost(w, log) ==> ViewAfter(w, log).working.memories == ViewAfter(w, log).committed.memories
  {
    var front, last := log[..|log| - 1], log[|log| - 1];
    ViewsClose(w, front);
    if last.Noted? {
      RowsMovedIffLost(w, front);
    }
  }

  // ------------------------------------------------------------------
  // Which runs lose no rows
  // ------------------------------------------------------------------

  ghost predicate RefusedBefore(refusals: seq<bool>, calls: nat) {
    exists k: nat :: k < calls && Refused(refusals, k)
  }

  ghost predicate RefusedTwice(refusals: seq<bool>) {
    exists j: nat, k: nat :: j < k && Refused(refusals, j) && Refused(refusals, k)
  }

  // Only a refused call leaves a transaction open.
  lemma {:induction false} OpenMeansRefused(w: World, log: seq<Entry>)
    requires Possible(w, log) && !w.start.inTransaction
    ensures ViewAfter(w, log).inTransaction ==> RefusedBefore(w.refusals, ViewAfter(w, log).calls)
  {
    if log != [] {
      var front, last := log[..|log| - 1], log[|log| - 1];
      OpenMeansRefused(w, front);
      if last.Extracted? {
        var answer :| ExtractedFrom(w, front, answer, last);
        EndedOpen(ViewAfter(w, front), last.after, last.run, w.clock, w.refusals, last.outcome);
      }
    }
  }

  lemma EndedOpen(view: View, view': View, run: Run, clock: seq<int>, refusals: seq<bool>, outcome: Outcome<ExtractionResult>)
    requires Ended(view, view', run, clock, refusals, outcome)
    requires view.inTransaction ==> RefusedBefore(refusals, view.calls)
    ensures view'.inTransaction ==> RefusedBefore(refusals, view'.calls)
  {
  }

  // So losing rows takes two refused calls,
  lemma {:induction false} LosingTakesTwo(w: World, log: seq<Entry>)
    requires Possible(w, log) && !w.start.inTransaction && Lost(w, log)
    ensures RefusedTwice(w.refusals)
  {
    var front := log[..|log| - 1];
    if Loses(ViewAfter(w, front), w.refusals) {
      OpenMeansRefused(w, front);
    } else {
      LosingTakesTwo(w, front);
    }
  }

  // and an extraction that ended with a transaction open.
  lemma {:induction false} LosingTakesAnOpenEnd(w: World, log: seq<Entry>)
    requires Possible(w, log) && Closed(w.start) && !w.start.inTransaction
    requires forall k :: 0 <= k < |log| && log[k].Extracted? ==> !log[k].after.inTransaction
    ensures ViewAfter(w, log).working.memories == ViewAfter(w, log).committed.memories && !Lost(w, log)
  {
    if log != [] {
      var front, last := log[..|log| - 1], log[|log| - 1];
      LosingTakesAnOpenEnd(w, front);
      ViewsClose(w, log);
    }
  }
}
