/** The memory backend: a dirty-flag cache in front of the recall search, over the CURE store, with the
    annotation protocol beside it. */
module RecallCache {
  import opened Wrappers
  import opened CureModel
  import opened CureStore
  import CureExtractor
  import CureMessages
  import opened CureSystem
  import opened CureReplay
  import opened CureRecall
  import opened TraceProtocol
  import opened TraceWiring
  import opened CureGeneration
  import opened RunLog

  // One extraction tick as the world decides it: the model's answer, whether each snapshot fails, and
  // the sizes of the change events.
  datatype Tick = Tick(answer: CureExtractor.Answer, beforeFails: bool, afterFails: bool, sizes: seq<nat>)

  // What a clean cache serves, and None from a dirty one.
  ghost function Served(w: World, log: seq<Entry>, query: Query, config: Config): Option<Recall> {
    if CacheClean(log) then FreshRecall(RecalledRows(w, log), query, config) else None
  }

  class MemoryBackend {
    const system: CureMemorySystem
    const trace: TraceState
    const config: Config

    // None until SetTask.
    var query: Option<Query>
    var dirty: bool
    var cachedRecall: Option<Recall>
    var cachedAnchor: Option<Operation>
    var finalized: bool

    var setTasks: nat
    var searches: nat
    var extractionCalls: nat
    var rewriteSuccesses: nat

    // Where the run started, and what reached the store and the cache since.
    ghost const world: World
    ghost var log: seq<Entry>

    constructor (system: CureMemorySystem, trace: TraceState, config: Config)
      requires system.Valid() && system.store.AtRest() && trace.Valid() && trace.pendingSearch.None?
      requires system.user == config.user && system.session == config.session && system.project == config.project
      ensures this.system == system && this.trace == trace && this.config == config
      ensures Valid() && Anchored() && query.None? && dirty && !finalized
      ensures setTasks == searches == extractionCalls == rewriteSuccesses == 0
      ensures world == World(system.store.Seen(), system.Checkpoint(), config.user, config.session, config.project,
                             system.store.clock, system.store.refusals, system.judge)
      ensures log == []
    {
      this.system, this.trace, this.config := system, trace, config;
      query, dirty, cachedRecall, cachedAnchor, finalized := None, true, None, None, false;
      setTasks, searches, extractionCalls, rewriteSuccesses := 0, 0, 0, 0;
      world := World(system.store.Seen(), system.Checkpoint(), config.user, config.session, config.project,
                     system.store.clock, system.store.refusals, system.judge);
      log := [];
    }

    // The memoized answer is what a search of the current rows would give now.
    ghost predicate Coherent()
      reads this, system, system.store
    {
      !dirty ==> query.Some? && cachedRecall == FreshRecall(system.store.working.memories, query.value, config)
    }

    // The clean cache was rendered from other rows than there are now.
    ghost predicate Undone()
      reads this, system, system.store
    {
      !dirty && RecalledRows(world, log) != system.store.working.memories
    }

    // A record made now would roll back rows: its statement will be refused, while rows that an
    // earlier refused COMMIT left pending are still in an open transaction.
    ghost predicate LosesRows()
      reads this, system, system.store
    {
      && !finalized && system.session != "" && system.user != ""
      && Loses(system.store.Seen(), system.store.refusals)
    }

    // A memoized anchor is a recorded search that returned the memoized payload.
    ghost predicate AnchorHolds()
      reads this, trace
    {
      cachedAnchor.Some? ==> cachedRecall.Some? && Recorded(trace.posts, cachedAnchor.value.id, cachedRecall.value.memories)
    }

    // The agent's call order keeps an undelivered search pending only while its payload is cached.
    ghost predicate Anchored()
      reads this, trace
    {
      trace.DeliveryOn() && trace.pendingSearch.Some? ==> !dirty && trace.pendingSearch == cachedAnchor
    }

    ghost predicate Bound()
      reads system, system.store
    {
      && system.user == config.user == world.user && system.session == config.session == world.session
      && system.project == config.project == world.project && system.judge == world.judge
      && system.store.clock == world.clock && system.store.refusals == world.refusals
      && !world.start.inTransaction && Closed(world.start)
    }

    // What the store holds and what the cache answers is what the log says.
    ghost predicate Logged()
      reads this, system, system.store
    {
      && Bound() && Possible(world, log)
      && ViewAfter(world, log) == system.store.Seen() && CheckpointAfter(world, log) == system.Checkpoint()
      && TallyOf(log) == Tally(searches, extractionCalls, setTasks + rewriteSuccesses)
      && (dirty <==> !CacheClean(log))
      && (!dirty ==>
            query.Some? && query.value != [] && cachedRecall == FreshRecall(RecalledRows(world, log), query.value, config))
    }

    ghost predicate Valid()
      reads this, system, system.store, trace
    {
      system.Valid() && trace.Valid() && Logged() && AnchorHolds()
    }

    lemma CacheIsLogged()
      requires Logged()
      ensures dirty <==> !CacheClean(log)
    {
    }

    lemma UndoneIffLost()
      requires Logged() && !dirty
      ensures Undone() <==> Lost(world, log)
      ensures Undone() ==> system.store.working.memories == system.store.committed.memories
    {
      hide FreshRecall, ViewAfter, CheckpointAfter, Possible, TallyOf, CacheClean, RecalledRows, Lost;
      RowsMovedIffLost(world, log);
    }

    lemma PendingIsLogged()
      requires Logged()
      ensures PendingAt(world, log) == system.Pending() && (Due(world, log) <==> Ready())
    {
      hide ViewAfter, CheckpointAfter, Possible, TallyOf, CacheClean, RecalledRows, FreshRecall,
        CureMessages.ListMessages;
    }

    method SetTask(task: Query)
      requires Valid() && Anchored()
      modifies this, trace
      ensures Valid() && dirty && query == Some(task) && cachedRecall.None? && cachedAnchor.None?
      ensures setTasks == old(setTasks) + 1 && searches == old(searches) && finalized == old(finalized)
      ensures extractionCalls == old(extractionCalls) && rewriteSuccesses == old(rewriteSuccesses)
      ensures log == old(log) + [Queried] && trace.sessions <= old(trace.sessions) + 1
      ensures old(trace.pendingSearch.None?) ==> Anchored()
      ensures old(trace.posts) <= trace.posts
    {
      hide FreshRecall, Kept, Recorded, ViewAfter, CheckpointAfter, RecalledRows, CacheClean, TallyOf, Possible,
        ExtractedFrom, Lost, CureMemorySystem.Conserved, SqliteStore.Settled;
      query, cachedRecall, cachedAnchor, dirty := Some(task), None, None, true;
      setTasks := setTasks + 1;
      AfterQuery(world, log);
      log := log + [Queried];
      trace.OpenSession();
    }

    // Records one message; after finalize it is dormant.
    method Record(role: string, content: string) returns (recorded: bool)
      requires Valid()
      modifies this`log, system.store
      ensures Valid()
      ensures log == old(log) + if !finalized && Active(world) then [Noted(role, content)] else []
      ensures finalized ==> unchanged(system.store)
      ensures recorded <==>
        && !finalized && system.session != "" && system.user != ""
        && NoneRefused(system.store.refusals, old(system.store.calls), old(system.store.calls) + 2)
      ensures recorded ==>
        && system.store.AtRest()
        && system.store.committed.messages == old(system.store.working.messages)
             + [Message(|old(system.store.working.messages)| + 1, system.session, system.user, role, content)]
      ensures recorded ==> system.store.calls == old(system.store.calls) + 2
      // the one way rows move under a cache, and exactly when a coherent one survives it
      ensures if old(LosesRows()) then system.store.working.memories == old(system.store.committed.memories)
              else system.store.working.memories == old(system.store.working.memories)
      ensures Undone() <==> old(Undone()) || (!dirty && old(LosesRows()))
      ensures !dirty && old(Coherent()) ==>
        (Coherent() <==>
          (old(LosesRows()) ==>
            FreshRecall(old(system.store.working.memories), query.value, config)
            == FreshRecall(old(system.store.committed.memories), query.value, config)))
    {
      hide FreshRecall, Kept, Recorded, ViewAfter, CheckpointAfter, RecalledRows, CacheClean, TallyOf, Possible,
        ExtractedFrom, Lost, CureMemorySystem.Conserved;
      hide AfterWrite, SqliteStore.AtRest;
      recorded := false;
      if finalized {
        return;
      }
      ghost var before := log;
      var outcome := system.RecordMessage(role, content);
      recorded := outcome.Done?;
      if system.session != "" && system.user != "" {
        AfterNote(world, before, role, content);
        log := before + [Noted(role, content)];
        if !dirty {
          RowsMovedIffLost(world, before);
          RowsMovedIffLost(world, log);
        }
      }
    }

    // ------------------------------------------------------------------
    // Ticks
    // ------------------------------------------------------------------

    predicate Ready()
      reads system, system.store
    {
      system.session != "" && system.user != "" && system.Pending() != []
    }

    // A tick that is not ready touches nothing; a counted one, failed or not, leaves the cache dirty.
    method Extract(tick: Tick) returns (changes: seq<Change>, ghost run: Run, ghost outcome: Outcome<ExtractionResult>)
      requires Valid()
      modifies this`dirty, this`extractionCalls, this`log, system, system.store, trace`posts, trace`minted, trace`memoryLaneEnabled
      ensures Valid() && old(trace.posts) <= trace.posts && Ticked(world, old(log), Some(tick.answer), log)
      ensures extractionCalls == old(extractionCalls) + if old(Ready()) then 1 else 0
      ensures old(Ready()) ==>
        && dirty && log == old(log) + [Extracted(system.store.Seen(), run, outcome)]
        && Ended(old(system.store.Seen()), system.store.Seen(), run, system.store.clock, system.store.refusals, outcome)
        && CureExtractor.Carries(tick.answer, old(system.Pending()),
             old(ListMemories(system.store.working.memories, system.user, system.project, None, None, None)), old(system.project),
             system.judge, outcome.Done? && outcome.value.errors != [], run.gone, run.cands)
      ensures if old(Ready()) && old(trace.MemoryLaneOn())
              then GenerationOf(trace.posts[|old(trace.posts)|..], old(trace.minted), changes)
              else trace.posts == old(trace.posts)
      ensures !old(Ready()) ==> unchanged(system.store) && unchanged(trace) && dirty == old(dirty)
      ensures unchanged(system`user) && unchanged(system`session) && unchanged(system`project)
    {
      hide FreshRecall, Kept, Recorded, ViewAfter, CheckpointAfter, RecalledRows, CacheClean, TallyOf, Possible,
        ExtractedFrom, Lost, CureMemorySystem.Conserved, SqliteStore.Settled, SqliteStore.AtRest, PendingAt,
        Ended, GenerationOf, CureExtractor.Carries, CutReported, Reported, NumberedRows, RefusedStart, Due;
      changes, run, outcome := [], Run([], [], 0), Raised;
      PendingIsLogged();
      if !Ready() {
        return;
      }
      extractionCalls := extractionCalls + 1;
      ghost var before, view, pending := log, system.store.Seen(), system.Pending();
      var result, unexplained;
      result, changes, unexplained, run := TracedExtraction(system, trace, tick.answer, tick.beforeFails, tick.afterFails, tick.sizes);
      outcome := result;
      ghost var entry := Extracted(system.store.Seen(), run, outcome);
      Extracts(before, view, pending, tick.answer, entry);
      log := before + [entry];
      AnchorOutlives(old(trace.posts), trace.posts);
      dirty := true;
    }

    // What the store and the checkpoint went through is one entry more of the log.
    lemma Extracts(before: seq<Entry>, view: View, pending: seq<Message>, answer: CureExtractor.Answer, entry: Entry)
      requires Possible(world, before) && ViewAfter(world, before) == view && PendingAt(world, before) == pending
      requires entry.Extracted? && Ended(view, entry.after, entry.run, world.clock, world.refusals, entry.outcome)
      requires CureExtractor.Carries(answer, pending, ListMemories(view.working.memories, world.user, world.project, None, None, None),
        world.project, world.judge, entry.outcome.Done? && entry.outcome.value.errors != [], entry.run.gone, entry.run.cands)
      ensures var log', t := before + [entry], TallyOf(before);
        && Possible(world, log') && ViewAfter(world, log') == entry.after && ExtractedFrom(world, before, answer, entry)
        && CheckpointAfter(world, log') == (if entry.outcome.Done? && entry.outcome.value.errors == []
                                            then CureMessages.Advanced(CheckpointAfter(world, before), pending)
                                            else CheckpointAfter(world, before))
        && TallyOf(log') == t.(extractions := t.extractions + 1) && !CacheClean(log')
    {
      hide Possible, ViewAfter, CheckpointAfter, TallyOf, CacheClean, PendingAt, Ended, CureExtractor.Carries;
      AfterExtraction(world, before, answer, entry);
    }

    // A successful rewrite replaces the query; a failed one leaves query and flag alone.
    method Rewrite(rewritten: Option<Query>)
      requires Valid()
      modifies this`query, this`dirty, this`rewriteSuccesses, this`log
      ensures Valid() && log == old(log) + if rewritten.Some? && !finalized then [Queried] else []
      ensures rewritten.None? || finalized ==> unchanged(this)
      ensures rewritten.Some? && !finalized ==> dirty && query == rewritten && rewriteSuccesses == old(rewriteSuccesses) + 1
    {
      hide FreshRecall, Kept, Recorded, ViewAfter, CheckpointAfter, RecalledRows, CacheClean, TallyOf, Possible,
        ExtractedFrom, Lost, CureMemorySystem.Conserved, SqliteStore.Settled;
      if rewritten.None? || finalized {
        return;
      }
      query, dirty, rewriteSuccesses := rewritten, true, rewriteSuccesses + 1;
      AfterQuery(world, log);
      log := log + [Queried];
    }

    method MaybeExtract(tick: Option<Tick>) returns (ghost changes: seq<Change>)
      requires Valid()
      modifies this`dirty, this`extractionCalls, this`log, system, system.store, trace`posts, trace`minted, trace`memoryLaneEnabled
      ensures Valid() && old(trace.posts) <= trace.posts
      ensures Ticked(world, old(log), if tick.Some? && !finalized then Some(tick.value.answer) else None, log)
      ensures extractionCalls == old(extractionCalls) + if tick.Some? && !finalized && old(Ready()) then 1 else 0
      ensures tick.None? || finalized ==> unchanged(this) && unchanged(system.store) && unchanged(trace)
      ensures
        || trace.posts == old(trace.posts)
        || (extractionCalls == old(extractionCalls) + 1
            && GenerationOf(trace.posts[|old(trace.posts)|..], old(trace.minted), changes))
      ensures unchanged(system`user) && unchanged(system`session) && unchanged(system`project)
      ensures dirty == old(dirty) || dirty
    {
      hide FreshRecall, Kept, Recorded, ViewAfter, CheckpointAfter, RecalledRows, CacheClean, TallyOf, Possible,
        ExtractedFrom, Lost, CureMemorySystem.Conserved, SqliteStore.Settled;
      changes := [];
      if tick.Some? && !finalized {
        var reported, run, outcome := Extract(tick.value);
        changes := reported;
      }
    }

    // The final flush runs whatever the schedule says; afterwards the backend is dormant.
    method Finalize(tick: Tick)
      requires Valid()
      modifies this`dirty, this`extractionCalls, this`finalized, this`log, system, system.store, trace`posts, trace`minted, trace`memoryLaneEnabled
      ensures Valid() && finalized && old(trace.posts) <= trace.posts
      ensures Ticked(world, old(log), if old(finalized) then None else Some(tick.answer), log)
      ensures extractionCalls == old(extractionCalls) + if !old(finalized) && old(Ready()) then 1 else 0
      ensures old(finalized) ==> unchanged(this) && unchanged(system.store) && unchanged(trace)
    {
      hide FreshRecall, Kept, Recorded, ViewAfter, CheckpointAfter, RecalledRows, CacheClean, TallyOf, Possible,
        ExtractedFrom, Lost, CureMemorySystem.Conserved, SqliteStore.Settled;
      if finalized {
        return;
      }
      finalized := true;
      var changes, run, outcome := Extract(tick);
    }

    // ------------------------------------------------------------------
    // Recall and delivery
    // ------------------------------------------------------------------

    // The search a delivery of this payload would cite returned exactly this payload.
    ghost predicate MayCite(recall: Recall, cached: bool)
      reads this, trace
    {
      var cited := if cached then cachedAnchor else trace.pendingSearch;
      trace.DeliveryOn() && cited.Some? ==> Recorded(trace.posts, cited.value.id, recall.memories)
    }

    predicate Recalls()
      reads this
    {
      !finalized && query.Some? && query.value != []
    }

    method RecallContext(searchFails: bool) returns (recall: Option<Recall>, cached: bool)
      requires Valid() && Anchored()
      modifies this`dirty, this`cachedRecall, this`cachedAnchor, this`searches, this`log
      modifies trace`posts, trace`minted, trace`memoryLaneEnabled, trace`pendingSearch
      ensures Valid() && Anchored() && old(trace.posts) <= trace.posts
      ensures recall.Some? ==> MayCite(recall.value, cached)
      ensures recall.Some? && !cached && trace.DeliveryOn() ==> trace.pendingSearch == cachedAnchor
      ensures trace.DeliveryOn() == old(trace.DeliveryOn())
      // the posts are those of one search, and only if it ran with the lane on
      ensures if Recalls() && !CacheClean(old(log)) && old(trace.MemoryLaneOn())
              then SearchOf(trace.posts[|old(trace.posts)|..], old(trace.minted), !searchFails,
                            if recall.Some? then recall.value.memories else [])
              else trace.posts == old(trace.posts)
      ensures recall.None? && !finalized && trace.DeliveryOn() ==> trace.pendingSearch.None?
      // what is served is what a search now would give
      ensures Recalls() && !(old(dirty) && searchFails) && !Undone() ==>
        recall == FreshRecall(system.store.working.memories, query.value, config)
      ensures Undone() ==> old(Undone())
      ensures recall == if Recalls() then Served(world, log, query.value, config) else None
      ensures log == old(log) + if Recalls() && !CacheClean(old(log)) && !searchFails then [Searched] else []
      ensures dirty == (old(dirty) && (searchFails || !Recalls()))
      ensures searches == old(searches) + if Recalls() && old(dirty) && !searchFails then 1 else 0
    {
      hide FreshRecall, Kept, Recorded, ViewAfter, CheckpointAfter, RecalledRows, CacheClean, TallyOf, Possible,
        ExtractedFrom, Lost, CureMemorySystem.Conserved, SqliteStore.Settled;
      recall, cached := None, false;
      if finalized || query.None? || query.value == [] {
        return;
      }
      if !dirty {
        return cachedRecall, true;
      }
      recall := SearchAgain(searchFails);
    }

    // The dirty half: a traced search whose answer, empty or not, is memoized with its anchor; a
    // failed search memoizes nothing.
    method SearchAgain(searchFails: bool) returns (recall: Option<Recall>)
      requires Valid() && Anchored() && dirty && query.Some? && query.value != []
      modifies this`dirty, this`cachedRecall, this`cachedAnchor, this`searches, this`log
      modifies trace`posts, trace`minted, trace`memoryLaneEnabled, trace`pendingSearch
      ensures Valid() && Anchored() && old(trace.posts) <= trace.posts
      ensures recall.Some? ==> MayCite(recall.value, false)
      ensures recall.Some? && trace.DeliveryOn() ==> trace.pendingSearch == cachedAnchor
      ensures trace.DeliveryOn() == old(trace.DeliveryOn())
      ensures if old(trace.MemoryLaneOn())
              then SearchOf(trace.posts[|old(trace.posts)|..], old(trace.minted), !searchFails,
                            if recall.Some? then recall.value.memories else [])
              else trace.posts == old(trace.posts)
      ensures recall.None? && trace.DeliveryOn() ==> trace.pendingSearch.None?
      ensures !Undone() && dirty == searchFails
      ensures log == old(log) + if searchFails then [] else [Searched]
      ensures !CacheClean(old(log)) && CacheClean(log) == !searchFails
      ensures !searchFails ==> RecalledRows(world, log) == system.store.working.memories
      ensures recall == if searchFails then None else FreshRecall(system.store.working.memories, query.value, config)
      ensures searches == old(searches) + if searchFails then 0 else 1
    {
      hide FreshRecall, Kept, Recorded, ViewAfter, CheckpointAfter, RecalledRows, CacheClean, TallyOf, Possible,
        ExtractedFrom, Lost, CureMemorySystem.Conserved, SqliteStore.Settled, TraceState.Searching,
        CureMemorySystem.Valid, TraceState.Valid, SearchOf, Logged, SearchSegment;
      CacheIsLogged();
      var token := BeginSearch();
      if searchFails {
        CloseFailed(token);
        return None;
      }
      recall := RenderRecall(system.store.working.memories, query.value, config);
      Memoize(token, recall);
      Remember();
    }

    // From here on the answer stands for these rows.
    method Remember()
      requires Logged() && dirty && query.Some? && query.value != []
      requires cachedRecall == FreshRecall(system.store.working.memories, query.value, config)
      modifies this`dirty, this`searches, this`log
      ensures Logged() && !dirty && searches == old(searches) + 1 && log == old(log) + [Searched]
      ensures CacheClean(log) && !CacheClean(old(log))
      ensures RecalledRows(world, log) == system.store.working.memories
    {
      hide FreshRecall, ViewAfter, CheckpointAfter, RecalledRows, CacheClean, TallyOf, Possible, Bound;
      AfterSearch(world, log);
      log := log + [Searched];
      searches := searches + 1;
      dirty := false;
    }

    method BeginSearch() returns (token: Option<Operation>)
      requires trace.Valid() && AnchorHolds()
      modifies trace`posts, trace`minted, trace`memoryLaneEnabled, trace`pendingSearch
      ensures trace.Searching(token) && AnchorHolds() && old(trace.posts) <= trace.posts
      ensures token.Some? <==> old(trace.MemoryLaneOn())
      ensures token.None? ==> unchanged(trace)
      ensures token.Some? ==> trace.attached && trace.pendingSearch.None?
      ensures token.Some? ==> trace.posts[..|trace.posts| - 1] == old(trace.posts) && token.value.id == old(trace.minted)
      ensures trace.DeliveryOn() == old(trace.DeliveryOn())
    {
      hide FreshRecall, Kept, Recorded, OpenSince;
      token := trace.RecallSearch();
      AnchorOutlives(old(trace.posts), trace.posts);
    }

    method CloseFailed(token: Option<Operation>)
      requires trace.Searching(token) && (token.Some? ==> trace.attached && trace.pendingSearch.None?) && AnchorHolds()
      modifies trace`posts, trace`pendingSearch
      ensures trace.Valid() && old(trace.posts) <= trace.posts && AnchorHolds()
      ensures token.None? ==> unchanged(trace)
      ensures token.Some? ==>
        |old(trace.posts)| > 0 && trace.pendingSearch.None? && SearchOf(trace.posts[|old(trace.posts)| - 1..], token.value.id, false, [])
    {
      hide FreshRecall, Kept, Recorded, OpenSince;
      trace.RecallRendered(token, false, []);
      AnchorOutlives(old(trace.posts), trace.posts);
    }

    // Closes the search and memoizes its payload, with the search as anchor only if the recorder
    // accepted both of its ends.
    method Memoize(token: Option<Operation>, recall: Option<Recall>)
      requires trace.Searching(token) && (token.Some? ==> trace.attached && trace.pendingSearch.None?) && Logged() && dirty
      modifies this`cachedRecall, this`cachedAnchor, trace`posts, trace`pendingSearch
      ensures trace.Valid() && old(trace.posts) <= trace.posts && Logged() && AnchorHolds() && cachedRecall == recall
      ensures token.None? ==> unchanged(trace) && cachedAnchor.None?
      ensures token.Some? ==>
        && |old(trace.posts)| > 0 && trace.pendingSearch == cachedAnchor
        && SearchOf(trace.posts[|old(trace.posts)| - 1..], token.value.id, true,
                    if recall.Some? then recall.value.memories else [])
      ensures token.Some? && trace.pendingSearch.Some? ==>
        recall.Some? && trace.pendingSearch == cachedAnchor && Recorded(trace.posts, cachedAnchor.value.id, recall.value.memories)
    {
      hide FreshRecall, Kept, Recorded, ViewAfter, CheckpointAfter, RecalledRows, CacheClean, TallyOf, Possible,
        ExtractedFrom, Lost, CureMemorySystem.Conserved, SqliteStore.Settled;
      trace.RecallRendered(token, true, if recall.Some? then recall.value.memories else []);
      cachedRecall := recall;
      cachedAnchor := if recall.Some? && token.Some? && trace.pendingSearch == token then token else None;
    }

    method MainLaneCursor() returns (cursor: Option<int>)
      requires Valid()
      modifies trace`posts
      ensures Valid() && old(trace.posts) <= trace.posts
      ensures !trace.DeliveryOn() ==> cursor.None? && trace.posts == old(trace.posts)
      ensures trace.DeliveryOn() ==>
        |trace.posts| == |old(trace.posts)| + 1 && trace.posts[|old(trace.posts)|].events == []
        && cursor == CursorOf(trace.posts[|old(trace.posts)|].answer)
      ensures cursor.Some? ==> |trace.posts| > |old(trace.posts)| && CursorRead(trace.posts[|old(trace.posts)|], cursor.value)
    {
      hide FreshRecall, Kept, Recorded, ViewAfter, CheckpointAfter, RecalledRows, CacheClean, TallyOf, Possible,
        ExtractedFrom, Lost, CureMemorySystem.Conserved, SqliteStore.Settled;
      cursor := trace.MainLaneCursor();
      AnchorOutlives(old(trace.posts), trace.posts);
    }

    method DeliverRecall(recall: Recall, cached: bool, cursor: Option<int>)
      requires Valid() && Anchored()
      requires var cited := if cached then cachedAnchor else trace.pendingSearch;
        trace.DeliveryOn() && cited.Some? && cursor.Some? ==> Citable(trace.posts, cited.value.id, recall.memories, cursor.value)
      modifies trace`posts, trace`pendingSearch, trace`deliveryEnabled
      ensures Valid() && Anchored() && old(trace.posts) <= trace.posts
      ensures trace.DeliveryOn() ==> trace.pendingSearch.None?
      ensures var cited := if cached then cachedAnchor else old(trace.pendingSearch);
        if old(trace.DeliveryOn()) && cited.Some? && cursor.Some?
        then |trace.posts| == |old(trace.posts)| + 1
             && trace.posts[|old(trace.posts)|].events == [Delivered(cited.value.id, recall.memories, cursor.value)]
        else trace.posts == old(trace.posts)
    {
      hide FreshRecall, Kept, Recorded, Citable, ViewAfter, CheckpointAfter, RecalledRows, CacheClean, TallyOf,
        Possible, ExtractedFrom, Lost, CureMemorySystem.Conserved, SqliteStore.Settled, Bound;
      trace.DeliverRecall(cached, cachedAnchor, recall.memories, cursor);
      AnchorOutlives(old(trace.posts), trace.posts);
    }

    // What was recorded stays recorded.
    lemma AnchorOutlives(before: seq<Post>, after: seq<Post>)
      requires before <= after
      ensures cachedAnchor.Some? && cachedRecall.Some? && Recorded(before, cachedAnchor.value.id, cachedRecall.value.memories) ==>
        Recorded(after, cachedAnchor.value.id, cachedRecall.value.memories)
    {
      if cachedAnchor.Some? && cachedRecall.Some? && Recorded(before, cachedAnchor.value.id, cachedRecall.value.memories) {
        RecordedStays(before, after[|before|..], cachedAnchor.value.id, cachedRecall.value.memories);
        assert after == before + after[|before|..];
      }
    }
  }
}
