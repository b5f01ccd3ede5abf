/** The agent's loop around the memory backend: every call order the agent can produce, whatever the
    model, the recorder, the clock and the database driver do. */
module AgentLoop {
  import opened Wrappers
  import opened CureModel
  import opened CureStore
  import CureExtractor
  import opened CureSystem
  import opened CureRecall
  import opened TraceProtocol
  import opened TraceWiring
  import opened RecallCache
  import opened RunLog
  import opened CureReplay

  datatype Utterance = Utterance(role: string, text: string)

  // A trajectory message, or the transient recall block.
  datatype Turn = Said(words: Utterance) | Marker(block: string)

  // How the wrapped query ends: refused by a limit before any model call, or attempted, perhaps
  // raising after some messages were added.
  datatype ModelCall = NotAttempted | Attempted(raised: bool, said: seq<Utterance>)

  function Turns(said: seq<Utterance>): (r: seq<Turn>)
    ensures |r| == |said| && forall k :: 0 <= k < |said| ==> r[k] == Said(said[k])
  {
    seq(|said|, k requires 0 <= k < |said| => Said(said[k]))
  }

  function SaidIn(call: ModelCall): seq<Utterance> {
    if call.Attempted? then call.said else []
  }

  predicate Clean(call: ModelCall) {
    call.Attempted? && !call.raised
  }

  ghost predicate NoMarker(messages: seq<Turn>) {
    forall i :: 0 <= i < |messages| ==> messages[i].Said?
  }

  // What the recording hook logs of what is said.
  function NotesOf(w: World, said: seq<Utterance>): (r: seq<Entry>)
    ensures |r| == if Active(w) then |said| else 0
  {
    if Active(w) then seq(|said|, k requires 0 <= k < |said| => Noted(said[k].role, said[k].text)) else []
  }

  lemma NoNotes(w: World, said: seq<Utterance>)
    ensures NotesOf(w, said[..0]) == []
  {
  }

  lemma OneMoreNote(w: World, said: seq<Utterance>, i: nat)
    requires i < |said|
    ensures NotesOf(w, said[..i + 1]) == NotesOf(w, said[..i]) + if Active(w) then [Noted(said[i].role, said[i].text)] else []
  {
    assert said[..i + 1][..i] == said[..i];
  }

  // A query searches when the cache is not clean; a search that fails leaves no trace in the log.
  predicate Searches(log: seq<Entry>, query: Query, searchFails: bool) {
    query != [] && !CacheClean(log) && !searchFails
  }

  function SearchedLog(log: seq<Entry>, query: Query, searchFails: bool): seq<Entry> {
    log + if Searches(log, query, searchFails) then [Searched] else []
  }

  // The block is looked for from the end: the reply may already follow it.
  method RemoveMarker(messages: seq<Turn>, ghost earlier: seq<Turn>, ghost later: seq<Turn>) returns (rest: seq<Turn>)
    requires |earlier| < |messages| && messages[|earlier|].Marker? && NoMarker(earlier) && NoMarker(later)
    requires messages == earlier + [messages[|earlier|]] + later
    ensures rest == earlier + later
  {
    for i := |messages| downto 0
      invariant i > |earlier|
    {
      if messages[i].Marker? {
        assert i == |earlier|;
        return messages[..i] + messages[i + 1..];
      }
    }
  }

  // After the call: a raised one is probed on the main lane, and the block is delivered when its search
  // can be cited and the call returned or is seen there. Without a cursor nothing is posted.
  ghost predicate Delivers(before: seq<Post>, after: seq<Post>, cited: Option<Operation>, memories: seq<Memory>,
                           cursor: Option<int>, raised: bool) {
    var n := |before|;
    && before <= after
    && if cursor.None? then after == before
       else
         var m := if raised then n + 1 else n;
         && m <= |after| <= m + 1 && (raised ==> after[n].events == [])
         && (|after| == m + 1 <==> cited.Some? && (raised ==> ReadPast(after[n].answer, cursor.value)))
         && (|after| == m + 1 && cited.Some? ==> after[m].events == [Delivered(cited.value.id, memories, cursor.value)])
  }

  predicate ReadPast(probe: Answer, cursor: int) {
    probe.Accepted? && probe.cursor.Some? && probe.cursor.value > cursor
  }

  // The posts around one placed block: the cursor read first, then, if the call was attempted, what
  // follows it. With delivery off there are none.
  ghost predicate Injected(before: seq<Post>, after: seq<Post>, on: bool, cited: Option<Operation>, memories: seq<Memory>, call: ModelCall) {
    var n := |before|;
    if !on then after == before
    else
      && before <= after && n < |after| && after[n].events == []
      && if call.NotAttempted? then |after| == n + 1
         else Delivers(after[..n + 1], after, cited, memories, CursorOf(after[n].answer), call.raised)
  }

  // The posts of one query: those of its search, if one ran with the lane on, and those around its block.
  ghost predicate QueryPosts(before: seq<Post>, searched: seq<Post>, after: seq<Post>, traced: bool, op: nat, searchFails: bool,
                             on: bool, recall: Option<Recall>, cited: Option<Operation>, call: ModelCall) {
    && before <= searched <= after
    && (if traced then SearchOf(searched[|before|..], op, !searchFails, if recall.Some? then recall.value.memories else [])
        else searched == before)
    && (if recall.None? then after == searched else Injected(searched, after, on, cited, recall.value.memories, call))
  }

  function MarkerOf(recall: Option<Recall>): seq<Turn> {
    if recall.Some? then [Marker(recall.value.content)] else []
  }

  class MemoryAgent {
    const backend: MemoryBackend
    var messages: seq<Turn>

    constructor (backend: MemoryBackend)
      ensures this.backend == backend && messages == []
    {
      this.backend, messages := backend, [];
    }

    ghost predicate Valid()
      reads this, backend, backend.system, backend.system.store, backend.trace
    {
      backend.Valid() && !backend.finalized && backend.query.Some? && NoMarker(messages)
    }

    // The recording hook: what is said is appended and recorded.
    method AddMessages(said: seq<Utterance>)
      requires backend.Valid() && !backend.finalized
      modifies this`messages, backend`log, backend.system.store
      ensures backend.Valid() && messages == old(messages) + Turns(said)
      ensures backend.log == old(backend.log) + NotesOf(backend.world, said)
      ensures old(NoMarker(messages)) ==> NoMarker(messages)
    {
      hide MemoryBackend.Valid, NotesOf;
      messages := messages + Turns(said);
      NoNotes(backend.world, said);
      for i := 0 to |said|
        invariant backend.Valid() && messages == old(messages) + Turns(said)
        invariant backend.log == old(backend.log) + NotesOf(backend.world, said[..i])
      {
        var recorded := backend.Record(said[i].role, said[i].text);
        OneMoreNote(backend.world, said, i);
      }
      assert said[..|said|] == said;
    }

    // A delivery of this block, if one is posted, is honest.
    ghost predicate Placed(recall: Recall, cached: bool, cursor: Option<int>)
      reads backend, backend.trace
    {
      var trace := backend.trace;
      var cited := if cached then backend.cachedAnchor else trace.pendingSearch;
      trace.DeliveryOn() && cited.Some? && cursor.Some? ==> Citable(trace.posts, cited.value.id, recall.memories, cursor.value)
    }

    lemma PlacedAt(before: seq<Post>, recall: Recall, cached: bool, cursor: Option<int>)
      requires before <= backend.trace.posts
      requires cursor.Some? ==> |backend.trace.posts| > |before| && CursorRead(backend.trace.posts[|before|], cursor.value)
      requires var cited := if cached then backend.cachedAnchor else backend.trace.pendingSearch;
        backend.trace.DeliveryOn() && cited.Some? ==> Recorded(before, cited.value.id, recall.memories)
      ensures Placed(recall, cached, cursor)
    {
      assert backend.trace.posts[..|before|] == before;
    }

    lemma PlacedOutlives(before: seq<Post>, recall: Recall, cached: bool, cursor: Option<int>)
      requires before <= backend.trace.posts
      requires var cited := if cached then backend.cachedAnchor else backend.trace.pendingSearch;
        backend.trace.DeliveryOn() && cited.Some? && cursor.Some? ==> Citable(before, cited.value.id, recall.memories, cursor.value)
      ensures Placed(recall, cached, cursor)
    {
      var posts := backend.trace.posts;
      var cited := if cached then backend.cachedAnchor else backend.trace.pendingSearch;
      if backend.trace.DeliveryOn() && cited.Some? && cursor.Some? {
        CitableStays(before, posts[|before|..], cited.value.id, recall.memories, cursor.value);
        assert posts == before + posts[|before|..];
      }
    }

    method Speak(said: seq<Utterance>)
      requires Valid() && backend.Anchored()
      modifies this`messages, backend`log, backend.system.store
      ensures Valid() && backend.Anchored() && messages == old(messages) + Turns(said)
      ensures backend.log == old(backend.log) + NotesOf(backend.world, said)
    {
      hide MemoryBackend.Valid, NotesOf;
      AddMessages(said);
    }

    method Finalize(tick: Tick)
      requires Valid()
      modifies backend, backend.system, backend.system.store
      modifies backend.trace`posts, backend.trace`minted, backend.trace`memoryLaneEnabled
      ensures backend.Valid() && backend.setTasks == old(backend.setTasks) && backend.query == old(backend.query)
      ensures Ticked(backend.world, old(backend.log), Some(tick.answer), backend.log)
    {
      hide MemoryBackend.Valid, Ticked;
      backend.Finalize(tick);
    }

    // One query. The model sees the trajectory and, for this call only, the recall block; it is what the
    // cache serves after the search, if one is due. A delivery is posted only for a call that was attempted
    // and, when it raised, is seen on the main lane.
    method Query(searchFails: bool, call: ModelCall)
      returns (recall: Option<Recall>, prompt: seq<Turn>, ghost searched: seq<Post>)
      requires Valid() && backend.Anchored()
      modifies this`messages, backend`dirty, backend`cachedRecall, backend`cachedAnchor, backend`searches, backend`log, backend.system.store
      modifies backend.trace`posts, backend.trace`minted, backend.trace`memoryLaneEnabled, backend.trace`pendingSearch, backend.trace`deliveryEnabled
      ensures Valid() && backend.Anchored() && messages == old(messages) + Turns(SaidIn(call))
      ensures call.NotAttempted? ==> messages == old(messages)
      ensures call.Attempted? ==> messages == old(messages) + Turns(call.said)
      ensures Clean(call) && backend.trace.DeliveryOn() ==> backend.trace.pendingSearch.None?
      ensures prompt == old(messages) + MarkerOf(recall)
      ensures var log := SearchedLog(old(backend.log), backend.query.value, searchFails);
        && recall == (if backend.query.value == [] then None else Served(backend.world, log, backend.query.value, backend.config))
        && backend.log == log + NotesOf(backend.world, SaidIn(call))
      ensures var traced := backend.query.value != [] && !CacheClean(old(backend.log)) && old(backend.trace.MemoryLaneOn());
        QueryPosts(old(backend.trace.posts), searched, backend.trace.posts, traced, old(backend.trace.minted), searchFails,
                   old(backend.trace.DeliveryOn()), recall, backend.cachedAnchor, call)
    {
      hide MemoryBackend.Valid, Citable, Recorded, Turns, NotesOf, Served, Delivers, SearchOf, CacheClean;
      var cached;
      recall, cached := backend.RecallContext(searchFails);
      searched, prompt := backend.trace.posts, messages;
      if recall.None? {
        AddMessages(SaidIn(call));
        return;
      }
      prompt := Inject(recall.value, cached, call);
    }

    // The block is placed at a cursor read just before, the call is made, the block is removed.
    method Inject(recall: Recall, cached: bool, call: ModelCall) returns (prompt: seq<Turn>)
      requires Valid() && backend.Anchored() && backend.MayCite(recall, cached)
      modifies this`messages, backend`log, backend.system.store
      modifies backend.trace`posts, backend.trace`pendingSearch, backend.trace`deliveryEnabled
      ensures prompt == old(messages) + [Marker(recall.content)]
      ensures backend.log == old(backend.log) + NotesOf(backend.world, SaidIn(call))
      ensures old(backend.trace.posts) <= backend.trace.posts
      ensures Valid() && backend.Anchored() && messages == old(messages) + Turns(SaidIn(call))
      ensures Clean(call) && backend.trace.DeliveryOn() ==> backend.trace.pendingSearch.None?
      ensures var cited := if cached then backend.cachedAnchor else old(backend.trace.pendingSearch);
        Injected(old(backend.trace.posts), backend.trace.posts, old(backend.trace.DeliveryOn()), cited, recall.memories, call)
    {
      hide MemoryBackend.Valid, Citable, Recorded, NotesOf;
      ghost var earlier, recalled := messages, backend.trace.posts;
      var cursor := backend.MainLaneCursor();
      ghost var read := backend.trace.posts;
      PlacedAt(recalled, recall, cached, cursor);
      messages := messages + [Marker(recall.content)];
      prompt := messages;
      AddMessages(SaidIn(call));
      messages := RemoveMarker(messages, earlier, Turns(SaidIn(call)));
      if call.Attempted? {
        AfterCall(recall, cached, cursor, call.raised);
        assert |read| > |recalled| ==> backend.trace.posts[..|recalled| + 1] == read;
      }
    }

    method AfterCall(recall: Recall, cached: bool, cursor: Option<int>, raised: bool)
      requires Valid() && backend.Anchored() && Placed(recall, cached, cursor) && (cursor.Some? ==> backend.trace.DeliveryOn())
      modifies backend.trace`posts, backend.trace`pendingSearch, backend.trace`deliveryEnabled
      ensures Valid() && backend.Anchored()
      ensures !raised && backend.trace.DeliveryOn() ==> backend.trace.pendingSearch.None?
      ensures var cited := if cached then backend.cachedAnchor else old(backend.trace.pendingSearch);
        Delivers(old(backend.trace.posts), backend.trace.posts, cited, recall.memories, cursor, raised)
    {
      hide MemoryBackend.Valid, Citable, Recorded;
      ghost var before := backend.trace.posts;
      if raised && cursor.Some? {
        var advanced := backend.MainLaneCursor();
        if advanced.None? || advanced.value <= cursor.value {
          return;
        }
        PlacedOutlives(before, recall, cached, cursor);
      }
      backend.DeliverRecall(recall, cached, cursor);
    }

    // The observations of a clean step, then its two ticks.
    method CloseStep(said: seq<Utterance>, extract: Option<Tick>, rewrite: Option<Query>) returns (ghost changes: seq<Change>)
      requires Valid() && backend.Anchored() && (backend.trace.DeliveryOn() ==> backend.trace.pendingSearch.None?)
      modifies this`messages, backend`dirty, backend`query, backend`log, backend`extractionCalls, backend`rewriteSuccesses
      modifies backend.system, backend.system.store, backend.trace`posts, backend.trace`minted, backend.trace`memoryLaneEnabled
      ensures Valid() && backend.Anchored() && messages == old(messages) + Turns(said)
      ensures StepCloses(backend.world, old(backend.log), said, extract, rewrite, backend.log)
      ensures backend.query == if rewrite.Some? then rewrite else old(backend.query)
      ensures old(backend.trace.posts) <= backend.trace.posts
      ensures
        || backend.trace.posts == old(backend.trace.posts)
        || (backend.extractionCalls == old(backend.extractionCalls) + 1
            && GenerationOf(backend.trace.posts[|old(backend.trace.posts)|..], old(backend.trace.minted), changes))
    {
      hide MemoryBackend.Valid, Turns, NotesOf, Ticked, CacheClean, GenerationOf;
      AddMessages(said);
      changes := backend.MaybeExtract(extract);
      ghost var ticked := backend.log;
      backend.Rewrite(rewrite);
      assert rewrite.Some? ==> backend.log[..|backend.log| - 1] == ticked;
    }

    // One step; both ticks are attempted after a clean one, and after no other.
    method Step(searchFails: bool, call: ModelCall, observations: Option<seq<Utterance>>, extract: Option<Tick>, rewrite: Option<Query>)
      returns (recall: Option<Recall>, prompt: seq<Turn>, ghost searched: seq<Post>, ghost queried: seq<Post>, ghost changes: seq<Change>)
      requires Valid() && backend.Anchored()
      modifies this`messages, backend, backend.system, backend.system.store
      modifies backend.trace`posts, backend.trace`minted, backend.trace`memoryLaneEnabled, backend.trace`pendingSearch, backend.trace`deliveryEnabled
      ensures Valid() && backend.Anchored()
      ensures messages == old(messages) + StepTurns(call, observations) && prompt == old(messages) + MarkerOf(recall)
      ensures var log, query := SearchedLog(old(backend.log), old(backend.query.value), searchFails), old(backend.query.value);
        recall == if query == [] then None else Served(backend.world, log, query, backend.config)
      ensures Stepped(backend.world, old(backend.log), old(backend.query.value), searchFails, call, observations, extract, rewrite, backend.log)
      ensures backend.query == Some(QueryAfterStep(old(backend.query.value), call, observations, rewrite))
      // the posts: those of the query, and of an extraction if one is counted
      ensures var traced := old(backend.query.value) != [] && !CacheClean(old(backend.log)) && old(backend.trace.MemoryLaneOn());
        && QueryPosts(old(backend.trace.posts), searched, queried, traced, old(backend.trace.minted), searchFails,
                      old(backend.trace.DeliveryOn()), recall, backend.cachedAnchor, call)
        && queried <= backend.trace.posts
        && (backend.trace.posts == queried
            || (backend.extractionCalls == old(backend.extractionCalls) + 1
                && exists op :: GenerationOf(backend.trace.posts[|queried|..], op, changes)))
      ensures call.NotAttempted? || call.raised || observations.None? ==>
        && backend.extractionCalls == old(backend.extractionCalls) && backend.rewriteSuccesses == old(backend.rewriteSuccesses)
        && backend.query == old(backend.query) && unchanged(backend.system)
      ensures backend.setTasks == old(backend.setTasks)
    {
      hide MemoryBackend.Valid, MemoryBackend.Anchored, Turns, NotesOf, Served, QueryPosts, StepCloses,
        CacheClean, SearchedLog, GenerationOf, NoMarker;
      recall, prompt, searched := Query(searchFails, call);
      queried, changes := backend.trace.posts, [];
      if !Clean(call) || observations.None? {
        return;
      }
      changes := CloseStep(observations.value, extract, rewrite);
    }
  }

  ghost predicate StepCloses(w: World, log: seq<Entry>, said: seq<Utterance>, extract: Option<Tick>, rewrite: Option<Query>, log': seq<Entry>) {
    && (rewrite.Some? ==> log' != [] && log'[|log'| - 1] == Queried)
    && Ticked(w, log + NotesOf(w, said), if extract.Some? then Some(extract.value.answer) else None,
              if rewrite.Some? then log'[..|log'| - 1] else log')
  }

  // What one step logs: its search, what was said, and after a clean step the two ticks.
  ghost predicate Stepped(w: World, log: seq<Entry>, query: Query, searchFails: bool, call: ModelCall,
                          observations: Option<seq<Utterance>>, extract: Option<Tick>, rewrite: Option<Query>, log': seq<Entry>) {
    var talked := SearchedLog(log, query, searchFails) + NotesOf(w, SaidIn(call));
    if !Clean(call) || observations.None? then log' == talked
    else StepCloses(w, talked, observations.value, extract, rewrite, log')
  }

  function QueryAfterStep(query: Query, call: ModelCall, observations: Option<seq<Utterance>>, rewrite: Option<Query>): Query {
    if Clean(call) && observations.Some? && rewrite.Some? then rewrite.value else query
  }

  function StepTurns(call: ModelCall, observations: Option<seq<Utterance>>): seq<Turn> {
    Turns(SaidIn(call)) + if Clean(call) && observations.Some? then Turns(observations.value) else []
  }

  // ------------------------------------------------------------------
  // Whole episodes
  // ------------------------------------------------------------------

  // What happens next: messages the loop adds by itself, or one step.
  datatype Move =
    | Speak(said: seq<Utterance>)
    | Step(searchFails: bool, call: ModelCall, observations: Option<seq<Utterance>>, extract: Option<Tick>, rewrite: Option<Query>)

  function TurnsOf(script: seq<Move>): seq<Turn> {
    if script == [] then []
    else
      var last := script[|script| - 1];
      TurnsOf(script[..|script| - 1])
      + match last
        case Speak(said) => Turns(said)
        case Step(_, call, observations, _, _) => StepTurns(call, observations)
  }

  function QueryAfter(task: Query, script: seq<Move>): Query {
    if script == [] then task
    else
      var query := QueryAfter(task, script[..|script| - 1]);
      match script[|script| - 1]
      case Speak(_) => query
      case Step(_, call, observations, _, rewrite) => QueryAfterStep(query, call, observations, rewrite)
  }

  ghost predicate Moved(w: World, log: seq<Entry>, query: Query, move: Move, log': seq<Entry>) {
    match move
    case Speak(said) => log' == log + NotesOf(w, said)
    case Step(searchFails, call, observations, extract, rewrite) =>
      Stepped(w, log, query, searchFails, call, observations, extract, rewrite, log')
  }

  // The log of a script: the task, then one move after another.
  ghost predicate Follows(w: World, task: Query, script: seq<Move>, log: seq<Entry>) {
    if script == [] then log == [Queried]
    else
      var front := script[..|script| - 1];
      exists k: nat :: k <= |log| && Follows(w, task, front, log[..k])
        && Moved(w, log[..k], QueryAfter(task, front), script[|script| - 1], log)
  }

  // And of an episode, which may end with a final flush.
  ghost predicate LogOf(w: World, task: Query, script: seq<Move>, finish: Option<Tick>, log: seq<Entry>) {
    exists k: nat :: k <= |log| && Follows(w, task, script, log[..k])
      && Ticked(w, log[..k], if finish.Some? then Some(finish.value.answer) else None, log)
  }

  lemma MovedGrows(w: World, log: seq<Entry>, query: Query, move: Move, log': seq<Entry>)
    requires Moved(w, log, query, move, log')
    ensures log <= log'
  {
    hide ExtractedFrom, CacheClean, Due, NotesOf;
  }

  lemma {:induction false} FollowsOn(w: World, task: Query, script: seq<Move>, k: nat, log: seq<Entry>, log': seq<Entry>)
    requires k < |script| && Follows(w, task, script[..k], log) && log != [] && log[0] == Queried
    requires Moved(w, log, QueryAfter(task, script[..k]), script[k], log')
    ensures Follows(w, task, script[..k + 1], log') && log' != [] && log'[0] == Queried
  {
    hide Moved;
    assert script[..k + 1][..k] == script[..k];
    MovedGrows(w, log, QueryAfter(task, script[..k]), script[k], log');
    assert log'[..|log|] == log;
  }

  // The state an episode is in: what was posted, the messages, the connection's view of the store, the
  // query, the memoized answer when the cache is clean, and the counters.
  datatype State = State(posts: seq<Post>, minted: nat, messages: seq<Turn>, view: View, query: Option<Query>,
                         cache: Option<Option<Recall>>, searches: nat, extractionCalls: nat, rewriteSuccesses: nat)

  // The world an episode runs in.
  function WorldOf(db: Db, clock: seq<int>, refusals: seq<bool>, judge: CureExtractor.Judge, config: Config): World {
    World(View(db, db, false, 0), 0, config.user, config.session, config.project, clock, refusals, judge)
  }

  // A fresh agent on an opened database, its session started and its task set.
  method Begin(db: Db, clock: seq<int>, refusals: seq<bool>, judge: CureExtractor.Judge, answers: seq<Answer>, traced: bool,
               config: Config, task: Query)
    returns (agent: MemoryAgent)
    requires WellFormed(db)
    ensures fresh(agent) && fresh(agent.backend) && fresh(agent.backend.system) && fresh(agent.backend.system.store) && fresh(agent.backend.trace)
    ensures agent.Valid() && agent.backend.Anchored() && agent.messages == []
    ensures agent.backend.setTasks == 1 && agent.backend.query == Some(task) && agent.backend.trace.sessions <= 1
    ensures agent.backend.config == config && agent.backend.world == WorldOf(db, clock, refusals, judge, config) && agent.backend.log == [Queried]
  {
    hide CureMemorySystem.Conserved, FreshRecall, Kept, Possible, ViewAfter, CheckpointAfter, TallyOf, CacheClean,
      RecalledRows;
    var store := new SqliteStore(db, clock, refusals);
    var system := new CureMemorySystem(store, judge);
    system.StartSession(config.user, config.project, config.session);
    var trace := new TraceState(answers, traced);
    var backend := new MemoryBackend(system, trace, config);
    backend.SetTask(task);
    agent := new MemoryAgent(backend);
  }

  method Run(agent: MemoryAgent, task: Query, script: seq<Move>)
    requires agent.Valid() && agent.backend.Anchored() && agent.messages == []
    requires agent.backend.query == Some(task) && agent.backend.log == [Queried]
    modifies agent`messages, agent.backend, agent.backend.system, agent.backend.system.store
    modifies agent.backend.trace`posts, agent.backend.trace`minted, agent.backend.trace`memoryLaneEnabled
    modifies agent.backend.trace`pendingSearch, agent.backend.trace`deliveryEnabled
    ensures agent.Valid() && agent.backend.Valid() && agent.messages == TurnsOf(script) && agent.backend.setTasks == old(agent.backend.setTasks)
    ensures agent.backend.query == Some(QueryAfter(task, script))
    ensures Follows(agent.backend.world, task, script, agent.backend.log)
    ensures agent.backend.log != [] && agent.backend.log[0] == Queried
  {
    hide MemoryBackend.Valid, MemoryBackend.Anchored, Turns, StepTurns, Stepped, QueryAfterStep, Follows,
      QueryPosts, Served, SearchedLog;
    NothingFollows(agent.backend.world, task, script);
    for k := 0 to |script|
      invariant agent.Valid() && agent.backend.Anchored() && agent.backend.setTasks == old(agent.backend.setTasks)
      invariant agent.messages == TurnsOf(script[..k]) && agent.backend.query == Some(QueryAfter(task, script[..k]))
      invariant Follows(agent.backend.world, task, script[..k], agent.backend.log)
      invariant agent.backend.log != [] && agent.backend.log[0] == Queried
    {
      assert script[..k + 1][..k] == script[..k];
      ghost var before := agent.backend.log;
      match script[k] {
        case Speak(said) =>
          agent.Speak(said);
        case Step(searchFails, call, observations, extract, rewrite) =>
          var recall, prompt, searched, queried, changes := agent.Step(searchFails, call, observations, extract, rewrite);
      }
      FollowsOn(agent.backend.world, task, script, k, before, agent.backend.log);
    }
    assert script[..|script|] == script;
  }

  lemma NothingFollows(w: World, task: Query, script: seq<Move>)
    ensures Follows(w, task, script[..0], [Queried])
  {
  }

  // What every state of an episode satisfies, given the log of its run: the posts keep to the protocol,
  // what was shut stays shut, deliveries are honest, searches are paid for, the store is what the log made
  // of it, and a clean cache is a fresh recall of the rows at the last search.
  ghost predicate Sane(state: State, w: World, log: seq<Entry>, config: Config) {
    && (exists s: nat :: s <= 1 && Protocol(state.posts, state.minted, s))
    && StaysShut(state.posts) && LaneStaysShut(state.posts) && Honest(state.posts)
    && state.searches + (if state.cache.None? then 1 else 0) <= 1 + state.extractionCalls + state.rewriteSuccesses
    && Possible(w, log) && TallyOf(log) == Tally(state.searches, state.extractionCalls, 1 + state.rewriteSuccesses)
    && state.view == ViewAfter(w, log)
    && (state.cache.Some? <==> CacheClean(log))
    && (state.cache.Some? ==>
          state.query.Some? && state.cache.value == FreshRecall(RecalledRows(w, log), state.query.value, config))
  }

  ghost predicate CoherentState(state: State, config: Config) {
    state.cache.Some? ==>
      state.query.Some? && state.cache.value == FreshRecall(state.view.working.memories, state.query.value, config)
  }

  // A clean cache is coherent exactly when no record since its search rolled rows back, or the rows before
  // and after recall the same. So it is when at most one driver call is refused, and when no extraction
  // ended with its transaction open.
  lemma {:induction false} SaneIsCoherent(state: State, w: World, log: seq<Entry>, config: Config)
    requires Sane(state, w, log, config) && Closed(w.start) && !w.start.inTransaction
    ensures state.cache.Some? ==>
      (CoherentState(state, config) <==>
        (Lost(w, log) ==>
          FreshRecall(RecalledRows(w, log), state.query.value, config) == FreshRecall(Rows(w, log), state.query.value, config)))
    ensures !RefusedTwice(w.refusals) ==> CoherentState(state, config)
    ensures (forall k :: 0 <= k < |log| && log[k].Extracted? ==> !log[k].after.inTransaction) ==> CoherentState(state, config)
  {
    hide FreshRecall, Possible, Protocol, StaysShut, LaneStaysShut, Honest, ViewAfter, TallyOf, CacheClean,
      RecalledRows, Lost;
    if state.cache.Some? {
      RowsMovedIffLost(w, log);
      if Lost(w, log) {
        LosingTakesTwo(w, log);
      }
      if forall k :: 0 <= k < |log| && log[k].Extracted? ==> !log[k].after.inTransaction {
        LosingTakesAnOpenEnd(w, log);
      }
    }
  }

  method Observe(agent: MemoryAgent) returns (state: State)
    requires agent.backend.Valid() && agent.backend.setTasks == 1 && agent.backend.trace.sessions <= 1
    requires agent.backend.log != [] && agent.backend.log[0] == Queried
    ensures state.messages == agent.messages && state.query == agent.backend.query
    ensures Sane(state, agent.backend.world, agent.backend.log, agent.backend.config)
  {
    hide FreshRecall, Protocol, StaysShut, LaneStaysShut, Honest, Possible, ViewAfter, TallyOf, CacheClean,
      RecalledRows;
    var backend := agent.backend;
    state := State(backend.trace.posts, backend.trace.minted, agent.messages, backend.system.store.Seen(), backend.query,
                   if backend.dirty then None else Some(backend.cachedRecall), backend.searches, backend.extractionCalls,
                   backend.rewriteSuccesses);
    ShutForGood(backend.trace.posts, backend.trace.minted, backend.trace.sessions);
    SearchesArePaid(backend.world, backend.log);
  }

  // Every state an episode can reach, with the log of the run that reached it: the script, the model's
  // answers, the clock and the refused calls fix what is logged, and the log fixes when the clean cache may
  // differ from the rows of now. No recall block persists in the trajectory.
  method Episode(db: Db, clock: seq<int>, refusals: seq<bool>, judge: CureExtractor.Judge, answers: seq<Answer>, traced: bool,
                 config: Config, task: Query, script: seq<Move>, finish: Option<Tick>)
    returns (state: State, ghost log: seq<Entry>)
    requires WellFormed(db)
    ensures var w := WorldOf(db, clock, refusals, judge, config); Sane(state, w, log, config) && LogOf(w, task, script, finish, log)
    ensures state.messages == TurnsOf(script) && state.query == Some(QueryAfter(task, script))
    ensures !RefusedTwice(refusals) ==> CoherentState(state, config)
  {
    hide *;
    var agent := Begin(db, clock, refusals, judge, answers, traced, config, task);
    Run(agent, task, script);
    ghost var before := agent.backend.log;
    if finish.Some? {
      agent.Finalize(finish.value);
    }
    LogEnds(agent.backend.world, task, script, finish, before, agent.backend.log);
    state := Observe(agent);
    log := agent.backend.log;
    WorldStartsClosed(db, clock, refusals, judge, config);
    SaneIsCoherent(state, agent.backend.world, log, config);
  }

  lemma WorldStartsClosed(db: Db, clock: seq<int>, refusals: seq<bool>, judge: CureExtractor.Judge, config: Config)
    ensures var w := WorldOf(db, clock, refusals, judge, config); Closed(w.start) && !w.start.inTransaction && w.refusals == refusals
  {
  }

  lemma LogEnds(w: World, task: Query, script: seq<Move>, finish: Option<Tick>, log: seq<Entry>, log': seq<Entry>)
    requires Follows(w, task, script, log) && log != [] && log[0] == Queried
    requires if finish.Some? then Ticked(w, log, Some(finish.value.answer), log') else log' == log
    ensures LogOf(w, task, script, finish, log') && log' != [] && log'[0] == Queried
  {
    hide ExtractedFrom, Follows, Due;
    assert log <= log' && log'[..|log|] == log;
  }
}
