/** The bridge's annotation wiring: the object that posts, and what it remembers between posts. Each
    method keeps the three safety properties of everything posted so far, whatever the recorder
    answers. */
module TraceWiring {
  import opened Wrappers
  import opened CureModel
  import CureReplay
  import opened EventChunks
  import opened TraceProtocol

  // One traced search or extraction: where it binds, whether its start was definitively refused, and
  // whether it was accepted.
  datatype Operation = Operation(id: nat, cursor: Option<int>, disabled: bool, startAccepted: bool)

  function StartedOperation(id: nat, answer: Answer): Operation {
    Operation(id, CursorOf(answer), RefusedStart(answer), answer.Accepted?)
  }

  function Events(sized: seq<Sized<Event>>): (r: seq<Event>)
    ensures |r| == |sized| && forall k :: 0 <= k < |sized| ==> r[k] == sized[k].event
  {
    seq(|sized|, k requires 0 <= k < |sized| => sized[k].event)
  }

  // `started` was the last thing posted, and the operation it began is still open.
  ghost predicate OpenSince(posts: seq<Post>, minted: nat, sessions: nat, laneOn: bool, deliveryOn: bool, operation: Operation, started: Event) {
    && posts != []
    && var last := posts[|posts| - 1];
       && last == Post(MemoryLane, [started], last.answer) && operation == StartedOperation(operation.id, last.answer)
       && minted == operation.id + 1 && laneOn == !Conflict(last.answer)
       && sessions > 0 && Kept(posts[..|posts| - 1], operation.id, sessions, true, deliveryOn)
  }

  class TraceState {
    // The recorder's answer to post `k`; past the table nothing answers.
    const answers: seq<Answer>
    var posts: seq<Post>
    // Whether the backend still holds this trace.
    var attached: bool
    var sessionOpen: bool
    var memoryLaneEnabled: bool
    var deliveryEnabled: bool
    var pendingSearch: Option<Operation>
    var minted: nat
    // How many sessions were posted.
    ghost var sessions: nat

    constructor (answers: seq<Answer>, attached: bool)
      ensures this.answers == answers && this.attached == attached && Valid()
      ensures posts == [] && sessions == 0 && !sessionOpen && memoryLaneEnabled && deliveryEnabled && pendingSearch.None?
    {
      this.answers, this.attached := answers, attached;
      posts, minted, sessions := [], 0, 0;
      sessionOpen, memoryLaneEnabled, deliveryEnabled, pendingSearch := false, true, true, None;
    }

    ghost predicate Valid()
      reads this
    {
      Kept(posts, minted, sessions, memoryLaneEnabled, deliveryEnabled) && (sessionOpen ==> sessions > 0)
    }

    predicate MemoryLaneOn()
      reads this
    {
      attached && sessionOpen && memoryLaneEnabled
    }

    predicate DeliveryOn()
      reads this
    {
      attached && sessionOpen && deliveryEnabled
    }

    // Between the start of the search `token` and its end.
    ghost predicate Searching(token: Option<Operation>)
      reads this
    {
      if token.None? then Valid()
      else OpenSince(posts, minted, sessions, memoryLaneEnabled, deliveryEnabled, token.value, SearchStarted(token.value.id))
    }

    ghost predicate Generating(token: Option<Operation>)
      reads this
    {
      if token.None? then Valid()
      else OpenSince(posts, minted, sessions, memoryLaneEnabled, deliveryEnabled, token.value, GenerationStarted(token.value.id))
    }

    method Send(lane: Lane, events: seq<Event>) returns (answer: Answer)
      modifies this`posts
      ensures posts == old(posts) + [Post(lane, events, answer)]
    {
      answer := if |posts| < |answers| then answers[|posts|] else NoAnswer;
      posts := posts + [Post(lane, events, answer)];
    }

    method OpenSession()
      requires Valid()
      modifies this
      ensures Valid() && old(posts) <= posts
      ensures memoryLaneEnabled == old(memoryLaneEnabled) && deliveryEnabled == old(deliveryEnabled)
      ensures pendingSearch == old(pendingSearch)
      ensures old(attached) ==>
        && attached == (|posts| == |old(posts)| + 2 && posts[|posts| - 1].answer.Accepted?)
        && sessionOpen == (attached || old(sessionOpen))
      ensures !old(attached) ==> unchanged(this)
      ensures old(attached) ==> sessions == old(sessions) + 1
    {
      hide Kept;
      if !attached {
        return;
      }
      ghost var before := posts;
      var answer := Send(Main, [SessionOpened, RoleBound(Main)]);
      if answer.Accepted? {
        answer := Send(MemoryLane, [RoleBound(MemoryLane)]);
      }
      if answer.Accepted? {
        sessionOpen := true;
      } else {
        attached := false;
      }
      sessions := sessions + 1;
      SessionKept(before, minted, sessions - 1, memoryLaneEnabled, deliveryEnabled, posts[|before|..]);
      assert posts == before + posts[|before|..];
    }

    // A start post: the operation it mints, disabled by a 409 or 413, and a 409 shuts the lane.
    method StartOperation(started: Event) returns (operation: Operation)
      requires Valid() && sessionOpen && memoryLaneEnabled && (started == SearchStarted(minted) || started == GenerationStarted(minted))
      modifies this`posts, this`minted, this`memoryLaneEnabled
      ensures OpenSince(posts, minted, sessions, memoryLaneEnabled, deliveryEnabled, operation, started)
      ensures posts[..|posts| - 1] == old(posts) && operation.id == old(minted)
      ensures posts != [] && var answer := posts[|posts| - 1].answer;
        && (operation.disabled <==> answer.Rejected? && answer.status in {409, 413})
        && (memoryLaneEnabled <==> !(answer.Rejected? && answer.status == 409))
        && operation.cursor == (if answer.Accepted? then answer.cursor else None) && operation.startAccepted == answer.Accepted?
    {
      ghost var before := posts;
      var answer := Send(MemoryLane, [started]);
      operation := Operation(minted, None, false, answer.Accepted?);
      minted := minted + 1;
      if answer.Accepted? && answer.cursor.Some? {
        operation := operation.(cursor := answer.cursor);
      } else if answer.Rejected? && answer.status == 413 {
        operation := operation.(disabled := true);
      } else if answer.Rejected? && answer.status == 409 {
        operation := operation.(disabled := true);
        memoryLaneEnabled := false;
      }
      assert posts[..|posts| - 1] == before;
    }

    // Begins a traced search; with the lane off it returns before the pending search is cleared.
    method RecallSearch() returns (token: Option<Operation>)
      requires Valid()
      modifies this`posts, this`minted, this`memoryLaneEnabled, this`pendingSearch
      ensures Searching(token)
      ensures token.Some? <==> old(MemoryLaneOn())
      ensures token.None? ==> unchanged(this)
      ensures token.Some? ==> pendingSearch.None? && posts[..|posts| - 1] == old(posts) && token.value.id == old(minted)
      ensures old(posts) <= posts
    {
      if !MemoryLaneOn() {
        return None;
      }
      pendingSearch := None;
      var operation := StartOperation(SearchStarted(minted));
      token := Some(operation);
    }

    // Ends the search and arms the delivery anchor when both posts landed and something is returned.
    method RecallRendered(token: Option<Operation>, completed: bool, rendered: seq<Memory>)
      requires Searching(token) && (token.Some? ==> attached && pendingSearch.None?) && (!completed ==> rendered == [])
      modifies this`posts, this`pendingSearch
      ensures Valid() && old(posts) <= posts
      ensures token.None? ==> unchanged(this)
      ensures token.Some? && token.value.disabled ==> posts == old(posts) && pendingSearch.None?
      ensures token.Some? && !token.value.disabled ==>
        && |posts| == |old(posts)| + 1
        && posts[|old(posts)|].events == [SearchEnded(token.value.id, completed, rendered, token.value.cursor)]
        && pendingSearch == if completed && rendered != [] && token.value.startAccepted && posts[|old(posts)|].answer.Accepted? then token else None
      ensures token.Some? ==> |old(posts)| > 0 && SearchOf(posts[|old(posts)| - 1..], token.value.id, completed, rendered)
      ensures token.Some? && pendingSearch.Some? ==> rendered != [] && Recorded(posts, token.value.id, rendered)
    {
      hide Kept;
      if token.None? {
        return;
      }
      var operation := token.value;
      ghost var before, start := posts[..|posts| - 1], posts[|posts| - 1];
      assert posts == before + [start];
      if operation.disabled {
        assert posts[|before|..] == [start];
        RefusedSearch(before, operation, start, minted, sessions, deliveryEnabled);
        return;
      }
      var answer := Send(MemoryLane, [SearchEnded(operation.id, completed, rendered, operation.cursor)]);
      ghost var end := posts[|posts| - 1];
      assert posts == before + [start, end] && posts[|before|..] == [start, end];
      SearchKept(before, operation, start, end, minted, sessions, deliveryEnabled);
      if completed && rendered != [] && answer.Accepted? && operation.startAccepted {
        pendingSearch := token;
        assert RecordedAt(posts, |before|, operation.id, rendered);
      }
    }

    // The main lane's cursor, read immediately before a block is placed.
    method MainLaneCursor() returns (cursor: Option<int>)
      requires Valid()
      modifies this`posts
      ensures Valid() && old(posts) <= posts
      ensures !DeliveryOn() ==> cursor.None? && unchanged(this)
      ensures DeliveryOn() ==>
        && |posts| == |old(posts)| + 1 && posts[|old(posts)|].events == [] && posts[|old(posts)|].lane == Main
        && cursor == if posts[|old(posts)|].answer.Accepted? then posts[|old(posts)|].answer.cursor else None
      ensures cursor.Some? ==> CursorRead(posts[|old(posts)|], cursor.value)
    {
      hide Kept;
      if !DeliveryOn() {
        return None;
      }
      ghost var before := posts;
      var answer := Send(Main, []);
      CursorKept(before, posts[|before|], minted, sessions, memoryLaneEnabled);
      cursor := CursorOf(answer);
    }

    // Posts the delivery of one placed block. A cached block cites the anchor memoized with it, a
    // fresh one the pending search.
    method DeliverRecall(cached: bool, anchor: Option<Operation>, memories: seq<Memory>, cursor: Option<int>)
      requires Valid()
      requires var cited := if cached then anchor else pendingSearch;
        DeliveryOn() && cited.Some? && cursor.Some? ==> Citable(posts, cited.value.id, memories, cursor.value)
      modifies this`posts, this`pendingSearch, this`deliveryEnabled
      ensures Valid() && old(posts) <= posts
      ensures !old(DeliveryOn()) ==> unchanged(this)
      ensures old(DeliveryOn()) ==>
        && pendingSearch.None?
        && var cited := if cached then anchor else old(pendingSearch);
           if cited.None? || cursor.None? then posts == old(posts) && deliveryEnabled
           else
             && |posts| == |old(posts)| + 1
             && posts[|old(posts)|].events == [Delivered(cited.value.id, memories, cursor.value)]
             && deliveryEnabled == posts[|old(posts)|].answer.Accepted?
    {
      if !DeliveryOn() {
        return;
      }
      hide Kept, Citable;
      var cited := if cached then anchor else pendingSearch;
      pendingSearch := None;
      if cited.None? || cursor.None? {
        return;
      }
      ghost var before := posts;
      var answer := Send(Main, [Delivered(cited.value.id, memories, cursor.value)]);
      DeliveryKept(before, posts[|before|], minted, sessions, memoryLaneEnabled);
      if !answer.Accepted? {
        deliveryEnabled := false;
      }
    }

    method GenerationBegin() returns (token: Option<Operation>)
      requires Valid()
      modifies this`posts, this`minted, this`memoryLaneEnabled
      ensures Generating(token)
      ensures token.Some? <==> old(MemoryLaneOn())
      ensures token.None? ==> unchanged(this)
      ensures token.Some? ==> posts[..|posts| - 1] == old(posts) && token.value.id == old(minted)
    {
      if !MemoryLaneOn() {
        return None;
      }
      var operation := StartOperation(GenerationStarted(minted));
      token := Some(operation);
    }

    // Closes a generation: nothing after a refused start, else the change series and the end.
    method PostGeneration(token: Option<Operation>, changes: seq<CureReplay.Change>, sizes: seq<nat>)
      requires Generating(token)
      modifies this`posts, this`memoryLaneEnabled
      ensures Valid() && old(posts) <= posts
      ensures token.None? ==> unchanged(this)
      ensures token.Some? ==> |old(posts)| > 0 && GenerationOf(posts[|old(posts)| - 1..], token.value.id, changes)
    {
      if token.None? {
        return;
      }
      var operation := token.value;
      ghost var before, start := posts[..|posts| - 1], posts[|posts| - 1];
      assert posts == before + [start];
      if operation.disabled {
        assert posts[|before|..] == [start];
        RefusedGeneration(before, operation, changes, start, minted, sessions, deliveryEnabled);
        return;
      }
      hide Kept, GenerationOf;
      ghost var seg := PostSeries(operation, changes, sizes, before, start);
      assert posts[|before|..] == seg;
    }

    // The change series in chunks, then the end. `sizes[k]` is the length of change k's JSON.
    method PostSeries(operation: Operation, changes: seq<CureReplay.Change>, sizes: seq<nat>, ghost before: seq<Post>, ghost start: Post)
      returns (ghost seg: seq<Post>)
      requires posts == before + [start] && memoryLaneEnabled
      requires sessions > 0 && Kept(before, operation.id, sessions, true, deliveryEnabled) && minted == operation.id + 1
      requires start == Post(MemoryLane, [GenerationStarted(operation.id)], start.answer)
      requires operation == StartedOperation(operation.id, start.answer) && !operation.disabled
      modifies this`posts, this`memoryLaneEnabled
      ensures Valid() && posts == before + seg && [start] <= seg && GenerationOf(seg, operation.id, changes)
    {
      hide Kept, GenerationOf, ChunkPosts, NoneDefinitive, EventsOf;
      var stamped := Stamp(operation, changes, sizes);
      var ok, sent := PostChunks(stamped);
      if !ok {
        memoryLaneEnabled := false;
        seg := [start] + sent;
        Abandon(before, operation, changes, start, sent, minted, sessions, deliveryEnabled);
        assert posts == before + seg;
        return;
      }
      var answer := Send(MemoryLane, [GenerationEnded(operation.id, |changes|, operation.cursor)]);
      seg := [start] + sent + [Post(MemoryLane, [GenerationEnded(operation.id, |changes|, operation.cursor)], answer)];
      Finish(before, operation, changes, start, sent, seg[|seg| - 1], minted, sessions, deliveryEnabled);
      assert posts == before + seg;
    }

    // Posts the chunks in order, stopping at a definitive rejection; an ambiguous failure goes on.
    method PostChunks(stamped: seq<Sized<Event>>) returns (ok: bool, ghost sent: seq<Post>)
      requires forall k :: 0 <= k < |stamped| ==> stamped[k].event.Changed?
      modifies this`posts
      ensures posts == old(posts) + sent && ChunkPosts(sent) && EventsOf(sent) <= Events(stamped)
      ensures ok ==> NoneDefinitive(sent) && EventsOf(sent) == Events(stamped)
      ensures !ok ==> sent != [] && NoneDefinitive(sent[..|sent| - 1]) && Definitive(sent[|sent| - 1].answer)
    {
      var chunks := ChunkEvents(stamped);
      sent, ok := [], true;
      for i := 0 to |chunks|
        invariant ok && posts == old(posts) + sent && ChunkPosts(sent) && NoneDefinitive(sent)
        invariant EventsOf(sent) == Events(Flatten(chunks[..i])) <= Events(stamped)
      {
        var answer := Send(MemoryLane, Events(chunks[i]));
        NextChunk(chunks, i, stamped, sent, answer);
        sent := sent + [Post(MemoryLane, Events(chunks[i]), answer)];
        if Definitive(answer) {
          ok := false;
          return;
        }
      }
      assert chunks[..|chunks|] == chunks;
    }

    method Stamp(operation: Operation, changes: seq<CureReplay.Change>, sizes: seq<nat>) returns (stamped: seq<Sized<Event>>)
      ensures Events(stamped) == Series(operation.id, changes, operation.cursor)
      ensures forall k :: 0 <= k < |stamped| ==> stamped[k].event.Changed?
    {
      stamped := [];
      for k := 0 to |changes|
        invariant |stamped| == k
        invariant forall j :: 0 <= j < k ==> stamped[j].event == Changed(operation.id, changes[j], j, |changes|, operation.cursor)
      {
        stamped := stamped + [Sized(Changed(operation.id, changes[k], k, |changes|, operation.cursor),
                                    if k < |sizes| then sizes[k] else 0)];
      }
    }
  }

  lemma {:induction false} SessionKept(before: seq<Post>, minted: nat, sessions: nat, laneOn: bool, deliveryOn: bool, seg: seq<Post>)
    requires Kept(before, minted, sessions, laneOn, deliveryOn) && SessionSegment(seg)
    ensures Kept(before + seg, minted, sessions + 1, laneOn, deliveryOn)
  {
    hide Kept, Protocol, Honest, StaysShut;
    KeptThen(before, minted, sessions, laneOn, deliveryOn, seg, minted, sessions + 1);
  }

  lemma LaneOffOne(p: Post)
    ensures LaneOff([p]) <==> ShutsLane(p)
    ensures DeliveryOff([p]) <==> ShutsDelivery(p)
  {
    assert LaneOff([p]) ==> ShutsLane([p][0]);
    assert ShutsLane(p) ==> ShutsLane([p][0]);
    assert ShutsDelivery(p) ==> ShutsDelivery([p][0]);
  }

  // The next chunk continues the prefix of the series already sent.
  lemma {:induction false} SeriesPrefix(chunks: seq<seq<Sized<Event>>>, i: nat, stamped: seq<Sized<Event>>)
    requires i < |chunks| && Flatten(chunks) == stamped
    ensures Flatten(chunks[..i + 1]) == Flatten(chunks[..i]) + chunks[i] <= stamped
  {
    assert chunks[..i + 1][..i] == chunks[..i];
    FlattenPrefix(chunks, i + 1);
  }

  lemma {:induction false} NextChunk(chunks: seq<seq<Sized<Event>>>, i: nat, stamped: seq<Sized<Event>>, sent: seq<Post>, answer: Answer)
    requires i < |chunks| && Flatten(chunks) == stamped && Chunked(chunks)
    requires forall k :: 0 <= k < |stamped| ==> stamped[k].event.Changed?
    requires ChunkPosts(sent) && EventsOf(sent) == Events(Flatten(chunks[..i]))
    ensures var sent' := sent + [Post(MemoryLane, Events(chunks[i]), answer)];
      && ChunkPosts(sent') && sent'[..|sent|] == sent
      && EventsOf(sent') == Events(Flatten(chunks[..i + 1])) <= Events(stamped)
  {
    ChunkAt(chunks, i);
    SeriesPrefix(chunks, i, stamped);
    assert chunks[i][0] == stamped[|Flatten(chunks[..i])|];
    assert (sent + [Post(MemoryLane, Events(chunks[i]), answer)])[..|sent|] == sent;
  }

  lemma {:induction false} FlattenPrefix<T>(chunks: seq<seq<T>>, i: nat)
    requires i <= |chunks|
    ensures Flatten(chunks[..i]) <= Flatten(chunks)
  {
    if i < |chunks| {
      FlattenPrefix(chunks[..|chunks| - 1], i);
      assert chunks[..|chunks| - 1][..i] == chunks[..i];
    } else {
      assert chunks[..i] == chunks;
    }
  }

  lemma {:induction false} CursorKept(before: seq<Post>, read: Post, minted: nat, sessions: nat, laneOn: bool)
    requires sessions > 0 && Kept(before, minted, sessions, laneOn, true) && read.lane == Main && read.events == []
    ensures Kept(before + [read], minted, sessions, laneOn, true)
  {
    KeptThen(before, minted, sessions, laneOn, true, [read], minted, sessions);
    LaneOffOne(read);
  }

  lemma {:induction false} DeliveryKept(before: seq<Post>, delivery: Post, minted: nat, sessions: nat, laneOn: bool)
    requires sessions > 0 && Kept(before, minted, sessions, laneOn, true)
    requires delivery.lane == Main && |delivery.events| == 1 && delivery.events[0].Delivered?
    requires var e := delivery.events[0]; Citable(before, e.op, e.memories, e.at)
    ensures Kept(before + [delivery], minted, sessions, laneOn, delivery.answer.Accepted?)
  {
    KeptThen(before, minted, sessions, laneOn, true, [delivery], minted, sessions);
    LaneOffOne(delivery);
  }

  lemma {:induction false} RefusedSearch(before: seq<Post>, operation: Operation, start: Post, minted: nat, sessions: nat, deliveryOn: bool)
    requires sessions > 0 && Kept(before, operation.id, sessions, true, deliveryOn) && minted == operation.id + 1
    requires start == Post(MemoryLane, [SearchStarted(operation.id)], start.answer)
    requires operation == StartedOperation(operation.id, start.answer) && operation.disabled
    ensures Kept(before + [start], minted, sessions, !Conflict(start.answer), deliveryOn)
  {
    KeptThen(before, operation.id, sessions, true, deliveryOn, [start], minted, sessions);
    LaneOffOne(start);
  }

  lemma {:induction false} SearchKept(before: seq<Post>, operation: Operation, start: Post, end: Post, minted: nat, sessions: nat, deliveryOn: bool)
    requires sessions > 0 && Kept(before, operation.id, sessions, true, deliveryOn) && minted == operation.id + 1
    requires start == Post(MemoryLane, [SearchStarted(operation.id)], start.answer)
    requires operation == StartedOperation(operation.id, start.answer) && !operation.disabled
    requires end.lane == MemoryLane && |end.events| == 1
    requires var e := end.events[0];
      e.SearchEnded? && e.op == operation.id && e.bound == operation.cursor && (!e.completed ==> e.returned == [])
    ensures Kept(before + [start, end], minted, sessions, true, deliveryOn)
  {
    var seg := [start, end];
    assert SearchSegment(seg, operation.id);
    KeptThen(before, operation.id, sessions, true, deliveryOn, seg, minted, sessions);
    assert !LaneOff(seg) && !DeliveryOff(seg);
  }

  lemma {:induction false} RefusedGeneration(before: seq<Post>, operation: Operation, changes: seq<CureReplay.Change>, start: Post,
                                             minted: nat, sessions: nat, deliveryOn: bool)
    requires sessions > 0 && Kept(before, operation.id, sessions, true, deliveryOn) && minted == operation.id + 1
    requires start == Post(MemoryLane, [GenerationStarted(operation.id)], start.answer)
    requires operation == StartedOperation(operation.id, start.answer) && operation.disabled
    ensures Kept(before + [start], minted, sessions, !Conflict(start.answer), deliveryOn)
    ensures GenerationOf([start], operation.id, changes)
  {
    assert GenerationOf([start], operation.id, changes);
    KeptThen(before, operation.id, sessions, true, deliveryOn, [start], minted, sessions);
    LaneOffOne(start);
  }

  lemma {:induction false} Abandon(before: seq<Post>, operation: Operation, changes: seq<CureReplay.Change>, start: Post,
                                   sent: seq<Post>, minted: nat, sessions: nat, deliveryOn: bool)
    requires sessions > 0 && Kept(before, operation.id, sessions, true, deliveryOn) && minted == operation.id + 1
    requires start == Post(MemoryLane, [GenerationStarted(operation.id)], start.answer)
    requires operation == StartedOperation(operation.id, start.answer) && !operation.disabled
    requires sent != [] && ChunkPosts(sent) && NoneDefinitive(sent[..|sent| - 1]) && Definitive(sent[|sent| - 1].answer)
    requires EventsOf(sent) <= Series(operation.id, changes, operation.cursor)
    ensures Kept(before + ([start] + sent), minted, sessions, false, deliveryOn)
    ensures GenerationOf([start] + sent, operation.id, changes)
  {
    var seg := [start] + sent;
    assert seg[1..] == sent;
    assert GenerationOf(seg, operation.id, changes);
    GenerationStaysShut(seg, operation.id, changes);
    KeptThen(before, operation.id, sessions, true, deliveryOn, seg, minted, sessions);
    assert ShutsLane(seg[|seg| - 1]);
  }

  lemma {:induction false} Finish(before: seq<Post>, operation: Operation, changes: seq<CureReplay.Change>, start: Post,
                                  sent: seq<Post>, end: Post, minted: nat, sessions: nat, deliveryOn: bool)
    requires sessions > 0 && Kept(before, operation.id, sessions, true, deliveryOn) && minted == operation.id + 1
    requires start == Post(MemoryLane, [GenerationStarted(operation.id)], start.answer)
    requires operation == StartedOperation(operation.id, start.answer) && !operation.disabled
    requires ChunkPosts(sent) && NoneDefinitive(sent) && EventsOf(sent) == Series(operation.id, changes, operation.cursor)
    requires end == Post(MemoryLane, [GenerationEnded(operation.id, |changes|, operation.cursor)], end.answer)
    ensures Kept(before + ([start] + sent + [end]), minted, sessions, true, deliveryOn)
    ensures GenerationOf([start] + sent + [end], operation.id, changes)
  {
    var seg := [start] + sent + [end];
    FinishedSegment(operation, changes, start, sent, end);
    GenerationStaysShut(seg, operation.id, changes);
    assert !ShutsLane(seg[|seg| - 1]);
    hide GenerationOf, Kept, ChunkPosts, NoneDefinitive, EventsOf, Series;
    assert Segment(seg, operation.id, minted);
    KeptThen(before, operation.id, sessions, true, deliveryOn, seg, minted, sessions);
  }

  lemma {:induction false} FinishedSegment(operation: Operation, changes: seq<CureReplay.Change>, start: Post, sent: seq<Post>, end: Post)
    requires start == Post(MemoryLane, [GenerationStarted(operation.id)], start.answer)
    requires operation == StartedOperation(operation.id, start.answer) && !operation.disabled
    requires ChunkPosts(sent) && NoneDefinitive(sent) && EventsOf(sent) == Series(operation.id, changes, operation.cursor)
    requires end == Post(MemoryLane, [GenerationEnded(operation.id, |changes|, operation.cursor)], end.answer)
    ensures GenerationOf([start] + sent + [end], operation.id, changes)
  {
    var seg := [start] + sent + [end];
    assert seg[1..] == sent + [end] && (sent + [end])[..|sent|] == sent;
    hide ChunkPosts, NoneDefinitive, EventsOf, Series;
  }
}
