/** What the bridge may post to the trajectory recorder, as a language of post series, and three safety
    properties of a series. The recorder answers every post as it likes. */
module TraceProtocol {
  import opened Wrappers
  import opened CureModel
  import CureReplay
  import EventChunks

  datatype Lane = Main | MemoryLane

  // `Rejected` carries the status of a post that was not accepted, 5xx included; `NoAnswer` is one
  // without any status.
  datatype Answer = Accepted(cursor: Option<int>) | Rejected(status: int) | NoAnswer

  predicate Definitive(a: Answer) {
    a.Rejected? && a.status < 500
  }

  predicate Conflict(a: Answer) {
    a.Rejected? && a.status == 409
  }

  predicate RefusedStart(a: Answer) {
    Conflict(a) || (a.Rejected? && a.status == 413)
  }

  function CursorOf(a: Answer): Option<int> {
    if a.Accepted? then a.cursor else None
  }

  // Operation ids are minted in order; `bound` is the cursor an event binds at.
  datatype Event =
    | SessionOpened | RoleBound(role: Lane)
    | SearchStarted(op: nat)
    | SearchEnded(op: nat, completed: bool, returned: seq<Memory>, bound: Option<int>)
    | Delivered(op: nat, memories: seq<Memory>, at: int)
    | GenerationStarted(op: nat)
    | Changed(op: nat, change: CureReplay.Change, index: nat, count: nat, bound: Option<int>)
    | GenerationEnded(op: nat, count: nat, bound: Option<int>)

  datatype Post = Post(lane: Lane, events: seq<Event>, answer: Answer)

  // ------------------------------------------------------------------
  // The language of posts
  // ------------------------------------------------------------------

  ghost predicate SessionSegment(seg: seq<Post>) {
    && 0 < |seg| <= 2
    && seg[0].lane == Main && seg[0].events == [SessionOpened, RoleBound(Main)]
    && (|seg| == 2 <==> seg[0].answer.Accepted?)
    && (|seg| == 2 ==> seg[1].lane == MemoryLane && seg[1].events == [RoleBound(MemoryLane)])
  }

  // A search the recorder did not refuse ends exactly once, bound where it started.
  ghost predicate SearchSegment(seg: seq<Post>, op: nat) {
    && 0 < |seg| && seg[0].lane == MemoryLane && seg[0].events == [SearchStarted(op)]
    && if RefusedStart(seg[0].answer) then |seg| == 1
       else
         && |seg| == 2 && seg[1].lane == MemoryLane && |seg[1].events| == 1
         && seg[1].events[0].SearchEnded? && seg[1].events[0].op == op && seg[1].events[0].bound == CursorOf(seg[0].answer)
         && (!seg[1].events[0].completed ==> seg[1].events[0].returned == [])
  }

  // The search that ended so, and returned exactly `memories`.
  ghost predicate SearchOf(seg: seq<Post>, op: nat, completed: bool, memories: seq<Memory>) {
    && SearchSegment(seg, op)
    && (|seg| == 2 ==> seg[1].events == [SearchEnded(op, completed, memories, CursorOf(seg[0].answer))])
  }

  ghost predicate CursorSegment(seg: seq<Post>) {
    |seg| == 1 && seg[0].lane == Main && seg[0].events == []
  }

  ghost predicate DeliverySegment(seg: seq<Post>) {
    |seg| == 1 && seg[0].lane == Main && |seg[0].events| == 1 && seg[0].events[0].Delivered?
  }

  // The change series of one generation: indexed from 0, every event carrying the series' length.
  function Series(op: nat, changes: seq<CureReplay.Change>, bound: Option<int>): (r: seq<Event>)
    ensures |r| == |changes|
  {
    seq(|changes|, k requires 0 <= k < |changes| => Changed(op, changes[k], k, |changes|, bound))
  }

  function EventsOf(posts: seq<Post>): seq<Event> {
    if posts == [] then [] else EventsOf(posts[..|posts| - 1]) + posts[|posts| - 1].events
  }

  ghost predicate ChunkPost(p: Post) {
    p.lane == MemoryLane && 0 < |p.events| <= EventChunks.MAX_EVENTS_PER_POST && p.events[0].Changed?
  }

  ghost predicate ChunkPosts(seg: seq<Post>) {
    forall i :: 0 <= i < |seg| ==> ChunkPost(seg[i])
  }

  ghost predicate NoneDefinitive(seg: seq<Post>) {
    forall i :: 0 <= i < |seg| ==> !Definitive(seg[i].answer)
  }

  // The whole series, then one end with its length.
  ghost predicate Finished(seg: seq<Post>, op: nat, changes: seq<CureReplay.Change>, bound: Option<int>) {
    && seg != [] && ChunkPosts(seg[..|seg| - 1]) && NoneDefinitive(seg[..|seg| - 1])
    && EventsOf(seg[..|seg| - 1]) == Series(op, changes, bound)
    && seg[|seg| - 1].lane == MemoryLane && seg[|seg| - 1].events == [GenerationEnded(op, |changes|, bound)]
  }

  // A prefix of the series whose last chunk was definitively rejected, and no end.
  ghost predicate Abandoned(seg: seq<Post>, op: nat, changes: seq<CureReplay.Change>, bound: Option<int>) {
    && seg != [] && ChunkPosts(seg) && NoneDefinitive(seg[..|seg| - 1]) && Definitive(seg[|seg| - 1].answer)
    && EventsOf(seg) <= Series(op, changes, bound)
  }

  ghost predicate GenerationOf(seg: seq<Post>, op: nat, changes: seq<CureReplay.Change>) {
    && 0 < |seg| && seg[0].lane == MemoryLane && seg[0].events == [GenerationStarted(op)]
    && if RefusedStart(seg[0].answer) then |seg| == 1
       else Finished(seg[1..], op, changes, CursorOf(seg[0].answer)) || Abandoned(seg[1..], op, changes, CursorOf(seg[0].answer))
  }

  // The posts of a generation that ended read, event by event: its start, the changes in order, each with its
  // index, their number and the cursor the start was given, and one end with that number.
  ghost predicate ReadsAs(events: seq<Event>, op: nat, changes: seq<CureReplay.Change>, start: Answer) {
    var bound := if start.Accepted? then start.cursor else None;
    && |events| == |changes| + 2 && events[0] == GenerationStarted(op)
    && (forall k :: 0 <= k < |changes| ==>
          var e := events[k + 1];
          e.Changed? && e.op == op && e.change == changes[k] && e.index == k && e.count == |changes| && e.bound == bound)
    && var end := events[|changes| + 1];
       end.GenerationEnded? && end.op == op && end.count == |changes| && end.bound == bound
  }

  lemma EventsOneMore(posts: seq<Post>, p: Post)
    ensures EventsOf(posts + [p]) == EventsOf(posts) + p.events && EventsOf([]) == []
  {
    assert (posts + [p])[..|posts|] == posts;
  }

  lemma {:induction false} EventsJoin(a: seq<Post>, b: seq<Post>)
    ensures EventsOf(a + b) == EventsOf(a) + EventsOf(b)
  {
    hide EventsOf;
    if b == [] {
      EventsOneMore([], Post(Main, [], NoAnswer));
      assert a + b == a;
    } else {
      var front, last := b[..|b| - 1], b[|b| - 1];
      EventsJoin(a, front);
      EventsOneMore(front, last);
      EventsOneMore(a + front, last);
      assert b == front + [last] && a + b == (a + front) + [last];
    }
  }

  lemma SeriesReads(op: nat, changes: seq<CureReplay.Change>, start: Answer)
    ensures ReadsAs([GenerationStarted(op)] + (Series(op, changes, CursorOf(start)) + [GenerationEnded(op, |changes|, CursorOf(start))]),
                    op, changes, start)
  {
  }

  lemma FirstEvents(seg: seq<Post>)
    requires seg != []
    ensures EventsOf(seg) == seg[0].events + EventsOf(seg[1..])
  {
    hide EventsOf;
    EventsOneMore([], seg[0]);
    EventsJoin([seg[0]], seg[1..]);
    assert seg == [seg[0]] + seg[1..] && [] + [seg[0]] == [seg[0]];
  }

  lemma FinishedEvents(body: seq<Post>, op: nat, changes: seq<CureReplay.Change>, bound: Option<int>)
    requires Finished(body, op, changes, bound)
    ensures EventsOf(body) == Series(op, changes, bound) + [GenerationEnded(op, |changes|, bound)]
    ensures body != [] && body[|body| - 1].events == [GenerationEnded(op, |changes|, bound)]
  {
    hide Series, ChunkPosts, NoneDefinitive;
  }

  lemma AbandonedEvents(body: seq<Post>, op: nat, changes: seq<CureReplay.Change>, bound: Option<int>)
    requires Abandoned(body, op, changes, bound)
    ensures EventsOf(body) <= Series(op, changes, bound)
    ensures body != [] && var last := body[|body| - 1];
      last.answer.Rejected? && last.answer.status < 500 && last.events != [] && last.events[0].Changed?
  {
    hide Series, EventsOf, NoneDefinitive;
    assert ChunkPost(body[|body| - 1]);
  }

  // A generation that is not refused either ends, and then reads so, or stops at its first chunk rejected
  // with a status under 500, and then what it posted is a prefix of that.
  lemma {:induction false} GenerationReads(seg: seq<Post>, op: nat, changes: seq<CureReplay.Change>)
    requires GenerationOf(seg, op, changes) && !(seg[0].answer.Rejected? && seg[0].answer.status in {409, 413})
    ensures var last := seg[|seg| - 1];
      if last.events == [GenerationEnded(op, |changes|, if seg[0].answer.Accepted? then seg[0].answer.cursor else None)]
      then ReadsAs(EventsOf(seg), op, changes, seg[0].answer)
      else
        && last.answer.Rejected? && last.answer.status < 500
        && exists rest :: ReadsAs(EventsOf(seg) + rest, op, changes, seg[0].answer)
  {
    hide ReadsAs, Series, EventsOf, Finished, Abandoned;
    var bound, body := CursorOf(seg[0].answer), seg[1..];
    var start, end, series := [GenerationStarted(op)], [GenerationEnded(op, |changes|, bound)], Series(op, changes, bound);
    FirstEvents(seg);
    SeriesReads(op, changes, seg[0].answer);
    if Finished(body, op, changes, bound) {
      FinishedEvents(body, op, changes, bound);
      assert seg[|seg| - 1] == body[|body| - 1];
    } else {
      AbandonedEvents(body, op, changes, bound);
      assert seg[|seg| - 1] == body[|body| - 1];
      var rest := series[|EventsOf(body)|..] + end;
      assert EventsOf(seg) + rest == start + (series + end);
    }
  }

  // One segment; a search or a generation mints the next operation id.
  ghost predicate Segment(seg: seq<Post>, minted: nat, minted': nat) {
    || (minted' == minted && (SessionSegment(seg) || CursorSegment(seg) || DeliverySegment(seg)))
    || (minted' == minted + 1 && (SearchSegment(seg, minted) || exists changes :: GenerationOf(seg, minted, changes)))
  }

  // A session is opened before anything else is posted.
  ghost predicate Opens(seg: seq<Post>, sessions: nat, sessions': nat) {
    if SessionSegment(seg) then sessions' == sessions + 1 else sessions > 0 && sessions' == sessions
  }

  // A series that minted so many operations in so many sessions.
  ghost predicate Protocol(posts: seq<Post>, minted: nat, sessions: nat) {
    if posts == [] then minted == sessions == 0
    else exists k: nat, m: nat, t: nat ::
      k < |posts| && Protocol(posts[..k], m, t) && Segment(posts[k..], m, minted) && Opens(posts[k..], t, sessions)
  }

  // ------------------------------------------------------------------
  // Safety
  // ------------------------------------------------------------------

  ghost predicate OperationPost(p: Post) {
    && p.events != []
    && var e := p.events[0];
       e.SearchStarted? || e.SearchEnded? || e.GenerationStarted? || e.Changed? || e.GenerationEnded?
  }

  // A conflicting start, or a definitively rejected chunk of changes, shuts the memory lane.
  ghost predicate ShutsLane(p: Post) {
    && p.events != []
    && var e := p.events[0];
       ((e.SearchStarted? || e.GenerationStarted?) && Conflict(p.answer)) || (e.Changed? && Definitive(p.answer))
  }

  ghost predicate DeliveryPost(p: Post) {
    p.lane == Main && (p.events == [] || p.events[0].Delivered?)
  }

  ghost predicate ShutsDelivery(p: Post) {
    p.events != [] && p.events[0].Delivered? && !p.answer.Accepted?
  }

  ghost predicate LaneOff(posts: seq<Post>) {
    exists i :: 0 <= i < |posts| && ShutsLane(posts[i])
  }

  ghost predicate DeliveryOff(posts: seq<Post>) {
    exists i :: 0 <= i < |posts| && ShutsDelivery(posts[i])
  }

  // Once the lane is shut no search or generation event is posted; once a delivery was not accepted
  // neither a delivery nor its cursor read is.
  ghost predicate StaysShut(posts: seq<Post>) {
    && (forall i, j :: 0 <= i < j < |posts| && ShutsLane(posts[i]) ==> !OperationPost(posts[j]))
    && (forall i, j :: 0 <= i < j < |posts| && ShutsDelivery(posts[i]) ==> !DeliveryPost(posts[j]))
  }

  // The recorder accepted both ends of search `op`, which returned exactly `memories`.
  ghost predicate RecordedAt(posts: seq<Post>, s: nat, op: nat, memories: seq<Memory>) {
    && s + 1 < |posts| && posts[s].events == [SearchStarted(op)] && posts[s].answer.Accepted?
    && posts[s + 1].events == [SearchEnded(op, true, memories, posts[s].answer.cursor)] && posts[s + 1].answer.Accepted?
  }

  ghost predicate Recorded(posts: seq<Post>, op: nat, memories: seq<Memory>) {
    exists s: nat :: RecordedAt(posts, s, op, memories)
  }

  ghost predicate CursorRead(p: Post, at: int) {
    p.lane == Main && p.events == [] && p.answer == Accepted(Some(at))
  }

  // A main-lane cursor `at` was read after search `op` had been recorded.
  ghost predicate Citable(posts: seq<Post>, op: nat, memories: seq<Memory>, at: int) {
    exists c: nat :: c < |posts| && CursorRead(posts[c], at) && Recorded(posts[..c], op, memories)
  }

  // Every delivery cites a search recorded before it and exactly the memories that search returned,
  // and is bound at a cursor read after that search.
  ghost predicate HonestPost(posts: seq<Post>, i: nat)
    requires i < |posts|
  {
    posts[i].events != [] ==>
      var e := posts[i].events[0];
      e.Delivered? ==> Citable(posts[..i], e.op, e.memories, e.at)
  }

  ghost predicate Honest(posts: seq<Post>) {
    forall i: nat :: i < |posts| ==> HonestPost(posts, i)
  }

  ghost predicate Kept(posts: seq<Post>, minted: nat, sessions: nat, laneOn: bool, deliveryOn: bool) {
    && Protocol(posts, minted, sessions) && Honest(posts) && StaysShut(posts)
    && laneOn == !LaneOff(posts) && deliveryOn == !DeliveryOff(posts)
  }

  // ------------------------------------------------------------------
  // One more segment
  // ------------------------------------------------------------------

  lemma {:induction false} ProtocolThen(posts: seq<Post>, m: nat, t: nat, seg: seq<Post>, n: nat, u: nat)
    requires Protocol(posts, m, t) && Segment(seg, m, n) && Opens(seg, t, u)
    ensures Protocol(posts + seg, n, u)
  {
    var all, k := posts + seg, |posts|;
    assert all[..k] == posts && all[k..] == seg;
    assert seg != [];
    assert k < |all| && Protocol(all[..k], m, t) && Segment(all[k..], m, n) && Opens(all[k..], t, u);
  }

  lemma {:induction false} RecordedStays(posts: seq<Post>, more: seq<Post>, op: nat, memories: seq<Memory>)
    requires Recorded(posts, op, memories)
    ensures Recorded(posts + more, op, memories)
  {
    var s: nat :| RecordedAt(posts, s, op, memories);
    assert RecordedAt(posts + more, s, op, memories);
  }

  lemma {:induction false} CitableStays(posts: seq<Post>, more: seq<Post>, op: nat, memories: seq<Memory>, at: int)
    requires Citable(posts, op, memories, at)
    ensures Citable(posts + more, op, memories, at)
  {
    var c: nat :| c < |posts| && CursorRead(posts[c], at) && Recorded(posts[..c], op, memories);
    assert (posts + more)[..c] == posts[..c];
  }

  ghost predicate NoDelivery(seg: seq<Post>) {
    forall i :: 0 <= i < |seg| ==> seg[i].events == [] || !seg[i].events[0].Delivered?
  }

  lemma {:induction false} HonestThen(posts: seq<Post>, seg: seq<Post>)
    requires Honest(posts)
    requires NoDelivery(seg) ||
      (DeliverySegment(seg) && Citable(posts, seg[0].events[0].op, seg[0].events[0].memories, seg[0].events[0].at))
    ensures Honest(posts + seg)
  {
    var all := posts + seg;
    forall i: nat | i < |all| ensures HonestPost(all, i) {
      if i < |posts| {
        assert HonestPost(posts, i) && all[..i] == posts[..i];
      } else {
        assert all[i] == seg[i - |posts|] && all[..|posts|] == posts;
      }
    }
  }

  // A segment on its own keeps what it shuts shut.
  lemma {:induction false} SegmentStaysShut(seg: seq<Post>, m: nat, n: nat)
    requires Segment(seg, m, n)
    ensures StaysShut(seg)
  {
    if n == m + 1 && !SearchSegment(seg, m) {
      var changes :| GenerationOf(seg, m, changes);
      GenerationStaysShut(seg, m, changes);
    }
  }

  lemma {:induction false} GenerationStaysShut(seg: seq<Post>, op: nat, changes: seq<CureReplay.Change>)
    requires GenerationOf(seg, op, changes)
    ensures StaysShut(seg)
    ensures forall i :: 0 <= i < |seg| ==> OperationPost(seg[i]) && !DeliveryPost(seg[i]) && !ShutsDelivery(seg[i])
    ensures NoDelivery(seg)
    ensures forall i :: 0 < i < |seg| ==> seg[i].events[0].Changed? || seg[i].events[0].GenerationEnded?
    ensures forall i :: 0 <= i < |seg| - 1 ==> !ShutsLane(seg[i])
  {
    if |seg| > 1 {
      var rest := seg[1..];
      var front := rest[..|rest| - 1];
      assert forall i :: 0 < i < |seg| ==> seg[i] == rest[i - 1];
      forall i | 0 < i < |seg| - 1 ensures ChunkPost(seg[i]) && !Definitive(seg[i].answer) {
        assert front[i - 1] == rest[i - 1] && ChunkPost(rest[i - 1]) by {
          if Finished(rest, op, changes, CursorOf(seg[0].answer)) {
            assert ChunkPost(front[i - 1]);
          }
        }
      }
    }
  }

  lemma {:induction false} StaysShutThen(posts: seq<Post>, seg: seq<Post>)
    requires StaysShut(posts) && StaysShut(seg)
    requires LaneOff(posts) ==> forall j :: 0 <= j < |seg| ==> !OperationPost(seg[j])
    requires DeliveryOff(posts) ==> forall j :: 0 <= j < |seg| ==> !DeliveryPost(seg[j])
    ensures StaysShut(posts + seg)
    ensures LaneOff(posts + seg) <==> LaneOff(posts) || LaneOff(seg)
    ensures DeliveryOff(posts + seg) <==> DeliveryOff(posts) || DeliveryOff(seg)
  {
    var all, n := posts + seg, |posts|;
    assert forall i :: 0 <= i < n ==> all[i] == posts[i];
    assert forall i :: n <= i < |all| ==> all[i] == seg[i - n];
    assert LaneOff(seg) ==> LaneOff(all) by {
      if i :| 0 <= i < |seg| && ShutsLane(seg[i]) {
        assert ShutsLane(all[n + i]);
      }
    }
    assert DeliveryOff(seg) ==> DeliveryOff(all) by {
      if i :| 0 <= i < |seg| && ShutsDelivery(seg[i]) {
        assert ShutsDelivery(all[n + i]);
      }
    }
    assert LaneOff(posts) ==> LaneOff(all) by {
      if i :| 0 <= i < |posts| && ShutsLane(posts[i]) {
        assert ShutsLane(all[i]);
      }
    }
    assert DeliveryOff(posts) ==> DeliveryOff(all) by {
      if i :| 0 <= i < |posts| && ShutsDelivery(posts[i]) {
        assert ShutsDelivery(all[i]);
      }
    }
  }

  lemma {:induction false} KeptThen(posts: seq<Post>, m: nat, t: nat, laneOn: bool, deliveryOn: bool, seg: seq<Post>, n: nat, u: nat)
    requires Kept(posts, m, t, laneOn, deliveryOn) && Segment(seg, m, n) && Opens(seg, t, u)
    requires laneOn || forall j :: 0 <= j < |seg| ==> !OperationPost(seg[j])
    requires deliveryOn || forall j :: 0 <= j < |seg| ==> !DeliveryPost(seg[j])
    requires NoDelivery(seg) ||
      (DeliverySegment(seg) && Citable(posts, seg[0].events[0].op, seg[0].events[0].memories, seg[0].events[0].at))
    ensures Kept(posts + seg, n, u, laneOn && !LaneOff(seg), deliveryOn && !DeliveryOff(seg))
  {
    hide Segment, Protocol, Honest, Opens;
    ProtocolThen(posts, m, t, seg, n, u);
    HonestThen(posts, seg);
    SegmentStaysShut(seg, m, n);
    StaysShutThen(posts, seg);
  }

  // ------------------------------------------------------------------
  // What a series means
  // ------------------------------------------------------------------

  ghost predicate Starts(p: Post, op: nat) {
    p.events == [SearchStarted(op)] || p.events == [GenerationStarted(op)]
  }

  lemma {:induction false} SegmentStarts(seg: seq<Post>, m: nat, n: nat, i: nat, op: nat)
    requires Segment(seg, m, n) && i < |seg| && Starts(seg[i], op)
    ensures i == 0 && op == m && n == m + 1
  {
  }

  lemma {:induction false} TailStarts(posts: seq<Post>, k: nat, m: nat, n: nat, i: nat, op: nat)
    requires k <= i < |posts| && Segment(posts[k..], m, n) && Starts(posts[i], op)
    ensures i == k && op == m && n == m + 1
  {
    hide Segment, Starts;
    assert posts[k..][i - k] == posts[i];
    SegmentStarts(posts[k..], m, n, i - k, op);
  }

  lemma {:induction false} MintedGrow(seg: seq<Post>, m: nat, n: nat)
    requires Segment(seg, m, n)
    ensures m <= n
  {
  }

  // Operations start with the ids minted so far, each of them once.
  lemma {:induction false} StartsAreMinted(posts: seq<Post>, minted: nat, sessions: nat, i: nat, op: nat)
    requires Protocol(posts, minted, sessions) && i < |posts| && Starts(posts[i], op)
    ensures op < minted
    decreases |posts|
  {
    var k: nat, m: nat, t: nat :|
      k < |posts| && Protocol(posts[..k], m, t) && Segment(posts[k..], m, minted) && Opens(posts[k..], t, sessions);
    hide Segment, Starts, Protocol;
    if i < k {
      StartsAreMinted(posts[..k], m, t, i, op);
      MintedGrow(posts[k..], m, minted);
    } else {
      TailStarts(posts, k, m, minted, i, op);
    }
  }

  lemma {:induction false} StartsAreUnique(posts: seq<Post>, minted: nat, sessions: nat, i: nat, j: nat, op: nat)
    requires Protocol(posts, minted, sessions) && i <= j < |posts| && Starts(posts[i], op) && Starts(posts[j], op)
    ensures i == j
    decreases |posts|
  {
    var k: nat, m: nat, t: nat :|
      k < |posts| && Protocol(posts[..k], m, t) && Segment(posts[k..], m, minted) && Opens(posts[k..], t, sessions);
    hide Segment, Starts, Protocol;
    if j < k {
      StartsAreUnique(posts[..k], m, t, i, j, op);
      return;
    }
    TailStarts(posts, k, m, minted, j, op);
    if i < k {
      StartsAreMinted(posts[..k], m, t, i, op);
    } else {
      TailStarts(posts, k, m, minted, i, op);
    }
  }

  // So a citation determines its memories: what an operation returned is recorded once.
  lemma {:induction false} CitationsAreUnambiguous(posts: seq<Post>, minted: nat, sessions: nat, op: nat, memories: seq<Memory>, others: seq<Memory>)
    requires Protocol(posts, minted, sessions) && Recorded(posts, op, memories) && Recorded(posts, op, others)
    ensures memories == others
  {
    hide Protocol;
    var s: nat :| RecordedAt(posts, s, op, memories);
    var t: nat :| RecordedAt(posts, t, op, others);
    if s <= t {
      StartsAreUnique(posts, minted, sessions, s, t, op);
    } else {
      StartsAreUnique(posts, minted, sessions, t, s, op);
    }
  }

  // ------------------------------------------------------------------
  // One session
  // ------------------------------------------------------------------

  // Once the memory lane is shut nothing at all is posted to it.
  ghost predicate LaneStaysShut(posts: seq<Post>) {
    forall i, j :: 0 <= i < j < |posts| && ShutsLane(posts[i]) ==> posts[j].lane == Main
  }

  // Nothing but the events of operations goes to the lane after the first session is opened.
  ghost predicate OneSession(posts: seq<Post>) {
    forall i, j :: 0 <= i < j < |posts| && ShutsLane(posts[i]) && posts[j].lane == MemoryLane ==> OperationPost(posts[j])
  }

  ghost predicate Operational(seg: seq<Post>) {
    forall i :: 0 <= i < |seg| && seg[i].lane == MemoryLane ==> OperationPost(seg[i])
  }

  lemma {:induction false} SegmentIsOperational(seg: seq<Post>, m: nat, n: nat)
    requires Segment(seg, m, n) && !SessionSegment(seg)
    ensures Operational(seg)
  {
    if n == m + 1 && !SearchSegment(seg, m) {
      var changes :| GenerationOf(seg, m, changes);
      GenerationStaysShut(seg, m, changes);
    }
  }

  lemma {:induction false} NoSessionNoPosts(posts: seq<Post>, minted: nat)
    requires Protocol(posts, minted, 0)
    ensures posts == []
  {
  }

  lemma {:induction false} OneSessionThen(posts: seq<Post>, k: nat)
    requires k <= |posts| && OneSession(posts[..k])
    requires Operational(posts[k..])
    ensures OneSession(posts)
  {
    forall i, j | 0 <= i < j < |posts| && ShutsLane(posts[i]) && posts[j].lane == MemoryLane ensures OperationPost(posts[j]) {
      if j < k {
        assert posts[..k][i] == posts[i] && posts[..k][j] == posts[j];
      } else {
        assert posts[k..][j - k] == posts[j];
      }
    }
  }

  lemma {:induction false} SessionsComeFirst(posts: seq<Post>, minted: nat, sessions: nat)
    requires Protocol(posts, minted, sessions) && sessions <= 1
    ensures OneSession(posts)
    decreases |posts|
  {
    if posts != [] {
      var k: nat, m: nat, t: nat :|
        k < |posts| && Protocol(posts[..k], m, t) && Segment(posts[k..], m, minted) && Opens(posts[k..], t, sessions);
      if SessionSegment(posts[k..]) {
        NoSessionNoPosts(posts[..k], m);
        assert posts[k..] == posts;
      } else {
        hide Protocol, Segment;
        SessionsComeFirst(posts[..k], m, t);
        SegmentIsOperational(posts[k..], m, minted);
        OneSessionThen(posts, k);
      }
    }
  }

  // So in one session a shut lane is shut for good.
  lemma {:induction false} ShutForGood(posts: seq<Post>, minted: nat, sessions: nat)
    requires Protocol(posts, minted, sessions) && sessions <= 1 && StaysShut(posts)
    ensures LaneStaysShut(posts)
  {
    SessionsComeFirst(posts, minted, sessions);
    hide Protocol, ShutsLane, OperationPost;
  }
}
