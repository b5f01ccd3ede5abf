/** What recall injects: CURE's ranked search over the approved rows, the floor and the slice over its
    hits, and the block rank-then-fill makes of them. */
module CureRecall {
  import opened Wrappers
  import opened CureModel
  import opened RecallFill

  // A query stands for its lower-cased words, so a blank query has none. Whether a term occurs in the
  // lower-cased text of a memory is an uninterpreted relation over (term, type, key, value).
  type Query = seq<string>
  type Occurrences = iset<(string, string, string, string)>

  datatype Hit = Hit(score: nat, memory: Memory)

  function Score(m: Memory, query: Query, occurs: Occurrences): nat {
    if query == [] then 0
    else Score(m, query[..|query| - 1], occurs)
         + if (query[|query| - 1], m.slot.memoryType, m.slot.key, m.value) in occurs then 1 else 0
  }

  // The positions of the query whose term occurs in the memory.
  ghost function Matching(m: Memory, query: Query, occurs: Occurrences): set<nat> {
    set t: nat | t < |query| && (query[t], m.slot.memoryType, m.slot.key, m.value) in occurs
  }

  lemma {:induction false} ScoreCounts(m: Memory, query: Query, occurs: Occurrences)
    ensures Score(m, query, occurs) == |Matching(m, query, occurs)|
  {
    if query == [] {
      assert Matching(m, query, occurs) == {};
    } else {
      var last := |query| - 1;
      ScoreCounts(m, query[..last], occurs);
      var front := Matching(m, query[..last], occurs);
      if (query[last], m.slot.memoryType, m.slot.key, m.value) in occurs {
        assert Matching(m, query, occurs) == front + {last};
      } else {
        assert Matching(m, query, occurs) == front;
      }
    }
  }

  function Scored(rows: seq<Memory>, query: Query, occurs: Occurrences): (r: seq<Hit>)
    ensures forall h {:trigger h in r} :: h in r <==> h.memory in rows && h.score == Score(h.memory, query, occurs) > 0
  {
    if rows == [] then []
    else
      var last := rows[|rows| - 1];
      var score := Score(last, query, occurs);
      Scored(rows[..|rows| - 1], query, occurs) + if score > 0 then [Hit(score, last)] else []
  }

  // ------------------------------------------------------------------
  // A stable sort by falling score
  // ------------------------------------------------------------------

  function Rank(hit: Hit, ranked: seq<Hit>): (r: seq<Hit>)
    ensures forall h {:trigger h in r} :: h in r <==> h == hit || h in ranked
  {
    if ranked == [] then [hit]
    else if ranked[0].score <= hit.score then [hit] + ranked
    else [ranked[0]] + Rank(hit, ranked[1..])
  }

  function Ranked(hits: seq<Hit>): (r: seq<Hit>)
    ensures forall h {:trigger h in r} :: h in r <==> h in hits
  {
    if hits == [] then [] else Rank(hits[0], Ranked(hits[1..]))
  }

  ghost predicate Falling(hits: seq<Hit>) {
    forall i, j :: 0 <= i < j < |hits| ==> hits[i].score >= hits[j].score
  }

  // The hits of one score, in order.
  function Tied(hits: seq<Hit>, score: nat): seq<Hit> {
    if hits == [] then [] else (if hits[0].score == score then [hits[0]] else []) + Tied(hits[1..], score)
  }

  lemma {:induction false} RankFalls(hit: Hit, ranked: seq<Hit>)
    requires Falling(ranked)
    ensures Falling(Rank(hit, ranked))
  {
    if ranked != [] && ranked[0].score > hit.score {
      RankFalls(hit, ranked[1..]);
      forall h | h in Rank(hit, ranked[1..]) ensures h.score <= ranked[0].score {
        if h in ranked[1..] {
          var i :| 0 <= i < |ranked[1..]| && ranked[1..][i] == h;
          assert ranked[i + 1] == h;
        }
      }
    }
  }

  lemma {:induction false} TiedOneMore(hit: Hit, hits: seq<Hit>, score: nat)
    ensures Tied([hit] + hits, score) == if hit.score == score then [hit] + Tied(hits, score) else Tied(hits, score)
  {
  }

  lemma {:induction false} RankTies(hit: Hit, ranked: seq<Hit>, score: nat)
    ensures Tied(Rank(hit, ranked), score) == if hit.score == score then [hit] + Tied(ranked, score) else Tied(ranked, score)
  {
    TiedOneMore(hit, ranked, score);
    if ranked == [] {
      assert [hit] + ranked == [hit];
      return;
    }
    if ranked[0].score > hit.score {
      RankTies(hit, ranked[1..], score);
      var rest := Rank(hit, ranked[1..]);
      assert Rank(hit, ranked) == [ranked[0]] + rest && [ranked[0]] + ranked[1..] == ranked;
      hide Rank, Tied;
      TiedOneMore(ranked[0], rest, score);
      TiedOneMore(ranked[0], ranked[1..], score);
    }
  }

  // The ranking is by falling score, and hits that tie keep the order of the listing.
  lemma {:induction false} RankedIsStable(hits: seq<Hit>, score: nat)
    ensures Falling(Ranked(hits)) && Tied(Ranked(hits), score) == Tied(hits, score)
  {
    if hits != [] {
      RankedIsStable(hits[1..], score);
      RankFalls(hits[0], Ranked(hits[1..]));
      RankTies(hits[0], Ranked(hits[1..]), score);
    }
  }

  // Higher score first, and of equal scores the newer row.
  ghost predicate Precedes(a: Hit, b: Hit) {
    a.score > b.score || (a.score == b.score && Newer(a.memory, b.memory))
  }

  ghost predicate Ordered(hits: seq<Hit>) {
    forall i, j :: 0 <= i < j < |hits| ==> Precedes(hits[i], hits[j])
  }

  lemma {:induction false} RankOrders(hit: Hit, ranked: seq<Hit>)
    requires Ordered(ranked) && forall h :: h in ranked ==> Newer(hit.memory, h.memory)
    ensures Ordered(Rank(hit, ranked))
  {
    if ranked != [] {
      forall h | h in ranked[1..] ensures Precedes(ranked[0], h) {
        var i :| 0 <= i < |ranked[1..]| && ranked[1..][i] == h;
        assert ranked[i + 1] == h;
      }
      if ranked[0].score > hit.score {
        RankOrders(hit, ranked[1..]);
        forall h | h in Rank(hit, ranked[1..]) ensures Precedes(ranked[0], h) {
        }
      } else {
        assert forall h :: h in ranked ==> h == ranked[0] || h in ranked[1..];
        assert forall h :: h in ranked ==> Precedes(hit, h);
      }
    }
  }

  lemma {:induction false} RankedIsOrdered(hits: seq<Hit>)
    requires forall i, j :: 0 <= i < j < |hits| ==> Newer(hits[i].memory, hits[j].memory)
    ensures Ordered(Ranked(hits))
  {
    if hits != [] {
      RankedIsOrdered(hits[1..]);
      forall h | h in Ranked(hits[1..]) ensures Newer(hits[0].memory, h.memory) {
        var i :| 0 <= i < |hits[1..]| && hits[1..][i] == h;
        assert hits[i + 1] == h;
      }
      RankOrders(hits[0], Ranked(hits[1..]));
    }
  }

  lemma {:induction false} ScoredKeepsOrder(rows: seq<Memory>, query: Query, occurs: Occurrences)
    requires StrictlyNewestFirst(rows)
    ensures forall i, j :: 0 <= i < j < |Scored(rows, query, occurs)| ==>
      Newer(Scored(rows, query, occurs)[i].memory, Scored(rows, query, occurs)[j].memory)
  {
    if rows != [] {
      var front, last := rows[..|rows| - 1], rows[|rows| - 1];
      ScoredKeepsOrder(front, query, occurs);
      forall h | h in Scored(front, query, occurs) ensures Newer(h.memory, last) {
        var i :| 0 <= i < |front| && front[i] == h.memory;
        assert rows[i] == h.memory;
      }
      assert forall i :: 0 <= i < |Scored(front, query, occurs)| ==> Scored(front, query, occurs)[i] in Scored(front, query, occurs);
    }
  }

  // ------------------------------------------------------------------
  // From hits to the block
  // ------------------------------------------------------------------

  datatype Config = Config(user: string, project: Option<string>, session: string, minScore: Option<real>,
                           maxMemories: nat, budget: Budget, header: string, occurs: Occurrences)

  datatype Recall = Recall(content: string, memories: seq<Memory>, origins: seq<Option<string>>)

  function Listed(rows: seq<Memory>, config: Config): seq<Memory> {
    ListMemories(rows, config.user, config.project, Some(Approved), None, None)
  }

  function Floored(hits: seq<Hit>, floor: Option<real>): (r: seq<Hit>)
    ensures forall h {:trigger h in r} :: h in r <==> h in hits && (floor.None? || h.score as real >= floor.value)
  {
    if hits == [] then []
    else
      var last := hits[|hits| - 1];
      Floored(hits[..|hits| - 1], floor) + if floor.None? || last.score as real >= floor.value then [last] else []
  }

  function Selected(rows: seq<Memory>, query: Query, config: Config): seq<Hit> {
    var hits := Floored(Ranked(Scored(Listed(rows, config), query, config.occurs)), config.minScore);
    if |hits| <= config.maxMemories then hits else hits[..config.maxMemories]
  }

  // The hits are the approved rows the user sees that match some position of the query, each scored by how
  // many it matches, and by falling number of those; of equal numbers by falling time, then falling id.
  ghost predicate RankedByMatches(rows: seq<Memory>, query: Query, config: Config, hits: seq<Hit>) {
    && (forall m :: (exists k :: 0 <= k < |hits| && hits[k].memory == m) <==>
          && m in rows && m.status == Approved && m.slot.user == config.user
          && (config.project.None? || m.slot.project == config.project || m.slot.project.None?)
          && Matching(m, query, config.occurs) != {})
    && (forall k :: 0 <= k < |hits| ==> hits[k].memory.id.Some? && hits[k].score == |Matching(hits[k].memory, query, config.occurs)|)
    && forall i, j :: 0 <= i < j < |hits| ==>
         var a, b := hits[i].memory, hits[j].memory;
         var x, y := |Matching(a, query, config.occurs)|, |Matching(b, query, config.occurs)|;
         x > y || (x == y && (a.updatedAt > b.updatedAt || (a.updatedAt == b.updatedAt && a.id.value > b.id.value)))
  }

  // One hit of the search.
  lemma {:induction false} HitIsListed(rows: seq<Memory>, query: Query, config: Config, h: Hit)
    requires h in Ranked(Scored(Listed(rows, config), query, config.occurs))
    ensures var m := h.memory;
      && m in rows && m.status == Approved && m.slot.user == config.user
      && (config.project.None? || m.slot.project == config.project || m.slot.project.None?)
      && h.score == |Matching(m, query, config.occurs)| > 0
  {
    ScoreCounts(h.memory, query, config.occurs);
    hide Ranked, Scored, Score, Matching;
    assert h in Scored(Listed(rows, config), query, config.occurs);
    assert h.memory in Listed(rows, config);
  }

  lemma {:induction false} MatchIsHit(rows: seq<Memory>, query: Query, config: Config, m: Memory)
    requires m in rows && m.status == Approved && m.slot.user == config.user
    requires config.project.None? || m.slot.project == config.project || m.slot.project.None?
    requires Matching(m, query, config.occurs) != {}
    ensures exists k :: 0 <= k < |Ranked(Scored(Listed(rows, config), query, config.occurs))|
                        && Ranked(Scored(Listed(rows, config), query, config.occurs))[k].memory == m
  {
    ScoreCounts(m, query, config.occurs);
    hide Ranked, Scored, Score, Matching;
    assert m in Listed(rows, config);
    var h := Hit(Score(m, query, config.occurs), m);
    assert h in Scored(Listed(rows, config), query, config.occurs);
    assert h in Ranked(Scored(Listed(rows, config), query, config.occurs));
  }

  lemma {:induction false} SearchIsOrdered(rows: seq<Memory>, query: Query, config: Config)
    requires NumberedRows(rows)
    ensures Ordered(Ranked(Scored(Listed(rows, config), query, config.occurs)))
  {
    var listed := Listed(rows, config);
    ListMemoriesIsOrdered(rows, config.user, config.project, Some(Approved), None, None);
    hide ListMemories, Scored, Ranked, Ordered;
    ScoredKeepsOrder(listed, query, config.occurs);
    RankedIsOrdered(Scored(listed, query, config.occurs));
  }

  lemma {:induction false} SearchRanks(rows: seq<Memory>, query: Query, config: Config)
    requires NumberedRows(rows)
    ensures RankedByMatches(rows, query, config, Ranked(Scored(Listed(rows, config), query, config.occurs)))
  {
    hide Ranked, Scored, Listed, Matching;
    var hits := Ranked(Scored(Listed(rows, config), query, config.occurs));
    SearchIsOrdered(rows, query, config);
    forall k | 0 <= k < |hits|
      ensures var m := hits[k].memory;
        && m in rows && m.id.Some? && m.status == Approved && m.slot.user == config.user
        && (config.project.None? || m.slot.project == config.project || m.slot.project.None?)
        && hits[k].score == |Matching(m, query, config.occurs)| && Matching(m, query, config.occurs) != {}
    {
      HitIsListed(rows, query, config, hits[k]);
    }
    forall m | m in rows && m.status == Approved && m.slot.user == config.user
        && (config.project.None? || m.slot.project == config.project || m.slot.project.None?)
        && Matching(m, query, config.occurs) != {}
      ensures exists k :: 0 <= k < |hits| && hits[k].memory == m
    {
      MatchIsHit(rows, query, config, m);
    }
  }

  predicate Clears(hit: Hit, floor: Option<real>) {
    floor.None? || hit.score as real >= floor.value
  }

  lemma {:induction false} FlooredIsPrefix(hits: seq<Hit>, floor: Option<real>)
    requires Falling(hits)
    ensures var r := Floored(hits, floor);
      && |r| <= |hits| && r == hits[..|r|] && (|r| < |hits| ==> !Clears(hits[|r|], floor))
      && forall k :: 0 <= k < |r| ==> Clears(hits[k], floor)
  {
    if hits != [] {
      var front := hits[..|hits| - 1];
      FlooredIsPrefix(front, floor);
      var r := Floored(front, floor);
      assert r == hits[..|r|];
      if |r| == |front| && Clears(hits[|hits| - 1], floor) {
        assert Floored(hits, floor) == hits;
      }
    }
  }

  // What is selected are the best hits: the ranking cut after `maxMemories`, or at the first hit under the floor.
  lemma {:induction false} SelectedIsTop(rows: seq<Memory>, query: Query, config: Config)
    ensures var all, hits := Ranked(Scored(Listed(rows, config), query, config.occurs)), Selected(rows, query, config);
      && |hits| <= |all| && hits == all[..|hits|] && |hits| <= config.maxMemories
      && (forall k :: 0 <= k < |hits| ==> Clears(hits[k], config.minScore))
      && (|hits| < |all| ==> |hits| == config.maxMemories || !Clears(all[|hits|], config.minScore))
  {
    var scored := Scored(Listed(rows, config), query, config.occurs);
    RankedIsStable(scored, 0);
    hide Ranked, Scored, Floored;
    FlooredIsPrefix(Ranked(scored), config.minScore);
  }

  function LastDash(s: string): (i: int)
    ensures -1 <= i < |s| && (i >= 0 ==> s[i] == '-') && forall j :: i < j < |s| ==> s[j] != '-'
  {
    if s == "" || s[|s| - 1] == '-' then |s| - 1 else LastDash(s[..|s| - 1])
  }

  predicate HexDigit(c: char) {
    '0' <= c <= '9' || 'a' <= c <= 'f'
  }

  // The instance an origin names, when it reads as an instance id, a dash and 32 hex digits.
  function OriginInstance(origin: string): Option<string> {
    var dash := LastDash(origin);
    if dash > 0 && |origin| - dash - 1 == 32 && (forall j :: dash < j < |origin| ==> HexDigit(origin[j]))
    then Some(origin[..dash]) else None
  }

  function OriginSuffix(origin: Option<string>, session: string): string {
    if origin.None? then ""
    else if origin.value == session then " (from this episode)"
    else if OriginInstance(origin.value).Some? then " (from earlier episode " + OriginInstance(origin.value).value + ")"
    else " (from an earlier episode)"
  }

  // An empty origin is no origin.
  function HitOrigin(m: Memory): Option<string> {
    if m.attributes.origin == Some("") then None else m.attributes.origin
  }

  function RenderLine(m: Memory): string {
    "- [" + m.slot.memoryType + ":" + (if m.slot.project.None? then "general" else "repo")
    + (if m.attributes.needsVerification then " needs_verification" else "") + "] " + m.slot.key + ": " + m.value
  }

  function Tag(m: Memory): string {
    (if m.slot.project.None? then "general" else "repo") + (if m.attributes.needsVerification then " needs_verification" else "") + "] "
  }

  lemma RenderedTag(m: Memory)
    ensures RenderLine(m) == ("- [" + m.slot.memoryType + ":") + (Tag(m) + (m.slot.key + ": " + m.value))
  {
  }

  // The layer is read off the tag's first character and the flag off the one after the layer.
  lemma TagIsRead(m: Memory, rest: string)
    requires |rest| >= 2
    ensures var line := Tag(m) + rest;
      && |line| > 7 && (line[0] == 'g' <==> m.slot.project.None?)
      && (line[if line[0] == 'g' then 7 else 4] == ' ' <==> m.attributes.needsVerification)
  {
    var line, layer := Tag(m) + rest, if m.slot.project.None? then "general" else "repo";
    assert line[0] == layer[0];
    assert line[|layer|] == (if m.attributes.needsVerification then " needs_verification] " else "] ")[0];
  }

  lemma SameTail(head: string, a: string, b: string)
    requires head + a == head + b
    ensures a == b
  {
    assert a == (head + a)[|head|..] && b == (head + b)[|head|..];
  }

  // Two rows of one type and key render alike exactly when they agree on the layer, the flag and the value.
  lemma {:induction false} RenderingShows(a: Memory, b: Memory)
    requires a.slot.memoryType == b.slot.memoryType && a.slot.key == b.slot.key
    ensures RenderLine(a) == RenderLine(b) <==>
      && a.slot.project.None? == b.slot.project.None?
      && a.attributes.needsVerification == b.attributes.needsVerification && a.value == b.value
  {
    var head, said, told := "- [" + a.slot.memoryType + ":", a.slot.key + ": " + a.value, b.slot.key + ": " + b.value;
    RenderedTag(a);
    RenderedTag(b);
    hide RenderLine;
    if RenderLine(a) == RenderLine(b) {
      SameTail(head, Tag(a) + said, Tag(b) + told);
      TagIsRead(a, said);
      TagIsRead(b, told);
      assert Tag(a) == Tag(b);
      SameTail(Tag(a), said, told);
      SameTail(a.slot.key + ": ", a.value, b.value);
    }
  }

  lemma FlaggedTag(m: Memory)
    requires m.slot.project.Some? && m.attributes.needsVerification
    ensures Tag(m) == "repo needs_verification] "
  {
  }

  lemma GeneralTag(m: Memory)
    requires m.slot.project.None? && !m.attributes.needsVerification
    ensures Tag(m) == "general] "
  {
  }

  // The two layers, the flag and the order of the parts, on two rows.
  lemma RenderedFlagged(m: Memory)
    requires m.slot == Slot("u", Some("r"), "fact", "k") && m.value == "v" && m.attributes.needsVerification
    ensures RenderLine(m) == "- [fact:" + ("repo needs_verification] " + "k: v")
  {
    RenderedTag(m);
    FlaggedTag(m);
    hide RenderLine, Tag;
    assert "k" + ": " + "v" == "k: v" && "- [" + "fact" + ":" == "- [fact:";
  }

  lemma RenderedGeneral(m: Memory)
    requires m.slot == Slot("u", None, "fact", "k") && m.value == "v" && !m.attributes.needsVerification
    ensures RenderLine(m) == "- [fact:" + ("general] " + "k: v")
  {
    RenderedTag(m);
    GeneralTag(m);
    hide RenderLine, Tag;
    assert "k" + ": " + "v" == "k: v" && "- [" + "fact" + ":" == "- [fact:";
  }

  lemma {:induction false} LastDashBefore(head: string, digits: string)
    requires forall j :: 0 <= j < |digits| ==> digits[j] != '-'
    ensures LastDash(head + "-" + digits) == |head|
  {
    var s := head + "-" + digits;
    assert s[|head|] == '-';
    forall j | |head| < j < |s| ensures s[j] != '-' {
      assert s[j] == digits[j - |head| - 1];
    }
  }

  lemma {:induction false} MintedInstance(instance: string, digits: string)
    requires instance != "" && |digits| == 32 && forall j :: 0 <= j < 32 ==> digits[j] in "0123456789abcdef"
    ensures OriginInstance(instance + "-" + digits) == Some(instance)
  {
    var origin := instance + "-" + digits;
    forall j | 0 <= j < 32 ensures HexDigit(digits[j]) && digits[j] != '-' {
      HexDigitsAre(digits[j]);
    }
    LastDashBefore(instance, digits);
    hide LastDash, HexDigit;
    forall j | |instance| < j < |origin| ensures HexDigit(origin[j]) {
      assert origin[j] == digits[j - |instance| - 1];
    }
    assert origin[..|instance|] == instance;
  }

  // A session id is minted as an instance, a dash and 32 hex digits, and a line of another session names the
  // instance again; any other origin names none, and none at all leaves no suffix.
  lemma {:induction false} OriginNamesItsInstance(instance: string, digits: string, session: string)
    requires instance != "" && |digits| == 32 && forall j :: 0 <= j < 32 ==> digits[j] in "0123456789abcdef"
    ensures var origin := instance + "-" + digits;
      OriginSuffix(Some(origin), session) ==
        if origin == session then " (from this episode)" else " (from earlier episode " + instance + ")"
  {
    hide OriginInstance;
    MintedInstance(instance, digits);
  }

  lemma {:induction false} OtherOriginsNameNone(origin: string, session: string)
    requires origin != session
    requires forall instance: string, digits: string ::
      origin == instance + "-" + digits && instance != "" && |digits| == 32 ==> exists j :: 0 <= j < 32 && digits[j] !in "0123456789abcdef"
    ensures OriginSuffix(Some(origin), session) == " (from an earlier episode)" && OriginSuffix(None, session) == ""
  {
    var dash := LastDash(origin);
    if OriginInstance(origin).Some? {
      var instance, digits := origin[..dash], origin[dash + 1..];
      assert origin == instance + "-" + digits;
      var j :| 0 <= j < 32 && digits[j] !in "0123456789abcdef";
      assert origin[dash + 1 + j] == digits[j];
      HexDigitsAre(digits[j]);
    }
  }

  lemma HexDigitsAre(c: char)
    ensures HexDigit(c) <==> c in "0123456789abcdef"
  {
  }

  // No CURE hit is exempt from the budgets.
  function LineOf(hit: Hit, session: string): Line {
    Line(RenderLine(hit.memory) + OriginSuffix(HitOrigin(hit.memory), session), false)
  }

  function LinesOf(hits: seq<Hit>, session: string): (r: seq<Line>)
    ensures |r| == |hits|
  {
    seq(|hits|, k requires 0 <= k < |hits| => LineOf(hits[k], session))
  }

  function Picked(hits: seq<Hit>, picks: seq<nat>): (r: seq<Memory>)
    requires forall k :: 0 <= k < |picks| ==> picks[k] < |hits|
    ensures |r| == |picks|
  {
    seq(|picks|, k requires 0 <= k < |picks| => hits[picks[k]].memory)
  }

  function OriginsOf(memories: seq<Memory>): (r: seq<Option<string>>)
    ensures |r| == |memories|
  {
    seq(|memories|, k requires 0 <= k < |memories| => HitOrigin(memories[k]))
  }

  // What a search now would inject.
  ghost function FreshRecall(rows: seq<Memory>, query: Query, config: Config): Option<Recall> {
    var hits := Selected(rows, query, config);
    var lines := LinesOf(hits, config.session);
    var w := Fill(lines, config.budget);
    FillDelivers(lines, config.budget);
    if w.picks == [] then None
    else
      var memories := Picked(hits, w.picks);
      Some(Recall(config.header + "\n" + Join(w.placed), memories, OriginsOf(memories)))
  }

  // Every recalled memory is an approved row of the user, visible in the project, that matches the
  // query and clears the floor; at most `maxMemories` of them, aligned with their origins.
  lemma {:induction false} RecallIsEntitled(rows: seq<Memory>, query: Query, config: Config)
    requires FreshRecall(rows, query, config).Some?
    ensures var recall := FreshRecall(rows, query, config).value;
      && 0 < |recall.memories| <= config.maxMemories && |recall.origins| == |recall.memories|
      && (forall k :: 0 <= k < |recall.memories| ==>
            var origin := recall.memories[k].attributes.origin;
            recall.origins[k] == if origin == Some("") then None else origin)
      && forall m :: m in recall.memories ==>
           && m in rows && m.status == Approved && Visible(m, config.user, config.project)
           && Matching(m, query, config.occurs) != {}
           && (config.minScore.Some? ==> |Matching(m, query, config.occurs)| as real >= config.minScore.value)
  {
    var hits := Selected(rows, query, config);
    var lines := LinesOf(hits, config.session);
    var w := Fill(lines, config.budget);
    FillDelivers(lines, config.budget);
    hide Fill, ListMemories, WithinBudget, ExemptWhole, NotStarved, RenderLine, OriginSuffix;
    PicksAreFew(w.picks, |lines|);
    var all := Floored(Ranked(Scored(Listed(rows, config), query, config.occurs)), config.minScore);
    forall k | 0 <= k < |w.picks|
      ensures var m := hits[w.picks[k]].memory;
        && m in Listed(rows, config) && Matching(m, query, config.occurs) != {}
        && (config.minScore.Some? ==> |Matching(m, query, config.occurs)| as real >= config.minScore.value)
    {
      assert hits[w.picks[k]] in hits && hits[w.picks[k]] in all;
      ScoreCounts(hits[w.picks[k]].memory, query, config.occurs);
    }
  }

  lemma {:induction false} AllPicked(picks: seq<nat>, n: nat)
    requires forall j, k :: 0 <= j < k < |picks| ==> picks[j] < picks[k]
    requires forall k :: 0 <= k < |picks| ==> picks[k] < n
    requires forall i: nat :: i < n ==> i in picks
    ensures |picks| == n && forall k :: 0 <= k < n ==> picks[k] == k
  {
    if n > 0 {
      assert n - 1 in picks;
      var last := |picks| - 1;
      assert picks[last] == n - 1;
      forall i: nat | i < n - 1 ensures i in picks[..last] {
        assert i in picks;
      }
      AllPicked(picks[..last], n - 1);
    } else {
      PicksAreFew(picks, n);
    }
  }

  // When the lines of the selected hits fit the total, or there is none, recall serves all of them, best
  // first, and below the header the block reads as their lines, one below the other.
  lemma {:induction false} FittingRecallShowsAll(rows: seq<Memory>, query: Query, config: Config)
    requires Selected(rows, query, config) != []
    requires config.budget.total == 0 || Needed(LinesOf(Selected(rows, query, config), config.session), config.budget) <= config.budget.total
    ensures var hits, recall := Selected(rows, query, config), FreshRecall(rows, query, config);
      && recall.Some? && |recall.value.memories| == |hits|
      && (forall k :: 0 <= k < |hits| ==> recall.value.memories[k] == hits[k].memory)
      && config.header + "\n" <= recall.value.content
      && var texts := seq(|hits|, k requires 0 <= k < |hits| => Capped(LineOf(hits[k], config.session).text, config.budget));
         (forall k :: 0 <= k < |hits| ==> '\n' !in texts[k]) ==>
           SplitLines(recall.value.content[|config.header| + 1..]) == texts
  {
    hide Selected, Capped, LineOf, Needed, Join, Fill, Delivered;
    var hits := Selected(rows, query, config);
    var lines := LinesOf(hits, config.session);
    var w := Fill(lines, config.budget);
    FillDelivers(lines, config.budget);
    FittingFillPicksAll(lines, hits, config);
    var texts := seq(|hits|, k requires 0 <= k < |hits| => Capped(LineOf(hits[k], config.session).text, config.budget));
    assert w.placed == texts;
    var head := config.header + "\n";
    assert (head + Join(w.placed))[|head|..] == Join(w.placed);
    if forall k :: 0 <= k < |hits| ==> '\n' !in texts[k] {
      JoinSplits(w.placed);
    }
  }

  lemma {:induction false} FittingFillPicksAll(lines: seq<Line>, hits: seq<Hit>, config: Config)
    requires lines == LinesOf(hits, config.session)
    requires config.budget.total == 0 || Needed(lines, config.budget) <= config.budget.total
    ensures var w := Fill(lines, config.budget);
      && |w.picks| == |w.placed| == |hits|
      && forall k :: 0 <= k < |hits| ==> w.picks[k] == k && w.placed[k] == Capped(LineOf(hits[k], config.session).text, config.budget)
  {
    hide Fill, Capped, Needed, LineOf;
    var w := Fill(lines, config.budget);
    FittingLinesArrive(lines, config.budget);
    forall k | 0 <= k < |hits| ensures lines[k].text != "" && !lines[k].exempt {
      LinesAreNotEmpty(hits[k], config.session);
    }
    AllPicked(w.picks, |lines|);
  }

  lemma LinesAreNotEmpty(hit: Hit, session: string)
    ensures LineOf(hit, session).text != "" && !LineOf(hit, session).exempt
  {
  }

  lemma {:induction false} PicksAreFew(picks: seq<nat>, n: nat)
    requires forall k :: 0 <= k < |picks| ==> picks[k] < n
    requires forall j, k :: 0 <= j < k < |picks| ==> picks[j] < picks[k]
    ensures |picks| <= n
  {
    if picks != [] {
      PicksAreFew(picks[..|picks| - 1], picks[|picks| - 1]);
    }
  }

  // ------------------------------------------------------------------
  // The search and the block as they are computed
  // ------------------------------------------------------------------

  method MemorySearch(rows: seq<Memory>, query: Query, config: Config) returns (hits: seq<Hit>)
    ensures hits == Ranked(Scored(Listed(rows, config), query, config.occurs))
    ensures NumberedRows(rows) ==> RankedByMatches(rows, query, config, hits)
  {
    if NumberedRows(rows) {
      SearchRanks(rows, query, config);
    }
    hide RankedByMatches;
    var memories := Listed(rows, config);
    var scored: seq<Hit> := [];
    for i := 0 to |memories|
      invariant scored == Scored(memories[..i], query, config.occurs)
    {
      assert memories[..i + 1][..i] == memories[..i];
      var score: nat := 0;
      for t := 0 to |query|
        invariant score == Score(memories[i], query[..t], config.occurs)
      {
        assert query[..t + 1][..t] == query[..t];
        if (query[t], memories[i].slot.memoryType, memories[i].slot.key, memories[i].value) in config.occurs {
          score := score + 1;
        }
      }
      assert query[..|query|] == query;
      if score > 0 {
        scored := scored + [Hit(score, memories[i])];
      }
    }
    assert memories[..|memories|] == memories;
    hits := Ranked(scored);
  }

  method RenderRecall(rows: seq<Memory>, query: Query, config: Config) returns (recall: Option<Recall>)
    ensures recall == FreshRecall(rows, query, config)
  {
    var hits := MemorySearch(rows, query, config);
    hits := Floored(hits, config.minScore);
    if |hits| > config.maxMemories {
      hits := hits[..config.maxMemories];
    }
    var lines := LinesOf(hits, config.session);
    var body, w := FillLines(lines, config.budget);
    if w.picks == [] {
      return None;
    }
    FillDelivers(lines, config.budget);
    var memories := Picked(hits, w.picks);
    recall := Some(Recall(config.header + "\n" + body, memories, OriginsOf(memories)));
  }
}
