/** Rank-then-fill: placing ranked memory lines under a cap per line and a total budget. Lengths count
    characters; `spaces` is the set of characters that rstrip removes. */
module RecallFill {

  const RECALL_LINE_TRUNCATION: string := " ...[truncated]"
  const MIN_TRUNCATED_RECALL_LINE_CHARS: nat := 40

  // One selected hit as a line; an empty text means the hit has no line. 0 switches a knob off.
  datatype Line = Line(text: string, exempt: bool)
  datatype Budget = Budget(perMemory: nat, total: nat, spaces: iset<char>)

  // The walk so far: which lines were delivered, what was placed for each, and the characters the
  // non-exempt ones took of the total, separators included.
  datatype Walk = Walk(picks: seq<nat>, placed: seq<string>, spent: nat)

  function RStrip(s: string, spaces: iset<char>): (r: string)
    ensures |r| <= |s| && r == s[..|r|]
    ensures r != [] ==> r[|r| - 1] !in spaces
    ensures forall k :: |r| <= k < |s| ==> s[k] in spaces
  {
    if s == [] || s[|s| - 1] !in spaces then s else RStrip(s[..|s| - 1], spaces)
  }

  // `r` is the first `keep` characters of the text without their trailing spaces, then the marker.
  ghost predicate CutOf(text: string, keep: nat, spaces: iset<char>, r: string) {
    exists n: nat :: n <= keep <= |text| && r == text[..n] + " ...[truncated]" && StripsTo(text, n, keep, spaces)
  }

  ghost predicate StripsTo(text: string, n: nat, keep: nat, spaces: iset<char>)
    requires n <= keep <= |text|
  {
    (n > 0 ==> text[n - 1] !in spaces) && forall k :: n <= k < keep ==> text[k] in spaces
  }

  function Cut(text: string, keep: nat, spaces: iset<char>): (r: string)
    requires keep <= |text|
    ensures |RECALL_LINE_TRUNCATION| <= |r| <= keep + |RECALL_LINE_TRUNCATION|
    ensures CutOf(text, keep, spaces, r)
  {
    assert StripsTo(text, |RStrip(text[..keep], spaces)|, keep, spaces);
    RStrip(text[..keep], spaces) + RECALL_LINE_TRUNCATION
  }

  function Capped(text: string, budget: Budget): (r: string)
    ensures text != "" ==> r != ""
    ensures budget.perMemory > 0 ==> |r| <= budget.perMemory
    ensures budget.perMemory == 0 || |text| <= budget.perMemory ==> r == text
    ensures 15 < budget.perMemory < |text| ==> CutOf(text, budget.perMemory - 15, budget.spaces, r)
    ensures 0 < budget.perMemory <= 15 && budget.perMemory < |text| ==> r == text[..budget.perMemory]
  {
    if budget.perMemory == 0 || |text| <= budget.perMemory then text
    else if budget.perMemory > |RECALL_LINE_TRUNCATION|
    then Cut(text, budget.perMemory - |RECALL_LINE_TRUNCATION|, budget.spaces)
    else text[..budget.perMemory]
  }

  // One separator whenever something is placed already, by an exempt line too.
  function Separator(w: Walk): nat {
    if w.placed == [] then 0 else 1
  }

  function Place(w: Walk, i: nat, line: Line, budget: Budget): Walk {
    if line.text == "" then w
    else if line.exempt then Walk(w.picks + [i], w.placed + [line.text], w.spent)
    else
      var text := Capped(line.text, budget);
      if budget.total == 0 || w.spent + |text| + Separator(w) <= budget.total then
        Walk(w.picks + [i], w.placed + [text], w.spent + |text| + Separator(w))
      else
        var remaining := budget.total - w.spent - Separator(w);
        if remaining < MIN_TRUNCATED_RECALL_LINE_CHARS then w
        else
          var cut := Cut(text, remaining - |RECALL_LINE_TRUNCATION|, budget.spaces);
          Walk(w.picks + [i], w.placed + [cut], w.spent + |cut| + Separator(w))
  }

  function Fill(lines: seq<Line>, budget: Budget): Walk {
    if lines == [] then Walk([], [], 0)
    else Place(Fill(lines[..|lines| - 1], budget), |lines| - 1, lines[|lines| - 1], budget)
  }

  function Join(placed: seq<string>): string {
    if placed == [] then ""
    else if |placed| == 1 then placed[0]
    else Join(placed[..|placed| - 1]) + "\n" + placed[|placed| - 1]
  }

  function SplitLines(body: string): (r: seq<string>)
    ensures r != []
  {
    if body == "" then [""]
    else
      var front, c := SplitLines(body[..|body| - 1]), body[|body| - 1];
      if c == '\n' then front + [""] else front[..|front| - 1] + [front[|front| - 1] + [c]]
  }

  lemma SplitChar(body: string, c: char)
    ensures SplitLines(body + [c]) ==
      var front := SplitLines(body);
      if c == '\n' then front + [""] else front[..|front| - 1] + [front[|front| - 1] + [c]]
  {
    assert (body + [c])[..|body|] == body;
  }

  lemma {:induction false} SplitTail(body: string, line: string)
    requires '\n' !in line
    ensures var front := SplitLines(body);
      SplitLines(body + line) == front[..|front| - 1] + [front[|front| - 1] + line]
  {
    hide SplitLines;
    if line == "" {
      var front := SplitLines(body);
      assert body + line == body && front[|front| - 1] + line == front[|front| - 1];
    } else {
      var most, c := line[..|line| - 1], line[|line| - 1];
      SplitTail(body, most);
      SplitChar(body + most, c);
      var front, longer := SplitLines(body), SplitLines(body + most);
      assert (body + most) + [c] == body + line && most + [c] == line;
      assert longer[..|longer| - 1] == front[..|front| - 1];
      assert longer[|longer| - 1] + [c] == front[|front| - 1] + line;
    }
  }

  lemma {:induction false} SplitOneMore(body: string, line: string)
    requires '\n' !in line
    ensures SplitLines(body + "\n" + line) == SplitLines(body) + [line]
  {
    hide SplitLines;
    var front := SplitLines(body);
    SplitChar(body, '\n');
    assert body + ['\n'] == body + "\n";
    SplitTail(body + "\n", line);
    assert (front + [""])[..|front|] == front && "" + line == line;
  }

  // The lines can be read off the body again.
  lemma {:induction false} JoinSplits(placed: seq<string>)
    requires placed != [] && forall k :: 0 <= k < |placed| ==> '\n' !in placed[k]
    ensures SplitLines(Join(placed)) == placed
  {
    var front, last := placed[..|placed| - 1], placed[|placed| - 1];
    if |placed| == 1 {
      OneLineSplits(last);
    } else {
      JoinSplits(front);
      assert Join(placed) == Join(front) + "\n" + last;
      hide Join, SplitLines;
      SplitOneMore(Join(front), last);
    }
  }

  lemma OneLineSplits(line: string)
    requires '\n' !in line
    ensures SplitLines(line) == [line]
  {
    SplitTail("", line);
    assert "" + line == line && SplitLines("") == [""];
  }

  lemma {:induction false} JoinOneMore(placed: seq<string>, line: string)
    requires forall k :: 0 <= k < |placed| ==> placed[k] != ""
    ensures Join(placed + [line]) == if placed == [] then line else Join(placed) + "\n" + line
    ensures Join(placed) == "" <==> placed == []
  {
  }

  ghost predicate Shows(body: string, w: Walk) {
    body == Join(w.placed) && forall k :: 0 <= k < |w.placed| ==> w.placed[k] != ""
  }

  // The loop as it runs, over the body text itself.
  method FillLines(lines: seq<Line>, budget: Budget) returns (body: string, w: Walk)
    ensures w == Fill(lines, budget) && Shows(body, w)
    ensures Shown(lines, budget, w)
  {
    FillShows(lines, budget);
    hide Shown;
    body, w := "", Walk([], [], 0);
    for i := 0 to |lines|
      invariant w == Fill(lines[..i], budget) && Shows(body, w)
    {
      assert lines[..i + 1][..i] == lines[..i];
      body, w := PlaceLine(body, w, i, lines[i], budget);
    }
    assert lines[..|lines|] == lines;
  }

  method PlaceLine(body: string, w: Walk, i: nat, line: Line, budget: Budget) returns (body': string, w': Walk)
    requires Shows(body, w)
    ensures w' == Place(w, i, line, budget) && Shows(body', w')
  {
    EmptyBody(body, w);
    var fits, text, cost := FitLine(w, i, line, budget, if body != "" then 1 else 0);
    if !fits {
      return body, w;
    }
    hide Place, Join;
    JoinOneMore(w.placed, text);
    body' := if body != "" then body + "\n" + text else text;
    w' := Walk(w.picks + [i], w.placed + [text], w.spent + cost);
  }

  // What is placed for the line and what it costs of the total, if it is not skipped.
  method FitLine(w: Walk, i: nat, line: Line, budget: Budget, separator: nat) returns (fits: bool, text: string, cost: nat)
    requires separator == Separator(w)
    ensures fits ==> text != ""
    ensures Place(w, i, line, budget) == if fits then Walk(w.picks + [i], w.placed + [text], w.spent + cost) else w
  {
    hide Cut, Capped, CutOf, RStrip;
    fits, text, cost := line.text != "", line.text, 0;
    if !fits || line.exempt {
      return;
    }
    text := Capped(text, budget);
    cost := |text| + separator;
    if budget.total > 0 && w.spent + cost > budget.total {
      var remaining := budget.total - w.spent - separator;
      if remaining < MIN_TRUNCATED_RECALL_LINE_CHARS {
        fits := false;
        return;
      }
      text := Cut(text, remaining - |RECALL_LINE_TRUNCATION|, budget.spaces);
      cost := |text| + separator;
    }
  }

  lemma EmptyBody(body: string, w: Walk)
    requires Shows(body, w)
    ensures body == "" <==> w.placed == []
  {
    JoinOneMore(w.placed, "");
  }

  // ------------------------------------------------------------------
  // What is delivered
  // ------------------------------------------------------------------

  // Characters taken by the non-exempt placed lines with their separators.
  function Spent(lines: seq<Line>, picks: seq<nat>, placed: seq<string>): nat
    requires |picks| == |placed| && forall k :: 0 <= k < |picks| ==> picks[k] < |lines|
  {
    if picks == [] then 0
    else
      var last := |picks| - 1;
      Spent(lines, picks[..last], placed[..last])
      + if lines[picks[last]].exempt then 0 else |placed[last]| + (if last > 0 then 1 else 0)
  }

  // An order-preserving selection of the lines, aligned with what was placed.
  ghost predicate Aligned(lines: seq<Line>, w: Walk) {
    && |w.picks| == |w.placed|
    && (forall k :: 0 <= k < |w.picks| ==> w.picks[k] < |lines| && lines[w.picks[k]].text != "" && w.placed[k] != "")
    && (forall j, k :: 0 <= j < k < |w.picks| ==> w.picks[j] < w.picks[k])
  }

  // Exempt lines arrive whole, and all of them arrive.
  ghost predicate ExemptWhole(lines: seq<Line>, w: Walk)
    requires Aligned(lines, w)
  {
    && (forall k :: 0 <= k < |w.picks| && lines[w.picks[k]].exempt ==> w.placed[k] == lines[w.picks[k]].text)
    && (forall i :: 0 <= i < |lines| && lines[i].exempt && lines[i].text != "" ==> i in w.picks)
  }

  // The other lines respect both budgets.
  ghost predicate WithinBudget(lines: seq<Line>, budget: Budget, w: Walk)
    requires Aligned(lines, w)
  {
    && (forall k :: 0 <= k < |w.picks| && !lines[w.picks[k]].exempt && budget.perMemory > 0 ==> |w.placed[k]| <= budget.perMemory)
    && w.spent == Spent(lines, w.picks, w.placed)
    && (budget.total > 0 ==> w.spent <= budget.total)
  }

  // A usable budget delivers something.
  ghost predicate NotStarved(lines: seq<Line>, budget: Budget, w: Walk) {
    (budget.total == 0 || budget.total >= MIN_TRUNCATED_RECALL_LINE_CHARS) && w.picks == [] ==>
      w.spent == 0 && forall i :: 0 <= i < |lines| ==> lines[i].text == ""
  }

  ghost predicate Delivered(lines: seq<Line>, budget: Budget, w: Walk) {
    && Aligned(lines, w) && ExemptWhole(lines, w) && WithinBudget(lines, budget, w) && NotStarved(lines, budget, w)
  }

  lemma {:induction false} SpentOfMoreLines(lines: seq<Line>, line: Line, picks: seq<nat>, placed: seq<string>)
    requires |picks| == |placed| && forall k :: 0 <= k < |picks| ==> picks[k] < |lines|
    ensures Spent(lines + [line], picks, placed) == Spent(lines, picks, placed)
  {
    if picks != [] {
      SpentOfMoreLines(lines, line, picks[..|picks| - 1], placed[..|picks| - 1]);
    }
  }

  // A skipped or empty line changes nothing.
  lemma {:induction false} DeliveredSkip(lines: seq<Line>, line: Line, budget: Budget, w: Walk)
    requires Delivered(lines, budget, w) && Place(w, |lines|, line, budget) == w
    ensures Delivered(lines + [line], budget, w)
  {
    var more := lines + [line];
    SpentOfMoreLines(lines, line, w.picks, w.placed);
    assert forall i :: 0 <= i < |lines| ==> more[i] == lines[i];
  }

  lemma {:induction false} DeliveredPick(lines: seq<Line>, line: Line, budget: Budget, w: Walk, w': Walk, text: string)
    requires Delivered(lines, budget, w) && line.text != "" && text != ""
    requires w'.picks == w.picks + [|lines|] && w'.placed == w.placed + [text]
    requires if line.exempt then text == line.text && w'.spent == w.spent
             else w'.spent == w.spent + |text| + Separator(w)
    requires !line.exempt ==> (budget.perMemory > 0 ==> |text| <= budget.perMemory) && (budget.total > 0 ==> w'.spent <= budget.total)
    ensures Delivered(lines + [line], budget, w')
  {
    var more := lines + [line];
    assert forall i :: 0 <= i < |lines| ==> more[i] == lines[i];
    assert Aligned(more, w');
    assert NotStarved(more, budget, w');
    PickIsWhole(lines, line, w, w', text);
    PickIsWithinBudget(lines, line, budget, w, w', text);
  }

  lemma {:induction false} PickIsWhole(lines: seq<Line>, line: Line, w: Walk, w': Walk, text: string)
    requires Aligned(lines, w) && ExemptWhole(lines, w) && Aligned(lines + [line], w')
    requires w'.picks == w.picks + [|lines|] && w'.placed == w.placed + [text] && (line.exempt ==> text == line.text)
    ensures ExemptWhole(lines + [line], w')
  {
    var more, n := lines + [line], |w.picks|;
    forall i | 0 <= i < |more| && more[i].exempt && more[i].text != "" ensures i in w'.picks {
      if i < |lines| {
        assert i in w.picks;
      } else {
        assert w'.picks[n] == i;
      }
    }
  }

  lemma {:induction false} PickIsWithinBudget(lines: seq<Line>, line: Line, budget: Budget, w: Walk, w': Walk, text: string)
    requires Aligned(lines, w) && WithinBudget(lines, budget, w) && Aligned(lines + [line], w')
    requires w'.picks == w.picks + [|lines|] && w'.placed == w.placed + [text]
    requires w'.spent == w.spent + if line.exempt then 0 else |text| + Separator(w)
    requires !line.exempt ==> (budget.perMemory > 0 ==> |text| <= budget.perMemory) && (budget.total > 0 ==> w'.spent <= budget.total)
    ensures WithinBudget(lines + [line], budget, w')
  {
    var more := lines + [line];
    assert forall i :: 0 <= i < |lines| ==> more[i] == lines[i];
    SpentNext(lines, line, w.picks, w.placed, text);
    hide Spent, Capped;
  }

  lemma SpentNext(lines: seq<Line>, line: Line, picks: seq<nat>, placed: seq<string>, text: string)
    requires |picks| == |placed| && forall k :: 0 <= k < |picks| ==> picks[k] < |lines|
    ensures Spent(lines + [line], picks + [|lines|], placed + [text])
         == Spent(lines, picks, placed) + if line.exempt then 0 else |text| + if placed == [] then 0 else 1
  {
    var n := |picks|;
    assert (picks + [|lines|])[..n] == picks && (placed + [text])[..n] == placed;
    SpentOfMoreLines(lines, line, picks, placed);
  }

  lemma {:induction false} DeliveredOneMore(lines: seq<Line>, line: Line, budget: Budget, w: Walk)
    requires Delivered(lines, budget, w)
    ensures Delivered(lines + [line], budget, Place(w, |lines|, line, budget))
  {
    var w' := Place(w, |lines|, line, budget);
    if w'.picks == w.picks {
      DeliveredSkip(lines, line, budget, w);
    } else {
      DeliveredPick(lines, line, budget, w, w', w'.placed[|w.placed|]);
    }
  }

  lemma {:induction false} FillDelivers(lines: seq<Line>, budget: Budget)
    ensures Delivered(lines, budget, Fill(lines, budget))
  {
    if lines != [] {
      var front, last := lines[..|lines| - 1], lines[|lines| - 1];
      FillDelivers(front, budget);
      DeliveredOneMore(front, last, budget, Fill(front, budget));
      assert front + [last] == lines;
    }
  }

  // ------------------------------------------------------------------
  // What is placed for each line, said without the walk
  // ------------------------------------------------------------------

  // The k-th placed text: an exempt line whole; another one capped, or cut to what the lines before it left
  // of the total when it does not fit.
  ghost predicate LineShown(lines: seq<Line>, budget: Budget, w: Walk, k: nat)
    requires Aligned(lines, w) && k < |w.picks|
  {
    var line, separator := lines[w.picks[k]], if k == 0 then 0 else 1;
    var text, spent := Capped(line.text, budget), Spent(lines, w.picks[..k], w.placed[..k]);
    if line.exempt then w.placed[k] == line.text
    else if budget.total == 0 || spent + |text| + separator <= budget.total then w.placed[k] == text
    else
      && budget.total - spent - separator >= 40
      && CutOf(text, budget.total - spent - separator - 15, budget.spaces, w.placed[k])
  }

  // Line `i`, which comes after the first `k` picks, did not fit, and fewer than 40 characters were left.
  ghost predicate LineSkipped(lines: seq<Line>, budget: Budget, w: Walk, i: nat, k: nat)
    requires Aligned(lines, w) && i < |lines|
  {
    && k <= |w.picks| && (forall j :: 0 <= j < k ==> w.picks[j] < i) && (forall j :: k <= j < |w.picks| ==> w.picks[j] > i)
    && !lines[i].exempt && budget.total > 0
    && var spent, separator := Spent(lines, w.picks[..k], w.placed[..k]), if k == 0 then 0 else 1;
       spent + |Capped(lines[i].text, budget)| + separator > budget.total && budget.total - spent - separator < 40
  }

  // Together they say of every line what becomes of it.
  ghost predicate Shown(lines: seq<Line>, budget: Budget, w: Walk) {
    && Aligned(lines, w)
    && (forall k: nat :: k < |w.picks| ==> LineShown(lines, budget, w, k))
    && (forall i: nat :: i < |lines| && lines[i].text != "" && i !in w.picks ==> exists k: nat :: LineSkipped(lines, budget, w, i, k))
  }

  lemma {:induction false} StillShown(lines: seq<Line>, line: Line, budget: Budget, w: Walk, w': Walk, k: nat)
    requires Aligned(lines, w) && Aligned(lines + [line], w') && k < |w.picks| && LineShown(lines, budget, w, k)
    requires w.picks <= w'.picks && w.placed <= w'.placed
    ensures LineShown(lines + [line], budget, w', k)
  {
    hide Capped, CutOf;
    assert w'.picks[..k] == w.picks[..k] && w'.placed[..k] == w.placed[..k];
    SpentOfMoreLines(lines, line, w.picks[..k], w.placed[..k]);
  }

  lemma {:induction false} StillSkipped(lines: seq<Line>, line: Line, budget: Budget, w: Walk, w': Walk, i: nat, k: nat)
    requires Aligned(lines, w) && Aligned(lines + [line], w') && i < |lines| && LineSkipped(lines, budget, w, i, k)
    requires w.picks <= w'.picks && w.placed <= w'.placed && forall j :: |w.picks| <= j < |w'.picks| ==> w'.picks[j] == |lines|
    ensures LineSkipped(lines + [line], budget, w', i, k)
  {
    hide Capped;
    assert w'.picks[..k] == w.picks[..k] && w'.placed[..k] == w.placed[..k];
    SpentOfMoreLines(lines, line, w.picks[..k], w.placed[..k]);
  }

  lemma {:induction false} LastShown(lines: seq<Line>, line: Line, budget: Budget, w: Walk)
    requires Delivered(lines, budget, w) && line.text != "" && Aligned(lines + [line], Place(w, |lines|, line, budget))
    ensures var w' := Place(w, |lines|, line, budget);
      if w' == w then LineSkipped(lines + [line], budget, w, |lines|, |w.picks|)
      else && w'.picks == w.picks + [|lines|] && w.placed <= w'.placed && LineShown(lines + [line], budget, w', |w.picks|)
  {
    hide Capped, Cut, CutOf, NotStarved, ExemptWhole, RStrip, Spent;
    var w', n := Place(w, |lines|, line, budget), |w.picks|;
    assert w.picks[..n] == w.picks && w.placed[..n] == w.placed;
    SpentOfMoreLines(lines, line, w.picks, w.placed);
    if w' != w {
      assert w'.picks[..n] == w.picks && w'.placed[..n] == w.placed;
    }
  }

  lemma {:induction false} AllStillShown(lines: seq<Line>, line: Line, budget: Budget, w: Walk, w': Walk)
    requires Shown(lines, budget, w) && Aligned(lines + [line], w')
    requires w.picks <= w'.picks && w.placed <= w'.placed && forall j :: |w.picks| <= j < |w'.picks| ==> w'.picks[j] == |lines|
    ensures forall k: nat :: k < |w.picks| ==> LineShown(lines + [line], budget, w', k)
    ensures forall i: nat :: i < |lines| && lines[i].text != "" && i !in w'.picks ==>
      exists k: nat :: LineSkipped(lines + [line], budget, w', i, k)
  {
    hide LineShown, LineSkipped;
    forall k: nat | k < |w.picks| ensures LineShown(lines + [line], budget, w', k) {
      StillShown(lines, line, budget, w, w', k);
    }
    forall i: nat | i < |lines| && lines[i].text != "" && i !in w'.picks ensures exists k: nat :: LineSkipped(lines + [line], budget, w', i, k) {
      assert i !in w.picks;
      var k: nat :| LineSkipped(lines, budget, w, i, k);
      StillSkipped(lines, line, budget, w, w', i, k);
    }
  }

  lemma {:induction false} ShownPick(lines: seq<Line>, line: Line, budget: Budget, w: Walk, w': Walk)
    requires Shown(lines, budget, w) && Aligned(lines + [line], w')
    requires w'.picks == w.picks + [|lines|] && w.placed <= w'.placed && LineShown(lines + [line], budget, w', |w.picks|)
    ensures Shown(lines + [line], budget, w')
  {
    hide *;
    var more := lines + [line];
    AllStillShown(lines, line, budget, w, w');
    assert w'.picks[|w.picks|] == |lines|;
    forall i: nat | i < |more| && more[i].text != "" && i !in w'.picks ensures exists k: nat :: LineSkipped(more, budget, w', i, k) {
      assert i != |lines|;
      assert more[i] == lines[i];
    }
    AllLinesShown(more, budget, w');
  }

  lemma AllLinesShown(lines: seq<Line>, budget: Budget, w: Walk)
    requires Aligned(lines, w) && forall k: nat :: k < |w.picks| ==> LineShown(lines, budget, w, k)
    requires forall i: nat :: i < |lines| && lines[i].text != "" && i !in w.picks ==> exists k: nat :: LineSkipped(lines, budget, w, i, k)
    ensures Shown(lines, budget, w)
  {
  }

  lemma {:induction false} ShownSkip(lines: seq<Line>, line: Line, budget: Budget, w: Walk)
    requires Shown(lines, budget, w) && Aligned(lines + [line], w)
    requires line.text == "" || LineSkipped(lines + [line], budget, w, |lines|, |w.picks|)
    ensures Shown(lines + [line], budget, w)
  {
    hide *;
    AllStillShown(lines, line, budget, w, w);
    assert forall i :: 0 <= i < |lines| ==> (lines + [line])[i] == lines[i];
    AllLinesShown(lines + [line], budget, w);
  }

  lemma EmptyLineIsSkipped(w: Walk, i: nat, line: Line, budget: Budget)
    requires line.text == ""
    ensures Place(w, i, line, budget) == w
  {
  }

  lemma {:induction false} ShownOneMore(lines: seq<Line>, line: Line, budget: Budget, w: Walk)
    requires Delivered(lines, budget, w) && Shown(lines, budget, w)
    ensures Shown(lines + [line], budget, Place(w, |lines|, line, budget))
  {
    DeliveredOneMore(lines, line, budget, w);
    assert Aligned(lines + [line], Place(w, |lines|, line, budget));
    hide *;
    var w' := Place(w, |lines|, line, budget);
    if line.text == "" {
      EmptyLineIsSkipped(w, |lines|, line, budget);
      ShownSkip(lines, line, budget, w);
      return;
    }
    LastShown(lines, line, budget, w);
    if w' == w {
      ShownSkip(lines, line, budget, w);
    } else {
      ShownPick(lines, line, budget, w, w');
    }
  }

  lemma {:induction false} FillShows(lines: seq<Line>, budget: Budget)
    ensures Shown(lines, budget, Fill(lines, budget))
  {
    hide *;
    if lines == [] {
      NoLinesShown(budget);
    } else {
      var front, last := lines[..|lines| - 1], lines[|lines| - 1];
      NeededNext(lines, budget);
      FillShows(front, budget);
      FillDelivers(front, budget);
      ShownOneMore(front, last, budget, Fill(front, budget));
      assert front + [last] == lines;
    }
  }

  lemma NoLinesShown(budget: Budget)
    ensures Shown([], budget, Fill([], budget))
  {
  }

  predicate AnyText(lines: seq<Line>) {
    exists i :: 0 <= i < |lines| && lines[i].text != ""
  }

  // What the lines would take of the total if each were placed capped.
  function Needed(lines: seq<Line>, budget: Budget): nat {
    if lines == [] then 0
    else
      var front, last := lines[..|lines| - 1], lines[|lines| - 1];
      Needed(front, budget)
      + if last.text == "" || last.exempt then 0
        else |Capped(last.text, budget)| + if AnyText(front) then 1 else 0
  }

  // Every line that is not empty arrives, exempt ones whole and the others capped.
  ghost predicate AllArrive(lines: seq<Line>, budget: Budget, w: Walk) {
    && |w.picks| == |w.placed|
    && (forall j, k :: 0 <= j < k < |w.picks| ==> w.picks[j] < w.picks[k])
    && (forall i :: 0 <= i < |lines| ==> (lines[i].text != "" <==> i in w.picks))
    && (forall k :: 0 <= k < |w.picks| ==> w.picks[k] < |lines|)
    && (forall k :: 0 <= k < |w.picks| ==>
          w.placed[k] == if lines[w.picks[k]].exempt then lines[w.picks[k]].text else Capped(lines[w.picks[k]].text, budget))
  }

  lemma {:induction false} AllArriveOneMore(lines: seq<Line>, line: Line, budget: Budget, w: Walk)
    requires AllArrive(lines, budget, w)
    requires line.text == "" || line.exempt || budget.total == 0 || w.spent + |Capped(line.text, budget)| + Separator(w) <= budget.total
    ensures var w' := Place(w, |lines|, line, budget);
      && AllArrive(lines + [line], budget, w')
      && w'.spent == w.spent + if line.text == "" || line.exempt then 0 else |Capped(line.text, budget)| + Separator(w)
  {
    hide Capped, Cut;
    var more, w', n := lines + [line], Place(w, |lines|, line, budget), |w.picks|;
    assert forall i :: 0 <= i < |lines| ==> more[i] == lines[i];
    assert line.text != "" ==> w'.picks == w.picks + [|lines|] && w'.picks[n] == |lines|;
  }

  lemma NoneArrives(lines: seq<Line>, budget: Budget, w: Walk)
    requires AllArrive(lines, budget, w)
    ensures Separator(w) == if AnyText(lines) then 1 else 0
  {
    if w.picks != [] {
      assert w.picks[0] in w.picks;
    }
  }

  lemma NeededNext(lines: seq<Line>, budget: Budget)
    requires lines != []
    ensures var front, last := lines[..|lines| - 1], lines[|lines| - 1];
      && Fill(lines, budget) == Place(Fill(front, budget), |front|, last, budget)
      && Needed(lines, budget) == Needed(front, budget)
           + if last.text == "" || last.exempt then 0
             else |Capped(last.text, budget)| + if AnyText(front) then 1 else 0
  {
  }

  lemma NoLinesNeedNothing(budget: Budget)
    ensures AllArrive([], budget, Fill([], budget)) && Fill([], budget).spent == Needed([], budget) == 0
  {
  }

  // When the lines fit the total, or there is none, none is skipped and none is cut beyond its own cap.
  lemma {:induction false} FittingLinesArrive(lines: seq<Line>, budget: Budget)
    requires budget.total == 0 || Needed(lines, budget) <= budget.total
    ensures AllArrive(lines, budget, Fill(lines, budget))
    ensures Fill(lines, budget).spent == Needed(lines, budget)
  {
    hide *;
    if lines == [] {
      NoLinesNeedNothing(budget);
    } else {
      var front, last := lines[..|lines| - 1], lines[|lines| - 1];
      NeededNext(lines, budget);
      assert Needed(front, budget) <= Needed(lines, budget);
      FittingLinesArrive(front, budget);
      var w := Fill(front, budget);
      NoneArrives(front, budget, w);
      AllArriveOneMore(front, last, budget, w);
      assert front + [last] == lines;
    }
  }

  // Without a total budget nothing is skipped or cut beyond the cap per line.
  lemma {:induction false} NoTotalDeliversAll(lines: seq<Line>, budget: Budget)
    requires budget.total == 0
    ensures var w := Fill(lines, budget);
      && (forall i :: 0 <= i < |lines| && lines[i].text != "" ==> i in w.picks)
      && |w.picks| == |w.placed|
      && (forall k :: 0 <= k < |w.picks| ==> w.picks[k] < |lines|)
      && (forall k :: 0 <= k < |w.picks| ==>
            w.placed[k] == if lines[w.picks[k]].exempt then lines[w.picks[k]].text else Capped(lines[w.picks[k]].text, budget))
  {
    FittingLinesArrive(lines, budget);
  }

  // ------------------------------------------------------------------
  // Below a line cut to fit
  // ------------------------------------------------------------------

  // The line does not fit what is left of the total, and is cut to it.
  predicate CutToFit(w: Walk, line: Line, budget: Budget) {
    && line.text != "" && !line.exempt && budget.total > 0
    && w.spent + |Capped(line.text, budget)| + Separator(w) > budget.total
    && budget.total - w.spent - Separator(w) >= MIN_TRUNCATED_RECALL_LINE_CHARS
  }

  // The characters of the total that rstrip gives back when it is.
  function Room(w: Walk, line: Line, budget: Budget): nat
    requires CutToFit(w, line, budget)
  {
    var keep := budget.total - w.spent - Separator(w) - |RECALL_LINE_TRUNCATION|;
    keep - |RStrip(Capped(line.text, budget)[..keep], budget.spaces)|
  }

  // A line that `room` characters take, whole or cut again; an exempt one needs none.
  predicate Takes(room: nat, line: Line, budget: Budget) {
    && line.text != ""
    && (line.exempt || |Capped(line.text, budget)| + 1 <= room || room > MIN_TRUNCATED_RECALL_LINE_CHARS)
  }

  lemma PlaceBelow(w: Walk, i: nat, line: Line, budget: Budget, room: nat)
    requires 0 < budget.total && w.spent + room == budget.total && w.placed != []
    ensures if Takes(room, line, budget) then |Place(w, i, line, budget).picks| > |w.picks| else Place(w, i, line, budget) == w
  {
  }

  lemma PlaceKeepsPicks(w: Walk, i: nat, line: Line, budget: Budget)
    ensures |Place(w, i, line, budget).picks| >= |w.picks|
  {
  }

  lemma PlaceCut(w: Walk, i: nat, line: Line, budget: Budget)
    requires CutToFit(w, line, budget)
    ensures var w' := Place(w, i, line, budget);
      w'.placed != [] && w'.spent + Room(w, line, budget) == budget.total && budget.total > 0
  {
    hide RStrip, CutOf, StripsTo, Capped;
  }

  // The lines below a cut one get nothing exactly when none of them takes the room left by the cut.
  lemma {:induction false} BelowACut(lines: seq<Line>, n: nat, budget: Budget)
    requires n < |lines| && CutToFit(Fill(lines[..n], budget), lines[n], budget)
    ensures var w, w' := Fill(lines[..n + 1], budget), Fill(lines, budget);
      var room := Room(Fill(lines[..n], budget), lines[n], budget);
      if forall k :: n < k < |lines| ==> !Takes(room, lines[k], budget) then w' == w else |w'.picks| > |w.picks|
  {
    hide Place, Room, Takes, CutToFit;
    var front, last := lines[..|lines| - 1], lines[|lines| - 1];
    if |lines| == n + 1 {
      assert lines[..n + 1] == lines;
      return;
    }
    assert front[..n] == lines[..n] && front[..n + 1] == lines[..n + 1];
    BelowACut(front, n, budget);
    assert lines[..n + 1][..n] == lines[..n];
    var room := Room(Fill(lines[..n], budget), lines[n], budget);
    PlaceCut(Fill(lines[..n], budget), n, lines[n], budget);
    PlaceKeepsPicks(Fill(front, budget), |lines| - 1, last, budget);
    if forall k :: n < k < |front| ==> !Takes(room, front[k], budget) {
      assert forall k :: n < k < |front| ==> lines[k] == front[k];
      PlaceBelow(Fill(front, budget), |lines| - 1, last, budget, room);
    } else {
      var k :| n < k < |front| && Takes(room, front[k], budget);
      assert Takes(room, lines[k], budget);
    }
  }

  // The promise that they get nothing, as an if-and-only-if over what is delivered.
  lemma {:induction false} NothingBelowACutIff(lines: seq<Line>, n: nat, budget: Budget)
    requires n < |lines| && CutToFit(Fill(lines[..n], budget), lines[n], budget)
    ensures var room := Room(Fill(lines[..n], budget), lines[n], budget);
      Fill(lines, budget).picks == Fill(lines[..n + 1], budget).picks <==>
      forall k :: n < k < |lines| ==> !Takes(room, lines[k], budget)
  {
    BelowACut(lines, n, budget);
  }
}
