/** A run of recall, from two rows of a sound table, in which the line below one cut to fit is delivered. */
module CutLine {
  import opened Wrappers
  import opened CureModel
  import opened CureInvariants
  import opened RecallFill
  import opened CureRecall

  function Blanks(n: nat): (r: string)
    ensures |r| == n && forall k :: 0 <= k < n ==> r[k] == ' '
  {
    if n == 0 then "" else Blanks(n - 1) + " "
  }

  lemma {:induction false} RStripsBlanks(text: string, n: nat, spaces: iset<char>)
    requires ' ' in spaces && text != "" && text[|text| - 1] !in spaces
    ensures RStrip(text + Blanks(n), spaces) == text
  {
    var s := text + Blanks(n);
    if n > 0 {
      assert s[..|s| - 1] == text + Blanks(n - 1);
      RStripsBlanks(text, n - 1, spaces);
    } else {
      assert s == text;
    }
  }

  // A line cut 27 characters into a run of blanks leaves room for a line of 18.
  lemma {:induction false} CutInBlanks(head: string, lines: seq<Line>, spaces: iset<char>)
    requires |head| == 18 && head[17] !in spaces && ' ' in spaces
    requires |lines| == 2 && lines[0] == Line(head + Blanks(60) + "b", false) && !lines[1].exempt && |lines[1].text| == 18
    ensures Fill(lines, Budget(0, 60, spaces)).picks == [0, 1]
  {
    hide CutOf, StripsTo;
    var budget, start := Budget(0, 60, spaces), Walk([], [], 0);
    assert lines[..0] == [] && lines[..1][..0] == [];
    assert lines[0].text[..45] == head + Blanks(27);
    RStripsBlanks(head, 27, spaces);
    assert CutToFit(start, lines[0], budget) && Room(start, lines[0], budget) == 27;
    PlaceCut(start, 0, lines[0], budget);
    assert Fill(lines[..1], budget) == Place(start, 0, lines[0], budget);
    assert Fill(lines, budget) == Place(Fill(lines[..1], budget), 1, lines[1], budget);
  }

  function Note(id: nat, key: string, value: string, at: int): Memory {
    Memory(Some(id), Slot("u", None, "t", key), value, Attributes(1.0, false, None), Approved, [], None, at)
  }

  // The newer row has a run of blanks inside its value.
  function Notes(): seq<Memory> {
    [Note(1, "k", "a" + Blanks(60) + "b", 1), Note(2, "j", "v", 0)]
  }

  // Both rows match the query's only word.
  ghost function Setting(session: string, spaces: iset<char>): Config {
    Config("u", None, session, None, 2, Budget(0, 60, spaces), "memories", iset m | m in Notes() :: ("x", "t", m.slot.key, m.value))
  }

  lemma {:induction false} NoteLine(hit: Hit, id: nat, key: char, value: string, at: int, session: string)
    requires hit.memory == Note(id, [key], value, at)
    ensures LineOf(hit, session) == Line("- [t:general] " + [key] + ": " + value, false)
  {
    var general := "- [" + "t" + ":" + "general" + "" + "] ";
    assert general == "- [t:general] ";
    assert RenderLine(hit.memory) == general + [key] + ": " + value;
  }

  lemma {:induction false} NotesAreSound()
    ensures Sound(Db(Notes(), []))
  {
  }

  lemma {:induction false} NotesAreHits(session: string, spaces: iset<char>)
    ensures Selected(Notes(), ["x"], Setting(session, spaces)) == [Hit(1, Notes()[0]), Hit(1, Notes()[1])]
  {
    var rows, config := Notes(), Setting(session, spaces);
    NotesAreListed(config);
    hide ListMemories;
    assert rows[0] in rows && rows[1] in rows && ["x"][..0] == [];
    assert forall m :: m in rows ==> Score(m, ["x"], config.occurs) == 1;
    assert rows[..1] == [rows[0]] && rows[..1][..0] == [];
    var hits := [Hit(1, rows[0]), Hit(1, rows[1])];
    assert Scored(rows, ["x"], config.occurs) == hits;
    hide Scored, Listed, Notes;
    TwoHits(hits);
  }

  lemma {:induction false} TwoHits(hits: seq<Hit>)
    requires |hits| == 2 && hits[0].score == hits[1].score
    ensures Ranked(hits) == hits && Floored(hits, None) == hits
  {
    assert hits[1..] == [hits[1]] && hits[1..][1..] == [];
    assert Ranked(hits[1..]) == [hits[1]];
    assert Rank(hits[0], [hits[1]]) == hits;
    assert hits[..1] == [hits[0]] && hits[..1][..0] == [];
    assert Floored(hits[..1], None) == [hits[0]];
  }

  // The bridge lists the newer row first.
  lemma {:induction false} NotesAreListed(config: Config)
    requires config.user == "u" && config.project.None?
    ensures Listed(Notes(), config) == Notes()
  {
    var rows := Notes();
    var keep := Where(config.user, config.project, Some(Approved), None, None);
    assert rows[1..] == [rows[1]] && rows[1..][1..] == [];
    assert Select(rows[1..], keep) == rows[1..];
    assert Select(rows, keep) == rows;
    assert NewestFirst(rows[1..]) == rows[1..];
  }

  lemma Regroup(a: string, b: string, c: string, d: string)
    ensures a + (b + c + d) == (a + b) + c + d
  {
  }

  lemma {:induction false} BothRecalled(rows: seq<Memory>, query: Query, config: Config)
    requires |Selected(rows, query, config)| == 2
    requires Fill(LinesOf(Selected(rows, query, config), config.session), config.budget).picks == [0, 1]
    ensures FreshRecall(rows, query, config).Some?
    ensures var hits := Selected(rows, query, config);
      FreshRecall(rows, query, config).value.memories == [hits[0].memory, hits[1].memory]
  {
    hide Selected, Fill, LineOf;
  }

  // The first line does not fit the total and is cut inside its blanks; what the cut gives back takes
  // the second line whole, and both rows are delivered.
  lemma {:induction false} LineBelowACutIsDelivered(session: string, spaces: iset<char>)
    requires ' ' in spaces && 'a' !in spaces
    ensures Sound(Db(Notes(), []))
    ensures var config := Setting(session, spaces);
      var lines := LinesOf(Selected(Notes(), ["x"], config), session);
      && |lines| == 2 && CutToFit(Fill(lines[..0], config.budget), lines[0], config.budget)
      && FreshRecall(Notes(), ["x"], config).Some? && FreshRecall(Notes(), ["x"], config).value.memories == Notes()
  {
    NotesAreSound();
    NotesAreHits(session, spaces);
    var config := Setting(session, spaces);
    var hits := Selected(Notes(), ["x"], config);
    var long := "a" + Blanks(60) + "b";
    NoteLine(hits[0], 1, 'k', long, 1, session);
    NoteLine(hits[1], 2, 'j', "v", 0, session);
    assert [hits[0].memory, hits[1].memory] == Notes();
    hide Selected, RStrip, Blanks, LineOf, Notes, Sound, FreshRecall;
    var lead := "- [t:general] " + ['k'] + ": ";
    Regroup(lead, "a", Blanks(60), "b");
    var lines := LinesOf(hits, session);
    CutInBlanks(lead + "a", lines, spaces);
    assert lines[..0] == [];
    BothRecalled(Notes(), ["x"], config);
  }
}
