/**
 One directive of the client configuration, line by line (electron/services/client-config.ts:14-65).

 A file is a nonempty list of lines, each already read for what it is. A file whose text ends with a
 newline has a last line that is blank; names of sections and keys are folded to lower case.
 */
module ClientConfig {
  import opened Options

  datatype Line =
    | Blank
    | Space(text: string)
    | Header(section: string, text: string)
    | Pair(key: string, text: string)
    | Other(text: string)

  type Section = Option<string>

  /** A key of a section, or of the root, and the line that sets it. `title` is the section header. */
  datatype Directive = Directive(section: Section, title: string, key: string, text: string)

  const SESSION_ID: string := "sessionid"

  // ---------- Sections and selections ----------

  function After(section: Section, line: Line): Section {
    if line.Header? then Some(line.section) else section
  }

  /** The section in force after some lines that start in section `s`. */
  function SectionAfter(s: Section, lines: seq<Line>): Section {
    if lines == [] then s else After(SectionAfter(s, lines[..|lines| - 1]), lines[|lines| - 1])
  }

  /** The lines that satisfy `p`, each with the section it is in, in order. A header is in the section
      before it. */
  function Select(s: Section, lines: seq<Line>, p: (Section, Line) -> bool): seq<(Section, Line)> {
    if lines == [] then
      []
    else
      var init, line := lines[..|lines| - 1], lines[|lines| - 1];
      var section := SectionAfter(s, init);
      Select(s, init, p) + if p(section, line) then [(section, line)] else []
  }

  lemma {:induction false} SectionJoins(s: Section, a: seq<Line>, b: seq<Line>)
    ensures SectionAfter(s, a + b) == SectionAfter(SectionAfter(s, a), b)
  {
    if b == [] {
      assert a + b == a;
    } else {
      SectionJoins(s, a, b[..|b| - 1]);
      assert (a + b)[..|a + b| - 1] == a + b[..|b| - 1];
    }
  }

  lemma {:induction false} SelectJoins(s: Section, a: seq<Line>, b: seq<Line>, p: (Section, Line) -> bool)
    ensures Select(s, a + b, p) == Select(s, a, p) + Select(SectionAfter(s, a), b, p)
  {
    if b == [] {
      assert a + b == a;
    } else {
      var init := b[..|b| - 1];
      SelectJoins(s, a, init, p);
      SectionJoins(s, a, init);
      assert (a + b)[..|a + b| - 1] == a + init;
    }
  }

  lemma SelectAppends(s: Section, a: seq<Line>, x: Line, p: (Section, Line) -> bool)
    ensures SectionAfter(s, a + [x]) == After(SectionAfter(s, a), x)
    ensures Select(s, a + [x], p) ==
            Select(s, a, p) + if p(SectionAfter(s, a), x) then [(SectionAfter(s, a), x)] else []
  {
    assert (a + [x])[..|a|] == a;
  }

  /** A selection can be read from the front as well. */
  lemma SelectFirst(s: Section, lines: seq<Line>, p: (Section, Line) -> bool)
    requires lines != []
    ensures Select(s, lines, p) ==
            (if p(s, lines[0]) then [(s, lines[0])] else []) + Select(After(s, lines[0]), lines[1..], p)
    ensures SectionAfter(s, lines) == SectionAfter(After(s, lines[0]), lines[1..])
  {
    SelectAppends(s, [], lines[0], p);
    assert [] + [lines[0]] == [lines[0]];
    SelectJoins(s, [lines[0]], lines[1..], p);
    SectionJoins(s, [lines[0]], lines[1..]);
    assert [lines[0]] + lines[1..] == lines;
  }

  /** No blank line is selected. */
  ghost predicate NoBlanks(p: (Section, Line) -> bool) {
    forall s :: !p(s, Blank)
  }

  // ---------- One directive ----------

  predicate Hits(d: Directive, section: Section, line: Line) {
    line.Pair? && line.key == d.key && section == d.section
  }

  function Hit(d: Directive): (Section, Line) -> bool {
    (section, line) => Hits(d, section, line)
  }

  function LineOf(d: Directive): Line { Pair(d.key, d.text) }

  predicate Found(lines: seq<Line>, d: Directive) {
    Select(None, lines, Hit(d)) != []
  }

  /** The first line of the directive is rewritten; later ones are blanked. */
  function Rewritten(lines: seq<Line>, d: Directive): (r: seq<Line>)
    ensures |r| == |lines|
  {
    if lines == [] then
      []
    else
      var init, line := lines[..|lines| - 1], lines[|lines| - 1];
      Rewritten(init, d) +
      [if !Hits(d, SectionAfter(None, init), line) then line else if Found(init, d) then Blank else LineOf(d)]
  }

  /** The first header of section `name`, or of any section when there is no name. */
  function HeaderAt(lines: seq<Line>, name: Section): (i: nat)
    ensures IsHeaderAt(lines, name, i)
  {
    if lines == [] || Heads(lines[0], name) then 0 else 1 + HeaderAt(lines[1..], name)
  }

  predicate Heads(line: Line, name: Section) {
    line.Header? && (name == None || name == Some(line.section))
  }

  predicate IsHeaderAt(lines: seq<Line>, name: Section, i: nat) {
    i <= |lines| && (i < |lines| ==> Heads(lines[i], name)) && forall j :: 0 <= j < i ==> !Heads(lines[j], name)
  }

  lemma HeaderIs(lines: seq<Line>, name: Section, i: nat)
    requires IsHeaderAt(lines, name, i)
    ensures HeaderAt(lines, name) == i
  {
    var k := HeaderAt(lines, name);
    assert !(k < i) && !(i < k);
  }

  /** Where a new line of the directive goes: before the first section, or at the end of its own. */
  function Place(lines: seq<Line>, d: Directive): (i: nat)
    requires d.section == None || HeaderAt(lines, d.section) < |lines|
    ensures i <= |lines|
  {
    if d.section == None then HeaderAt(lines, None)
    else
      var h := HeaderAt(lines, d.section);
      h + 1 + HeaderAt(lines[h + 1..], None)
  }

  function Placed(lines: seq<Line>, d: Directive): seq<Line> {
    if Found(lines, d) then
      Rewritten(lines, d)
    else if Opens(lines, d) then
      lines + (if lines != [] && lines[|lines| - 1] != Blank then [Blank] else []) + [HeaderOf(d), LineOf(d)]
    else
      lines[..Place(lines, d)] + [LineOf(d)] + lines[Place(lines, d)..]
  }

  /** The section of the directive is missing. */
  predicate Opens(lines: seq<Line>, d: Directive) {
    d.section != None && HeaderAt(lines, d.section) == |lines|
  }

  function HeaderOf(d: Directive): Line
    requires d.section != None
  {
    Header(d.section.value, d.title)
  }

  /** Runs of blank lines become one. */
  function Squeezed(lines: seq<Line>): seq<Line> {
    if lines == [] then
      []
    else
      var n := |lines| - 1;
      Squeezed(lines[..n]) + if lines[n] == Blank && n > 0 && lines[n - 1] == Blank then [] else [lines[n]]
  }

  predicate HasTrailing(file: seq<Line>) {
    |file| >= 2 && file[|file| - 1] == Blank
  }

  function Body(file: seq<Line>): seq<Line> {
    if HasTrailing(file) then file[..|file| - 1] else file
  }

  function Upsert(file: seq<Line>, d: Directive): seq<Line> {
    Squeezed(Placed(Body(file), d)) + if HasTrailing(file) then [Blank] else []
  }

  // ---------- What one directive changes ----------

  lemma {:induction false} RewritingSection(lines: seq<Line>, d: Directive)
    ensures SectionAfter(None, Rewritten(lines, d)) == SectionAfter(None, lines)
  {
    if lines != [] {
      RewritingSection(lines[..|lines| - 1], d);
    }
  }

  /** Rewriting leaves all other lines alone, in their sections. */
  lemma {:induction false} RewritingKeeps(lines: seq<Line>, d: Directive, p: (Section, Line) -> bool)
    requires NoBlanks(p) && forall s, line :: Hits(d, s, line) ==> !p(s, line)
    ensures Select(None, Rewritten(lines, d), p) == Select(None, lines, p)
  {
    if lines != [] {
      var init := lines[..|lines| - 1];
      RewritingKeeps(init, d, p);
      RewritingSection(init, d);
      assert Hits(d, d.section, LineOf(d));
    }
  }

  /** And leaves one line of the directive. */
  lemma {:induction false} RewritingSets(lines: seq<Line>, d: Directive)
    ensures Select(None, Rewritten(lines, d), Hit(d)) == if Found(lines, d) then [(d.section, LineOf(d))] else []
  {
    if lines != [] {
      var init := lines[..|lines| - 1];
      RewritingSets(init, d);
      RewritingSection(init, d);
    }
  }

  lemma {:induction false} SqueezingKeeps(s: Section, lines: seq<Line>, p: (Section, Line) -> bool)
    requires NoBlanks(p)
    ensures SectionAfter(s, Squeezed(lines)) == SectionAfter(s, lines)
    ensures Select(s, Squeezed(lines), p) == Select(s, lines, p)
  {
    if lines != [] {
      var n := |lines| - 1;
      SqueezingKeeps(s, lines[..n], p);
      SelectAppends(s, Squeezed(lines[..n]), lines[n], p);
      assert Squeezed(lines[..n]) + [] == Squeezed(lines[..n]);
    }
  }

  /** A line that leaves the section as it is can go anywhere: no other line changes its section. */
  lemma InsertingKeeps(a: seq<Line>, b: seq<Line>, x: Line, p: (Section, Line) -> bool)
    requires !x.Header?
    ensures var section := SectionAfter(None, a);
            Select(None, a + [x] + b, p) ==
            Select(None, a, p) + (if p(section, x) then [(section, x)] else []) + Select(section, b, p)
    ensures Select(None, a + b, p) == Select(None, a, p) + Select(SectionAfter(None, a), b, p)
  {
    SelectAppends(None, a, x, p);
    SelectJoins(None, a, b, p);
    hide Select, SectionAfter;
    SelectJoins(None, a + [x], b, p);
  }

  lemma InsertingAt(lines: seq<Line>, i: nat, x: Line, p: (Section, Line) -> bool)
    requires i <= |lines| && !x.Header?
    ensures var section := SectionAfter(None, lines[..i]);
            Select(None, lines[..i] + [x] + lines[i..], p) ==
            Select(None, lines[..i], p) + (if p(section, x) then [(section, x)] else []) +
            Select(section, lines[i..], p)
    ensures Select(None, lines, p) ==
            Select(None, lines[..i], p) + Select(SectionAfter(None, lines[..i]), lines[i..], p)
  {
    hide Select, SectionAfter;
    var a, b := lines[..i], lines[i..];
    assert a + b == lines;
    InsertingKeeps(a, b, x, p);
  }

  /** Without headers the section stays the same. */
  lemma {:induction false} SameSection(s: Section, lines: seq<Line>)
    requires forall j :: 0 <= j < |lines| ==> !lines[j].Header?
    ensures SectionAfter(s, lines) == s
  {
    if lines != [] {
      SameSection(s, lines[..|lines| - 1]);
    }
  }

  /** The place for a new line is in the section of its directive. */
  lemma PlaceIsInSection(lines: seq<Line>, d: Directive)
    requires !Opens(lines, d)
    ensures SectionAfter(None, lines[..Place(lines, d)]) == d.section
  {
    if d.section == None {
      SameSection(None, lines[..Place(lines, d)]);
    } else {
      var h := HeaderAt(lines, d.section);
      EndOfSection(lines, h, HeaderAt(lines[h + 1..], None));
    }
  }

  lemma EndOfSection(lines: seq<Line>, h: nat, n: nat)
    requires h < |lines| && lines[h].Header? && IsHeaderAt(lines[h + 1..], None, n)
    ensures SectionAfter(None, lines[..h + 1 + n]) == Some(lines[h].section)
  {
    var a, b := lines[..h] + [lines[h]], lines[h + 1..][..n];
    assert SectionAfter(None, a) == Some(lines[h].section) by {
      assert a[..h] == lines[..h];
    }
    SameSection(Some(lines[h].section), b);
    assert lines[..h + 1 + n] == a + b;
    hide SectionAfter;
    SectionJoins(None, a, b);
  }

  /** What a directive adds to the lines selected by `p`: its header, when the section is missing. */
  function Opened(lines: seq<Line>, d: Directive, p: (Section, Line) -> bool): seq<(Section, Line)> {
    var section := SectionAfter(None, lines);
    if !Found(lines, d) && Opens(lines, d) && p(section, HeaderOf(d)) then [(section, HeaderOf(d))] else []
  }

  lemma OpeningSelects(lines: seq<Line>, d: Directive, p: (Section, Line) -> bool)
    requires NoBlanks(p) && !Found(lines, d) && Opens(lines, d)
    ensures Select(None, Placed(lines, d), p) ==
            Select(None, lines, p) + Opened(lines, d, p) +
            if p(d.section, LineOf(d)) then [(d.section, LineOf(d))] else []
  {
    var gap := if lines != [] && lines[|lines| - 1] != Blank then [Blank] else [];
    var a := lines + gap;
    assert SectionAfter(None, a) == SectionAfter(None, lines) && Select(None, a, p) == Select(None, lines, p) by {
      SelectAppends(None, lines, Blank, p);
      assert lines + [] == lines;
    }
    SelectAppends(None, a, HeaderOf(d), p);
    SelectAppends(None, a + [HeaderOf(d)], LineOf(d), p);
    assert Placed(lines, d) == a + [HeaderOf(d)] + [LineOf(d)];
  }

  lemma PlacingKeeps(lines: seq<Line>, d: Directive, p: (Section, Line) -> bool)
    requires NoBlanks(p) && forall s, line :: Hits(d, s, line) ==> !p(s, line)
    ensures Select(None, Placed(lines, d), p) == Select(None, lines, p) + Opened(lines, d, p)
  {
    assert Hits(d, d.section, LineOf(d));
    if Found(lines, d) {
      RewritingKeeps(lines, d, p);
    } else if Opens(lines, d) {
      OpeningSelects(lines, d, p);
    } else {
      PlaceIsInSection(lines, d);
      InsertingAt(lines, Place(lines, d), LineOf(d), p);
    }
  }

  lemma PlacingSets(lines: seq<Line>, d: Directive)
    ensures Select(None, Placed(lines, d), Hit(d)) == [(d.section, LineOf(d))]
  {
    if Found(lines, d) {
      RewritingSets(lines, d);
    } else if Opens(lines, d) {
      OpeningSelects(lines, d, Hit(d));
    } else {
      PlaceIsInSection(lines, d);
      InsertingAt(lines, Place(lines, d), LineOf(d), Hit(d));
    }
  }

  /** A trailing blank line hides nothing. */
  lemma BodySelects(file: seq<Line>, p: (Section, Line) -> bool)
    requires NoBlanks(p)
    ensures Select(None, Body(file), p) == Select(None, file, p)
    ensures SectionAfter(None, Body(file)) == SectionAfter(None, file)
  {
  }

  /** Squeezing and the trailing newline change no selected line. */
  lemma UpsertSelects(file: seq<Line>, d: Directive, p: (Section, Line) -> bool)
    requires NoBlanks(p)
    ensures Select(None, Upsert(file, d), p) == Select(None, Placed(Body(file), d), p)
  {
    var r := Squeezed(Placed(Body(file), d));
    SqueezingKeeps(None, Placed(Body(file), d), p);
    hide Placed, Squeezed;
    SelectAppends(None, r, Blank, p);
    assert r + [] == r;
  }

  /** All other lines keep their text, their order and their section; at most the header of a missing
      section is added after them. */
  lemma UpsertKeepsOthers(file: seq<Line>, d: Directive, p: (Section, Line) -> bool)
    requires NoBlanks(p) && forall s, line :: Hits(d, s, line) ==> !p(s, line)
    ensures Select(None, Upsert(file, d), p) == Select(None, file, p) + Opened(Body(file), d, p)
  {
    UpsertSelects(file, d, p);
    PlacingKeeps(Body(file), d, p);
    BodySelects(file, p);
  }

  /** The directive then stands on one line of the file, with its value, in its section. */
  lemma UpsertEstablishes(file: seq<Line>, d: Directive)
    ensures Established(Upsert(file, d), d)
  {
    UpsertSelects(file, d, Hit(d));
    PlacingSets(Body(file), d);
  }

  /** Exactly one line sets the directive, and to its value. */
  predicate Established(file: seq<Line>, d: Directive) {
    Select(None, file, Hit(d)) == [(d.section, LineOf(d))]
  }

  predicate Apart(d: Directive, e: Directive) {
    d.section != e.section || d.key != e.key
  }

  /** A later directive of another key or section keeps an earlier one. */
  lemma UpsertKeepsEstablished(file: seq<Line>, d: Directive, e: Directive)
    requires Established(file, e) && Apart(d, e)
    ensures Established(Upsert(file, d), e)
  {
    UpsertKeepsOthers(file, d, Hit(e));
  }

  // ---------- A second time ----------

  /** No two blank lines follow each other, but for the one that a final newline makes. */
  ghost predicate Tidy(file: seq<Line>) {
    NoRuns(Body(file))
  }

  ghost predicate NoRuns(lines: seq<Line>) {
    forall i :: 0 < i < |lines| ==> lines[i] != Blank || lines[i - 1] != Blank
  }

  lemma {:induction false} SqueezingTidies(lines: seq<Line>)
    ensures NoRuns(Squeezed(lines))
    ensures lines != [] ==> Squeezed(lines) != [] && Squeezed(lines)[|Squeezed(lines)| - 1] == lines[|lines| - 1]
  {
    if lines != [] {
      SqueezingTidies(lines[..|lines| - 1]);
    }
  }

  lemma {:induction false} SqueezingTidyChangesNothing(lines: seq<Line>)
    requires NoRuns(lines)
    ensures Squeezed(lines) == lines
  {
    if lines != [] {
      SqueezingTidyChangesNothing(lines[..|lines| - 1]);
    }
  }

  lemma UpsertTidies(file: seq<Line>, d: Directive)
    requires file != []
    ensures Upsert(file, d) != [] && Tidy(Upsert(file, d))
  {
    PlacedHasLines(Body(file), d);
    SqueezingTidies(Placed(Body(file), d));
    hide Placed, Squeezed;
    TrailingIsTidy(Squeezed(Placed(Body(file), d)), HasTrailing(file));
  }

  lemma PlacedHasLines(lines: seq<Line>, d: Directive)
    requires lines != []
    ensures Placed(lines, d) != []
  {
  }

  lemma TrailingIsTidy(lines: seq<Line>, trailing: bool)
    requires lines != [] && NoRuns(lines)
    ensures Tidy(lines + if trailing then [Blank] else [])
  {
    var file := lines + if trailing then [Blank] else [];
    if trailing {
      assert Body(file) == lines;
    } else {
      assert file == lines;
    }
  }

  lemma {:induction false} RewritingEstablishedChangesNothing(lines: seq<Line>, d: Directive)
    requires var hits := Select(None, lines, Hit(d)); hits == [] || hits == [(d.section, LineOf(d))]
    ensures Rewritten(lines, d) == lines
  {
    if lines != [] {
      var init, line := lines[..|lines| - 1], lines[|lines| - 1];
      var before := Select(None, init, Hit(d));
      if Hits(d, SectionAfter(None, init), line) {
        assert Select(None, lines, Hit(d)) == before + [(d.section, line)];
        assert (before + [(d.section, line)])[|before|] == (d.section, line);
        assert before == [];
      }
      RewritingEstablishedChangesNothing(init, d);
    }
  }

  lemma PlacingAgainChangesNothing(lines: seq<Line>, d: Directive)
    requires Established(lines, d)
    ensures Placed(lines, d) == lines
  {
    hide Select, Rewritten;
    RewritingEstablishedChangesNothing(lines, d);
  }

  lemma UpsertAgainChangesNothing(file: seq<Line>, d: Directive)
    requires Tidy(file) && Established(file, d)
    ensures Upsert(file, d) == file
  {
    hide Select, Placed, Squeezed;
    BodySelects(file, Hit(d));
    PlacingAgainChangesNothing(Body(file), d);
    SqueezingTidyChangesNothing(Body(file));
  }

  // ---------- The rewriting loops ----------

  /** The line that rewriting leaves at `i`. */
  function NewLine(body: seq<Line>, i: nat, d: Directive): Line
    requires i < |body|
  {
    if !Hits(d, SectionAfter(None, body[..i]), body[i]) then body[i]
    else if Found(body[..i], d) then Blank
    else LineOf(d)
  }

  lemma RewritingSteps(body: seq<Line>, i: nat, d: Directive)
    requires i < |body|
    ensures Rewritten(body[..i + 1], d) == Rewritten(body[..i], d) + [NewLine(body, i, d)]
    ensures SectionAfter(None, body[..i + 1]) == After(SectionAfter(None, body[..i]), body[i])
    ensures Found(body[..i + 1], d) <==> Found(body[..i], d) || Hits(d, SectionAfter(None, body[..i]), body[i])
  {
    assert body[..i + 1][..i] == body[..i];
  }

  lemma SetNext(done: seq<Line>, body: seq<Line>, i: nat, x: Line)
    requires |done| == i < |body|
    ensures (done + body[i..])[i := x] == (done + [x]) + body[i + 1..]
  {
  }

  method RewriteMatches(body: seq<Line>, d: Directive) returns (lines: seq<Line>, firstMatch: int)
    ensures lines == Rewritten(body, d)
    ensures firstMatch < 0 <==> !Found(body, d)
  {
    lines, firstMatch := body, -1;
    var currentSection: Section := None;
    var index: nat := 0;
    assert body[..0] == [] && Rewritten([], d) + body[0..] == body;
    hide Rewritten, Found, SectionAfter, Select;
    while index < |lines|
      invariant index <= |lines| == |body|
      invariant lines == Rewritten(body[..index], d) + body[index..]
      invariant currentSection == SectionAfter(None, body[..index])
      invariant firstMatch < 0 <==> !Found(body[..index], d)
    {
      RewritingSteps(body, index, d);
      SetNext(Rewritten(body[..index], d), body, index, NewLine(body, index, d));
      if lines[index].Header? {
        currentSection := Some(lines[index].section);
      } else if currentSection == d.section && lines[index].Pair? && lines[index].key == d.key {
        if firstMatch < 0 {
          lines := lines[index := LineOf(d)];
          firstMatch := index;
        } else {
          lines := lines[index := Blank];
        }
      }
      index := index + 1;
    }
    assert body[..index] == body;
  }

  method FindHeader(lines: seq<Line>, start: nat, name: Section) returns (index: nat)
    requires start <= |lines|
    ensures index == start + HeaderAt(lines[start..], name)
  {
    index := start;
    while index < |lines| && !Heads(lines[index], name)
      invariant start <= index <= |lines|
      invariant forall j :: start <= j < index ==> !Heads(lines[j], name)
    {
      index := index + 1;
    }
    HeaderIs(lines[start..], name, index - start);
  }

  method InsertLine(body: seq<Line>, d: Directive) returns (lines: seq<Line>)
    requires !Found(body, d)
    ensures lines == Placed(body, d)
  {
    hide HeaderAt, Found, Rewritten, Select;
    lines := body;
    assert body[0..] == body;
    if d.section == None {
      var insertAt := FindHeader(lines, 0, None);
      lines := lines[..insertAt] + [LineOf(d)] + lines[insertAt..];
    } else {
      var header := FindHeader(lines, 0, d.section);
      if header < |lines| {
        var insertAt := FindHeader(lines, header + 1, None);
        lines := lines[..insertAt] + [LineOf(d)] + lines[insertAt..];
      } else {
        if |lines| > 0 && lines[|lines| - 1] != Blank {
          lines := lines + [Blank];
        }
        lines := lines + [HeaderOf(d), LineOf(d)];
      }
    }
  }

  method FilterBlanks(lines: seq<Line>) returns (rendered: seq<Line>)
    ensures rendered == Squeezed(lines)
  {
    rendered := [];
    var index: nat := 0;
    while index < |lines|
      invariant index <= |lines|
      invariant rendered == Squeezed(lines[..index])
    {
      assert lines[..index + 1][..index] == lines[..index];
      if lines[index] != Blank || index == 0 || lines[index - 1] != Blank {
        rendered := rendered + [lines[index]];
      }
      index := index + 1;
    }
    assert lines[..index] == lines;
  }

  method UpsertIniDirective(config: seq<Line>, d: Directive) returns (r: seq<Line>)
    ensures r == Upsert(config, d)
  {
    var hadTrailingNewline := HasTrailing(config);
    var body := config;
    if hadTrailingNewline {
      body := body[..|body| - 1];
    }
    var lines, firstMatch := RewriteMatches(body, d);
    if firstMatch < 0 {
      RewritingNothing(body, d);
      lines := InsertLine(lines, d);
    }
    r := FilterBlanks(lines);
    if hadTrailingNewline {
      r := r + [Blank];
    }
  }

  lemma {:induction false} RewritingNothing(lines: seq<Line>, d: Directive)
    requires !Found(lines, d)
    ensures Rewritten(lines, d) == lines
  {
    RewritingEstablishedChangesNothing(lines, d);
  }
}
