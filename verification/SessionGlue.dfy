/**
 What removing session ids does to the other lines of a file: exactly when they stay as they are.

 A CRLF before a session id is left with its carriage return only, so the line it ended runs on into
 whatever line is kept next.
 */
module SessionGlue {
  import opened Options
  import opened ClientConfig
  import opened ClientText
  import opened SessionPass

  // ---------- Lines that run on ----------

  /** The rows from the first one on that is not doomed. */
  function Past(rows: seq<Row>): seq<Row> {
    if Doomed(rows) then Past(rows[1..]) else rows
  }

  /** The next row is empty and ends with a line feed, which makes a CRLF out of the carriage return. */
  predicate ClosesLine(rows: seq<Row>) {
    rows != [] && rows[0] == Row("", LF)
  }

  /** The first row is kept and runs on: it ends with CRLF, a session id follows, and what comes after
      that does not close the line. */
  predicate BreaksHere(rows: seq<Row>) {
    && rows != [] && !Doomed(rows)
    && rows[0].end == CRLF && Doomed(rows[1..]) && !ClosesLine(Past(rows[1..]))
  }

  predicate Breaks(rows: seq<Row>) {
    rows != [] && (BreaksHere(rows) || Breaks(rows[1..]))
  }

  // ---------- Splitting what is left ----------

  /** The lines after some text is put in front. */
  lemma SplitInFront(x: string, s: string)
    requires OneLine(x)
    ensures Split(x + s) ==
            [if s != "" && s[0] == '\n' then Healed(x) else x + Split(s)[0]] + Split(s)[1..]
  {
    hide Split, Healed, IndexOf;
    var n := IndexOf(s, '\n');
    IndexIs(x + s, '\n', |x| + n);
    hide OneLine;
    SplitFirst(s);
    SplitFirst(x + s);
    if n < |s| {
      assert (x + s)[|x| + n + 1..] == s[n + 1..] && (x + s)[..|x| + n] == x + s[..n];
      if n > 0 {
        HealedInFront(x, s[..n]);
      } else {
        assert x + "" == x;
      }
    }
  }

  lemma HealedInFront(x: string, y: string)
    requires y != ""
    ensures Healed(x + y) == x + Healed(y)
  {
    assert (x + y)[|x + y| - 1] == y[|y| - 1];
    assert (x + y)[..|x + y| - 1] == x + y[..|y| - 1];
  }

  lemma SplitAtEnd(x: string, newline: string, s: string)
    requires HasNoEnds(x) && IsNewline(newline)
    ensures Split(x + (newline + s)) == [x] + Split(s)
  {
    assert x + (newline + s) == x + newline + s;
    assert OneLine(x);
    FirstLine(x, newline, s);
    HealedReturn(x);
    hide IndexOf;
    assert x != "" ==> !IsTerminator(x[|x| - 1]);
  }

  /** What is left of the rows after a kept one begins with a line feed exactly when they close it. */
  lemma {:induction false} KeptCloses(rows: seq<Row>)
    requires rows == [] || IsFile(rows)
    ensures Kept(rows) != "" && Kept(rows)[0] == '\n' <==> ClosesLine(Past(rows))
  {
    if rows != [] {
      FileTail(rows);
      if Doomed(rows) {
        KeptCloses(rows[1..]);
      } else if rows[0].text != "" {
        RowIsPlain(rows);
        assert Kept(rows)[0] == rows[0].text[0];
      } else if |rows| > 1 {
        RowEnds(rows);
        assert Kept(rows)[0] == rows[0].end[0];
      } else {
        assert rows[0].end == "";
      }
    }
  }

  /** How the lines that are left begin. */
  lemma KeptLines(rows: seq<Row>)
    requires IsFile(rows) && !Doomed(rows)
    ensures var x, rest := rows[0].text, Kept(rows[1..]);
            Split(Kept(rows)) ==
            if |rows| == 1 then [x]
            else if BreaksHere(rows) then [x + "\r" + Split(rest)[0]] + Split(rest)[1..]
            else if rows[0].end == CRLF && Doomed(rows[1..]) then [x] + Split(rest)[1..]
            else [x] + Split(rest)
  {
    var x, rest := rows[0].text, Kept(rows[1..]);
    RowIsPlain(rows);
    FileTail(rows);
    KeptFirst(rows);
    hide Kept, Split, Doomed, IsFile;
    if |rows| == 1 {
      OneLineIsSplit(x);
    } else {
      RowEnds(rows);
      if rows[0].end == CRLF && Doomed(rows[1..]) {
        KeptCloses(rows[1..]);
        GlueIsSplit(x, rest);
      } else {
        SplitAtEnd(x, rows[0].end, rest);
      }
    }
  }

  lemma KeptFirst(rows: seq<Row>)
    requires IsFile(rows) && !Doomed(rows)
    ensures |rows| == 1 ==> Kept(rows) == rows[0].text
    ensures var end := if rows[0].end == CRLF && Doomed(rows[1..]) then "\r" else rows[0].end;
            Kept(rows) == rows[0].text + (end + Kept(rows[1..]))
  {
  }

  lemma GlueIsSplit(x: string, rest: string)
    requires HasNoEnds(x)
    ensures Split(x + ("\r" + rest)) ==
            [if rest != "" && rest[0] == '\n' then x else x + "\r" + Split(rest)[0]] + Split(rest)[1..]
  {
    assert x + ("\r" + rest) == (x + "\r") + rest;
    assert OneLine(x + "\r");
    hide Split;
    SplitInFront(x + "\r", rest);
    HealedReturn(x);
  }

  lemma OneLineIsSplit(x: string)
    requires HasNoEnds(x)
    ensures Split(x) == [x]
  {
    IndexIs(x, '\n', |x|);
  }

  lemma {:induction false} RenderLines(rows: seq<Row>)
    requires IsFile(rows)
    ensures Split(Render(rows)) == RowTexts(rows)
  {
    FileTail(rows);
    RowIsPlain(rows);
    var x := rows[0].text;
    if |rows| == 1 {
      assert Render(rows) == x;
      OneLineIsSplit(x);
    } else {
      RenderLines(rows[1..]);
      RowEnds(rows);
      hide Split, IsFile;
      SplitAtEnd(x, rows[0].end, Render(rows[1..]));
      assert RowTexts(rows) == [x] + RowTexts(rows[1..]);
    }
  }

  // ---------- What a line is ----------

  predicate IsWhite(line: Line) { line.Blank? || line.Space? }

  predicate IsSession(line: Line) { line.Pair? && line.key == SESSION_ID }

  /** Neither white lines nor session ids are selected. */
  ghost predicate Solid(p: (Section, Line) -> bool) {
    forall s, line :: IsWhite(line) || IsSession(line) ==> !p(s, line)
  }

  /** A line that the pattern matches, or would match with an equals sign after it. */
  predicate Looms(s: string) {
    var u := Skip(s);
    IsWord(u) && var v := Skip(u[9..]); v == "" || v[0] == '='
  }

  lemma WhiteClass(text: string)
    ensures IsWhite(Classify(text)) <==> Skip(text) == ""
  {
  }

  /** Trimming at the end takes white space only. */
  lemma {:induction false} SkipBackLeaves(s: string) returns (white: string)
    ensures s == SkipBack(s) + white && Skip(white) == ""
  {
    if s != "" && IsWhiteChar(s[|s| - 1]) {
      var n := |s| - 1;
      var before := SkipBackLeaves(s[..n]);
      white := before + [s[n]];
      SkipJoins(before, [s[n]]);
      assert s == s[..n] + [s[n]];
    } else {
      white := "";
    }
  }

  /** A text cut into white space, the key, white space, and an equals sign with what follows. */
  predicate IsCut(a: string, word: string, b: string, z: string) {
    Skip(a) == "" && |word| == 9 && IsWord(word) && Skip(b) == "" && z != "" && z[0] == '='
  }

  lemma CutStarts(a: string, word: string, b: string, z: string)
    requires IsCut(a, word, b, z)
    ensures Starts(a + (word + (b + z)))
  {
    var tail := b + z;
    WordHasNoEquals(word);
    SkipJoins(a, word + tail);
    assert Skip(word + tail) == word + tail;
    assert (word + tail)[..9] == word[..9] && (word + tail)[9..] == tail;
    SkipJoins(b, z);
  }

  /** What is read as a session id is matched by the pattern. */
  lemma SessionStarts(text: string)
    requires IsSession(Classify(text))
    ensures Starts(text)
  {
    hide IndexOf, Skip, SkipBack, Starts, Classify, IsSession, IsWord, Lower;
    SessionKey(text);
    var n := IndexOf(text, '=');
    var front, z := text[..n], text[n..];
    var a := SkipCuts(front);
    var b := SkipBackLeaves(Skip(front));
    var word := Trim(front);
    assert text == front + z && front == a + (word + b);
    assert text == a + (word + (b + z));
    CutStarts(a, word, b, z);
  }

  lemma SessionKey(text: string)
    requires IsSession(Classify(text))
    ensures IndexOf(text, '=') < |text| && |KeyOf(text)| == 9 && IsWord(KeyOf(text))
  {
    hide IndexOf, Skip, KeyOf, IsTitle;
    assert |SESSION_ID| == 9;
    assert KeyOf(text)[..9] == KeyOf(text);
  }

  /** And where the pattern starts, the text can be cut so. */
  lemma StartsIsCut(text: string) returns (a: string, word: string, b: string, z: string)
    requires Starts(text)
    ensures IsCut(a, word, b, z) && text == a + (word + (b + z))
  {
    var u := Skip(text);
    word, z := u[..9], Skip(u[9..]);
    a := SkipCuts(text);
    b := SkipCuts(u[9..]);
    assert word[..9] == word && u == word + u[9..];
  }

  /** A line that the pattern matches is read as a session id. */
  lemma SessionClass(text: string)
    requires Starts(text)
    ensures IsSession(Classify(text))
  {
    hide Starts, Skip, SkipBack, IndexOf, IsWord, Lower;
    var a, word, b, z := StartsIsCut(text);
    var front := a + word + b;
    assert text == front + z;
    FirstEquals(a, word, b);
    IndexIs(text, '=', |front|);
    assert text[..|front|] == front;
    KeyIsWord(a, word, b);
    WordIsInFront(a, word, b + z);
  }

  /** Neither white nor a header, and read in lower case as the key. */
  lemma WordIsInFront(a: string, word: string, tail: string)
    requires Skip(a) == "" && |word| == 9 && IsWord(word)
    ensures Skip(a + (word + tail)) != "" && !IsTitle(a + (word + tail)) && Lower(word) == SESSION_ID
  {
    SkipJoins(a, word + tail);
    WordHasNoEquals(word);
    WordIsNoBracket(word);
    assert Skip(word + tail) == word + tail;
    assert word[..9] == word;
  }

  lemma FirstEquals(a: string, word: string, b: string)
    requires Skip(a) == "" && |word| == 9 && IsWord(word) && Skip(b) == ""
    ensures forall k :: 0 <= k < |a + word + b| ==> (a + word + b)[k] != '='
  {
    WordHasNoEquals(word);
    forall k | 0 <= k < |a + word + b| ensures (a + word + b)[k] != '=' {
      if k < |a| {
        WhiteChars(a, k);
      } else if k >= |a| + 9 {
        WhiteChars(b, k - |a| - 9);
      }
    }
  }

  lemma {:induction false} SkipCuts(s: string) returns (white: string)
    ensures s == white + Skip(s) && Skip(white) == ""
  {
    if s != "" && IsWhiteChar(s[0]) {
      var after := SkipCuts(s[1..]);
      white := [s[0]] + after;
      assert white[1..] == after;
    } else {
      white := "";
    }
  }

  lemma {:induction false} WhiteChars(s: string, k: nat)
    requires Skip(s) == "" && k < |s|
    ensures IsWhiteChar(s[k])
  {
    if k > 0 {
      WhiteChars(s[1..], k - 1);
    }
  }

  lemma WordHasNoEquals(u: string)
    requires IsWord(u)
    ensures forall k :: 0 <= k < 9 ==> u[k] != '=' && !IsWhiteChar(u[k])
  {
    forall k | 0 <= k < 9 ensures u[k] != '=' && !IsWhiteChar(u[k]) {
      assert Lower(u[..9])[k] == LowerChar(u[k]) == SESSION_ID[k];
    }
  }

  lemma WordIsNoBracket(u: string)
    requires IsWord(u)
    ensures u[0] != '['
  {
    assert Lower(u[..9])[0] == LowerChar(u[0]) == SESSION_ID[0];
  }

  lemma {:induction false} SkipBackWhite(s: string, white: string)
    requires s != "" && !IsWhiteChar(s[|s| - 1]) && Skip(white) == ""
    ensures SkipBack(s + white) == s
  {
    if white == "" {
      assert s + white == s;
    } else {
      var n := |white| - 1;
      WhiteChars(white, n);
      assert white == white[..n] + [white[n]];
      SkipJoins(white[..n], [white[n]]);
      assert (s + white)[..|s + white| - 1] == s + white[..n];
      SkipBackWhite(s, white[..n]);
    }
  }

  lemma KeyIsWord(a: string, word: string, b: string)
    requires Skip(a) == "" && Skip(b) == "" && |word| == 9 && IsWord(word)
    ensures Trim(a + word + b) == word
  {
    WordHasNoEquals(word);
    assert a + word + b == a + (word + b);
    SkipJoins(a, word + b);
    assert Skip(word + b) == word + b;
    SkipBackWhite(word, b);
  }

  // ---------- Exactly when the other lines stay ----------

  lemma ClassifiedFirst(x: string, texts: seq<string>)
    ensures Classified([x] + texts) == [Classify(x)] + Classified(texts)
  {
    hide Classify;
  }

  lemma SelectCons(s: Section, x: Line, rest: seq<Line>, p: (Section, Line) -> bool)
    ensures Select(s, [x] + rest, p) == (if p(s, x) then [(s, x)] else []) + Select(After(s, x), rest, p)
  {
    SelectFirst(s, [x] + rest, p);
    assert ([x] + rest)[1..] == rest;
  }

  /** What `p` selects of the rows of a file. */
  function OfRows(s: Section, rows: seq<Row>, p: (Section, Line) -> bool): seq<(Section, Line)> {
    Select(s, Classified(RowTexts(rows)), p)
  }

  /** What `p` selects of what is left of them. */
  function OfKept(s: Section, rows: seq<Row>, p: (Section, Line) -> bool): seq<(Section, Line)> {
    Select(s, Parse(Kept(rows)), p)
  }

  lemma FirstRow(s: Section, rows: seq<Row>, p: (Section, Line) -> bool)
    requires rows != []
    ensures var x := Classify(rows[0].text);
            OfRows(s, rows, p) == (if p(s, x) then [(s, x)] else []) + OfRows(After(s, x), rows[1..], p)
  {
    hide Classify, Select;
    assert RowTexts(rows) == [rows[0].text] + RowTexts(rows[1..]);
    ClassifiedFirst(rows[0].text, RowTexts(rows[1..]));
    SelectCons(s, Classify(rows[0].text), Classified(RowTexts(rows[1..])), p);
  }

  /** A doomed row is not selected, and neither is what is left of it. */
  lemma DoomedStep(s: Section, rows: seq<Row>, p: (Section, Line) -> bool)
    requires Doomed(rows) && Solid(p)
    ensures OfRows(s, rows, p) == OfRows(s, rows[1..], p) && OfKept(s, rows, p) == OfKept(s, rows[1..], p)
  {
    var text := rows[0].text;
    FirstRow(s, rows, p);
    WhiteClass(text);
    if IsSessionRow(rows[0]) {
      SessionClass(text);
    }
    hide Classify, OfRows, Select, Starts;
    assert [] + OfRows(s, rows[1..], p) == OfRows(s, rows[1..], p);
  }

  /** The end of the file. */
  lemma NothingLeft(s: Section, p: (Section, Line) -> bool)
    requires Solid(p)
    ensures OfRows(s, [], p) == [] && OfKept(s, [], p) == []
  {
    assert Split("") == [""];
    assert Parse("") == [Blank];
    assert IsWhite(Blank);
    assert Select(s, [Blank][..0], p) == [];
  }

  /** A line that runs on into nothing starts with a blank line. */
  lemma ClosedIsBlank(s: Section, rest: string, p: (Section, Line) -> bool)
    requires rest != "" && rest[0] == '\n' && Solid(p)
    ensures Select(s, Classified(Split(rest)[1..]), p) == Select(s, Parse(rest), p)
  {
    SplitFirst(rest);
    IndexIs(rest, '\n', 0);
    var tail := Split(rest)[1..];
    assert Split(rest) == [""] + tail;
    hide Split, Select, Solid;
    ClassifiedFirst("", tail);
    SelectCons(s, Blank, Classified(tail), p);
    assert !p(s, Blank) by {
      BlankIsNotSelected(s, p);
    }
    assert [] + Select(s, Classified(tail), p) == Select(s, Classified(tail), p);
  }

  lemma BlankIsNotSelected(s: Section, p: (Section, Line) -> bool)
    requires Solid(p)
    ensures !p(s, Blank)
  {
    assert IsWhite(Blank);
  }

  /** What is selected of a line and of the lines after it. */
  lemma LineStep(s: Section, text: string, texts: seq<string>, p: (Section, Line) -> bool)
    ensures var x := Classify(text);
            Select(s, Classified([text] + texts), p) ==
            (if p(s, x) then [(s, x)] else []) + Select(After(s, x), Classified(texts), p)
  {
    hide Select, Classify;
    ClassifiedFirst(text, texts);
    SelectCons(s, Classify(text), Classified(texts), p);
  }

  /** A row that is kept and does not run on is selected alike. */
  lemma {:induction false} KeptStep(s: Section, rows: seq<Row>, p: (Section, Line) -> bool)
    requires IsFile(rows) && !Doomed(rows) && !BreaksHere(rows) && Solid(p)
    ensures var x := Classify(rows[0].text);
            OfKept(s, rows, p) == (if p(s, x) then [(s, x)] else []) + OfKept(After(s, x), rows[1..], p)
  {
    assert rows != [];
    hide Split, Kept, Select, Classify, Classified, Solid, IsFile, Past, Doomed, ClosesLine;
    var text, rest := rows[0].text, Kept(rows[1..]);
    var after := After(s, Classify(text));
    KeptLines(rows);
    if |rows| == 1 {
      assert rows[1..] == [];
      NothingLeft(after, p);
      LineStep(s, text, [], p);
      NoneSelected(after, p);
    } else if rows[0].end == CRLF && Doomed(rows[1..]) {
      FileTail(rows);
      KeptCloses(rows[1..]);
      LineStep(s, text, Split(rest)[1..], p);
      ClosedIsBlank(after, rest, p);
    } else {
      LineStep(s, text, Split(rest), p);
    }
  }

  lemma NoneSelected(s: Section, p: (Section, Line) -> bool)
    ensures Select(s, Classified([]), p) == []
  {
    assert Classified([]) == [];
  }

  /** Where no line runs on, every solid line stays as it is, in its section. */
  lemma {:induction false} KeptKeeps(s: Section, rows: seq<Row>, p: (Section, Line) -> bool)
    requires rows == [] || IsFile(rows)
    requires Solid(p) && !Breaks(rows)
    ensures OfKept(s, rows, p) == OfRows(s, rows, p)
    decreases |rows|
  {
    hide OfKept, OfRows, Classify, Solid, BreaksHere;
    if rows == [] {
      NothingLeft(s, p);
    } else {
      FileTail(rows);
      hide IsFile;
      if Doomed(rows) {
        DoomedStep(s, rows, p);
        KeptKeeps(s, rows[1..], p);
      } else {
        var after := After(s, Classify(rows[0].text));
        KeptStep(s, rows, p);
        FirstRow(s, rows, p);
        KeptKeeps(after, rows[1..], p);
      }
    }
  }

  function AllSolid(): (Section, Line) -> bool {
    (_, line) => !IsWhite(line) && !IsSession(line)
  }

  /** A line that is neither white nor matched by the pattern is solid. */
  lemma IsSolid(x: string)
    requires Skip(x) != "" && !Starts(x)
    ensures AllSolid()(None, Classify(x))
  {
    hide Starts;
    WhiteClass(x);
    if IsSession(Classify(x)) {
      SessionStarts(x);
    }
    hide Classify;
  }

  /** A line that runs on is still solid, and another line. */
  lemma GluedIsSolid(x: string, y: string)
    requires IsPlain(x) && Skip(x) != "" && !Starts(x)
    ensures AllSolid()(None, Classify(x)) && AllSolid()(None, Classify(x + "\r" + y))
    ensures Classify(x) != Classify(x + "\r" + y)
  {
    hide Starts, Classify, AllSolid;
    var glued := x + "\r" + y;
    assert glued == x + ("\r" + y);
    SkipJoins(x, "\r" + y);
    hide Skip, Dangles;
    StartsBefore(x, "\r" + y);
    IsSolid(x);
    IsSolid(glued);
    assert TextOf(Classify(x)) == x && TextOf(Classify(glued)) == glued;
  }

  /** Where the first row runs on, its line is not the first solid one any more. */
  lemma GluedIsFirst(s: Section, rows: seq<Row>)
    requires IsFile(rows) && BreaksHere(rows)
    ensures !(OfRows(s, rows, AllSolid()) <= OfKept(s, rows, AllSolid()))
  {
    var x, rest, p := rows[0].text, Kept(rows[1..]), AllSolid();
    var glued := x + "\r" + Split(rest)[0];
    assert IsPlain(x);
    GluedIsSolid(x, Split(rest)[0]);
    KeptLines(rows);
    FirstRow(s, rows, p);
    hide Split, Kept, Select, Classify, OfRows;
    ClassifiedFirst(glued, Split(rest)[1..]);
    SelectCons(s, Classify(glued), Classified(Split(rest)[1..]), p);
    assert OfRows(s, rows, p)[0] == (s, Classify(x)) && OfKept(s, rows, p)[0] == (s, Classify(glued));
  }

  /** Where some line runs on, not all solid lines stay. */
  lemma {:induction false} BreakingChanges(s: Section, rows: seq<Row>)
    requires IsFile(rows) && Breaks(rows)
    ensures !(OfRows(s, rows, AllSolid()) <= OfKept(s, rows, AllSolid()))
    decreases |rows|
  {
    hide OfKept, OfRows, Classify;
    if BreaksHere(rows) {
      GluedIsFirst(s, rows);
    } else {
      FileTail(rows);
      hide IsFile, BreaksHere;
      assert Solid(AllSolid());
      if Doomed(rows) {
        DoomedStep(s, rows, AllSolid());
        BreakingChanges(s, rows[1..]);
      } else {
        var x := Classify(rows[0].text);
        KeptStep(s, rows, AllSolid());
        FirstRow(s, rows, AllSolid());
        BreakingChanges(After(s, x), rows[1..]);
        var head := if AllSolid()(s, x) then [(s, x)] else [];
        SamePrefix(head, OfRows(After(s, x), rows[1..], AllSolid()), OfKept(After(s, x), rows[1..], AllSolid()));
      }
    }
  }

  lemma SamePrefix<T>(head: seq<T>, a: seq<T>, b: seq<T>)
    ensures head + a <= head + b <==> a <= b
  {
    assert (head + a)[|head|..] == a && (head + b)[|head|..] == b;
    if head + a <= head + b {
      assert head + a == (head + b)[..|head + a|];
      assert a == b[..|a|];
    }
  }

  /** Removing session ids keeps every solid line, with its text, its section and its place in the
      order, exactly when no line runs on. */
  lemma RemovingKeepsExactlyWhen(rows: seq<Row>)
    requires IsFile(rows)
    ensures (forall p: (Section, Line) -> bool :: Solid(p) ==>
               Select(None, Parse(Replaced(true, Render(rows))), p) == Select(None, Parse(Render(rows)), p)) <==>
            !Breaks(rows)
  {
    ReplacedIsKept(rows);
    RenderLines(rows);
    hide Breaks, Replaced, Render, Kept, IsFile, Select, Classified;
    if Breaks(rows) {
      BreakingChanges(None, rows);
      assert Solid(AllSolid());
    } else {
      forall p: (Section, Line) -> bool | Solid(p)
        ensures Select(None, Parse(Replaced(true, Render(rows))), p) == Select(None, Parse(Render(rows)), p)
      {
        KeptKeeps(None, rows, p);
      }
    }
  }

  /** In a file whose lines end with line feeds no line runs on. */
  lemma {:induction false} LineFeedsNeverBreak(rows: seq<Row>)
    requires forall i :: 0 <= i < |rows| ==> rows[i].end != CRLF
    ensures !Breaks(rows)
  {
    if rows != [] {
      LineFeedsNeverBreak(rows[1..]);
    }
  }

  /** Before a session id there are only white lines and session ids. */
  ghost predicate LeadingOnly(rows: seq<Row>) {
    forall i, j :: 0 <= i < j < |rows| && IsSessionRow(rows[j]) ==> IsSessionRow(rows[i]) || IsWhiteRow(rows[i])
  }

  lemma {:induction false} DoomedHasSession(rows: seq<Row>) returns (j: nat)
    requires Doomed(rows)
    ensures j < |rows| && IsSessionRow(rows[j])
  {
    if IsSessionRow(rows[0]) {
      j := 0;
    } else {
      var i := DoomedHasSession(rows[1..]);
      j := i + 1;
    }
  }

  lemma {:induction false} LeadingIsDoomed(rows: seq<Row>, j: nat)
    requires j < |rows| && IsSessionRow(rows[j])
    requires forall i :: 0 <= i < j ==> IsSessionRow(rows[i]) || IsWhiteRow(rows[i])
    ensures Doomed(rows)
  {
    hide IsSessionRow, IsWhiteRow;
    if !IsSessionRow(rows[0]) {
      assert rows[1..][j - 1] == rows[j];
      LeadingIsDoomed(rows[1..], j - 1);
    }
  }

  lemma {:induction false} NeverCloses(rows: seq<Row>)
    requires forall i :: 0 <= i < |rows| ==> rows[i].end != LF
    ensures !ClosesLine(Past(rows))
  {
    if Doomed(rows) {
      NeverCloses(rows[1..]);
    }
  }

  predicate IsSolidRow(r: Row) { !IsSessionRow(r) && !IsWhiteRow(r) }

  ghost predicate HasSessionRow(rows: seq<Row>) {
    exists j :: 0 <= j < |rows| && IsSessionRow(rows[j])
  }

  lemma LeadingStep(rows: seq<Row>)
    requires rows != []
    ensures LeadingOnly(rows) <==> LeadingOnly(rows[1..]) && (IsSolidRow(rows[0]) ==> !HasSessionRow(rows[1..]))
  {
    hide IsSessionRow, IsWhiteRow;
    var rest := rows[1..];
    assert forall i :: 0 <= i < |rest| ==> rest[i] == rows[i + 1];
    if LeadingOnly(rest) && (IsSolidRow(rows[0]) ==> !HasSessionRow(rest)) {
      forall i, j | 0 <= i < j < |rows| && IsSessionRow(rows[j]) ensures IsSessionRow(rows[i]) || IsWhiteRow(rows[i]) {
        assert rest[j - 1] == rows[j] && (i > 0 ==> rest[i - 1] == rows[i]);
      }
    }
  }

  /** A session id with nothing solid before it dooms the first row. */
  lemma {:induction false} LeadingDooms(rows: seq<Row>)
    requires LeadingOnly(rows)
    ensures Doomed(rows) <==> HasSessionRow(rows)
  {
    hide IsSessionRow, IsWhiteRow;
    if Doomed(rows) {
      var j := DoomedHasSession(rows);
    }
    if HasSessionRow(rows) {
      var j :| 0 <= j < |rows| && IsSessionRow(rows[j]);
      LeadingIsDoomed(rows, j);
    }
  }

  /** In a file whose lines end with CRLF no line runs on exactly when session ids stand at the front
      only. */
  lemma {:induction false} ReturnsBreakExactlyWhen(rows: seq<Row>)
    requires forall i :: 0 <= i < |rows| ==> rows[i].end == if i < |rows| - 1 then CRLF else ""
    ensures !Breaks(rows) <==> LeadingOnly(rows)
  {
    hide IsSessionRow, IsWhiteRow, Past, LeadingOnly;
    if rows == [] {
      NothingLeads();
    } else {
      var rest := rows[1..];
      ReturnsBreakExactlyWhen(rest);
      NeverCloses(rest);
      LeadingStep(rows);
      if LeadingOnly(rest) {
        LeadingDooms(rest);
      }
    }
  }

  lemma NothingLeads()
    ensures LeadingOnly([])
  {
  }

  // ---------- White lines before a session id ----------

  lemma {:induction false} WhiteRun(white: seq<Row>, x: Row, b: seq<Row>)
    requires IsSessionRow(x) && forall r :: r in white ==> IsWhiteRow(r)
    ensures Doomed(white + [x] + b) && Kept(white + [x] + b) == Kept(b)
  {
    hide IsSessionRow, IsWhiteRow;
    if white == [] {
      assert ([] + [x] + b)[1..] == b;
    } else {
      assert (white + [x] + b)[1..] == white[1..] + [x] + b;
      WhiteRun(white[1..], x, b);
    }
  }

  lemma SameFirst(s: seq<Row>, t: seq<Row>)
    requires s != [] && t != [] && s[0] == t[0]
    requires (Doomed(s[1..]) <==> Doomed(t[1..])) && Kept(s[1..]) == Kept(t[1..])
    ensures (Doomed(s) <==> Doomed(t)) && Kept(s) == Kept(t)
  {
    hide IsSessionRow, IsWhiteRow;
  }

  lemma {:induction false} WhiteMakesNoDifference(a: seq<Row>, white: seq<Row>, x: Row, b: seq<Row>)
    requires IsSessionRow(x) && forall r :: r in white ==> IsWhiteRow(r)
    ensures Doomed(a + white + [x] + b) <==> Doomed(a + [x] + b)
    ensures Kept(a + white + [x] + b) == Kept(a + [x] + b)
  {
    hide IsSessionRow, IsWhiteRow, Doomed, Kept;
    var s, t := a + white + [x] + b, a + [x] + b;
    if a == [] {
      assert s == white + [x] + b && t == [] + [x] + b;
      WhiteRun(white, x, b);
      WhiteRun([], x, b);
    } else {
      assert s[1..] == a[1..] + white + [x] + b && t[1..] == a[1..] + [x] + b;
      WhiteMakesNoDifference(a[1..], white, x, b);
      SameFirst(s, t);
    }
  }

  /** Wherever a session id stands, and in whatever section, the white lines right before it make no
      difference: they go with it. */
  lemma WhiteGoesWithTheSession(a: seq<Row>, white: seq<Row>, x: Row, b: seq<Row>)
    requires IsSessionRow(x) && forall r :: r in white ==> IsWhiteRow(r)
    requires IsFile(a + white + [x] + b) && IsFile(a + [x] + b)
    ensures Replaced(true, Render(a + white + [x] + b)) == Replaced(true, Render(a + [x] + b))
  {
    hide IsSessionRow, IsWhiteRow, IsFile, Replaced, Render, Kept;
    ReplacedIsKept(a + white + [x] + b);
    ReplacedIsKept(a + [x] + b);
    WhiteMakesNoDifference(a, white, x, b);
  }

  // ---------- No session id is left ----------

  /** The pattern matches nowhere. */
  predicate Quiet(start: bool, s: string)
    decreases |s|
  {
    s == "" || (!(start && Starts(s)) && Quiet(IsTerminator(s[0]), s[1..]))
  }

  lemma {:induction false} QuietStays(start: bool, s: string)
    requires Quiet(start, s)
    ensures Replaced(start, s) == s
    decreases |s|
  {
    hide Starts;
    if s != "" {
      QuietStays(IsTerminator(s[0]), s[1..]);
    }
  }

  /** Nor would it match if other lines followed. */
  predicate Calm(start: bool, s: string)
    decreases |s|
  {
    s == "" || (!(start && Looms(s)) && Calm(IsTerminator(s[0]), s[1..]))
  }

  lemma LoomsMeans(s: string)
    ensures Looms(s) <==> Starts(s) || Dangles(s)
    ensures Skip(s) == "" ==> !Looms(s)
  {
  }

  lemma LoomsBefore(text: string, w: string)
    requires Skip(text) != "" && IsTail(w) && !Looms(text)
    ensures !Looms(text + w)
  {
    hide IsWord, Skip, IsTail;
    SkipJoins(text, w);
    var u := Skip(text);
    WordBefore(u, w);
    if IsWord(u + w) {
      NineFirst(u);
      assert (u + w)[9..] == u[9..] + w;
      SkipJoins(u[9..], w);
    }
  }

  lemma LoomsAfter(white: string, s: string)
    requires Skip(white) == ""
    ensures Looms(white + s) <==> Looms(s)
  {
    SkipJoins(white, s);
  }

  lemma {:induction false} PlainIsCalm(start: bool, text: string)
    requires HasNoEnds(text) && (start ==> !Looms(text))
    ensures Calm(start, text)
  {
    hide Looms;
    if text != "" {
      assert HasNoEnds(text[1..]);
      PlainIsCalm(false, text[1..]);
    }
  }

  /** Calm text before a line end and quiet text. */
  lemma {:induction false} CalmBefore(start: bool, u: string, w: string)
    requires Calm(start, u) && IsTail(w) && !Starts(w) && Quiet(true, w)
    ensures Quiet(start, u + w)
    decreases |u|
  {
    hide Starts, Looms, Skip;
    if u == "" {
      assert u + w == w;
    } else {
      assert (u + w)[1..] == u[1..] + w;
      CalmBefore(IsTerminator(u[0]), u[1..], w);
      if start {
        LoomsMeans(u);
        if Skip(u) == "" {
          StartsAfter(u, w);
        } else {
          StartsBefore(u, w);
        }
      }
    }
  }

  lemma QuietAfterEnd(newline: string, s: string)
    requires IsNewline(newline) && Quiet(true, s)
    ensures Quiet(true, newline + s) && !Starts(newline + s)
  {
    EndIsWhite(LF);
    EndIsWhite(CRLF);
    WhiteIsNoSession("");
    hide Starts, Skip;
    StartsAfter(LF, s);
    StartsAfter(CRLF, s);
    assert (LF + s)[1..] == s && (CRLF + s)[1..] == LF + s;
  }

  lemma {:induction false} JoinIsQuiet(texts: seq<string>, newline: string)
    requires texts != [] && IsNewline(newline) && forall x :: x in texts ==> Calm(true, x)
    ensures Quiet(true, Join(texts, newline))
  {
    hide Calm, Quiet, Starts, IsNewline;
    assert Calm(true, texts[0]);
    if |texts| == 1 {
      EmptyIsQuiet();
      CalmBefore(true, texts[0], "");
      assert texts[0] + "" == texts[0];
    } else {
      var rest := Join(texts[1..], newline);
      JoinIsQuiet(texts[1..], newline);
      QuietAfterEnd(newline, rest);
      EndIsTail(newline, rest);
      CalmBefore(true, texts[0], newline + rest);
      assert texts[0] + (newline + rest) == texts[0] + newline + rest;
    }
  }

  lemma EmptyIsQuiet()
    ensures Quiet(true, "") && !Starts("")
  {
  }

  lemma EndIsTail(newline: string, rest: string)
    requires IsNewline(newline)
    ensures IsTail(newline + rest)
  {
  }

  lemma {:induction false} CalmGlue(start: bool, u: string, v: string)
    requires Calm(start, u) && Calm(true, v)
    ensures Calm(start, u + ("\r" + v))
    decreases |u|
  {
    hide Looms, Skip;
    var w := "\r" + v;
    assert w[1..] == v;
    ReturnIsWhite();
    LoomsAfter("\r", v);
    LoomsMeans("");
    EmptySkips();
    if u == "" {
      assert u + w == w;
    } else {
      assert (u + w)[1..] == u[1..] + w;
      CalmGlue(IsTerminator(u[0]), u[1..], v);
      if start {
        if Skip(u) == "" {
          LoomsAfter(u, w);
        } else {
          LoomsBefore(u, w);
        }
      }
    }
  }

  lemma ReturnIsWhite()
    ensures Skip("\r") == ""
  {
  }

  lemma EmptySkips()
    ensures Skip("") == ""
  {
  }

  lemma {:induction false} CalmWithoutReturn(start: bool, s: string)
    requires Calm(start, s + "\r")
    ensures Calm(start, s)
    decreases |s|
  {
    hide Looms;
    if s != "" {
      assert (s + "\r")[1..] == s[1..] + "\r";
      CalmWithoutReturn(IsTerminator(s[0]), s[1..]);
      LoomsWithReturn(s);
    }
  }

  lemma LoomsWithReturn(s: string)
    ensures Looms(s) ==> Looms(s + "\r")
  {
    hide IsWord, Skip;
    if Looms(s) {
      SkipJoins(s, "\r");
      var u := Skip(s);
      NineFirst(u);
      WordIsNotEmpty(u);
      WordBefore(u, "\r");
      assert (u + "\r")[9..] == u[9..] + "\r";
      SkipJoins(u[9..], "\r");
      ReturnIsWhite();
    }
  }

  /** A calm line, and if it is white no carriage return is at its end. */
  predicate Settled(text: string) {
    Calm(true, text) && (Skip(text) == "" ==> !EndsWithReturn(text))
  }

  lemma HealedIsSettled(text: string)
    requires Settled(text)
    ensures Settled(Healed(text))
  {
    if EndsWithReturn(text) {
      assert text == Healed(text) + "\r";
      hide Calm;
      CalmWithoutReturn(true, Healed(text));
      SkipJoins(Healed(text), "\r");
    }
  }

  lemma PlainIsSettled(text: string)
    requires IsPlain(text) && !Starts(text)
    ensures Settled(text)
  {
    LoomsMeans(text);
    assert text != "" ==> !IsTerminator(text[|text| - 1]);
    hide Looms, Calm;
    PlainIsCalm(true, text);
  }

  /** A settled line is no session id. */
  lemma SettledIsNoSession(text: string)
    requires Settled(text)
    ensures !IsSession(Classify(text))
  {
    hide IsSession, Classify, Starts;
    LoomsMeans(text);
    if IsSession(Classify(text)) {
      SessionStarts(text);
      EmptyIsQuiet();
    }
  }

  lemma GluedIsSettled(x: string, y: string)
    requires Settled(x) && Skip(x) != "" && Settled(y)
    ensures Settled(x + "\r" + y)
  {
    assert x + "\r" + y == x + ("\r" + y);
    hide Calm;
    CalmGlue(true, x, y);
    SkipJoins(x, "\r" + y);
  }

  /** Every line that is left is settled. */
  lemma {:induction false} KeptIsSettled(rows: seq<Row>)
    requires rows == [] || IsFile(rows)
    ensures forall x :: x in Split(Kept(rows)) ==> Settled(x)
  {
    if rows == [] {
      NothingIsSettled();
    } else {
      FileTail(rows);
      KeptIsSettled(rows[1..]);
      if !Doomed(rows) {
        var text, rest := rows[0].text, Kept(rows[1..]);
        KeptLines(rows);
        assert IsPlain(text);
        hide Settled, Split, Kept, IsPlain, Starts, IsFile;
        PlainIsSettled(text);
        if BreaksHere(rows) {
          GluedIsSettled(text, Split(rest)[0]);
        }
      }
    }
  }

  lemma NothingIsSettled()
    ensures forall x :: x in Split("") ==> Settled(x)
  {
  }
}
