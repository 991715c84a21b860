/**
 Synchronizing the client configuration from text to text: session ids go, and the launcher's directives
 come (electron/services/client-config.ts:67-96).
 */
module ClientSync {
  import opened Options
  import opened ClientConfig
  import opened ClientText
  import opened SessionPass
  import opened SessionGlue

  function Upserted(config: string, directives: seq<Directive>): string {
    if directives == [] then config
    else UpsertText(Upserted(config, directives[..|directives| - 1]), directives[|directives| - 1])
  }

  function Synchronized(config: string, directives: seq<Directive>): string {
    Upserted(Replaced(true, config), directives)
  }

  /** No two directives set the same key of a section, none sets a session id, and all are read as what
      they are. */
  ghost predicate Proper(directives: seq<Directive>) {
    && (forall i, j :: 0 <= i < j < |directives| ==> Apart(directives[i], directives[j]))
    && forall d :: d in directives ==> d.key != SESSION_ID && Fits(d)
  }

  // ---------- What line feeds take along ----------

  /** Lines of which some have lost a carriage return at their end. */
  ghost predicate AlikeLines(a: seq<Line>, b: seq<Line>) {
    && |a| == |b|
    && forall i :: 0 <= i < |a| ==> Alike(a[i], b[i]) && (a[i] == b[i] || EndsWithReturn(TextOf(a[i])))
  }

  lemma {:induction false} ResplitAt(texts: seq<string>, newline: string, i: nat)
    requires i < |texts|
    ensures var r := Resplit(texts, newline);
            r[i] == texts[i] || (newline == LF && i < |texts| - 1 && r[i] == Healed(texts[i]))
  {
    if |texts| > 1 && i > 0 {
      ResplitAt(texts[1..], newline, i - 1);
    }
  }

  lemma ResplitIsAlike(lines: seq<Line>, newline: string)
    requires forall x :: x in lines ==> Reads(x)
    ensures AlikeLines(lines, Classified(Resplit(Texts(lines), newline)))
  {
    var texts := Texts(lines);
    var after := Classified(Resplit(texts, newline));
    hide Classify, TextOf, Resplit, Alike;
    forall i | 0 <= i < |lines|
      ensures Alike(lines[i], after[i]) && (lines[i] == after[i] || EndsWithReturn(TextOf(lines[i])))
    {
      assert Reads(lines[i]);
      ResplitAt(texts, newline, i);
      SameIsAlike(lines[i]);
      HealedIsAlike(texts[i]);
    }
  }

  lemma SameIsAlike(x: Line)
    ensures Alike(x, x)
  {
  }

  lemma {:induction false} AlikeSelects(s: Section, a: seq<Line>, b: seq<Line>, e: Directive)
    requires AlikeLines(a, b) && HasNoEnds(e.text)
    requires forall x :: x in Select(s, a, Hit(e)) ==> x.1 == LineOf(e)
    ensures SectionAfter(s, b) == SectionAfter(s, a) && Select(s, b, Hit(e)) == Select(s, a, Hit(e))
    decreases |a|
  {
    if a != [] {
      var n := |a| - 1;
      assert AlikeLines(a[..n], b[..n]);
      SelectAppends(s, a[..n], a[n], Hit(e));
      SelectAppends(s, b[..n], b[n], Hit(e));
      assert a[..n] + [a[n]] == a && b[..n] + [b[n]] == b;
      hide Select, SectionAfter, AlikeLines;
      AlikeSelects(s, a[..n], b[..n], e);
      assert Alike(a[n], b[n]) && (a[n] == b[n] || EndsWithReturn(TextOf(a[n]))) by {
        AlikeLast(a, b);
      }
      var section := SectionAfter(s, a[..n]);
      if Hits(e, section, a[n]) {
        assert (section, a[n]) in Select(s, a, Hit(e));
        assert TextOf(a[n]) == e.text;
      }
    }
  }

  lemma AlikeLast(a: seq<Line>, b: seq<Line>)
    requires AlikeLines(a, b) && a != []
    ensures Alike(a[|a| - 1], b[|a| - 1])
    ensures a[|a| - 1] == b[|a| - 1] || EndsWithReturn(TextOf(a[|a| - 1]))
  {
  }

  lemma AlikeKeepsEstablished(a: seq<Line>, b: seq<Line>, e: Directive)
    requires AlikeLines(a, b) && HasNoEnds(e.text) && Established(a, e)
    ensures Established(b, e)
  {
    hide AlikeLines, Select;
    AlikeSelects(None, a, b, e);
  }

  // ---------- Every directive is established ----------

  lemma ProperLast(directives: seq<Directive>)
    requires directives != [] && Proper(directives)
    ensures var n := |directives| - 1;
            && Proper(directives[..n]) && Fits(directives[n]) && directives[n].key != SESSION_ID
            && forall e :: e in directives[..n] ==> Fits(e) && Apart(directives[n], e)
  {
    var n := |directives| - 1;
    hide Fits;
    forall e | e in directives[..n] ensures Fits(e) && Apart(directives[n], e) {
      var i :| 0 <= i < n && directives[i] == e;
      assert Apart(directives[i], directives[n]);
    }
    assert directives[n] in directives;
  }

  lemma {:induction false} UpsertedEstablishes(config: string, directives: seq<Directive>)
    requires Proper(directives)
    ensures forall d :: d in directives ==> Established(Parse(Upserted(config, directives)), d)
  {
    hide Proper, Parse, UpsertText, Upsert, Established, Fits;
    if directives != [] {
      var n := |directives| - 1;
      var before, d := Upserted(config, directives[..n]), directives[n];
      ProperLast(directives);
      UpsertedEstablishes(config, directives[..n]);
      UpsertEstablishes(Parse(before), d);
      RereadKeepsEstablished(before, d, d);
      forall e | e in directives[..n] ensures Established(Parse(UpsertText(before, d)), e) {
        UpsertKeepsEstablished(Parse(before), d, e);
        RereadKeepsEstablished(before, d, e);
      }
    }
  }

  lemma RereadKeepsEstablished(config: string, d: Directive, e: Directive)
    requires Fits(d) && Fits(e) && Established(Upsert(Parse(config), d), e)
    ensures Established(Parse(UpsertText(config, d)), e)
  {
    UpsertedLines(config, d);
    UpsertReads(config, d);
    assert Parse(UpsertText(config, d)) == Classified(Split(UpsertText(config, d)));
    hide Parse, Upsert, UpsertText, Established;
    ResplitIsAlike(Upsert(Parse(config), d), Newline(config));
    AlikeKeepsEstablished(Upsert(Parse(config), d), Parse(UpsertText(config, d)), e);
  }

  // ---------- No session id is left ----------

  ghost predicate AllSettled(config: string) {
    forall x :: x in Split(config) ==> Settled(x)
  }

  lemma {:induction false} AllSettledIsQuiet(config: string)
    requires AllSettled(config)
    ensures Quiet(true, config)
  {
    hide Split, IndexOf, Settled, Quiet, Healed, EndsWithReturn;
    var n := IndexOf(config, '\n');
    SplitFirst(config);
    assert Settled(Split(config)[0]);
    if n == |config| {
      LastIsQuiet(config);
    } else {
      var x, rest := Healed(config[..n]), config[n + 1..];
      assert Split(config)[1..] == Split(rest);
      AllSettledIsQuiet(rest);
      var newline := FirstEnd(config);
      LineIsQuiet(x, newline, rest);
    }
  }

  lemma LastIsQuiet(x: string)
    requires Settled(x)
    ensures Quiet(true, x)
  {
    hide Calm, Quiet, Starts, Skip;
    EmptyIsQuiet();
    CalmBefore(true, x, "");
    assert x + "" == x;
  }

  lemma LineIsQuiet(x: string, newline: string, rest: string)
    requires Settled(x) && IsNewline(newline) && Quiet(true, rest)
    ensures Quiet(true, x + (newline + rest))
  {
    hide Calm, Quiet, Starts, Skip, IsNewline;
    QuietAfterEnd(newline, rest);
    EndIsTail(newline, rest);
    CalmBefore(true, x, newline + rest);
  }

  lemma DanglesHasNoEquals(text: string)
    requires Dangles(text)
    ensures IndexOf(text, '=') == |text|
  {
    hide Skip, IndexOf, IsWord;
    var u := Skip(text);
    NineFirst(u);
    var word, z := u[..9], u[9..];
    var a := SkipCuts(text);
    assert Skip(z) == "" && u == word + z;
    WordOf(u);
    assert text == a + word + z;
    FirstEquals(a, word, z);
    IndexIs(text, '=', |text|);
  }

  lemma WordOf(u: string)
    requires IsWord(u)
    ensures |u| >= 9 && IsWord(u[..9])
  {
    assert u[..9][..9] == u[..9];
  }

  lemma LineIsSettled(d: Directive)
    requires Fits(d) && d.key != SESSION_ID
    ensures Settled(d.text)
  {
    hide Starts, Dangles, Calm, Looms, Skip;
    if Starts(d.text) {
      SessionClass(d.text);
    }
    if Dangles(d.text) {
      DanglesHasNoEquals(d.text);
    }
    LoomsMeans(d.text);
    PlainIsCalm(true, d.text);
    assert d.text != "" ==> !IsTerminator(d.text[|d.text| - 1]);
  }

  lemma TitleIsSettled(title: string)
    requires Classify(title).Header? && HasNoEnds(title)
    ensures Settled(title)
  {
    hide Calm;
    if IsWord(Skip(title)) {
      WordIsNoBracket(Skip(title));
    }
    PlainIsCalm(true, title);
  }

  lemma DirectiveIsSettled(d: Directive)
    requires Fits(d) && d.key != SESSION_ID
    ensures Settled(TextOf(Blank)) && Settled(TextOf(LineOf(d)))
    ensures d.section != None ==> Settled(TextOf(HeaderOf(d)))
  {
    LineIsSettled(d);
    NothingIsSettled();
    assert Split("") == [""];
    if d.section != None {
      TitleIsSettled(d.title);
    }
    hide Settled;
  }

  lemma UpsertStaysSettled(config: string, d: Directive)
    requires AllSettled(config) && Fits(d) && d.key != SESSION_ID
    ensures AllSettled(UpsertText(config, d))
    ensures forall x :: x in Upsert(Parse(config), d) ==> Settled(TextOf(x))
  {
    hide *;
    var lines := Upsert(Parse(config), d);
    var texts, after := Texts(lines), Split(UpsertText(config, d));
    UpsertHas(Parse(config), d);
    DirectiveIsSettled(d);
    UpsertedLines(config, d);
    forall x | x in lines ensures Settled(TextOf(x)) {
      if x in Parse(config) {
        ParsedText(config, x);
        SettledLine(config, TextOf(x));
      }
    }
    forall i | 0 <= i < |after| ensures Settled(after[i]) {
      ResplitAt(texts, Newline(config), i);
      assert lines[i] in lines;
      HealedIsSettled(texts[i]);
    }
    AllLinesSettled(UpsertText(config, d));
  }

  lemma SettledLine(config: string, x: string)
    requires AllSettled(config) && x in Split(config)
    ensures Settled(x)
  {
  }

  lemma AllLinesSettled(config: string)
    requires forall i :: 0 <= i < |Split(config)| ==> Settled(Split(config)[i])
    ensures AllSettled(config)
  {
    hide Settled, Split;
  }

  lemma ParsedText(config: string, x: Line)
    requires x in Parse(config)
    ensures TextOf(x) in Split(config)
  {
    var i :| 0 <= i < |Split(config)| && x == Classify(Split(config)[i]);
  }

  lemma {:induction false} UpsertedIsSettled(config: string, directives: seq<Directive>)
    requires AllSettled(config) && Proper(directives)
    ensures AllSettled(Upserted(config, directives))
  {
    hide AllSettled, UpsertText, Fits;
    if directives != [] {
      var n := |directives| - 1;
      assert directives[n] in directives;
      UpsertedIsSettled(config, directives[..n]);
      UpsertStaysSettled(Upserted(config, directives[..n]), directives[n]);
    }
  }

  ghost predicate HasSession(lines: seq<Line>) {
    exists line :: line in lines && IsSession(line)
  }

  lemma SettledHasNoSession(config: string)
    requires AllSettled(config)
    ensures !HasSession(Parse(config))
  {
    hide Settled;
    forall x | x in Parse(config) ensures !IsSession(x) {
      var i :| 0 <= i < |Split(config)| && x == Classify(Split(config)[i]);
      assert Split(config)[i] in Split(config);
      SettledIsNoSession(Split(config)[i]);
    }
  }

  lemma SynchronizedIsSettled(rows: seq<Row>, directives: seq<Directive>)
    requires IsFile(rows) && Proper(directives)
    ensures AllSettled(Synchronized(Render(rows), directives))
  {
    hide IsFile, Proper, Settled, Split, Kept, Upserted;
    ReplacedIsKept(rows);
    KeptIsSettled(rows);
    UpsertedIsSettled(Kept(rows), directives);
  }

  /** After synchronization each directive stands on exactly one line, in its section and with its
      value. No line is a session id, and the pattern matches nowhere, not even within a line. */
  lemma SynchronizationEstablishes(rows: seq<Row>, directives: seq<Directive>)
    requires IsFile(rows) && Proper(directives)
    ensures var after := Synchronized(Render(rows), directives);
            && (forall d :: d in directives ==> Established(Parse(after), d))
            && !HasSession(Parse(after)) && Quiet(true, after)
  {
    var after := Synchronized(Render(rows), directives);
    UpsertedEstablishes(Replaced(true, Render(rows)), directives);
    SynchronizedIsSettled(rows, directives);
    hide Synchronized, AllSettled, Quiet, Established;
    SettledHasNoSession(after);
    AllSettledIsQuiet(after);
  }

  // ---------- Exactly when all other lines stay ----------

  /** Lines that no directive sets. */
  ghost predicate Foreign(p: (Section, Line) -> bool, directives: seq<Directive>) {
    forall d, s, line :: d in directives && Hits(d, s, line) ==> !p(s, line)
  }

  /** `t` is `s` with some headers added at the end. */
  ghost predicate GainsHeaders(s: seq<(Section, Line)>, t: seq<(Section, Line)>) {
    s <= t && forall i :: |s| <= i < |t| ==> t[i].1.Header?
  }

  /** No line ends with a carriage return. */
  ghost predicate NoReturns(config: string) {
    forall x :: x in Split(config) ==> !EndsWithReturn(x)
  }

  lemma {:induction false} ResplitExactly(texts: seq<string>, newline: string)
    requires newline != LF || forall x :: x in texts ==> !EndsWithReturn(x)
    ensures Resplit(texts, newline) == texts
  {
    if |texts| > 1 {
      ResplitExactly(texts[1..], newline);
    }
  }

  /** Where no line ends with a carriage return, what is written is read again. */
  lemma RereadsExactly(config: string, d: Directive)
    requires NoReturns(config) && Fits(d)
    ensures Parse(UpsertText(config, d)) == Upsert(Parse(config), d) && NoReturns(UpsertText(config, d))
  {
    var lines := Upsert(Parse(config), d);
    UpsertHas(Parse(config), d);
    UpsertReads(config, d);
    UpsertedLines(config, d);
    PlainHasNoReturn(d.text);
    PlainHasNoReturn(d.title);
    hide Upsert, UpsertText, Split, Parse;
    forall x | x in Texts(lines) ensures !EndsWithReturn(x) {
      var i :| 0 <= i < |lines| && x == TextOf(lines[i]);
      assert lines[i] in lines;
      if lines[i] in Parse(config) {
        ParsedText(config, lines[i]);
      }
    }
    ResplitExactly(Texts(lines), Newline(config));
    TextsAreRead(lines);
    ParseIs(UpsertText(config, d));
  }

  lemma PlainHasNoReturn(x: string)
    ensures HasNoEnds(x) ==> !EndsWithReturn(x)
  {
  }

  lemma ParseIs(s: string)
    ensures Parse(s) == Classified(Split(s))
  {
  }

  lemma TextsAreRead(lines: seq<Line>)
    requires forall x :: x in lines ==> Reads(x)
    ensures Classified(Texts(lines)) == lines
  {
    hide Classify, TextOf;
    forall i | 0 <= i < |lines| ensures Classify(TextOf(lines[i])) == lines[i] {
      assert Reads(lines[i]);
    }
  }

  lemma {:induction false} UpsertedKeepsOthers(config: string, directives: seq<Directive>,
                                               p: (Section, Line) -> bool)
    requires NoReturns(config) && Proper(directives) && NoBlanks(p) && Foreign(p, directives)
    ensures NoReturns(Upserted(config, directives))
    ensures GainsHeaders(Select(None, Parse(config), p), Select(None, Parse(Upserted(config, directives)), p))
  {
    hide NoReturns, Select, Parse, Fits, GainsHeaders, UpsertText;
    if directives == [] {
      GainsNothing(Select(None, Parse(config), p));
    } else {
      var n := |directives| - 1;
      var before, d := Upserted(config, directives[..n]), directives[n];
      assert d in directives;
      UpsertedKeepsOthers(config, directives[..n], p);
      RereadsExactly(before, d);
      ForeignToLast(directives, p);
      UpsertKeepsOthers(Parse(before), d, p);
      OpensOneHeader(Body(Parse(before)), d, p);
      hide Opened;
      GainsMore(Select(None, Parse(config), p), Select(None, Parse(before), p), Opened(Body(Parse(before)), d, p));
    }
  }

  lemma ForeignToLast(directives: seq<Directive>, p: (Section, Line) -> bool)
    requires directives != [] && Foreign(p, directives)
    ensures Foreign(p, directives[..|directives| - 1])
    ensures forall s, line :: Hits(directives[|directives| - 1], s, line) ==> !p(s, line)
  {
    assert directives[|directives| - 1] in directives;
  }

  lemma GainsNothing(s: seq<(Section, Line)>)
    ensures GainsHeaders(s, s)
  {
  }

  lemma OpensOneHeader(lines: seq<Line>, d: Directive, p: (Section, Line) -> bool)
    ensures forall x :: x in Opened(lines, d, p) ==> x.1.Header?
  {
    hide SectionAfter, Found;
  }

  lemma GainsMore(s: seq<(Section, Line)>, t: seq<(Section, Line)>, more: seq<(Section, Line)>)
    requires GainsHeaders(s, t) && forall x :: x in more ==> x.1.Header?
    ensures GainsHeaders(s, t + more)
  {
  }

  lemma SolidSkipsBlanks(p: (Section, Line) -> bool)
    requires Solid(p)
    ensures NoBlanks(p)
  {
    forall s ensures !p(s, Blank) {
      BlankIsNotSelected(s, p);
    }
  }

  /** Where no line runs on, no line that is left ends with a carriage return. */
  lemma {:induction false} KeptHasNoReturns(rows: seq<Row>)
    requires rows == [] || IsFile(rows)
    requires !Breaks(rows)
    ensures NoReturns(Kept(rows))
  {
    if rows == [] {
      assert Split("") == [""];
    } else {
      FileTail(rows);
      KeptHasNoReturns(rows[1..]);
      if !Doomed(rows) {
        KeptLines(rows);
        RowIsPlain(rows);
        PlainHasNoReturn(rows[0].text);
        hide Split, Kept, IsFile;
      }
    }
  }

  /** Where no line runs on, all other lines that are neither white nor session ids keep their text, order
      and section; only headers of missing sections are added, after them. */
  lemma SynchronizationKeepsOthers(rows: seq<Row>, directives: seq<Directive>, p: (Section, Line) -> bool)
    requires IsFile(rows) && Proper(directives) && Solid(p) && Foreign(p, directives) && !Breaks(rows)
    ensures KeepsOthers(Render(rows), directives, p)
  {
    hide IsFile, Proper, Foreign, Select, Parse, Upserted, Breaks;
    ReplacedIsKept(rows);
    KeptHasNoReturns(rows);
    SolidSkipsBlanks(p);
    UpsertedKeepsOthers(Kept(rows), directives, p);
    RemovingKeepsExactlyWhen(rows);
  }

  ghost predicate KeepsOthers(config: string, directives: seq<Directive>, p: (Section, Line) -> bool) {
    GainsHeaders(Select(None, Parse(config), p), Select(None, Parse(Synchronized(config, directives)), p))
  }

  /** Synchronization keeps all other lines, whatever the directives are, exactly when no line runs on: no
      line that ends with CRLF has a session id after it, but for one whose line is closed again. */
  lemma SynchronizationKeepsOthersExactlyWhen(rows: seq<Row>)
    requires IsFile(rows)
    ensures (forall directives: seq<Directive>, p: (Section, Line) -> bool ::
               Proper(directives) && Solid(p) && Foreign(p, directives) ==>
               KeepsOthers(Render(rows), directives, p)) <==>
            !Breaks(rows)
  {
    hide IsFile, KeepsOthers, Proper, Solid, Foreign;
    if Breaks(rows) {
      ReplacedIsKept(rows);
      RenderLines(rows);
      BreakingChanges(None, rows);
      NoDirectives(Render(rows));
      assert Proper([]) && Solid(AllSolid()) && Foreign(AllSolid(), []);
    } else {
      forall directives: seq<Directive>, p: (Section, Line) -> bool
        | Proper(directives) && Solid(p) && Foreign(p, directives)
        ensures KeepsOthers(Render(rows), directives, p)
      {
        SynchronizationKeepsOthers(rows, directives, p);
      }
    }
  }

  /** With no directives only the session ids go. */
  lemma NoDirectives(config: string)
    ensures Proper([]) && Solid(AllSolid()) && Foreign(AllSolid(), [])
    ensures KeepsOthers(config, [], AllSolid()) ==>
            Select(None, Parse(config), AllSolid()) <= Select(None, Parse(Replaced(true, config)), AllSolid())
  {
    hide Parse, Replaced, Select;
  }

  // ---------- A second time ----------

  /** Everything a synchronization would do has been done. */
  ghost predicate Done(config: string, directives: seq<Directive>) {
    && Tidy(Parse(config)) && Quiet(true, config)
    && forall d :: d in directives ==> Established(Parse(config), d)
  }

  ghost predicate SameBlanks(a: seq<Line>, b: seq<Line>) {
    |a| == |b| && forall i :: 0 <= i < |a| ==> a[i].Blank? == b[i].Blank?
  }

  lemma TidyAlike(a: seq<Line>, b: seq<Line>)
    requires Tidy(a) && SameBlanks(a, b)
    ensures Tidy(b)
  {
  }

  lemma HealedIsBlank(text: string)
    requires Settled(text)
    ensures Classify(text).Blank? == Classify(Healed(text)).Blank?
  {
    hide Calm, IsTitle;
    ReturnIsWhite();
  }

  /** What is written and read again is tidy. */
  lemma UpsertTextTidies(config: string, d: Directive)
    requires AllSettled(config) && Fits(d) && d.key != SESSION_ID
    ensures Tidy(Parse(UpsertText(config, d)))
  {
    var lines := Upsert(Parse(config), d);
    UpsertStaysSettled(config, d);
    UpsertReads(config, d);
    UpsertedLines(config, d);
    UpsertTidies(Parse(config), d);
    ParseIs(UpsertText(config, d));
    hide Upsert, Parse, UpsertText, Settled, Reads, Tidy, Resplit, Classify, TextOf;
    var texts := Texts(lines);
    var after := Classified(Resplit(texts, Newline(config)));
    forall i | 0 <= i < |lines| ensures lines[i].Blank? == after[i].Blank? {
      assert lines[i] in lines;
      ResplitAt(texts, Newline(config), i);
      ReadsIs(lines[i]);
      HealedIsBlank(texts[i]);
    }
    TidyAlike(lines, after);
  }

  lemma ReadsIs(x: Line)
    requires Reads(x)
    ensures x == Classify(TextOf(x))
  {
  }

  lemma SynchronizedIsDone(rows: seq<Row>, directives: seq<Directive>)
    requires IsFile(rows) && Proper(directives) && directives != []
    ensures Done(Synchronized(Render(rows), directives), directives)
  {
    var config, n := Replaced(true, Render(rows)), |directives| - 1;
    hide IsFile, Proper, Parse, Quiet, HasSession, Settled, Split, Kept, Tidy, Established, UpsertText, Render;
    SynchronizationEstablishes(rows, directives);
    ReplacedIsKept(rows);
    KeptIsSettled(rows);
    ProperLast(directives);
    UpsertedIsSettled(config, directives[..n]);
    UpsertTextTidies(Upserted(config, directives[..n]), directives[n]);
  }

  lemma SplitIsTexts(config: string)
    ensures Texts(Parse(config)) == Split(config)
  {
    hide Split, Classify, TextOf;
    ParseIs(config);
  }

  /** One directive that is established only rewrites the line ends. */
  lemma UpsertTextAgain(config: string, d: Directive)
    requires Tidy(Parse(config)) && Established(Parse(config), d)
    ensures UpsertText(config, d) == Join(Split(config), Newline(config))
  {
    hide Tidy, Established, Upsert, Parse, Split, Join;
    UpsertAgainChangesNothing(Parse(config), d);
    SplitIsTexts(config);
  }

  lemma RejoinedExactlyWhen(config: string)
    ensures Join(Split(config), Newline(config)) == config <==> Uniform(config)
  {
    hide Join, Split, HasEnd;
    JoinSplit(config, true);
    JoinSplit(config, false);
  }

  /** With one kind of line ends nothing at all changes. */
  lemma {:induction false} UniformStays(config: string, directives: seq<Directive>)
    requires Tidy(Parse(config)) && Uniform(config)
    requires forall d :: d in directives ==> Established(Parse(config), d)
    ensures Upserted(config, directives) == config
  {
    hide Tidy, Parse, Established, UpsertText, Uniform, Newline;
    if directives != [] {
      var n := |directives| - 1;
      UniformStays(config, directives[..n]);
      assert directives[n] in directives;
      UpsertTextAgain(config, directives[n]);
      RejoinedExactlyWhen(config);
    }
  }

  /** A text whose lines are joined with CRLF has the same lines, and one kind of line ends. */
  lemma JoinedIsUniform(config: string)
    ensures var joined := Join(Split(config), CRLF);
            Split(joined) == Split(config) && Uniform(joined)
  {
    var joined := Join(Split(config), CRLF);
    SplitIsOneLine(config);
    SplitJoin(Split(config), CRLF);
    ResplitExactly(Split(config), CRLF);
    hide Join, Split, HasEnd, Resplit;
    JoinSplit(joined, true);
  }

  /** With both kinds of line ends only these change: all become CRLF. */
  lemma {:induction false} MixedBecomesReturns(config: string, directives: seq<Directive>)
    requires Tidy(Parse(config)) && !Uniform(config) && directives != []
    requires forall d :: d in directives ==> Established(Parse(config), d)
    ensures Upserted(config, directives) == Join(Split(config), CRLF)
  {
    var joined, n := Join(Split(config), CRLF), |directives| - 1;
    JoinedIsUniform(config);
    ParseIs(config);
    ParseIs(joined);
    hide Tidy, Parse, Established, UpsertText, Join, Split, HasEnd;
    assert directives[n] in directives;
    if n == 0 {
      UpsertTextAgain(config, directives[n]);
    } else {
      MixedBecomesReturns(config, directives[..n]);
      UpsertTextAgain(joined, directives[n]);
      RejoinedExactlyWhen(joined);
    }
  }

  /** Synchronizing a second time changes nothing at all, exactly when the first time left one kind of line
      ends; otherwise it only makes them all CRLF. */
  lemma SynchronizationIsIdempotentExactlyWhen(rows: seq<Row>, directives: seq<Directive>)
    requires IsFile(rows) && Proper(directives) && directives != []
    ensures var once := Synchronized(Render(rows), directives);
            && (Synchronized(once, directives) == once <==> Uniform(once))
            && Synchronized(once, directives) == Join(Split(once), Newline(once))
  {
    var once := Synchronized(Render(rows), directives);
    SynchronizedIsDone(rows, directives);
    QuietStays(true, once);
    RejoinedExactlyWhen(once);
    hide IsFile, Proper, Parse, Quiet, Tidy, Established, Upserted, Replaced, Render, Split, Join, HasEnd;
    if Uniform(once) {
      UniformStays(once, directives);
    } else {
      MixedBecomesReturns(once, directives);
    }
  }
}
