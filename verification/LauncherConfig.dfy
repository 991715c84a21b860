/**
 The launcher's own synchronization of the client configuration (electron/services/client-config.ts:67-96):
 its directives, files with one kind of line ends, and the loops.
 */
module LauncherConfig {
  import opened Options
  import opened ClientConfig
  import opened ClientText
  import opened SessionPass
  import opened SessionGlue
  import opened ClientSync
  import opened ClientPlaces

  /** The seven directives of the launcher. */
  function Directives(servers: string, session: string, origin: string): seq<Directive> {
    [Directive(None, "", "server", "Server=" + servers),
     Directive(None, "", "steamgatewayurl", "SteamGatewayUrl=" + session),
     Directive(Some("ingamepurchase"), "[INGAMEPURCHASE]", "soeauthticketurl",
               "SoeAuthTicketUrl=" + origin + "/rest/client/session/create"),
     Directive(Some("commandqueue"), "[CommandQueue]", "motd_uri", "motd_uri=" + origin + "/"),
     Directive(Some("commandqueue"), "[CommandQueue]", "cb_uri", "cb_uri=" + origin + "/"),
     Directive(Some("commandqueue"), "[CommandQueue]", "eula_uri", "eula_uri=" + origin + "/"),
     Directive(Some("launchtelemetry"), "[LaunchTelemetry]", "url", "Url=" + origin + "/h1z1xx/live/")]
  }

  // ---------- Files with one kind of line ends ----------

  /** The text has no CRLF, but a carriage return at its end. */
  predicate Bare(config: string) {
    !HasEnd(config, true) && EndsWithReturn(Split(config)[|Split(config)| - 1])
  }

  lemma {:induction false} InnerLines(config: string)
    requires !HasEnd(config, true)
    ensures forall i :: 0 <= i < |Split(config)| - 1 ==> !EndsWithReturn(Split(config)[i])
  {
    hide IndexOf, EndsWithReturn, Split, HasEnd;
    var n := IndexOf(config, '\n');
    SplitFirst(config);
    HasEndFirst(config, true);
    if n < |config| {
      InnerLines(config[n + 1..]);
    }
  }

  lemma {:induction false} SeveralLines(config: string)
    ensures |Split(config)| > 1 <==> HasEnd(config, true) || HasEnd(config, false)
  {
    hide IndexOf, EndsWithReturn, Split, HasEnd;
    SplitFirst(config);
    HasEndFirst(config, true);
    HasEndFirst(config, false);
  }

  /** What is written after a text with a CRLF has no bare line feed. */
  lemma ReturnsStay(config: string, d: Directive)
    requires HasEnd(config, true) && Fits(d)
    ensures Split(UpsertText(config, d)) == Texts(Upsert(Parse(config), d))
    ensures !HasEnd(UpsertText(config, d), false)
  {
    var lines, after := Upsert(Parse(config), d), UpsertText(config, d);
    UpsertedLines(config, d);
    ResplitExactly(Texts(lines), CRLF);
    hide HasEnd, Split, Join, Upsert, Parse, Resplit;
    JoinSplit(after, true);
  }

  lemma BareOrNoReturns(config: string)
    requires !HasEnd(config, true)
    ensures Bare(config) || NoReturns(config)
  {
    InnerLines(config);
    hide Split, HasEnd, EndsWithReturn;
  }

  lemma NoReturnsIsNotBare(config: string)
    requires NoReturns(config)
    ensures !Bare(config)
  {
    hide Split, HasEnd;
    assert Split(config)[|Split(config)| - 1] in Split(config);
  }

  /** After a text without carriage returns at the ends of lines no CRLF is written. */
  lemma FeedsStay(config: string, d: Directive)
    requires !HasEnd(config, true) && NoReturns(config) && Fits(d)
    ensures NoReturns(UpsertText(config, d)) && !HasEnd(UpsertText(config, d), true)
  {
    var lines, after := Upsert(Parse(config), d), UpsertText(config, d);
    RereadsExactly(config, d);
    UpsertedLines(config, d);
    SplitIsTexts(after);
    hide HasEnd, Split, Join, Upsert, Parse, Resplit, NoReturns;
    JoinSplit(after, false);
  }

  lemma OneLineOfDirective(lines: seq<Line>, d: Directive)
    requires |lines| == 1 && Established(lines, d)
    ensures lines[0] == LineOf(d)
  {
    SelectAppends(None, [], lines[0], Hit(d));
    assert [] + [lines[0]] == lines;
    assert Select(None, lines, Hit(d))[0] == (d.section, LineOf(d));
    hide Select;
  }

  /** What is written after a text with a CRLF is not bare. */
  lemma ReturnsAreNotBare(config: string, d: Directive)
    requires HasEnd(config, true) && Fits(d)
    ensures !Bare(UpsertText(config, d))
  {
    var lines, after := Upsert(Parse(config), d), UpsertText(config, d);
    hide HasEnd, Split, Upsert, Parse, UpsertText, Established;
    ReturnsStay(config, d);
    SeveralLines(after);
    if |Split(after)| == 1 {
      UpsertEstablishes(Parse(config), d);
      OneLineOfDirective(lines, d);
      PlainHasNoReturn(d.text);
    }
  }

  /** A bare carriage return can only come from a bare carriage return. */
  lemma BareBefore(config: string, d: Directive)
    requires Fits(d) && Bare(UpsertText(config, d))
    ensures Bare(config)
  {
    hide Bare, HasEnd, UpsertText, Fits, NoReturns;
    if HasEnd(config, true) {
      ReturnsAreNotBare(config, d);
    } else if !Bare(config) {
      BareOrNoReturns(config);
      FeedsStay(config, d);
      NoReturnsIsNotBare(UpsertText(config, d));
    }
  }

  lemma {:induction false} BareFromTheFirst(config: string, directives: seq<Directive>, k: nat)
    requires Proper(directives) && Bare(Upserted(config, directives)) && k <= |directives|
    ensures Bare(Upserted(config, directives[..k]))
  {
    hide Proper, Bare, UpsertText, Fits;
    var n := |directives| - 1;
    if k == |directives| {
      assert directives[..k] == directives;
    } else {
      ProperLast(directives);
      BareBefore(Upserted(config, directives[..n]), directives[n]);
      assert directives[..n][..k] == directives[..k];
      BareFromTheFirst(config, directives[..n], k);
    }
  }

  /** If the text before the last directive was not bare, all line ends are alike in the end. */
  lemma EndsUniform(config: string, directives: seq<Directive>)
    requires Proper(directives) && directives != []
    requires !Bare(Upserted(config, directives[..|directives| - 1]))
    ensures Uniform(Upserted(config, directives))
  {
    var n := |directives| - 1;
    var before := Upserted(config, directives[..n]);
    ProperLast(directives);
    hide Proper, Bare, UpsertText, HasEnd, NoReturns;
    if HasEnd(before, true) {
      ReturnsStay(before, directives[n]);
    } else {
      BareOrNoReturns(before);
      FeedsStay(before, directives[n]);
    }
  }

  // ---------- One line with a bare carriage return ----------

  /** A bare text is still the last line that is written. */
  lemma BareIsLast(config: string, d: Directive)
    requires Fits(d) && Bare(UpsertText(config, d))
    ensures var lines := Upsert(Parse(config), d);
            lines != [] && EndsWithReturn(TextOf(lines[|lines| - 1])) && Newline(config) == LF
  {
    hide *;
    var lines := Upsert(Parse(config), d);
    BareBefore(config, d);
    BareMeans(config);
    BareMeans(UpsertText(config, d));
    UpsertedLines(config, d);
    ResplitAt(Texts(lines), Newline(config), |lines| - 1);
  }

  lemma BareMeans(config: string)
    requires Bare(config)
    ensures EndsWithReturn(Split(config)[|Split(config)| - 1]) && Newline(config) == LF
  {
    hide Split, HasEnd;
  }

  lemma {:induction false} SqueezedLast(lines: seq<Line>)
    requires lines != []
    ensures Squeezed(lines) != [] && Squeezed(lines)[|Squeezed(lines)| - 1] == lines[|lines| - 1]
  {
    SqueezingTidies(lines);
  }

  /** Where the directive's line comes last, no bare text is left. */
  lemma LineComesLast(config: string, d: Directive)
    requires Fits(d) && !HasTrailing(Parse(config)) && ComesLast(Placed(Parse(config), d), d)
    ensures !Bare(UpsertText(config, d))
  {
    var lines := Upsert(Parse(config), d);
    SqueezedLast(Placed(Parse(config), d));
    PlainHasNoReturn(d.text);
    hide Placed, Squeezed, Parse, Bare, UpsertText, Fits;
    assert lines == Squeezed(Placed(Parse(config), d));
    if Bare(UpsertText(config, d)) {
      BareIsLast(config, d);
      assert false;
    }
  }

  /** Some lines that set keys of the root, and one more line. */
  ghost predicate RootLines(front: seq<Line>, d: Directive) {
    forall y :: y in front ==> y.Pair? && HasNoEnds(y.text) && (d.section == None ==> y.key != d.key)
  }

  lemma {:induction false} RootMisses(front: seq<Line>, d: Directive)
    requires RootLines(front, d)
    ensures SectionAfter(None, front) == None && !Found(front, d)
  {
    if front != [] {
      var n := |front| - 1;
      assert front[n] in front;
      RootMisses(front[..n], d);
    }
  }

  lemma RootHeader(front: seq<Line>, x: Line, d: Directive, name: Section)
    requires RootLines(front, d)
    ensures HeaderAt(front + [x], name) == if Heads(x, name) then |front| else |front| + 1
  {
    forall j | 0 <= j < |front| ensures !Heads((front + [x])[j], name) {
      assert front[j] in front;
    }
    HeaderIs(front + [x], name, if Heads(x, name) then |front| else |front| + 1);
  }

  lemma RewrittenLast(front: seq<Line>, x: Line, d: Directive)
    requires RootLines(front, d) && Hits(d, None, x)
    ensures Found(front + [x], d) && Rewritten(front + [x], d)[|front|] == LineOf(d)
  {
    RootMisses(front, d);
    assert (front + [x])[..|front|] == front;
  }

  lemma MissedLast(front: seq<Line>, x: Line, d: Directive)
    requires RootLines(front, d) && !Hits(d, None, x)
    ensures !Found(front + [x], d)
  {
    RootMisses(front, d);
    assert (front + [x])[..|front|] == front;
  }

  lemma NoBlanksNoRuns(lines: seq<Line>)
    requires Blank !in lines
    ensures Squeezed(lines) == lines
  {
    SqueezingTidyChangesNothing(lines);
  }

  /** A directive of the root goes before a header and otherwise comes last. */
  lemma RootPlaced(front: seq<Line>, x: Line, d: Directive)
    requires d.section == None && RootLines(front, d)
    ensures x.Header? ==> Placed(front + [x], d) == front + [LineOf(d)] + [x]
    ensures !x.Header? ==> ComesLast(Placed(front + [x], d), d)
  {
    var lines := front + [x];
    hide RootLines, Found, HeaderAt, Rewritten;
    if Hits(d, None, x) {
      RewrittenLast(front, x, d);
    } else {
      MissedLast(front, x, d);
      RootHeader(front, x, d, None);
      assert lines[..|front|] == front && lines[|front|..] == [x];
      assert lines[..|lines|] + [LineOf(d)] + lines[|lines|..] == lines + [LineOf(d)];
    }
  }

  predicate ComesLast(lines: seq<Line>, d: Directive) {
    lines != [] && lines[|lines| - 1] == LineOf(d)
  }

  /** A directive of the root can only leave a bare text if that is a header, and it goes before it. */
  lemma RootBeforeBare(config: string, front: seq<Line>, x: Line, d: Directive)
    requires Fits(d) && d.section == None && RootLines(front, d) && Parse(config) == front + [x]
    requires Bare(UpsertText(config, d))
    ensures x.Header? && Parse(UpsertText(config, d)) == front + [LineOf(d)] + [x]
  {
    hide *;
    assert (front + [x])[|front + [x]| - 1] == x;
    BareBefore(config, d);
    LastIsNotBlank(config);
    RootPlaced(front, x, d);
    if x.Header? {
      BareIsRead(config, front, x, d);
    } else {
      LineComesLast(config, d);
    }
  }

  lemma LastIsNotBlank(config: string)
    requires Bare(config)
    ensures Parse(config)[|Parse(config)| - 1] != Blank
    ensures !HasTrailing(Parse(config))
  {
    hide Split, HasEnd;
    ParseIs(config);
  }

  lemma RootIsNotBlank(front: seq<Line>, x: Line, d: Directive)
    requires RootLines(front, d) && x != Blank
    ensures Blank !in front + [LineOf(d)] + [x]
  {
  }

  /** The directive's line before a bare header is read back. */
  lemma BareIsRead(config: string, front: seq<Line>, x: Line, d: Directive)
    requires Fits(d) && RootLines(front, d) && Parse(config) == front + [x] && x != Blank
    requires !HasTrailing(Parse(config)) && Bare(UpsertText(config, d))
    requires Placed(front + [x], d) == front + [LineOf(d)] + [x]
    ensures Parse(UpsertText(config, d)) == front + [LineOf(d)] + [x]
  {
    var lines := front + [LineOf(d)] + [x];
    RootIsNotBlank(front, x, d);
    NoBlanksNoRuns(lines);
    assert Upsert(Parse(config), d) == lines + [] == lines;
    UpsertedLines(config, d);
    UpsertReads(config, d);
    ParseIs(UpsertText(config, d));
    hide Upsert, Parse, UpsertText, Placed, Squeezed, Split, Fits;
    InnerIsPlain(front, x, d);
    ResplitInner(Texts(lines), Newline(config));
    TextsAreRead(lines);
  }

  lemma InnerIsPlain(front: seq<Line>, x: Line, d: Directive)
    requires Fits(d) && RootLines(front, d)
    ensures var texts := Texts(front + [LineOf(d)] + [x]);
            forall i :: 0 <= i < |texts| - 1 ==> !EndsWithReturn(texts[i])
  {
    var lines := front + [LineOf(d)] + [x];
    hide Fits;
    forall i | 0 <= i < |lines| - 1 ensures !EndsWithReturn(TextOf(lines[i])) {
      FitsIsPlain(d);
      if i < |front| {
        assert front[i] in front;
        PlainHasNoReturn(front[i].text);
      }
    }
  }

  lemma FitsIsPlain(d: Directive)
    requires Fits(d)
    ensures !EndsWithReturn(d.text)
  {
  }

  lemma {:induction false} ResplitInner(texts: seq<string>, newline: string)
    requires forall i :: 0 <= i < |texts| - 1 ==> !EndsWithReturn(texts[i])
    ensures Resplit(texts, newline) == texts
  {
    if |texts| > 1 {
      assert !EndsWithReturn(texts[0]);
      forall i | 0 <= i < |texts[1..]| - 1 ensures !EndsWithReturn(texts[1..][i]) {
        assert !EndsWithReturn(texts[i + 1]);
      }
      ResplitInner(texts[1..], newline);
    }
  }

  lemma SectionPlaced(front: seq<Line>, x: Line, d: Directive)
    requires d.section != None && RootLines(front, d) && x.Header?
    ensures ComesLast(Placed(front + [x], d), d) && !HasTrailing(front + [x])
  {
    var lines := front + [x];
    MissedLast(front, x, d);
    RootHeader(front, x, d, d.section);
    assert lines[|front|] == x;
    hide RootLines, Found;
    if !Opens(lines, d) {
      assert lines[|front| + 1..] == [];
      assert Place(lines, d) == |lines|;
      assert lines[..|lines|] + [LineOf(d)] + lines[|lines|..] == lines + [LineOf(d)];
    }
  }

  /** A directive of a section goes after a bare header. */
  lemma SectionAfterBare(config: string, front: seq<Line>, x: Line, d: Directive)
    requires Fits(d) && d.section != None && RootLines(front, d) && x.Header? && Parse(config) == front + [x]
    ensures !Bare(UpsertText(config, d))
  {
    hide *;
    SectionPlaced(front, x, d);
    LineComesLast(config, d);
  }

  /** Two directives of the root and one of a section leave no bare text of a single line. */
  lemma ThreeSettle(config: string, d: Directive, e: Directive, f: Directive)
    requires Fits(d) && Fits(e) && Fits(f)
    requires d.section == None && e.section == None && f.section != None && d.key != e.key
    requires |Split(config)| == 1
    ensures !Bare(UpsertText(UpsertText(UpsertText(config, d), e), f))
  {
    hide *;
    var first := UpsertText(config, d);
    var second := UpsertText(first, e);
    if Bare(UpsertText(second, f)) {
      var x := OneLineIsRead(config);
      RootOfTwo(d, e, f);
      assert [] + [LineOf(d)] == [LineOf(d)];
      BareBefore(second, f);
      BareBefore(first, e);
      RootBeforeBare(config, [], x, d);
      RootBeforeBare(first, [LineOf(d)], x, e);
      SectionAfterBare(second, [LineOf(d)] + [LineOf(e)], x, f);
    }
  }

  lemma OneLineIsRead(config: string) returns (x: Line)
    requires |Split(config)| == 1
    ensures Parse(config) == [] + [x]
  {
    x := Classify(Split(config)[0]);
  }

  lemma RootOfTwo(d: Directive, e: Directive, f: Directive)
    requires Fits(d) && Fits(e) && d.key != e.key && f.section != None
    ensures RootLines([], d) && RootLines([] + [LineOf(d)], e) && RootLines([LineOf(d)] + [LineOf(e)], f)
  {
    hide Reads, HasNoEnds;
  }

  // ---------- The launcher ----------

  /** All lines but the last end alike. */
  ghost predicate OneKind(rows: seq<Row>) {
    || (forall i :: 0 <= i < |rows| - 1 ==> rows[i].end == LF)
    || (forall i :: 0 <= i < |rows| - 1 ==> rows[i].end == CRLF)
  }

  /** Text in front makes no bare line feed. */
  lemma NoFeedInFront(x: string, s: string)
    requires OneLine(x) && !HasEnd(s, false)
    ensures !HasEnd(x + s, false)
  {
    hide HasEnd, IndexOf;
    var n := IndexOf(s, '\n');
    IndexIs(x + s, '\n', |x| + n);
    hide OneLine;
    HasEndFirst(s, false);
    HasEndFirst(x + s, false);
    if n < |s| {
      assert (x + s)[|x| + n + 1..] == s[n + 1..] && (x + s)[..|x| + n] == x + s[..n];
    }
  }

  lemma NoFeedAtEnd(x: string, s: string)
    requires HasNoEnds(x) && !HasEnd(s, false)
    ensures !HasEnd(x + (CRLF + s), false)
  {
    assert x + (CRLF + s) == x + CRLF + s;
    FirstLine(x, CRLF, s);
    HasEndFirst(x + CRLF + s, false);
    hide HasEnd, IndexOf;
  }

  /** Of a file with CRLFs only, no bare line feed is left. */
  lemma {:induction false} KeptHasNoFeeds(rows: seq<Row>)
    requires rows == [] || IsFile(rows)
    requires forall i :: 0 <= i < |rows| - 1 ==> rows[i].end == CRLF
    ensures !HasEnd(Kept(rows), false)
  {
    if rows == [] {
      PlainHasNoFeed("");
    } else {
      FileTail(rows);
      KeptHasNoFeeds(rows[1..]);
      hide HasEnd, IsFile;
      if !Doomed(rows) {
        RowHasNoFeed(rows);
      }
    }
  }

  lemma RowHasNoFeed(rows: seq<Row>)
    requires IsFile(rows) && !Doomed(rows) && (|rows| > 1 ==> rows[0].end == CRLF)
    requires !HasEnd(Kept(rows[1..]), false)
    ensures !HasEnd(Kept(rows), false)
  {
    hide *;
    RowIsPlain(rows);
    var x, rest := rows[0].text, Kept(rows[1..]);
    KeptFirst(rows);
    if |rows| == 1 {
      PlainHasNoFeed(x);
    } else if Doomed(rows[1..]) {
      ReturnIsOneLine(x);
      assert Kept(rows) == x + "\r" + rest;
      NoFeedInFront(x + "\r", rest);
    } else {
      NoFeedAtEnd(x, rest);
    }
  }

  lemma ReturnIsOneLine(x: string)
    requires HasNoEnds(x)
    ensures OneLine(x + "\r")
  {
  }

  lemma PlainHasNoFeed(x: string)
    requires HasNoEnds(x)
    ensures !HasEnd(x, false)
  {
    IndexIs(x, '\n', |x|);
  }

  /** A file with one kind of line ends has one kind of line ends after synchronization. */
  lemma UniformAfterLauncher(rows: seq<Row>, directives: seq<Directive>)
    requires IsFile(rows) && OneKind(rows) && Proper(directives) && |directives| > 3
    requires directives[0].section == None && directives[1].section == None && directives[2].section != None
    ensures Uniform(Synchronized(Render(rows), directives))
  {
    hide *;
    var config, n := Kept(rows), |directives| - 1;
    SynchronizedIs(rows, directives);
    ProperLast(directives);
    if Bare(Upserted(config, directives[..n])) {
      BareFromTheFirst(config, directives[..n], 0);
      BareFromTheFirst(config, directives[..n], 3);
      assert directives[..n][..0] == [] && directives[..n][..3] == directives[..3];
      NoneUpserted(config);
      BareIsOneLine(rows);
      ProperThree(directives);
      ThreeUpserted(config, directives);
      ThreeSettle(config, directives[0], directives[1], directives[2]);
    } else {
      EndsUniform(config, directives);
    }
  }

  lemma SynchronizedIs(rows: seq<Row>, directives: seq<Directive>)
    requires IsFile(rows)
    ensures Synchronized(Render(rows), directives) == Upserted(Kept(rows), directives)
  {
    ReplacedIsKept(rows);
    hide Upserted, Replaced;
  }

  lemma ProperThree(directives: seq<Directive>)
    requires Proper(directives) && |directives| > 3
    requires directives[0].section == None && directives[1].section == None
    ensures Fits(directives[0]) && Fits(directives[1]) && Fits(directives[2])
    ensures directives[0].key != directives[1].key
  {
    assert directives[0] in directives && directives[1] in directives && directives[2] in directives;
    assert Apart(directives[0], directives[1]);
  }

  lemma NoneUpserted(config: string)
    ensures Upserted(config, []) == config
  {
  }

  lemma ThreeUpserted(config: string, directives: seq<Directive>)
    requires |directives| > 3
    ensures Upserted(config, directives[..3]) ==
            UpsertText(UpsertText(UpsertText(config, directives[0]), directives[1]), directives[2])
  {
    hide UpsertText;
    var ds := directives[..3];
    assert ds[..2][..1] == ds[..1] && ds[..1][..0] == [];
    assert Upserted(config, ds[..1]) == UpsertText(config, directives[0]);
    assert Upserted(config, ds[..2]) == UpsertText(Upserted(config, ds[..1]), directives[1]);
  }

  /** Only a file of CRLFs can be left bare, and then of a single line. */
  lemma BareIsOneLine(rows: seq<Row>)
    requires IsFile(rows) && OneKind(rows) && Bare(Kept(rows))
    ensures |Split(Kept(rows))| == 1
  {
    hide HasEnd, Split, Kept, NoReturns, Breaks;
    SeveralLines(Kept(rows));
    if forall i :: 0 <= i < |rows| - 1 ==> rows[i].end == CRLF {
      KeptHasNoFeeds(rows);
    } else {
      FeedsAreNoReturns(rows);
      LineFeedsNeverBreak(rows);
      KeptHasNoReturns(rows);
      NoReturnsIsNotBare(Kept(rows));
    }
  }

  lemma FeedsAreNoReturns(rows: seq<Row>)
    requires IsFile(rows) && forall i :: 0 <= i < |rows| - 1 ==> rows[i].end == LF
    ensures forall i :: 0 <= i < |rows| ==> rows[i].end != CRLF
  {
    assert rows[|rows| - 1].end == "";
  }

  predicate IsKeyChar(c: char) { !IsWhiteChar(c) && c != '=' && c != '[' && c != ']' }

  predicate IsName(name: string) { name != "" && forall i :: 0 <= i < |name| ==> IsKeyChar(name[i]) }

  lemma NameIsTrim(name: string)
    requires IsName(name)
    ensures Skip(name) == name && SkipBack(name) == name
  {
    assert IsKeyChar(name[0]) && IsKeyChar(name[|name| - 1]);
  }

  /** A key with a value is read as that key. */
  lemma KeyValueReads(key: string, value: string)
    requires IsName(key)
    ensures Classify(key + "=" + value) == Pair(Lower(key), key + "=" + value)
  {
    var text := key + "=" + value;
    hide IsWhiteChar, SkipBack;
    NameIsTrim(key);
    assert text == key + ("=" + value);
    SkipJoins(key, "=" + value);
    assert IsKeyChar(key[0]) && text[0] == key[0];
    IndexIs(text, '=', |key|);
    assert text[..|key|] == key;
  }

  /** A name in brackets is read as that section. */
  lemma TitleReads(name: string)
    requires IsName(name)
    ensures Classify("[" + name + "]") == Header(Lower(name), "[" + name + "]")
  {
    var text := "[" + name + "]";
    NameIsTrim(name);
    IndexIs(text, ']', |name| + 1);
    assert text[1..|name| + 1] == name && text[|name| + 2..] == "";
    assert text[0] == '[' && Skip(text) == text;
    hide SkipBack, Lower, IndexOf, IsWhiteChar;
  }

  lemma NoEndsJoin(x: string, y: string)
    requires HasNoEnds(x) && HasNoEnds(y)
    ensures HasNoEnds(x + y)
  {
  }

  /** A directive made of a key, a value and perhaps the name of a section is read as such. */
  lemma DirectiveFits(d: Directive, key: string, value: string, name: string)
    requires IsName(key) && HasNoEnds(value) && d.text == key + "=" + value && d.key == Lower(key)
    requires d.section != None ==> IsName(name) && d.title == "[" + name + "]" && d.section == Some(Lower(name))
    ensures Fits(d)
  {
    hide Classify, Lower, IsName;
    KeyValueReads(key, value);
    KeyHasNoEnds(key, value);
    NoEndsIsOneLine(d.text);
    if d.section != None {
      TitleReads(name);
      TitleHasNoEnds(name);
      NoEndsIsOneLine(d.title);
    }
    hide HasNoEnds, OneLine;
  }

  lemma NoEndsIsOneLine(x: string)
    requires HasNoEnds(x)
    ensures OneLine(x)
  {
  }

  lemma NameHasNoEnds(name: string)
    requires IsName(name)
    ensures HasNoEnds(name)
  {
    forall i | 0 <= i < |name| ensures !IsTerminator(name[i]) {
      assert IsKeyChar(name[i]);
    }
  }

  lemma KeyHasNoEnds(key: string, value: string)
    requires IsName(key) && HasNoEnds(value)
    ensures HasNoEnds(key + "=" + value)
  {
    NameHasNoEnds(key);
    hide IsName;
  }

  lemma TitleHasNoEnds(name: string)
    requires IsName(name)
    ensures HasNoEnds("[" + name + "]")
  {
    NameHasNoEnds(name);
    hide IsName;
  }

  predicate IsLetter(c: char) { 'A' <= c <= 'Z' || 'a' <= c <= 'z' || c == '_' }

  /** A piece of a name, and the same in lower case. */
  predicate IsPart(name: string, lower: string) {
    && name != "" && |lower| == |name|
    && forall i :: 0 <= i < |name| ==> IsLetter(name[i]) && lower[i] == LowerChar(name[i])
  }

  lemma PartsJoin(a: string, la: string, b: string, lb: string)
    requires IsPart(a, la) && IsPart(b, lb)
    ensures IsPart(a + b, la + lb)
  {
    hide IsLetter, LowerChar;
  }

  lemma PartIsName(name: string, lower: string)
    requires IsPart(name, lower)
    ensures IsName(name) && Lower(name) == lower
  {
    forall i | 0 <= i < |name| ensures IsKeyChar(name[i]) {
      assert IsLetter(name[i]);
    }
    hide IsKeyChar, IsLetter;
  }

  lemma RootParts()
    ensures IsPart("Server", "server") && IsPart("SteamGatewayUrl", "steamgatewayurl")
  {
    assert IsPart("Steam", "steam") && IsPart("Gateway", "gateway") && IsPart("Url", "url");
    hide IsPart;
    PartsJoin("Gateway", "gateway", "Url", "url");
    PartsJoin("Steam", "steam", "Gateway" + "Url", "gateway" + "url");
    assert "Steam" + ("Gateway" + "Url") == "SteamGatewayUrl";
    assert "steam" + ("gateway" + "url") == "steamgatewayurl";
  }

  lemma PurchaseParts()
    ensures IsPart("INGAMEPURCHASE", "ingamepurchase")
  {
    assert IsPart("INGAME", "ingame") && IsPart("PURCHASE", "purchase");
    hide IsPart;
    PartsJoin("INGAME", "ingame", "PURCHASE", "purchase");
    assert "INGAME" + "PURCHASE" == "INGAMEPURCHASE" && "ingame" + "purchase" == "ingamepurchase";
  }

  lemma CommandParts()
    ensures IsPart("CommandQueue", "commandqueue")
  {
    assert IsPart("Command", "command") && IsPart("Queue", "queue");
    hide IsPart;
    PartsJoin("Command", "command", "Queue", "queue");
    assert "Command" + "Queue" == "CommandQueue" && "command" + "queue" == "commandqueue";
  }

  lemma TelemetryParts()
    ensures IsPart("LaunchTelemetry", "launchtelemetry")
  {
    assert IsPart("Launch", "launch") && IsPart("Telemetry", "telemetry");
    hide IsPart;
    PartsJoin("Launch", "launch", "Telemetry", "telemetry");
    assert "Launch" + "Telemetry" == "LaunchTelemetry" && "launch" + "telemetry" == "launchtelemetry";
  }

  lemma KeyParts()
    ensures IsPart("motd_uri", "motd_uri") && IsPart("cb_uri", "cb_uri") && IsPart("eula_uri", "eula_uri")
    ensures IsPart("Url", "url")
  {
  }

  lemma TicketParts()
    ensures IsPart("SoeAuthTicketUrl", "soeauthticketurl")
  {
    assert IsPart("SoeAuth", "soeauth") && IsPart("Ticket", "ticket") && IsPart("Url", "url");
    hide IsPart;
    PartsJoin("Ticket", "ticket", "Url", "url");
    PartsJoin("SoeAuth", "soeauth", "Ticket" + "Url", "ticket" + "url");
    assert "SoeAuth" + ("Ticket" + "Url") == "SoeAuthTicketUrl";
    assert "soeauth" + ("ticket" + "url") == "soeauthticketurl";
  }

  /** A directive of a section. */
  lemma SectionFits(d: Directive, key: string, lowerKey: string, value: string, name: string, lowerName: string)
    requires IsPart(key, lowerKey) && IsPart(name, lowerName) && HasNoEnds(value)
    requires d == Directive(Some(lowerName), "[" + name + "]", lowerKey, key + "=" + value)
    ensures Fits(d)
  {
    hide IsPart, Fits, HasNoEnds;
    PartIsName(key, lowerKey);
    PartIsName(name, lowerName);
    DirectiveFits(d, key, value, name);
  }

  lemma RootFits(d: Directive, key: string, lowerKey: string, value: string)
    requires IsPart(key, lowerKey) && HasNoEnds(value)
    requires d == Directive(None, "", lowerKey, key + "=" + value)
    ensures Fits(d)
  {
    hide IsPart, Fits, HasNoEnds;
    PartIsName(key, lowerKey);
    DirectiveFits(d, key, value, "");
  }

  lemma RootDirectivesFit(servers: string, session: string)
    requires HasNoEnds(servers) && HasNoEnds(session)
    ensures Fits(Directive(None, "", "server", "Server=" + servers))
    ensures Fits(Directive(None, "", "steamgatewayurl", "SteamGatewayUrl=" + session))
  {
    hide Fits, HasNoEnds, IsPart;
    RootParts();
    assert "Server=" == "Server" + "=" && "SteamGatewayUrl=" == "SteamGatewayUrl" + "=";
    RootFits(Directive(None, "", "server", "Server=" + servers), "Server", "server", servers);
    RootFits(Directive(None, "", "steamgatewayurl", "SteamGatewayUrl=" + session), "SteamGatewayUrl",
             "steamgatewayurl", session);
  }

  lemma TicketFits(origin: string)
    requires HasNoEnds(origin)
    ensures Fits(Directive(Some("ingamepurchase"), "[INGAMEPURCHASE]", "soeauthticketurl",
                           "SoeAuthTicketUrl=" + origin + "/rest/client/session/create"))
  {
    var path := "/rest/client/session/create";
    assert HasNoEnds(path);
    NoEndsJoin(origin, path);
    hide Fits, HasNoEnds, IsPart;
    TicketParts();
    PurchaseParts();
    assert "[" + "INGAMEPURCHASE" + "]" == "[INGAMEPURCHASE]" && "SoeAuthTicketUrl" + "=" == "SoeAuthTicketUrl=";
    assert "SoeAuthTicketUrl=" + origin + path == "SoeAuthTicketUrl" + "=" + (origin + path);
    SectionFits(Directive(Some("ingamepurchase"), "[INGAMEPURCHASE]", "soeauthticketurl",
                          "SoeAuthTicketUrl=" + origin + path),
                "SoeAuthTicketUrl", "soeauthticketurl", origin + path, "INGAMEPURCHASE", "ingamepurchase");
  }

  lemma CommandFits(key: string, origin: string)
    requires IsPart(key, key) && HasNoEnds(origin)
    ensures Fits(Directive(Some("commandqueue"), "[CommandQueue]", key, key + "=" + origin + "/"))
  {
    assert HasNoEnds("/");
    NoEndsJoin(origin, "/");
    hide Fits, HasNoEnds, IsPart;
    CommandParts();
    assert "[" + "CommandQueue" + "]" == "[CommandQueue]";
    assert key + "=" + origin + "/" == key + "=" + (origin + "/");
    SectionFits(Directive(Some("commandqueue"), "[CommandQueue]", key, key + "=" + origin + "/"),
                key, key, origin + "/", "CommandQueue", "commandqueue");
  }

  lemma TelemetryFits(origin: string)
    requires HasNoEnds(origin)
    ensures Fits(Directive(Some("launchtelemetry"), "[LaunchTelemetry]", "url", "Url=" + origin + "/h1z1xx/live/"))
  {
    var path := "/h1z1xx/live/";
    assert HasNoEnds(path);
    NoEndsJoin(origin, path);
    hide Fits, HasNoEnds, IsPart;
    KeyParts();
    TelemetryParts();
    assert "[" + "LaunchTelemetry" + "]" == "[LaunchTelemetry]" && "Url" + "=" == "Url=";
    assert "Url=" + origin + path == "Url" + "=" + (origin + path);
    SectionFits(Directive(Some("launchtelemetry"), "[LaunchTelemetry]", "url", "Url=" + origin + path),
                "Url", "url", origin + path, "LaunchTelemetry", "launchtelemetry");
  }

  lemma LauncherIsApart(servers: string, session: string, origin: string)
    ensures var ds := Directives(servers, session, origin);
            forall i, j :: 0 <= i < j < |ds| ==> Apart(ds[i], ds[j])
    ensures forall d :: d in Directives(servers, session, origin) ==> d.key != SESSION_ID && |d.key| > 1
  {
    var ds := Directives(servers, session, origin);
    assert ds[0].key[1] == 'e' && ds[1].key[1] == 't' && ds[3].key[0] == 'm'
        && ds[4].key[0] == 'c' && ds[5].key[0] == 'e';
    assert ds[2].section.value[0] == 'i' && ds[3].section.value[0] == 'c' && ds[6].section.value[0] == 'l';
    assert SESSION_ID[0] == 's' && |SESSION_ID| == 9 && |ds[1].key| == 15 && |ds[2].key| == 16;
    forall i, j | 0 <= i < j < |ds| ensures Apart(ds[i], ds[j]) {
    }
  }

  /** The launcher's directives differ in section or key, set no session id, and are read as what they
      are, as long as their values hold no line ends. */
  lemma LauncherIsProper(servers: string, session: string, origin: string)
    requires HasNoEnds(servers) && HasNoEnds(session) && HasNoEnds(origin)
    ensures Proper(Directives(servers, session, origin))
  {
    hide Fits, HasNoEnds, IsPart, Apart;
    LauncherIsApart(servers, session, origin);
    RootDirectivesFit(servers, session);
    TicketFits(origin);
    TelemetryFits(origin);
    KeyParts();
    assert "motd_uri" + "=" == "motd_uri=" && "cb_uri" + "=" == "cb_uri=" && "eula_uri" + "=" == "eula_uri=";
    CommandFits("motd_uri", origin);
    CommandFits("cb_uri", origin);
    CommandFits("eula_uri", origin);
  }

  lemma LauncherHas(servers: string, session: string, origin: string)
    ensures var ds := Directives(servers, session, origin);
            |ds| == 7 && ds[0].section == None && ds[1].section == None && ds[2].section != None
  {
  }

  /** After synchronization each of the launcher's keys stands on one line of its section, with its own
      value: the servers and the session address at the top, and the addresses of the gateway in three
      sections. */
  lemma LauncherSetsItsKeys(rows: seq<Row>, servers: string, session: string, origin: string)
    requires IsFile(rows) && HasNoEnds(servers) && HasNoEnds(session) && HasNoEnds(origin)
    ensures var lines := Parse(Synchronized(Render(rows), Directives(servers, session, origin)));
            && SetsTo(lines, None, "server", "Server=" + servers)
            && SetsTo(lines, None, "steamgatewayurl", "SteamGatewayUrl=" + session)
            && SetsTo(lines, Some("ingamepurchase"), "soeauthticketurl",
                      "SoeAuthTicketUrl=" + origin + "/rest/client/session/create")
            && SetsTo(lines, Some("commandqueue"), "motd_uri", "motd_uri=" + origin + "/")
            && SetsTo(lines, Some("commandqueue"), "cb_uri", "cb_uri=" + origin + "/")
            && SetsTo(lines, Some("commandqueue"), "eula_uri", "eula_uri=" + origin + "/")
            && SetsTo(lines, Some("launchtelemetry"), "url", "Url=" + origin + "/h1z1xx/live/")
  {
    hide *;
    var ds := Directives(servers, session, origin);
    var lines := Parse(Synchronized(Render(rows), ds));
    LauncherIsProper(servers, session, origin);
    SynchronizationEstablishes(rows, ds);
    RootIsSet(servers, session, origin);
    PagesAreSet(servers, session, origin);
    CommandsAreSet(servers, session, origin);
    forall section, key, text | IsSetBy(ds, section, key, text) ensures SetsTo(lines, section, key, text) {
      SetAfterwards(lines, ds, section, key, text);
    }
  }

  lemma SetAfterwards(lines: seq<Line>, directives: seq<Directive>, section: Section, key: string, text: string)
    requires IsSetBy(directives, section, key, text) && forall d :: d in directives ==> Established(lines, d)
    ensures SetsTo(lines, section, key, text)
  {
    hide Established, SetsTo;
    var d :| d in directives && d.section == section && d.key == key && d.text == text;
    EstablishedIsSet(lines, d);
  }

  lemma SetByOne(directives: seq<Directive>, i: nat)
    requires i < |directives|
    ensures IsSetBy(directives, directives[i].section, directives[i].key, directives[i].text)
  {
    assert directives[i] in directives;
  }

  lemma RootIsSet(servers: string, session: string, origin: string)
    ensures var ds := Directives(servers, session, origin);
            && IsSetBy(ds, None, "server", "Server=" + servers)
            && IsSetBy(ds, None, "steamgatewayurl", "SteamGatewayUrl=" + session)
  {
    hide IsSetBy;
    LauncherHas(servers, session, origin);
    var ds := Directives(servers, session, origin);
    SetByOne(ds, 0);
    SetByOne(ds, 1);
  }

  lemma PagesAreSet(servers: string, session: string, origin: string)
    ensures var ds := Directives(servers, session, origin);
            && IsSetBy(ds, Some("ingamepurchase"), "soeauthticketurl",
                       "SoeAuthTicketUrl=" + origin + "/rest/client/session/create")
            && IsSetBy(ds, Some("launchtelemetry"), "url", "Url=" + origin + "/h1z1xx/live/")
  {
    hide IsSetBy;
    LauncherHas(servers, session, origin);
    var ds := Directives(servers, session, origin);
    SetByOne(ds, 2);
    SetByOne(ds, 6);
  }

  lemma CommandsAreSet(servers: string, session: string, origin: string)
    ensures var ds := Directives(servers, session, origin);
            && IsSetBy(ds, Some("commandqueue"), "motd_uri", "motd_uri=" + origin + "/")
            && IsSetBy(ds, Some("commandqueue"), "cb_uri", "cb_uri=" + origin + "/")
            && IsSetBy(ds, Some("commandqueue"), "eula_uri", "eula_uri=" + origin + "/")
  {
    hide IsSetBy;
    LauncherHas(servers, session, origin);
    var ds := Directives(servers, session, origin);
    SetByOne(ds, 3);
    SetByOne(ds, 4);
    SetByOne(ds, 5);
  }

  ghost predicate IsSetBy(directives: seq<Directive>, section: Section, key: string, text: string) {
    exists d :: d in directives && d.section == section && d.key == key && d.text == text
  }

  /** In a file with one kind of line ends the launcher's second synchronization changes nothing at all. */
  lemma SynchronizationIsIdempotent(rows: seq<Row>, servers: string, session: string, origin: string)
    requires IsFile(rows) && OneKind(rows) && HasNoEnds(servers) && HasNoEnds(session) && HasNoEnds(origin)
    ensures var once := Synchronized(Render(rows), Directives(servers, session, origin));
            Synchronized(once, Directives(servers, session, origin)) == once
  {
    hide *;
    var directives := Directives(servers, session, origin);
    LauncherIsProper(servers, session, origin);
    LauncherHas(servers, session, origin);
    UniformAfterLauncher(rows, directives);
    SynchronizationIsIdempotentExactlyWhen(rows, directives);
  }

  // ---------- A header that is lost ----------

  function KeyRows(key: string): seq<Row> { [Row(key, CRLF)] + [Row("", "")] }

  function HeadRows(head: string, key: string): seq<Row> { [Row(head, CRLF)] + KeyRows(key) }

  function SessionRows(session: string, head: string, key: string): seq<Row> {
    [Row(session, CRLF)] + HeadRows(head, key)
  }

  /** A line, a session id, the header of a section and a key of it. */
  function FourLines(x: string, session: string, head: string, key: string): seq<Row> {
    [Row(x, CRLF)] + SessionRows(session, head, key)
  }

  function KeyText(key: string): string { key + (CRLF + "") }

  function HeadText(head: string, key: string): string { head + (CRLF + KeyText(key)) }

  /** They are what they are said to be, and the first line still sets a key when it runs on. */
  ghost predicate RunsOn(x: string, session: string, head: string, key: string) {
    && IsPlain(x) && IsPlain(session) && IsPlain(head) && IsPlain(key)
    && Starts(session) && !Starts(x) && !Starts(head) && !Starts(key)
    && Classify(x).Pair? && Classify(x + "\r" + head).Pair? && Classify(head).Header? && Classify(key).Pair?
    && x != key && session != key
  }

  function Only(line: Line): (Section, Line) -> bool {
    (_, other) => other == line
  }

  lemma EmptyIsPlain()
    ensures IsPlain("") && !Starts("")
  {
  }

  lemma FileCons(r: Row, rest: seq<Row>)
    requires IsPlain(r.text) && r.end == CRLF && IsFile(rest)
    ensures IsFile([r] + rest)
  {
    hide IsPlain;
  }

  lemma FourAreFile(x: string, session: string, head: string, key: string)
    requires IsPlain(x) && IsPlain(session) && IsPlain(head) && IsPlain(key)
    ensures IsFile(FourLines(x, session, head, key))
  {
    EmptyIsPlain();
    assert IsFile([Row("", "")]);
    hide IsFile, IsPlain;
    FileCons(Row(key, CRLF), [Row("", "")]);
    FileCons(Row(head, CRLF), KeyRows(key));
    FileCons(Row(session, CRLF), HeadRows(head, key));
    FileCons(Row(x, CRLF), SessionRows(session, head, key));
  }

  lemma SolidIsKept(r: Row, rest: seq<Row>)
    requires Skip(r.text) != "" && !Starts(r.text)
    ensures !Doomed([r] + rest)
    ensures Kept([r] + rest) == r.text + ((if r.end == CRLF && Doomed(rest) then "\r" else r.end) + Kept(rest))
  {
    hide Starts, Skip;
    assert ([r] + rest)[1..] == rest;
  }

  lemma SessionIsDropped(r: Row, rest: seq<Row>)
    requires Starts(r.text)
    ensures Doomed([r] + rest) && Kept([r] + rest) == Kept(rest)
  {
    hide Starts;
    assert ([r] + rest)[1..] == rest;
  }

  lemma LastRowIsKept()
    ensures Kept([Row("", "")]) == "" && !Doomed([Row("", "")])
  {
    EmptyIsPlain();
    hide Starts;
    assert [Row("", "")][1..] == [];
  }

  lemma SolidText(text: string)
    requires Classify(text).Pair? || Classify(text).Header?
    ensures Skip(text) != "" && text != ""
  {
  }

  lemma HeadIsKept(head: string, key: string)
    requires Skip(head) != "" && !Starts(head) && Skip(key) != "" && !Starts(key)
    ensures Kept(HeadRows(head, key)) == HeadText(head, key) && !Doomed(HeadRows(head, key))
  {
    hide Starts, Skip, Kept, Doomed;
    LastRowIsKept();
    SolidIsKept(Row(key, CRLF), [Row("", "")]);
    SolidIsKept(Row(head, CRLF), KeyRows(key));
  }

  lemma FourAreKept(x: string, session: string, head: string, key: string)
    requires RunsOn(x, session, head, key)
    ensures Kept(FourLines(x, session, head, key)) == x + ("\r" + HeadText(head, key))
  {
    SolidText(x);
    SolidText(head);
    SolidText(key);
    hide Starts, Skip, IsPlain, Kept, Doomed, Classify, HeadRows, HeadText;
    HeadIsKept(head, key);
    SessionIsDropped(Row(session, CRLF), HeadRows(head, key));
    SolidIsKept(Row(x, CRLF), SessionRows(session, head, key));
  }

  lemma HeadIsSplit(head: string, key: string)
    requires HasNoEnds(head) && HasNoEnds(key) && head != ""
    ensures Split(HeadText(head, key)) == [head] + [key, ""] && HeadText(head, key)[0] != '\n'
  {
    OneLineIsSplit("");
    SplitAtEnd(key, CRLF, "");
    assert [key] + [""] == [key, ""];
    hide Split;
    SplitAtEnd(head, CRLF, KeyText(key));
    assert HeadText(head, key)[0] == head[0];
  }

  /** The first line runs on into the header. */
  lemma FourAreThree(x: string, session: string, head: string, key: string)
    requires RunsOn(x, session, head, key)
    ensures Split(Kept(FourLines(x, session, head, key))) == [x + "\r" + head] + [key, ""]
  {
    FourAreKept(x, session, head, key);
    SolidText(head);
    hide Kept, Split, Classify, Starts, Dangles, FourLines, HeadText;
    HeadIsSplit(head, key);
    hide HasNoEnds, IsTerminator;
    GlueIsSplit(x, HeadText(head, key));
  }

  lemma FirstRowOf(s: Section, r: Row, rest: seq<Row>, p: (Section, Line) -> bool)
    ensures var x := Classify(r.text);
            OfRows(s, [r] + rest, p) == (if p(s, x) then [(s, x)] else []) + OfRows(After(s, x), rest, p)
  {
    hide OfRows, Classify;
    FirstRow(s, [r] + rest, p);
    assert ([r] + rest)[1..] == rest;
  }

  lemma LastRowIsNothing(s: Section, line: Line)
    requires line != Blank
    ensures OfRows(s, [Row("", "")], Only(line)) == []
  {
    assert RowTexts([Row("", "")]) == [""];
    assert Classified([""]) == [Blank];
    assert Select(s, [Blank][..0], Only(line)) == [];
  }

  /** Before: the key is in the section of the header. */
  lemma KeyWasInSection(x: string, session: string, head: string, key: string)
    requires RunsOn(x, session, head, key)
    ensures OfRows(None, FourLines(x, session, head, key), Only(Classify(key))) ==
            [(Some(Classify(head).section), Classify(key))]
  {
    var line := Classify(key);
    SessionClass(session);
    TextsDiffer(x, key);
    TextsDiffer(session, key);
    hide Classify, OfRows, Starts, IsPlain;
    FirstRowOf(None, Row(x, CRLF), SessionRows(session, head, key), Only(line));
    FirstRowOf(None, Row(session, CRLF), HeadRows(head, key), Only(line));
    FirstRowOf(None, Row(head, CRLF), KeyRows(key), Only(line));
    var section := Some(Classify(head).section);
    FirstRowOf(section, Row(key, CRLF), [Row("", "")], Only(line));
    LastRowIsNothing(section, line);
  }

  lemma TextsDiffer(x: string, y: string)
    requires x != y
    ensures Classify(x) != Classify(y)
  {
    hide Classify;
    assert TextOf(Classify(x)) == x && TextOf(Classify(y)) == y;
  }

  lemma KeyThenEnd(s: Section, key: string)
    requires Classify(key).Pair?
    ensures Select(s, Classified([key, ""]), Only(Classify(key))) == [(s, Classify(key))]
  {
    var p := Only(Classify(key));
    assert [key, ""] == [key] + [""] && [""] == [""] + [];
    EmptyIsBlank();
    hide Classify, Select;
    LineStep(s, key, [""], p);
    LineStep(s, "", [], p);
    NoneSelected(s, p);
  }

  lemma EmptyIsBlank()
    ensures Classify("") == Blank
  {
  }

  /** Then: it is in the root. */
  lemma KeyIsInRoot(x: string, session: string, head: string, key: string)
    requires RunsOn(x, session, head, key)
    ensures OfKept(None, FourLines(x, session, head, key), Only(Classify(key))) == [(None, Classify(key))]
  {
    var glued, p := x + "\r" + head, Only(Classify(key));
    FourAreThree(x, session, head, key);
    PlainHasNoReturns(key);
    assert glued[|x|] == '\r';
    TextsDiffer(glued, key);
    hide Classify, Split, Kept, Select, Starts, IsPlain, FourLines;
    LineStep(None, glued, [key, ""], p);
    KeyThenEnd(None, key);
  }

  lemma PlainHasNoReturns(x: string)
    requires IsPlain(x)
    ensures '\r' !in x
  {
  }

  lemma EndsLike(x: string, y: string)
    requires y != ""
    ensures EndsWithReturn(x + y) <==> EndsWithReturn(y)
  {
    assert (x + y)[|x + y| - 1] == y[|y| - 1];
  }

  lemma FourHaveNoReturns(x: string, session: string, head: string, key: string)
    requires RunsOn(x, session, head, key)
    ensures NoReturns(Kept(FourLines(x, session, head, key)))
  {
    FourAreThree(x, session, head, key);
    SolidText(head);
    PlainHasNoReturn(head);
    PlainHasNoReturn(key);
    hide Split, Kept, FourLines, Classify, Starts, Dangles, Skip, HasNoEnds;
    EndsLike(x + "\r", head);
    hide EndsWithReturn;
    EmptyHasNoReturn();
  }

  lemma EmptyHasNoReturn()
    ensures !EndsWithReturn("")
  {
  }

  lemma {:induction false} SelectedSatisfies(s: Section, lines: seq<Line>, p: (Section, Line) -> bool)
    ensures forall x :: x in Select(s, lines, p) ==> p(x.0, x.1)
  {
    if lines != [] {
      SelectedSatisfies(s, lines[..|lines| - 1], p);
    }
  }

  /** A line that is no directive's and no header gains nothing. */
  lemma OnlyGainsNothing(line: Line, s: seq<(Section, Line)>, t: seq<(Section, Line)>)
    requires !line.Header? && GainsHeaders(s, t) && forall x :: x in t ==> Only(line)(x.0, x.1)
    ensures s == t
  {
    assert |s| < |t| ==> t[|s|] in t && t[|s|].1.Header?;
    assert |s| == |t|;
    assert t[..|t|] == t;
  }

  lemma OnlyIsForeign(line: Line, directives: seq<Directive>)
    requires line.Pair? && forall d :: d in directives ==> d.key != line.key
    ensures Foreign(Only(line), directives) && NoBlanks(Only(line))
  {
  }

  /** In a file of CRLFs with a session id between a line and a header, the header is lost whatever the
      directives are: the key of that section ends up in the root. */
  lemma HeaderRunsOn(x: string, session: string, head: string, key: string, directives: seq<Directive>)
    requires RunsOn(x, session, head, key) && Proper(directives)
    requires forall d :: d in directives ==> d.key != Classify(key).key
    ensures var rows, p := FourLines(x, session, head, key), Only(Classify(key));
            && IsFile(rows)
            && Select(None, Parse(Render(rows)), p) == [(Some(Classify(head).section), Classify(key))]
            && Select(None, Parse(Synchronized(Render(rows), directives)), p) == [(None, Classify(key))]
  {
    var rows, line := FourLines(x, session, head, key), Classify(key);
    assert line.Pair?;
    FourAreFile(x, session, head, key);
    KeyWasInSection(x, session, head, key);
    KeyIsInRoot(x, session, head, key);
    assert OfKept(None, rows, Only(line)) == Select(None, Parse(Kept(rows)), Only(line));
    RowsAreParsed(rows, Only(line));
    hide *;
    SynchronizedIs(rows, directives);
    FourHaveNoReturns(x, session, head, key);
    OnlyIsForeign(line, directives);
    UpsertedKeepsOthers(Kept(rows), directives, Only(line));
    SelectedSatisfies(None, Parse(Upserted(Kept(rows), directives)), Only(line));
    OnlyGainsNothing(line, Select(None, Parse(Kept(rows)), Only(line)),
                     Select(None, Parse(Upserted(Kept(rows), directives)), Only(line)));
  }

  lemma RowsAreParsed(rows: seq<Row>, p: (Section, Line) -> bool)
    requires IsFile(rows)
    ensures Select(None, Parse(Render(rows)), p) == OfRows(None, rows, p)
  {
    hide Select, Split, Render, IsFile, Classify;
    RenderLines(rows);
    ParseIs(Render(rows));
  }

  // ---------- One such file ----------

  lemma SessionIsPart()
    ensures IsPart(SESSION_ID, SESSION_ID)
  {
    assert IsPart("session", "session") && IsPart("id", "id");
    hide IsPart;
    PartsJoin("session", "session", "id", "id");
    assert "session" + "id" == SESSION_ID;
  }

  lemma {:induction false} LetterStays(text: string)
    requires text != "" && !IsWhiteChar(text[0])
    ensures Skip(text) == text
  {
  }

  lemma SessionLine(value: string)
    requires value != "" && HasNoEnds(value) && value[0] == '='
    ensures IsPlain(SESSION_ID + value) && Starts(SESSION_ID + value)
  {
    SessionIsPart();
    PartIsName(SESSION_ID, SESSION_ID);
    NameHasNoEnds(SESSION_ID);
    NameIsTrim(SESSION_ID);
    NoEndsJoin(SESSION_ID, value);
    SkipJoins(SESSION_ID, value);
    LetterStays(value);
    hide IsPart, IsName, Lower, Skip, HasNoEnds, IsWhiteChar, IsTerminator;
    assert |SESSION_ID| == 9;
    assert (SESSION_ID + value)[..9] == SESSION_ID && (SESSION_ID + value)[9..] == value;
  }

  lemma ShortIsPlain(text: string)
    requires |text| < 9 && HasNoEnds(text)
    ensures IsPlain(text) && !Starts(text)
  {
  }

  lemma FirstLineText()
    ensures "a" + "=" + "1" == "a=1" && "a" + "=" + "1\r[A]" == "a=1" + "\r" + "[A]"
  {
  }

  lemma FirstLineReads()
    ensures IsPlain("a=1") && !Starts("a=1") && Classify("a=1").Pair? && Classify("a=1" + "\r" + "[A]").Pair?
  {
    assert IsPart("a", "a");
    ShortIsPlain("a=1");
    hide *;
    PartIsName("a", "a");
    FirstLineText();
    KeyValueReads("a", "1");
    KeyValueReads("a", "1\r[A]");
  }

  lemma HeaderLine()
    ensures IsPlain("[A]") && !Starts("[A]") && Classify("[A]") == Header("a", "[A]")
  {
    assert IsPart("A", "a");
    PartIsName("A", "a");
    ShortIsPlain("[A]");
    hide Classify, Lower, IsName, IsPart, IsPlain, Starts;
    TitleReads("A");
    assert "[" + "A" + "]" == "[A]";
  }

  lemma KeyLine()
    ensures IsPlain("x=1") && !Starts("x=1") && Classify("x=1") == Pair("x", "x=1")
  {
    assert IsPart("x", "x");
    PartIsName("x", "x");
    ShortIsPlain("x=1");
    hide Classify, Lower, IsName, IsPart, IsPlain, Starts;
    KeyValueReads("x", "1");
    assert "x" + "=" + "1" == "x=1";
  }

  lemma LinesDiffer()
    ensures SESSION_ID + "=b" != "x=1" && "a=1" != "x=1"
  {
    assert |SESSION_ID + "=b"| == 11 && |"x=1"| == 3;
    assert "a=1"[0] != "x=1"[0];
  }

  lemma OneFileRunsOn()
    ensures RunsOn("a=1", SESSION_ID + "=b", "[A]", "x=1")
  {
    hide IsPlain, Starts, Classify;
    FirstLineReads();
    HeaderLine();
    KeyLine();
    SessionEnds();
    SessionLine("=b");
    LinesDiffer();
  }

  lemma SessionEnds()
    ensures HasNoEnds("=b") && "=b"[0] == '='
  {
  }

  /** The launcher's own directives, on a line, a session id, a section and its key: the key ends up in
      the root. */
  lemma HeaderIsLost(servers: string, session: string, origin: string)
    requires HasNoEnds(servers) && HasNoEnds(session) && HasNoEnds(origin)
    ensures var rows := FourLines("a=1", SESSION_ID + "=b", "[A]", "x=1");
            var after := Synchronized(Render(rows), Directives(servers, session, origin));
            && IsFile(rows)
            && Select(None, Parse(Render(rows)), Only(Pair("x", "x=1"))) == [(Some("a"), Pair("x", "x=1"))]
            && Select(None, Parse(after), Only(Pair("x", "x=1"))) == [(None, Pair("x", "x=1"))]
  {
    hide *;
    OneFileRunsOn();
    HeaderLine();
    KeyLine();
    LauncherIsProper(servers, session, origin);
    LauncherIsApart(servers, session, origin);
    assert |"x"| == 1;
    HeaderRunsOn("a=1", SESSION_ID + "=b", "[A]", "x=1", Directives(servers, session, origin));
  }

  // ---------- Both kinds of line ends ----------

  lemma TwoAreKept(x: string, session: string)
    requires Classify(x).Pair? && !Starts(x) && Starts(session)
    ensures Kept([Row(x, CRLF)] + ([Row(session, "")] + [])) == x + "\r"
  {
    SolidText(x);
    hide Starts, Skip, Classify, Kept, Doomed;
    SessionIsDropped(Row(session, ""), []);
    SolidIsKept(Row(x, CRLF), [Row(session, "")] + []);
    NothingIsKept();
    assert x + ("\r" + "") == x + "\r";
  }

  lemma NothingIsKept()
    ensures Kept([]) == ""
  {
  }

  /** A directive of a missing section, after one line. */
  lemma OpenedAfter(y: Line, d: Directive)
    requires y.Pair? && d.section != None
    ensures Upsert([y], d) == [y] + [Blank] + [HeaderOf(d), LineOf(d)]
  {
    MissedLast([], y, d);
    assert [] + [y] == [y];
    HeaderIs([y], d.section, 1);
    var lines := [y] + [Blank] + [HeaderOf(d), LineOf(d)];
    assert Placed([y], d) == lines;
    SqueezingTidyChangesNothing(lines);
    assert Body([y]) == [y] && lines + [] == lines;
  }

  lemma BothEnds(x: string, rest: string)
    requires OneLine(x)
    ensures !Uniform(x + "\r" + LF + ("" + LF + rest))
  {
    var s := x + "\r" + LF + ("" + LF + rest);
    assert EndsWithReturn(x + "\r") && OneLine(x + "\r");
    FirstLine(x + "\r", LF, "" + LF + rest);
    FirstLine("", LF, rest);
    HasEndFirst(s, true);
    HasEndFirst(s, false);
    HasEndFirst("" + LF + rest, false);
    hide HasEnd, IndexOf, OneLine;
  }

  function TwoRows(x: string, session: string): seq<Row> {
    [Row(x, CRLF)] + ([Row(session, "")] + [])
  }

  lemma TwoAreFile(x: string, session: string)
    requires IsPlain(x) && IsPlain(session)
    ensures IsFile(TwoRows(x, session))
  {
    hide IsPlain;
    assert IsFile([Row(session, "")] + []);
    FileCons(Row(x, CRLF), [Row(session, "")] + []);
  }

  /** The one line that is left still sets its key. */
  lemma OneLineIsLeft(x: string)
    requires IsPlain(x) && Classify(x).Pair?
    ensures Parse(x + "\r") == [Classify(x + "\r")] && Classify(x + "\r").Pair? && Newline(x + "\r") == LF
    ensures OneLine(x)
  {
    ReturnIsOneLine(x);
    NoEndsIsOneLine(x);
    HealedReturn(x);
    hide Dangles, OneLine, Split, Classify;
    HealedIsAlike(x + "\r");
    LastIsSplit(x + "\r");
    NoEndIsHere(x + "\r");
  }

  lemma OpenedTexts(y: Line, d: Directive)
    requires d.section != None
    ensures Texts([y] + [Blank] + [HeaderOf(d), LineOf(d)]) == [TextOf(y)] + ([""] + [d.title, d.text])
  {
  }

  /** One line with CRLF, a session id that ends the file, and one directive of a missing section: the
      carriage return that is left makes a CRLF, next to bare line feeds. A second synchronization still
      has these to change. */
  lemma MixedEndsRemain(x: string, session: string, d: Directive)
    requires IsPlain(x) && IsPlain(session) && Classify(x).Pair? && !Starts(x) && Starts(session)
    requires Fits(d) && d.section != None
    ensures var rows := TwoRows(x, session);
            IsFile(rows) && !Uniform(Synchronized(Render(rows), [d]))
  {
    var config := x + "\r";
    var y := Classify(config);
    assert TextOf(y) == config && TwoRows(x, session) == [Row(x, CRLF)] + ([Row(session, "")] + []);
    hide *;
    TwoAreFile(x, session);
    TwoAreKept(x, session);
    OneLineIsLeft(x);
    OpenedAfter(y, d);
    OpenedTexts(y, d);
    SynchronizedIs(TwoRows(x, session), [d]);
    OneUpserted(config, d);
    UpsertTextIs(config, d);
    JoinFirst(config, [""] + [d.title, d.text], LF);
    JoinFirst("", [d.title, d.text], LF);
    BothEnds(x, Join([d.title, d.text], LF));
  }

  lemma LastIsSplit(config: string)
    requires OneLine(config)
    ensures Split(config) == [config]
  {
    IndexIs(config, '\n', |config|);
  }

  lemma NoEndIsHere(config: string)
    requires OneLine(config)
    ensures Newline(config) == LF
  {
    IndexIs(config, '\n', |config|);
  }

  lemma OneUpserted(config: string, d: Directive)
    ensures Upserted(config, [d]) == UpsertText(config, d)
  {
    hide UpsertText;
    assert [d][..0] == [];
  }

  lemma UpsertTextIs(config: string, d: Directive)
    ensures Upsert(Parse(config), d) != []
    ensures UpsertText(config, d) == Join(Texts(Upsert(Parse(config), d)), Newline(config))
  {
    UpsertHasLines(Parse(config), d);
    hide Upsert, Parse, Join;
  }

  // ---------- The loops ----------

  method SkipWhite(config: string, start: nat) returns (end: nat)
    requires start <= |config|
    ensures start <= end <= |config| && config[end..] == Skip(config[start..])
  {
    end := start;
    while end < |config| && IsWhiteChar(config[end])
      invariant start <= end <= |config|
      invariant Skip(config[end..]) == Skip(config[start..])
    {
      assert config[end..][1..] == config[end + 1..];
      end := end + 1;
    }
  }

  method FindLineEnd(config: string, start: nat) returns (end: nat)
    requires start <= |config|
    ensures start <= end <= |config| && config[end..] == ToLineEnd(config[start..])
  {
    end := start;
    while end < |config| && !IsTerminator(config[end])
      invariant start <= end <= |config|
      invariant ToLineEnd(config[end..]) == ToLineEnd(config[start..])
    {
      assert config[end..][1..] == config[end + 1..];
      end := end + 1;
    }
  }

  /** Whether the word is there, white space aside, and where what follows it and white space begins. */
  method MatchWord(config: string, start: nat) returns (found: bool, end: nat)
    requires start <= |config|
    ensures found == IsWord(Skip(config[start..]))
    ensures found ==> start < end <= |config| && config[end..] == Skip(Skip(config[start..])[9..])
  {
    hide Skip;
    end := SkipWhite(config, start);
    assert |config[end..]| == |config| - end;
    if |config| < end + 9 {
      return false, start;
    }
    assert config[end..][..9] == config[end..end + 9] && config[end..][9..] == config[end + 9..];
    if Lower(config[end..end + 9]) != SESSION_ID {
      return false, start;
    }
    end := SkipWhite(config, end + 9);
    found := true;
  }

  /** Where a match at `start` ends, and whether it takes a line end. */
  method Match(config: string, start: nat) returns (found: bool, end: nat, newline: bool)
    requires start <= |config|
    ensures found == Starts(config[start..])
    ensures found ==> start < end <= |config| && config[end..] == Rest(config[start..])
    ensures found ==> newline == (|Rest(config[start..])| < |ValueEnd(config[start..])|)
  {
    hide Skip, IsWord, ToLineEnd;
    found, end := MatchWord(config, start);
    if !found || end == |config| || config[end] != '=' {
      return false, start, false;
    }
    assert config[end..][1..] == config[end + 1..];
    end := FindLineEnd(config, end + 1);
    assert config[end..] == ValueEnd(config[start..]);
    hide ValueEnd;
    var valueEnd := end;
    end := TakeLineEnd(config, end);
    newline := end > valueEnd;
  }

  method TakeLineEnd(config: string, start: nat) returns (end: nat)
    requires start <= |config|
    ensures start <= end <= |config| && config[end..] == PastLineFeed(config[start..])
  {
    end := start;
    if start + 1 < |config| && config[start] == '\r' && config[start + 1] == '\n' {
      end := start + 2;
    } else if start < |config| && config[start] == '\n' {
      end := start + 1;
    }
  }

  /** The replacement goes on where the last match ended, and otherwise one character on. */
  method RemoveSessions(config: string) returns (kept: string)
    ensures kept == Replaced(true, config)
  {
    kept := "";
    var index, start: bool := 0, true;
    assert config[0..] == config;
    while index < |config|
      invariant index <= |config|
      invariant kept + Replaced(start, config[index..]) == Replaced(true, config)
    {
      var found, end, newline := Match(config, index);
      if start && found {
        index, start := end, newline;
      } else {
        CopyOne(start, config[index..]);
        assert config[index..][1..] == config[index + 1..];
        kept := kept + [config[index]];
        index, start := index + 1, IsTerminator(config[index]);
      }
    }
  }

  lemma CopyOne(start: bool, s: string)
    requires s != "" && !(start && Starts(s))
    ensures Replaced(start, s) == [s[0]] + Replaced(IsTerminator(s[0]), s[1..])
  {
  }

  method UpsertEach(config: string, directives: seq<Directive>) returns (synchronized: string)
    ensures synchronized == Upserted(config, directives)
  {
    hide Parse, Upsert, Join, Newline;
    synchronized := config;
    var index: nat := 0;
    while index < |directives|
      invariant index <= |directives|
      invariant synchronized == Upserted(config, directives[..index])
    {
      assert directives[..index + 1][..index] == directives[..index];
      UpsertHasLines(Parse(synchronized), directives[index]);
      var lines := UpsertIniDirective(Parse(synchronized), directives[index]);
      synchronized := Join(Texts(lines), Newline(synchronized));
      index := index + 1;
    }
    assert directives[..index] == directives;
  }

  method SynchronizeClientConfig(config: string, servers: string, session: string, origin: string)
    returns (synchronized: string)
    ensures synchronized == Synchronized(config, Directives(servers, session, origin))
  {
    hide Directives;
    synchronized := RemoveSessions(config);
    synchronized := UpsertEach(synchronized, Directives(servers, session, origin));
  }
}
