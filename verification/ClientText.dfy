/**
 The text of the client configuration: how it splits into lines, what each line says, and how the
 lines are joined again (electron/services/client-config.ts:14-64).

 A text splits at every line feed, and a carriage return right before a line feed goes with it. Any
 other carriage return is part of a line.
 */
module ClientText {
  import opened Options
  import opened ClientConfig

  // ---------- Characters ----------

  predicate IsWhiteChar(c: char) {
    || '\U{9}' <= c <= '\r' || c == ' ' || c == '\U{a0}' || c == '\U{1680}' || '\U{2000}' <= c <= '\U{200a}'
    || c == '\U{2028}' || c == '\U{2029}' || c == '\U{202f}' || c == '\U{205f}' || c == '\U{3000}' || c == '\U{feff}'
  }

  predicate IsTerminator(c: char) { c == '\n' || c == '\r' || c == '\U{2028}' || c == '\U{2029}' }

  predicate HasNoEnds(s: string) { forall i :: 0 <= i < |s| ==> !IsTerminator(s[i]) }

  function LowerChar(c: char): char {
    if 'A' <= c <= 'Z' then (c as int + 32) as char else c
  }

  function Lower(s: string): (r: string)
    ensures |r| == |s|
    ensures forall i :: 0 <= i < |s| ==> r[i] == LowerChar(s[i])
  {
    if s == "" then "" else [LowerChar(s[0])] + Lower(s[1..])
  }

  /** Without the white characters in front. */
  function Skip(s: string): (r: string)
    ensures |r| <= |s| && (r != "" ==> !IsWhiteChar(r[0]))
  {
    if s != "" && IsWhiteChar(s[0]) then Skip(s[1..]) else s
  }

  /** Without the white characters behind. */
  function SkipBack(s: string): (r: string)
    ensures |r| <= |s|
  {
    if s != "" && IsWhiteChar(s[|s| - 1]) then SkipBack(s[..|s| - 1]) else s
  }

  function Trim(s: string): string { SkipBack(Skip(s)) }

  /** The first place of a character, or the length of the text. */
  function IndexOf(s: string, c: char): (n: nat)
    ensures n <= |s| && (n < |s| ==> s[n] == c)
    ensures forall i :: 0 <= i < n ==> s[i] != c
  {
    if s == "" || s[0] == c then 0 else 1 + IndexOf(s[1..], c)
  }

  lemma IndexIs(s: string, c: char, n: nat)
    requires n <= |s| && (n < |s| ==> s[n] == c) && forall i :: 0 <= i < n ==> s[i] != c
    ensures IndexOf(s, c) == n
  {
    var k := IndexOf(s, c);
    assert !(k < n) && !(n < k);
  }

  lemma {:induction false} SkipJoins(s: string, t: string)
    ensures Skip(s + t) == if Skip(s) == "" then Skip(t) else Skip(s) + t
  {
    hide IsWhiteChar;
    if s == "" {
      assert s + t == t;
    } else {
      assert (s + t)[1..] == s[1..] + t;
      SkipJoins(s[1..], t);
    }
  }

  // ---------- One line ----------

  /** A bracket, a name without closing brackets, a closing bracket, white space. */
  predicate Bracketed(s: string) {
    s != "" && s[0] == '[' && 1 < IndexOf(s, ']') < |s| && Skip(s[IndexOf(s, ']') + 1..]) == ""
  }

  function NameIn(s: string): string
    requires Bracketed(s)
  {
    Trim(s[1..IndexOf(s, ']')])
  }

  predicate IsTitle(text: string) { Bracketed(Skip(text)) }

  function KeyOf(text: string): string { Trim(text[..IndexOf(text, '=')]) }

  /** What the patterns for sections and directives make of a line. */
  function Classify(text: string): (line: Line)
    ensures TextOf(line) == text
  {
    if text == "" then Blank
    else if Skip(text) == "" then Space(text)
    else if IsTitle(text) then Header(Lower(NameIn(Skip(text))), text)
    else if IndexOf(text, '=') < |text| then Pair(Lower(KeyOf(text)), text)
    else Other(text)
  }

  function TextOf(line: Line): string {
    if line.Blank? then "" else line.text
  }

  // ---------- Lines ----------

  predicate EndsWithReturn(s: string) { s != "" && s[|s| - 1] == '\r' }

  /** What a line feed leaves of the line before it. */
  function Healed(s: string): string {
    if EndsWithReturn(s) then s[..|s| - 1] else s
  }

  function Split(s: string): (lines: seq<string>)
    ensures lines != []
  {
    var n := IndexOf(s, '\n');
    if n == |s| then [s] else [Healed(s[..n])] + Split(s[n + 1..])
  }

  function Join(lines: seq<string>, newline: string): string
    requires lines != []
  {
    if |lines| == 1 then lines[0] else lines[0] + newline + Join(lines[1..], newline)
  }

  /** Some line ends with a carriage return and a line feed, or some line with a line feed only. */
  predicate HasEnd(s: string, withReturn: bool) {
    var n := IndexOf(s, '\n');
    n < |s| && (EndsWithReturn(s[..n]) == withReturn || HasEnd(s[n + 1..], withReturn))
  }

  const CRLF: string := "\r\n"
  const LF: string := "\n"

  function Newline(s: string): string {
    if HasEnd(s, true) then CRLF else LF
  }

  /** Not both kinds of line ends. */
  predicate Uniform(s: string) { !HasEnd(s, true) || !HasEnd(s, false) }

  function Classified(texts: seq<string>): (lines: seq<Line>)
    ensures |lines| == |texts| && forall i :: 0 <= i < |texts| ==> lines[i] == Classify(texts[i])
  {
    seq(|texts|, i requires 0 <= i < |texts| => Classify(texts[i]))
  }

  function Texts(lines: seq<Line>): (texts: seq<string>)
    ensures |texts| == |lines| && forall i :: 0 <= i < |lines| ==> texts[i] == TextOf(lines[i])
  {
    seq(|lines|, i requires 0 <= i < |lines| => TextOf(lines[i]))
  }

  function Parse(s: string): (lines: seq<Line>)
    ensures lines != []
  {
    Classified(Split(s))
  }

  /** One directive, from text to text. */
  function UpsertText(config: string, d: Directive): string {
    UpsertHasLines(Parse(config), d);
    Join(Texts(Upsert(Parse(config), d)), Newline(config))
  }

  lemma UpsertHasLines(lines: seq<Line>, d: Directive)
    requires lines != []
    ensures Upsert(lines, d) != []
  {
    UpsertTidies(lines, d);
  }

  // ---------- Joining and splitting ----------

  /** What joining and splitting makes of some lines: with line feeds alone, a carriage return at the end
      of any line but the last is lost. */
  function Resplit(texts: seq<string>, newline: string): (r: seq<string>)
    ensures |r| == |texts|
  {
    if |texts| <= 1 then texts
    else [if newline == LF then Healed(texts[0]) else texts[0]] + Resplit(texts[1..], newline)
  }

  predicate IsNewline(newline: string) { newline == LF || newline == CRLF }

  predicate OneLine(s: string) { forall i :: 0 <= i < |s| ==> s[i] != '\n' }

  /** The first line of a text, and the rest. */
  lemma FirstLine(x: string, newline: string, rest: string)
    requires OneLine(x) && IsNewline(newline)
    ensures var s := x + newline + rest; var n := IndexOf(s, '\n');
            n < |s| && s[n + 1..] == rest && s[..n] == if newline == LF then x else x + "\r"
  {
    var s := x + newline + rest;
    var n := |x| + |newline| - 1;
    assert s[n] == '\n';
    IndexIs(s, '\n', n);
    assert s[n + 1..] == rest;
    assert s[..n] == if newline == LF then x else x + "\r";
  }

  lemma HealedReturn(x: string)
    ensures Healed(x + "\r") == x
  {
    assert (x + "\r")[..|x|] == x;
  }

  lemma {:induction false} SplitJoin(texts: seq<string>, newline: string)
    requires texts != [] && IsNewline(newline) && forall x :: x in texts ==> OneLine(x)
    ensures Split(Join(texts, newline)) == Resplit(texts, newline)
  {
    if |texts| == 1 {
      assert OneLine(texts[0]);
    } else {
      assert OneLine(texts[0]);
      hide OneLine;
      SplitJoin(texts[1..], newline);
      FirstLine(texts[0], newline, Join(texts[1..], newline));
      HealedReturn(texts[0]);
    }
  }

  lemma {:induction false} SplitIsOneLine(s: string)
    ensures forall x :: x in Split(s) ==> OneLine(x)
  {
    var n := IndexOf(s, '\n');
    if n < |s| {
      SplitIsOneLine(s[n + 1..]);
    }
  }

  lemma SplitFirst(s: string)
    ensures var n := IndexOf(s, '\n');
            Split(s) == if n == |s| then [s] else [Healed(s[..n])] + Split(s[n + 1..])
  {
    hide IndexOf, Healed;
  }

  lemma FirstEnd(config: string) returns (newline: string)
    requires IndexOf(config, '\n') < |config|
    ensures var n := IndexOf(config, '\n');
            && newline == (if EndsWithReturn(config[..n]) then CRLF else LF) && IsNewline(newline)
            && config == Healed(config[..n]) + (newline + config[n + 1..])
  {
    var n := IndexOf(config, '\n');
    newline := if EndsWithReturn(config[..n]) then CRLF else LF;
    assert config == config[..n] + "\n" + config[n + 1..];
    hide IndexOf;
  }

  lemma HasEndFirst(s: string, withReturn: bool)
    ensures var n := IndexOf(s, '\n');
            HasEnd(s, withReturn) <==>
            n < |s| && (EndsWithReturn(s[..n]) == withReturn || HasEnd(s[n + 1..], withReturn))
  {
    hide IndexOf, EndsWithReturn;
  }

  /** Joining the lines of a text gives it back exactly when it has no other line ends. */
  lemma {:induction false} JoinSplit(s: string, withReturn: bool)
    ensures Join(Split(s), if withReturn then CRLF else LF) == s <==> !HasEnd(s, !withReturn)
  {
    hide IndexOf, Split, HasEnd, Healed, EndsWithReturn;
    var n, newline := IndexOf(s, '\n'), if withReturn then CRLF else LF;
    SplitFirst(s);
    HasEndFirst(s, !withReturn);
    if n < |s| {
      JoinSplit(s[n + 1..], withReturn);
      JoinFirst(Healed(s[..n]), Split(s[n + 1..]), newline);
      hide Join;
      FirstJoined(s[..n], s[n + 1..], withReturn);
      assert s == s[..n] + "\n" + s[n + 1..];
    }
  }

  lemma JoinFirst(x: string, rest: seq<string>, newline: string)
    requires rest != []
    ensures Join([x] + rest, newline) == x + newline + Join(rest, newline)
  {
    assert ([x] + rest)[1..] == rest;
  }

  lemma FirstJoined(x: string, rest: string, withReturn: bool)
    ensures var newline := if withReturn then CRLF else LF;
            var joined := Join(Split(rest), newline);
            Healed(x) + newline + joined == x + "\n" + rest <==> EndsWithReturn(x) == withReturn && joined == rest
  {
    var newline := if withReturn then CRLF else LF;
    var joined := Join(Split(rest), newline);
    hide Join, Split;
    var a, b := Healed(x) + newline + joined, x + "\n" + rest;
    if EndsWithReturn(x) == withReturn {
      assert Healed(x) + newline == x + "\n";
      assert a == (x + "\n") + joined && b == (x + "\n") + rest;
      assert a[|x| + 1..] == joined && b[|x| + 1..] == rest;
    } else if withReturn {
      assert a[|x|] == '\r' && b[|x|] == '\n';
    } else {
      assert a[|x| - 1] == '\n' && b[|x| - 1] == '\r';
    }
  }

  // ---------- A carriage return behind a line ----------

  /** The same section, or the same key, or neither. */
  predicate Alike(a: Line, b: Line) {
    && a.Header? == b.Header? && (a.Header? ==> a.section == b.section)
    && a.Pair? == b.Pair? && (a.Pair? ==> a.key == b.key)
  }

  /** A carriage return behind a line does not change what it says. */
  lemma HealedIsAlike(text: string)
    ensures Alike(Classify(text), Classify(Healed(text)))
    ensures Skip(text) != "" <==> Skip(Healed(text)) != ""
  {
    if EndsWithReturn(text) {
      var x := Healed(text);
      assert text == x + "\r";
      SkipJoins(x, "\r");
      if Skip(x) != "" {
        BracketedWithReturn(Skip(x));
        KeyWithReturn(x);
      }
    }
  }

  lemma BracketedWithReturn(s: string)
    requires s != ""
    ensures Bracketed(s + "\r") <==> Bracketed(s)
    ensures Bracketed(s) ==> NameIn(s + "\r") == NameIn(s)
  {
    hide Trim, Skip, IsWhiteChar;
    var n := IndexOf(s, ']');
    IndexWithReturn(s, ']');
    assert (s + "\r")[0] == s[0];
    if 1 < n < |s| {
      assert (s + "\r")[n + 1..] == s[n + 1..] + "\r" && (s + "\r")[1..n] == s[1..n];
      SkipReturn();
      SkipJoins(s[n + 1..], "\r");
    }
  }

  lemma SkipReturn()
    ensures Skip("\r") == ""
  {
  }

  lemma KeyWithReturn(x: string)
    ensures IndexOf(x, '=') < |x| <==> IndexOf(x + "\r", '=') < |x + "\r"|
    ensures IndexOf(x, '=') < |x| ==> KeyOf(x + "\r") == KeyOf(x)
  {
    var n := IndexOf(x, '=');
    IndexWithReturn(x, '=');
    if n < |x| {
      assert (x + "\r")[..n] == x[..n];
    }
  }

  lemma IndexWithReturn(s: string, c: char)
    requires c != '\r'
    ensures IndexOf(s + "\r", c) == if IndexOf(s, c) < |s| then IndexOf(s, c) else |s| + 1
  {
    IndexIs(s + "\r", c, if IndexOf(s, c) < |s| then IndexOf(s, c) else |s| + 1);
  }

  // ---------- Reading back what was written ----------

  /** A line is what its text says, and stands on one line. */
  predicate Reads(line: Line) { line == Classify(TextOf(line)) && OneLine(TextOf(line)) }

  /** A directive whose line and header are read as such, and hold no line ends. */
  predicate Fits(d: Directive) {
    && Reads(LineOf(d)) && HasNoEnds(d.text)
    && (d.section != None ==> Reads(HeaderOf(d)) && HasNoEnds(d.title))
  }

  lemma {:induction false} SqueezedHas(lines: seq<Line>)
    ensures forall x :: x in Squeezed(lines) ==> x in lines
  {
    if lines != [] {
      SqueezedHas(lines[..|lines| - 1]);
    }
  }

  lemma {:induction false} RewrittenHas(lines: seq<Line>, d: Directive)
    ensures forall x :: x in Rewritten(lines, d) ==> x in lines || x == Blank || x == LineOf(d)
  {
    hide Found, SectionAfter, Hits;
    if lines != [] {
      RewrittenHas(lines[..|lines| - 1], d);
    }
  }

  lemma PlacedHas(lines: seq<Line>, d: Directive)
    ensures forall x :: x in Placed(lines, d) ==>
              x in lines || x == Blank || x == LineOf(d) || (d.section != None && x == HeaderOf(d))
  {
    hide Found, HeaderAt;
    RewrittenHas(lines, d);
    hide Rewritten;
  }

  /** Every line afterwards was there before, or is blank or of the directive. */
  lemma UpsertHas(lines: seq<Line>, d: Directive)
    ensures forall x :: x in Upsert(lines, d) ==>
              x in lines || x == Blank || x == LineOf(d) || (d.section != None && x == HeaderOf(d))
  {
    PlacedHas(Body(lines), d);
    SqueezedHas(Placed(Body(lines), d));
    hide Placed, Squeezed;
  }

  lemma ParseReads(s: string)
    ensures forall x :: x in Parse(s) ==> Reads(x)
  {
    SplitIsOneLine(s);
    var texts := Split(s);
    forall x | x in Parse(s) ensures Reads(x) {
      var i :| 0 <= i < |texts| && x == Classify(texts[i]);
      assert OneLine(texts[i]);
    }
  }

  lemma UpsertReads(config: string, d: Directive)
    requires Fits(d)
    ensures forall x :: x in Upsert(Parse(config), d) ==> Reads(x)
  {
    ParseReads(config);
    UpsertHas(Parse(config), d);
    hide Parse, Upsert;
    assert Reads(Blank);
    hide Reads;
  }

  /** The lines of the written text: all those that were to be written, but for carriage returns that
      line feeds take with them. */
  lemma UpsertedLines(config: string, d: Directive)
    requires Fits(d)
    ensures var lines := Upsert(Parse(config), d);
            lines != [] && Split(UpsertText(config, d)) == Resplit(Texts(lines), Newline(config))
  {
    var lines := Upsert(Parse(config), d);
    UpsertHasLines(Parse(config), d);
    UpsertReads(config, d);
    hide Upsert, Parse;
    forall x | x in Texts(lines) ensures OneLine(x) {
      var i :| 0 <= i < |lines| && x == TextOf(lines[i]);
      assert lines[i] in lines;
    }
    SplitJoin(Texts(lines), Newline(config));
  }
}
