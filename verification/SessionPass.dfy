/**
 Removing stale session ids from the text of a client configuration (electron/services/client-config.ts:75).

 The pattern may start wherever a line begins, also between the two characters of a CRLF, and it takes
 white space, line ends too, before the session id. So in a CRLF file a session id takes the line feed of
 the line before it along, and that line runs on into the line after the session id.
 */
module SessionPass {
  import opened Options
  import opened ClientConfig
  import opened ClientText

  // ---------- The pattern ----------

  predicate IsWord(u: string) { |u| >= 9 && Lower(u[..9]) == SESSION_ID }

  /** The pattern matches at the front, if a line begins there: white space, the key, white space, an
      equals sign. */
  predicate Starts(s: string) {
    var u := Skip(s);
    IsWord(u) && var v := Skip(u[9..]); v != "" && v[0] == '='
  }

  function ToLineEnd(s: string): (r: string)
    ensures |r| <= |s|
  {
    if s == "" || IsTerminator(s[0]) then s else ToLineEnd(s[1..])
  }

  function PastLineFeed(s: string): (r: string)
    ensures |r| <= |s|
  {
    if |s| > 1 && s[..2] == CRLF then s[2..] else if s != "" && s[0] == '\n' then s[1..] else s
  }

  /** What follows the value. */
  function ValueEnd(s: string): (r: string)
    requires Starts(s)
    ensures |r| < |s|
  {
    ToLineEnd(Skip(Skip(s)[9..])[1..])
  }

  /** What follows the match. */
  function Rest(s: string): (r: string)
    requires Starts(s)
    ensures |r| < |s|
  {
    PastLineFeed(ValueEnd(s))
  }

  /** The text without the matches, from the front. A line begins here if `start`. */
  function Replaced(start: bool, s: string): string
    decreases |s|
  {
    if s == "" then ""
    else if start && Starts(s) then Replaced(|Rest(s)| < |ValueEnd(s)|, Rest(s))
    else [s[0]] + Replaced(IsTerminator(s[0]), s[1..])
  }

  // ---------- A file as rows ----------

  /** A line and what ends it. */
  datatype Row = Row(text: string, end: string)

  /** No line end within, and no session id whose equals sign is on a later line. */
  predicate IsPlain(text: string) {
    HasNoEnds(text) && !Dangles(text)
  }

  predicate Dangles(text: string) {
    var u := Skip(text);
    IsWord(u) && Skip(u[9..]) == ""
  }

  /** Every row ends with a line feed or with CRLF, but for the last, which ends with the file. */
  predicate IsFile(rows: seq<Row>) {
    && rows != []
    && (forall i :: 0 <= i < |rows| ==> IsPlain(rows[i].text))
    && (forall i :: 0 <= i < |rows| ==> if i < |rows| - 1 then IsNewline(rows[i].end) else rows[i].end == "")
  }

  function Render(rows: seq<Row>): string {
    if rows == [] then "" else rows[0].text + (rows[0].end + Render(rows[1..]))
  }

  function RowTexts(rows: seq<Row>): (texts: seq<string>)
    ensures |texts| == |rows| && forall i :: 0 <= i < |rows| ==> texts[i] == rows[i].text
  {
    seq(|rows|, i requires 0 <= i < |rows| => rows[i].text)
  }

  /** The rows of a text. */
  function RowsOf(s: string): (rows: seq<Row>)
    ensures rows != []
  {
    var n := IndexOf(s, '\n');
    if n == |s| then [Row(s, "")]
    else [Row(Healed(s[..n]), if EndsWithReturn(s[..n]) then CRLF else LF)] + RowsOf(s[n + 1..])
  }

  lemma RowsFirst(s: string)
    ensures var n := IndexOf(s, '\n');
            RowsOf(s) == if n == |s| then [Row(s, "")]
                         else [Row(Healed(s[..n]), if EndsWithReturn(s[..n]) then CRLF else LF)] + RowsOf(s[n + 1..])
  {
    hide IndexOf, Healed, EndsWithReturn;
  }

  /** Every text has rows, and they make a file if each of its lines is plain. */
  lemma {:induction false} EveryTextHasRows(s: string)
    ensures Render(RowsOf(s)) == s
    ensures (forall x :: x in Split(s) ==> IsPlain(x)) ==> IsFile(RowsOf(s))
  {
    hide IndexOf, Healed, EndsWithReturn, Split, IsPlain, RowsOf, IsNewline;
    var n := IndexOf(s, '\n');
    SplitFirst(s);
    RowsFirst(s);
    if n == |s| {
      assert s + ("" + "") == s;
      assert Render([Row(s, "")][1..]) == "";
    } else {
      var rest := s[n + 1..];
      EveryTextHasRows(rest);
      var newline := FirstEnd(s);
      assert RowsOf(s)[1..] == RowsOf(rest);
      FileInFront(Row(Healed(s[..n]), newline), RowsOf(rest));
    }
  }

  lemma FileInFront(r: Row, rest: seq<Row>)
    ensures IsPlain(r.text) && IsNewline(r.end) && IsFile(rest) ==> IsFile([r] + rest)
  {
    hide IsPlain, IsNewline;
  }

  predicate IsSessionRow(r: Row) { Starts(r.text) }

  predicate IsWhiteRow(r: Row) { Skip(r.text) == "" }

  /** The first row is a session id, or white space right before one. */
  predicate Doomed(rows: seq<Row>) {
    rows != [] && (IsSessionRow(rows[0]) || (IsWhiteRow(rows[0]) && Doomed(rows[1..])))
  }

  /** What is left of a file: the rows that are not doomed. A CRLF before a session id loses its line
      feed. */
  function Kept(rows: seq<Row>): string {
    if rows == [] then ""
    else if Doomed(rows) then Kept(rows[1..])
    else rows[0].text + ((if rows[0].end == CRLF && Doomed(rows[1..]) then "\r" else rows[0].end) + Kept(rows[1..]))
  }

  // ---------- The pattern removes the doomed rows ----------

  /** Nothing, or a line end and what comes after it. */
  predicate IsTail(w: string) { w == "" || w[0] == '\n' || w[0] == '\r' }

  lemma FileTail(rows: seq<Row>)
    requires IsFile(rows)
    ensures IsTail(rows[0].end + Render(rows[1..]))
    ensures |rows| > 1 ==> IsFile(rows[1..])
    ensures |rows| == 1 ==> rows[0].end + Render(rows[1..]) == ""
  {
    hide IsPlain;
  }

  lemma WordBefore(u: string, w: string)
    requires IsTail(w)
    ensures IsWord(u + w) <==> IsWord(u)
  {
    if |u| >= 9 {
      assert (u + w)[..9] == u[..9];
    } else if |u + w| >= 9 {
      assert (u + w)[..9][|u|] == w[0];
      assert LowerChar(w[0]) == w[0];
    }
  }

  lemma StartsBefore(text: string, w: string)
    requires Skip(text) != "" && !Dangles(text) && IsTail(w)
    ensures Starts(text + w) <==> Starts(text)
  {
    hide IsWord, Skip, IsTail;
    var u := Skip(text);
    SkipJoins(text, w);
    WordBefore(u, w);
    if IsWord(u + w) {
      NineFirst(u);
      assert (u + w)[9..] == u[9..] + w;
      SkipJoins(u[9..], w);
    }
  }

  lemma NineFirst(u: string)
    requires IsWord(u)
    ensures |u| >= 9
  {
  }

  lemma EndIsWhite(newline: string)
    requires IsNewline(newline) || newline == ""
    ensures Skip(newline) == ""
  {
    assert IsNewline(newline) ==> Skip(newline[1..]) == "" by {
      if newline == CRLF {
        assert newline[1..] == "\n";
        assert "\n"[1..] == "";
      }
    }
  }

  /** White space before makes no difference. */
  lemma StartsAfter(white: string, s: string)
    requires Skip(white) == ""
    ensures Starts(white + s) <==> Starts(s)
    ensures Starts(s) ==> ValueEnd(white + s) == ValueEnd(s)
  {
    SkipJoins(white, s);
  }

  lemma StartsAfterRow(r: Row, s: string)
    requires IsWhiteRow(r) && (IsNewline(r.end) || r.end == "")
    ensures Starts(r.text + (r.end + s)) <==> Starts(s)
    ensures Starts(s) ==> ValueEnd(r.text + (r.end + s)) == ValueEnd(s)
  {
    EndIsWhite(r.end);
    hide Starts, Skip;
    StartsAfter(r.end, s);
    StartsAfter(r.text, r.end + s);
  }

  /** The pattern matches at the beginning of a row exactly when the row is doomed. */
  lemma {:induction false} StartsExactlyWhen(rows: seq<Row>)
    requires IsFile(rows)
    ensures Starts(Render(rows)) <==> Doomed(rows)
  {
    FileTail(rows);
    var r, rest := rows[0], Render(rows[1..]);
    assert IsPlain(r.text);
    hide Starts, Skip;
    if !IsWhiteRow(r) {
      StartsBefore(r.text, r.end + rest);
    } else {
      StartsAfterRow(r, rest);
      WhiteIsNoSession(r.text);
      if |rows| > 1 {
        StartsExactlyWhen(rows[1..]);
      } else {
        WhiteIsNoSession("");
      }
    }
  }

  lemma WhiteIsNoSession(text: string)
    requires Skip(text) == ""
    ensures !Starts(text)
  {
  }

  lemma {:induction false} LineEndOf(text: string, w: string)
    requires HasNoEnds(text) && IsTail(w)
    ensures ToLineEnd(text + w) == w
  {
    if text == "" {
      assert text + w == w;
    } else {
      assert (text + w)[1..] == text[1..] + w;
      LineEndOf(text[1..], w);
    }
  }

  lemma {:induction false} SkipIsPart(s: string)
    ensures exists k :: 0 <= k <= |s| && Skip(s) == s[k..]
  {
    if s != "" && IsWhiteChar(s[0]) {
      SkipIsPart(s[1..]);
      var k :| 0 <= k <= |s[1..]| && Skip(s[1..]) == s[1..][k..];
      assert s[1..][k..] == s[k + 1..];
    } else {
      assert s[0..] == s;
    }
  }

  lemma SkipHasNoEnds(s: string)
    requires HasNoEnds(s)
    ensures HasNoEnds(Skip(s))
  {
    SkipIsPart(s);
  }

  /** The match takes a session row with its line end. */
  lemma SessionEnd(text: string, w: string)
    requires Starts(text) && HasNoEnds(text) && IsTail(w)
    ensures Starts(text + w) && ValueEnd(text + w) == w
  {
    hide IsWord, Skip, HasNoEnds, IsTail, ToLineEnd;
    var u := Skip(text);
    NineFirst(u);
    WordIsNotEmpty(u);
    var v := Skip(u[9..]);
    SkipJoins(text, w);
    WordBefore(u, w);
    assert (u + w)[9..] == u[9..] + w;
    SkipJoins(u[9..], w);
    assert (v + w)[1..] == v[1..] + w;
    ValueHasNoEnds(text);
    LineEndOf(v[1..], w);
  }

  lemma WordIsNotEmpty(u: string)
    requires IsWord(u)
    ensures u != ""
  {
  }

  lemma ValueHasNoEnds(text: string)
    requires Starts(text) && HasNoEnds(text)
    ensures HasNoEnds(Skip(Skip(text)[9..])[1..])
  {
    hide Skip, IsTerminator;
    SkipHasNoEnds(text);
    SkipHasNoEnds(Skip(text)[9..]);
  }

  lemma PastEnd(newline: string, s: string)
    requires IsNewline(newline)
    ensures PastLineFeed(newline + s) == s
  {
    if newline == CRLF {
      assert (CRLF + s)[..2] == CRLF && (CRLF + s)[2..] == s;
    } else {
      assert |s| > 0 ==> (LF + s)[..2][0] == '\n';
      assert (LF + s)[1..] == s;
    }
  }

  lemma {:induction false} PlainIsCopied(text: string, w: string)
    requires HasNoEnds(text)
    ensures Replaced(false, text + w) == text + Replaced(false, w)
  {
    hide Starts;
    if text == "" {
      assert text + w == w && text + Replaced(false, w) == Replaced(false, w);
    } else {
      assert (text + w)[1..] == text[1..] + w;
      PlainIsCopied(text[1..], w);
      assert [text[0]] + (text[1..] + Replaced(false, w)) == text + Replaced(false, w);
    }
  }

  /** A line at which the pattern does not match is copied. */
  lemma LineIsCopied(text: string, w: string)
    requires HasNoEnds(text) && !Starts(text + w)
    ensures Replaced(true, text + w) == text + Replaced(text == "", w)
  {
    hide Starts;
    if text == "" {
      assert text + w == w && text + Replaced(true, w) == Replaced(true, w);
    } else {
      assert (text + w)[1..] == text[1..] + w;
      PlainIsCopied(text[1..], w);
      assert [text[0]] + (text[1..] + Replaced(false, w)) == text + Replaced(false, w);
    }
  }

  lemma DoomedMatch(rows: seq<Row>)
    requires IsFile(rows) && Doomed(rows)
    ensures Starts(Render(rows))
    ensures IsSessionRow(rows[0]) ==> ValueEnd(Render(rows)) == rows[0].end + Render(rows[1..])
    ensures !IsSessionRow(rows[0]) ==> |rows| > 1 && Starts(Render(rows[1..]))
                                       && ValueEnd(Render(rows)) == ValueEnd(Render(rows[1..]))
  {
    StartsExactlyWhen(rows);
    FileTail(rows);
    var r := rows[0];
    assert IsPlain(r.text);
    hide Starts, ValueEnd, Skip;
    if IsSessionRow(r) {
      SessionEnd(r.text, r.end + Render(rows[1..]));
    } else {
      StartsExactlyWhen(rows[1..]);
      StartsAfterRow(r, Render(rows[1..]));
    }
  }

  /** A line feed is copied if the pattern does not match before it. */
  lemma FeedIsCopied(start: bool, s: string)
    requires start ==> !Starts("\n" + s)
    ensures Replaced(start, "\n" + s) == "\n" + Replaced(true, s)
  {
    hide Starts;
    assert ("\n" + s)[1..] == s;
  }

  lemma ReturnIsCopied(start: bool, s: string)
    requires start ==> !Starts("\r" + s)
    ensures Replaced(start, "\r" + s) == "\r" + Replaced(true, s)
  {
    hide Starts;
    assert ("\r" + s)[1..] == s;
  }

  lemma MatchIsDropped(s: string, t: string)
    requires Starts(s) && Starts(t) && ValueEnd(s) == ValueEnd(t)
    ensures Replaced(true, s) == Replaced(true, t)
  {
    hide Starts, ValueEnd;
  }

  lemma EndsAreWhite()
    ensures Skip(LF) == "" && Skip(CRLF) == ""
  {
    EndIsWhite(LF);
    EndIsWhite(CRLF);
  }

  lemma FeedEndIsCopied(start: bool, rows: seq<Row>)
    requires IsFile(rows) && (start ==> !Doomed(rows))
    ensures Replaced(start, LF + Render(rows)) == LF + Replaced(true, Render(rows))
  {
    hide Replaced, Render, Starts, Doomed, Skip, IsFile, ValueEnd;
    EndsAreWhite();
    StartsExactlyWhen(rows);
    StartsAfter(LF, Render(rows));
    FeedIsCopied(start, Render(rows));
  }

  lemma ReturnEndIsCopied(start: bool, rows: seq<Row>)
    requires IsFile(rows) && (start ==> !Doomed(rows))
    ensures Replaced(start, CRLF + Render(rows)) ==
            (if Doomed(rows) then "\r" else CRLF) + Replaced(true, Render(rows))
  {
    hide Replaced, Render, Starts, Doomed, Skip, IsFile, ValueEnd;
    var s := Render(rows);
    EndsAreWhite();
    StartsExactlyWhen(rows);
    StartsAfter(LF, s);
    StartsAfter(CRLF, s);
    assert CRLF + s == "\r" + (LF + s);
    ReturnIsCopied(start, LF + s);
    if Doomed(rows) {
      MatchIsDropped(LF + s, s);
    } else {
      FeedIsCopied(true, s);
      assert "\r" + (LF + Replaced(true, s)) == CRLF + Replaced(true, s);
    }
  }

  /** The end of a row that is kept, and what comes after it. */
  lemma EndIsCopied(start: bool, newline: string, rows: seq<Row>)
    requires IsFile(rows) && IsNewline(newline) && (start ==> !Doomed(rows))
    ensures Replaced(start, newline + Render(rows)) ==
            (if newline == CRLF && Doomed(rows) then "\r" else newline) + Replaced(true, Render(rows))
  {
    hide Replaced, Render, Doomed, IsFile;
    if newline == LF {
      FeedEndIsCopied(start, rows);
    } else {
      ReturnEndIsCopied(start, rows);
    }
  }

  /** The pattern removes exactly the doomed rows, and the line feed of a CRLF before them. */
  lemma {:induction false} ReplacedIsKept(rows: seq<Row>)
    requires IsFile(rows)
    ensures Replaced(true, Render(rows)) == Kept(rows)
  {
    FileTail(rows);
    hide IsFile, Starts, ValueEnd;
    if |rows| > 1 {
      ReplacedIsKept(rows[1..]);
    }
    if Doomed(rows) {
      DoomedIsRemoved(rows);
    } else {
      var r, rest := rows[0], Render(rows[1..]);
      StartsExactlyWhen(rows);
      RowIsPlain(rows);
      LineIsCopied(r.text, r.end + rest);
      if |rows| > 1 {
        RowEnds(rows);
        assert r.text == "" ==> !Doomed(rows[1..]);
        EndIsCopied(r.text == "", r.end, rows[1..]);
      }
    }
  }

  lemma RowIsPlain(rows: seq<Row>)
    requires IsFile(rows)
    ensures rows != [] && HasNoEnds(rows[0].text)
  {
    assert IsPlain(rows[0].text);
  }

  lemma RowEnds(rows: seq<Row>)
    requires IsFile(rows) && |rows| > 1
    ensures IsNewline(rows[0].end)
  {
  }

  lemma {:induction false} DoomedIsRemoved(rows: seq<Row>)
    requires IsFile(rows) && Doomed(rows)
    requires |rows| > 1 ==> Replaced(true, Render(rows[1..])) == Kept(rows[1..])
    ensures Replaced(true, Render(rows)) == Kept(rows)
  {
    DoomedMatch(rows);
    FileTail(rows);
    hide Starts, ValueEnd;
    if !IsSessionRow(rows[0]) {
      MatchIsDropped(Render(rows), Render(rows[1..]));
    } else if |rows| > 1 {
      RowEnds(rows);
      PastEnd(rows[0].end, Render(rows[1..]));
    }
  }
}
