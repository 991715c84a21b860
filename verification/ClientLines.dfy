/**
 What the patterns for section headers and directives make of a line
 (electron/services/client-config.ts:20-21, 75), in terms of its parts.
 */
module ClientLines {
  import opened Options
  import opened ClientConfig
  import opened ClientText
  import opened SessionPass

  /** White characters and line ends, by code points, and the letters that have two cases. */
  lemma Characters(c: char)
    ensures var n := c as int;
            IsWhiteChar(c) <==>
            || 9 <= n <= 13 || n == 32 || n == 160 || n == 5760 || 8192 <= n <= 8202 || n == 8232 || n == 8233
            || n == 8239 || n == 8287 || n == 12288 || n == 65279
    ensures IsTerminator(c) <==> c as int == 10 || c as int == 13 || c as int == 8232 || c as int == 8233
    ensures LowerChar(c) as int == c as int + if 65 <= c as int <= 90 then 32 else 0
  {
  }

  predicate IsWhite(s: string) { forall i :: 0 <= i < |s| ==> IsWhiteChar(s[i]) }

  /** Neither end is white. */
  predicate IsTrimmed(s: string) { s != "" && !IsWhiteChar(s[0]) && !IsWhiteChar(s[|s| - 1]) }

  predicate HasNo(s: string, c: char) { forall i :: 0 <= i < |s| ==> s[i] != c }

  lemma {:induction false} SkipsWhite(s: string) returns (n: nat)
    ensures n <= |s| && Skip(s) == s[n..] && IsWhite(s[..n])
  {
    hide IsWhiteChar;
    n := 0;
    if s != "" && IsWhiteChar(s[0]) {
      n := SkipsWhite(s[1..]);
      n := n + 1;
      assert s[1..][n - 1..] == s[n..];
      assert forall i :: 0 < i < n ==> s[..n][i] == s[1..][..n - 1][i - 1];
    }
  }

  lemma {:induction false} SkipsBackWhite(s: string) returns (n: nat)
    ensures n <= |s| && SkipBack(s) == s[..n] && IsWhite(s[n..]) && (n > 0 ==> !IsWhiteChar(s[n - 1]))
  {
    hide IsWhiteChar;
    n := |s|;
    if s != "" && IsWhiteChar(s[|s| - 1]) {
      n := SkipsBackWhite(s[..|s| - 1]);
      assert s[..|s| - 1][..n] == s[..n];
      forall i | n <= i < |s| - 1 ensures IsWhiteChar(s[i]) {
        assert s[i] == s[..|s| - 1][n..][i - n];
      }
    }
  }

  lemma {:induction false} WhiteIsSkipped(w: string, s: string)
    requires IsWhite(w) && (s != "" ==> !IsWhiteChar(s[0]))
    ensures Skip(w + s) == s
  {
    hide IsWhiteChar;
    if w == "" {
      assert w + s == s;
    } else {
      assert (w + s)[1..] == w[1..] + s;
      WhiteIsSkipped(w[1..], s);
    }
  }

  lemma {:induction false} WhiteIsSkippedBack(s: string, w: string)
    requires IsWhite(w) && (s != "" ==> !IsWhiteChar(s[|s| - 1]))
    ensures SkipBack(s + w) == s
  {
    hide IsWhiteChar;
    if w == "" {
      assert s + w == s;
    } else {
      assert (s + w)[..|s + w| - 1] == s + w[..|w| - 1];
      WhiteIsSkippedBack(s, w[..|w| - 1]);
    }
  }

  /** Trimming finds the middle. */
  lemma TrimOf(before: string, middle: string, after: string)
    requires IsWhite(before) && IsWhite(after) && IsTrimmed(middle)
    ensures Trim(before + middle + after) == middle
  {
    hide IsWhiteChar;
    assert before + middle + after == before + (middle + after);
    WhiteIsSkipped(before, middle + after);
    WhiteIsSkippedBack(middle, after);
  }

  lemma TrimSplits(s: string) returns (before: string, after: string)
    ensures s == before + Trim(s) + after && IsWhite(before) && IsWhite(after)
    ensures Trim(s) == "" || IsTrimmed(Trim(s))
  {
    hide IsWhiteChar;
    var n := SkipsWhite(s);
    var m := SkipsBackWhite(Skip(s));
    before, after := s[..n], Skip(s)[m..];
    hide Skip, SkipBack;
    assert s == s[..n] + s[n..] && Skip(s) == Skip(s)[..m] + Skip(s)[m..];
    FrontOf(s, m);
  }

  lemma FrontOf(s: string, m: nat)
    requires m <= |Skip(s)|
    ensures m > 0 ==> !IsWhiteChar(Skip(s)[..m][0])
  {
    hide IsWhiteChar;
  }

  lemma IndexAfter(s: string, c: char, t: string)
    requires HasNo(s, c)
    ensures IndexOf(s + [c] + t, c) == |s|
  {
    IndexIs(s + [c] + t, c, |s|);
  }

  // ---------- Headers ----------

  /** White space, a name in brackets, white space. */
  ghost predicate IsHeader(text: string, before: string, name: string, after: string) {
    text == before + ("[" + name + "]" + after) && IsWhite(before) && IsWhite(after) && name != "" && HasNo(name, ']')
  }

  /** A line is a header exactly when it is a name in brackets, with white space around; the section is the
      trimmed name in lower case. */
  lemma HeadersExactly(text: string)
    ensures (exists before, name, after :: IsHeader(text, before, name, after)) <==> Classify(text).Header?
    ensures forall before, name, after :: IsHeader(text, before, name, after) ==>
              Classify(text) == Header(Lower(Trim(name)), text)
  {
    hide Lower, Trim;
    if Classify(text).Header? {
      var before, name, after := HeaderParts(text);
    }
    forall before, name, after | IsHeader(text, before, name, after)
      ensures Classify(text) == Header(Lower(Trim(name)), text)
    {
      HeaderIsRead(text, before, name, after);
    }
  }

  lemma HeaderParts(text: string) returns (before: string, name: string, after: string)
    requires Classify(text).Header?
    ensures IsHeader(text, before, name, after)
  {
    hide Lower, Trim, IsWhiteChar, Skip, IndexOf;
    HeaderIsBracketed(text);
    var n := SkipsWhite(text);
    assert text == text[..n] + text[n..];
    before := text[..n];
    name, after := BracketParts(Skip(text));
  }

  lemma HeaderIsBracketed(text: string)
    requires Classify(text).Header?
    ensures Bracketed(Skip(text))
  {
    hide Bracketed, Skip, Lower, Trim;
  }

  lemma BracketParts(s: string) returns (name: string, after: string)
    requires Bracketed(s)
    ensures s == "[" + name + "]" + after && name != "" && HasNo(name, ']') && IsWhite(after)
  {
    hide IsWhiteChar, Skip;
    var k := IndexOf(s, ']');
    name, after := s[1..k], s[k + 1..];
    AllWhite(after);
  }

  lemma AllWhite(s: string)
    ensures Skip(s) == "" <==> IsWhite(s)
  {
    hide IsWhiteChar;
    if IsWhite(s) {
      WhiteIsSkipped(s, "");
      assert s + "" == s;
    }
    if Skip(s) == "" {
      var n := SkipsWhite(s);
      assert s[..n] == s;
    }
  }

  lemma HeaderIsRead(text: string, before: string, name: string, after: string)
    requires IsHeader(text, before, name, after)
    ensures Classify(text) == Header(Lower(Trim(name)), text)
  {
    hide Lower, Trim;
    var s := "[" + name + "]" + after;
    WhiteIsSkipped(before, s);
    assert s == ("[" + name) + [']'] + after;
    IndexAfter("[" + name, ']', after);
    assert s[1..1 + |name|] == name && s[|name| + 2..] == after;
    AllWhite(after);
    hide IsWhiteChar, Skip, IndexOf;
  }

  // ---------- Directives ----------

  /** White space, the key in any case, white space, an equals sign. */
  ghost predicate SetsKey(text: string, key: string, before: string, name: string, after: string, value: string) {
    && text == before + name + after + "=" + value
    && IsWhite(before) && IsWhite(after) && Lower(name) == Lower(key)
  }

  /** A line that is no header sets a key exactly when the pattern of the key matches it: white space, the
      key in any case, white space, an equals sign. */
  lemma DirectivesExactly(text: string, key: string)
    requires IsTrimmed(key) && HasNo(key, '=') && !Classify(text).Header?
    ensures Classify(text) == Pair(Lower(key), text) <==>
            exists before, name, after, value :: SetsKey(text, key, before, name, after, value)
  {
    if Classify(text) == Pair(Lower(key), text) {
      KeyParts(text, key);
    }
    if exists before, name, after, value :: SetsKey(text, key, before, name, after, value) {
      var before, name, after, value :| SetsKey(text, key, before, name, after, value);
      KeyIsRead(text, key, before, name, after, value);
    }
  }

  lemma KeyParts(text: string, key: string)
    requires Classify(text) == Pair(Lower(key), text)
    ensures exists before, name, after, value :: SetsKey(text, key, before, name, after, value)
  {
    hide Lower, Trim, IsWhiteChar, Skip, IsTitle;
    var n := IndexOf(text, '=');
    var before, after := TrimSplits(text[..n]);
    assert text == text[..n] + "=" + text[n + 1..];
    assert SetsKey(text, key, before, Trim(text[..n]), after, text[n + 1..]);
  }

  lemma SameEnds(name: string, key: string)
    requires IsTrimmed(key) && HasNo(key, '=') && Lower(name) == Lower(key)
    ensures IsTrimmed(name) && HasNo(name, '=')
  {
    assert |name| == |key|;
    forall i | 0 <= i < |name| ensures LowerChar(name[i]) == LowerChar(key[i]) {
      assert Lower(name)[i] == Lower(key)[i];
    }
    hide Lower;
    SameChar(name[0], key[0]);
    SameChar(name[|name| - 1], key[|key| - 1]);
    hide IsWhiteChar;
    forall i | 0 <= i < |name| ensures name[i] != '=' {
      SameChar(name[i], key[i]);
    }
  }

  lemma SameChar(c: char, d: char)
    requires LowerChar(c) == LowerChar(d)
    ensures IsWhiteChar(c) == IsWhiteChar(d) && (c == '=' <==> d == '=')
  {
  }

  lemma WhiteHasNo(s: string)
    requires IsWhite(s)
    ensures HasNo(s, '=')
  {
  }

  lemma KeyIsRead(text: string, key: string, before: string, name: string, after: string, value: string)
    requires IsTrimmed(key) && HasNo(key, '=') && !Classify(text).Header?
    requires SetsKey(text, key, before, name, after, value)
    ensures Classify(text) == Pair(Lower(key), text)
  {
    hide Lower, IsWhiteChar, IsTitle;
    SameEnds(name, key);
    WhiteHasNo(before);
    WhiteHasNo(after);
    IndexAfter(before + name + after, '=', value);
    TrimOf(before, name, after);
    assert text[..|before + name + after|] == before + name + after;
    hide Trim;
    AllWhite(text);
    assert !IsWhite(text) by {
      assert text[|before|] == name[0];
    }
    hide Skip, IndexOf;
  }

  // ---------- Session ids ----------

  /** White space, the word in any case, white space, an equals sign. */
  ghost predicate NamesSession(s: string, before: string, name: string, after: string, value: string) {
    && s == before + (name + (after + ("=" + value)))
    && IsWhite(before) && IsWhite(after) && Lower(name) == "sessionid"
  }

  /** Where a line begins, the session id is matched exactly when it is written like any key, also with line
      ends among the white space. */
  lemma SessionExactly(s: string)
    ensures Starts(s) <==> exists before, name, after, value :: NamesSession(s, before, name, after, value)
  {
    hide Lower, Skip;
    if Starts(s) {
      SessionParts(s);
    }
    if exists before, name, after, value :: NamesSession(s, before, name, after, value) {
      var before, name, after, value :| NamesSession(s, before, name, after, value);
      SessionIsRead(s, before, name, after, value);
    }
  }

  lemma SessionParts(s: string)
    requires Starts(s)
    ensures exists before, name, after, value :: NamesSession(s, before, name, after, value)
  {
    hide Lower, Skip, IsWhiteChar, IsWhite;
    var n := SkipsWhite(s);
    var u := Skip(s);
    var m := SkipsWhite(u[9..]);
    var v := Skip(u[9..]);
    SessionJoins(s, n, u, m, v);
    hide Starts;
    assert NamesSession(s, s[..n], u[..9], u[9..][..m], v[1..]);
  }

  lemma SessionJoins(s: string, n: nat, u: string, m: nat, v: string)
    requires n <= |s| && u == s[n..] && 9 <= |u| && m <= |u| - 9 && v == u[9..][m..] && v != "" && v[0] == '='
    ensures s == s[..n] + (u[..9] + (u[9..][..m] + ("=" + v[1..])))
  {
    assert v == "=" + v[1..];
    assert u[9..] == u[9..][..m] + v;
    assert u == u[..9] + u[9..];
    assert s == s[..n] + u;
  }

  lemma SessionIsRead(s: string, before: string, name: string, after: string, value: string)
    requires NamesSession(s, before, name, after, value)
    ensures Starts(s)
  {
    hide Skip;
    var v := "=" + value;
    var u := name + (after + v);
    assert LowerChar(name[0]) == "sessionid"[0];
    WhiteIsSkipped(before, u);
    WhiteIsSkipped(after, v);
    hide IsWhiteChar, Lower;
    assert u[..9] == name && u[9..] == after + v;
  }
}
