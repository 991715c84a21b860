/**
 Which lines are read as which fields, and which fields as which numbers
 (electron/services/diagnostic-frame-times.ts:49-75).
 */
module FrameText {
  import opened Options
  import opened FrameParser

  // ---------- Trimming ----------

  /** Trimming takes away white space at both ends, and nothing else. */
  lemma {:induction false} TrimTakesTheEnds(s: string) returns (i: nat, j: nat)
    ensures i <= j <= |s| && Trim(s) == s[i..j]
    ensures forall k :: 0 <= k < i || j <= k < |s| ==> IsSpace(s[k])
    ensures i < j ==> !IsSpace(s[i]) && !IsSpace(s[j - 1])
  {
    hide IsSpace;
    i, j := 0, |s|;
    if s == "" {
    } else if IsSpace(s[0]) {
      i, j := TrimTakesTheEnds(s[1..]);
      i, j := i + 1, j + 1;
    } else if IsSpace(s[|s| - 1]) {
      i, j := TrimTakesTheEnds(s[..|s| - 1]);
    }
  }

  /** White space, by code points, and hexadecimal digits. */
  lemma Characters(c: char)
    ensures var n := c as int;
            && (IsSpace(c) <==>
                || 9 <= n <= 13 || n == 32 || n == 160 || n == 5760 || 8192 <= n <= 8202 || n == 8232 || n == 8233
                || n == 8239 || n == 8287 || n == 12288 || n == 65279)
            && (IsHexDigit(c) <==> 48 <= n <= 57 || 65 <= n <= 70 || 97 <= n <= 102)
  {
  }

  /** One carriage return at the end and one byte order mark at the start are no part of a line. */
  lemma LineEnds(s: string)
    ensures StripReturn(s + "\r") == s && (s == "" || s[|s| - 1] != '\r' ==> StripReturn(s) == s)
    ensures StripBom("\U{FEFF}" + s) == s && (s == "" || s[0] != '\U{FEFF}' ==> StripBom(s) == s)
  {
    assert (s + "\r")[..|s|] == s && ("\U{FEFF}" + s)[1..] == s;
  }

  // ---------- What a line of fields is ----------

  /** A field as it stands in a line: bare, or in quotes with white space behind. */
  datatype Item = Bare(text: string) | InQuotes(content: string, tail: string)

  predicate IsBare(text: string) { (forall i :: 0 <= i < |text| ==> text[i] != ',') && (text != "" ==> text[0] != '"') }

  predicate IsWhite(text: string) { forall i :: 0 <= i < |text| ==> IsSpace(text[i]) }

  predicate WellFormed(item: Item) {
    match item
    case Bare(text) => IsBare(text)
    case InQuotes(_, tail) => IsWhite(tail)
  }

  function Written(item: Item): string {
    match item
    case Bare(text) => text
    case InQuotes(content, tail) => Quote(content) + tail
  }

  function Meaning(item: Item): string {
    match item
    case Bare(text) => Trim(text)
    case InQuotes(content, tail) => Trim(content + tail)
  }

  /** The items of a line, separated by commas. */
  function Line(items: seq<Item>): string
    decreases |items|, 0
  {
    if items == [] then "" else Written(items[0]) + Others(items[1..])
  }

  /** What stands behind an item. */
  function Others(items: seq<Item>): string
    decreases |items|, 1
  {
    if items == [] then "" else "," + Line(items)
  }

  function Meanings(items: seq<Item>): seq<string> {
    seq(|items|, i requires 0 <= i < |items| => Meaning(items[i]))
  }

  ghost predicate AllWellFormed(items: seq<Item>) {
    forall i :: 0 <= i < |items| ==> WellFormed(items[i])
  }

  lemma FirstMeaning(items: seq<Item>, columns: seq<string>)
    requires items != []
    ensures columns + [Meaning(items[0])] + Meanings(items[1..]) == columns + Meanings(items)
  {
    hide Meaning;
  }

  // ---------- Such a line is read as its fields ----------

  /** A field ends at a comma, unless it is one too many, or at the end of the line. */
  lemma FieldEnds(line: string, i: nat, field: string, closed: bool, columns: seq<string>)
    requires i <= |line|
    ensures i == |line| ==> CsvFrom(line, i, field, false, closed, columns) == Some(columns + [Trim(field)])
    ensures i < |line| && line[i] == ',' ==>
              CsvFrom(line, i, field, false, closed, columns) ==
              if |columns| + 1 >= 96 then None
              else CsvFrom(line, i + 1, "", false, false, columns + [Trim(field)])
  {
    hide Trim;
  }

  lemma OneBare(line: string, i: nat, field: string, columns: seq<string>)
    requires i < |line| && line[i] != ',' && (field == "" ==> line[i] != '"')
    ensures CsvFrom(line, i, field, false, false, columns) ==
            CsvFrom(line, i + 1, field + [line[i]], false, false, columns)
  {
    hide Trim;
  }

  lemma OneWhite(line: string, i: nat, field: string, columns: seq<string>)
    requires i < |line| && IsSpace(line[i])
    ensures CsvFrom(line, i, field, false, true, columns) ==
            CsvFrom(line, i + 1, field + [line[i]], false, true, columns)
  {
    hide Trim;
  }

  lemma {:induction false} ReadBare(line: string, i: nat, field: string, text: string, columns: seq<string>)
    requires StandsAt(line, i, text) && IsBare(field + text)
    ensures CsvFrom(line, i, field, false, false, columns) ==
            CsvFrom(line, i + |text|, field + text, false, false, columns)
    decreases |text|
  {
    hide CsvFrom;
    if text == "" {
      assert field + text == field;
    } else {
      assert text == [text[0]] + text[1..];
      StandsApart(line, i, [text[0]], text[1..]);
      CharAt(line, i, text[0]);
      assert (field + text)[|field|] == text[0];
      OneBare(line, i, field, columns);
      assert field + [text[0]] + text[1..] == field + text;
      ReadBare(line, i + 1, field + [text[0]], text[1..], columns);
    }
  }

  lemma {:induction false} ReadWhite(line: string, i: nat, field: string, tail: string, columns: seq<string>)
    requires StandsAt(line, i, tail) && IsWhite(tail)
    ensures CsvFrom(line, i, field, false, true, columns) ==
            CsvFrom(line, i + |tail|, field + tail, false, true, columns)
    decreases |tail|
  {
    hide CsvFrom, IsSpace;
    if tail == "" {
      assert field + tail == field;
    } else {
      assert tail == [tail[0]] + tail[1..];
      StandsApart(line, i, [tail[0]], tail[1..]);
      CharAt(line, i, tail[0]);
      OneWhite(line, i, field, columns);
      assert field + [tail[0]] + tail[1..] == field + tail;
      ReadWhite(line, i + 1, field + [tail[0]], tail[1..], columns);
    }
  }

  lemma ReadQuotedItem(line: string, i: nat, content: string, tail: string, columns: seq<string>)
    requires StandsAt(line, i, Quote(content) + tail) && IsWhite(tail)
    requires i + |Quote(content)| + |tail| < |line| ==> line[i + |Quote(content)| + |tail|] == ','
    ensures CsvFrom(line, i, "", false, false, columns) ==
            CsvFrom(line, i + |Quote(content) + tail|, content + tail, false, true, columns)
  {
    hide CsvFrom, Trim, IsSpace, Quote;
    StandsApart(line, i, Quote(content), tail);
    WhiteIsNoQuote(line, i + |Quote(content)|, tail);
    ReadQuoted(line, i, content, columns);
    ReadWhite(line, i + |Quote(content)|, content, tail, columns);
  }

  /** One item, up to what stands behind it. */
  lemma ReadItem(line: string, i: nat, item: Item, columns: seq<string>) returns (field: string, closed: bool)
    requires StandsAt(line, i, Written(item)) && WellFormed(item)
    requires i + |Written(item)| < |line| ==> line[i + |Written(item)|] == ','
    ensures Trim(field) == Meaning(item)
    ensures CsvFrom(line, i, "", false, false, columns) ==
            CsvFrom(line, i + |Written(item)|, field, false, closed, columns)
  {
    hide CsvFrom, Trim, IsBare, IsWhite, Quote, StandsAt;
    match item
    case Bare(text) =>
      assert "" + text == text;
      ReadBare(line, i, "", text, columns);
      field, closed := text, false;
    case InQuotes(content, tail) =>
      ReadQuotedItem(line, i, content, tail, columns);
      field, closed := content + tail, true;
  }

  lemma WhiteIsNoQuote(line: string, i: nat, tail: string)
    requires StandsAt(line, i, tail) && IsWhite(tail) && (i + |tail| < |line| ==> line[i + |tail|] == ',')
    ensures i == |line| || line[i] != '"'
  {
    if tail != "" {
      assert tail == [tail[0]] + tail[1..];
      StandsApart(line, i, [tail[0]], tail[1..]);
      CharAt(line, i, tail[0]);
    }
  }

  /** The items from `i` to the end of the line: read, or too many. */
  lemma {:induction false} ReadItems(line: string, i: nat, items: seq<Item>, columns: seq<string>)
    requires items != [] && AllWellFormed(items) && |columns| < 96
    requires StandsAt(line, i, Line(items)) && i + |Line(items)| == |line|
    ensures CsvFrom(line, i, "", false, false, columns) ==
            if |columns| + |items| > 96 then None else Some(columns + Meanings(items))
    decreases |items|
  {
    hide Trim, CsvFrom, Meaning, Written, WellFormed;
    var item, rest := items[0], items[1..];
    StandsApart(line, i, Written(item), Others(rest));
    var j := i + |Written(item)|;
    if rest != [] {
      StandsApart(line, j, ",", Line(rest));
      CharAt(line, j, ',');
    }
    var field, closed := ReadItem(line, i, item, columns);
    FieldEnds(line, j, field, closed, columns);
    FirstMeaning(items, columns);
    if rest == [] {
      assert Meanings(items) == [Meaning(item)];
    } else if |columns| + 1 < 96 {
      ReadItems(line, j + 1, rest, columns + [Meaning(item)]);
    }
  }

  // ---------- And no other line is read ----------

  /** What is left of the line, once it was read: the rest of the present field, and other items. */
  ghost predicate Left(line: string, i: nat, text: string, rest: seq<Item>)
    requires i <= |line|
  {
    line[i..] == text + Others(rest) && AllWellFormed(rest)
  }

  /** The result, when the present field is `field`. */
  ghost predicate ReadTo(result: Option<seq<string>>, columns: seq<string>, field: string, rest: seq<Item>) {
    result == Some(columns + [Trim(field)] + Meanings(rest)) && |columns| + 1 + |rest| <= 96
  }

  lemma AtTheEnd(line: string, field: string, closed: bool, columns: seq<string>)
    requires |columns| < 96
    ensures Left(line, |line|, "", [])
    ensures ReadTo(CsvFrom(line, |line|, field, false, closed, columns), columns, field, [])
  {
    hide Trim;
    assert columns + [Trim(field)] + Meanings([]) == columns + [Trim(field)];
  }

  lemma {:induction false} WasBare(line: string, i: nat, field: string, columns: seq<string>)
    returns (text: string, rest: seq<Item>)
    requires i <= |line| && IsBare(field) && (field == "" && i < |line| ==> line[i] != '"') && |columns| < 96
    requires CsvFrom(line, i, field, false, false, columns).Some?
    ensures Left(line, i, text, rest) && IsBare(field + text)
    ensures ReadTo(CsvFrom(line, i, field, false, false, columns), columns, field + text, rest)
    decreases |line| - i, 1
  {
    hide Trim, CsvFrom, Left, ReadTo;
    if i == |line| {
      text, rest := "", [];
      assert field + text == field;
      AtTheEnd(line, field, false, columns);
    } else if line[i] == ',' {
      text := "";
      assert field + text == field;
      rest := WereOthers(line, i, field, false, columns);
    } else {
      OneBare(line, i, field, columns);
      text, rest := WasBare(line, i + 1, field + [line[i]], columns);
      assert field + [line[i]] + text == field + ([line[i]] + text);
      Before(line, i, text, rest);
      text := [line[i]] + text;
    }
  }

  lemma Before(line: string, i: nat, text: string, rest: seq<Item>)
    requires i < |line| && Left(line, i + 1, text, rest)
    ensures Left(line, i, [line[i]] + text, rest)
  {
    assert line[i..] == [line[i]] + line[i + 1..];
    assert [line[i]] + (text + Others(rest)) == [line[i]] + text + Others(rest);
  }

  /** A comma, and the items behind it. */
  lemma {:induction false} WereOthers(line: string, i: nat, field: string, closed: bool, columns: seq<string>)
    returns (rest: seq<Item>)
    requires i < |line| && line[i] == ',' && |columns| < 96
    requires CsvFrom(line, i, field, false, closed, columns).Some?
    ensures Left(line, i, "", rest)
    ensures ReadTo(CsvFrom(line, i, field, false, closed, columns), columns, field, rest)
    decreases |line| - i, 0
  {
    hide Trim, CsvFrom, Meanings;
    FieldEnds(line, i, field, closed, columns);
    rest := WereItems(line, i + 1, columns + [Trim(field)]);
    assert line[i..] == "," + line[i + 1..];
  }

  lemma {:induction false} WereItems(line: string, i: nat, columns: seq<string>) returns (items: seq<Item>)
    requires i <= |line| && |columns| < 96 && CsvFrom(line, i, "", false, false, columns).Some?
    ensures items != [] && AllWellFormed(items) && Line(items) == line[i..]
    ensures CsvFrom(line, i, "", false, false, columns) == Some(columns + Meanings(items))
    ensures |columns| + |items| <= 96
    decreases |line| - i, 2
  {
    hide Trim, CsvFrom, Quote;
    if i < |line| && line[i] == '"' {
      OpeningQuote(line, i, columns);
      var content, tail, rest := WasQuoted(line, i + 1, "", columns);
      assert "" + content == content;
      items := [InQuotes(content, tail)] + rest;
      QuotedStands(line, i, content, tail, rest);
    } else {
      var text, rest := WasBare(line, i, "", columns);
      assert "" + text == text;
      items := [Bare(text)] + rest;
    }
    assert items[1..] == items[1..];
    FirstMeaning(items, columns);
  }

  lemma OpeningQuote(line: string, i: nat, columns: seq<string>)
    requires i < |line| && line[i] == '"'
    ensures CsvFrom(line, i, "", false, false, columns) == CsvFrom(line, i + 1, "", true, false, columns)
  {
    hide Trim;
  }

  lemma QuotedStands(line: string, i: nat, content: string, tail: string, rest: seq<Item>)
    requires i < |line| && line[i] == '"' && Left(line, i + 1, Escape(content) + "\"" + tail, rest)
    ensures line[i..] == Quote(content) + tail + Others(rest)
  {
    Before(line, i, Escape(content) + "\"" + tail, rest);
    assert "\"" + (Escape(content) + "\"" + tail) == Quote(content) + tail;
  }

  /** Inside quotes. */
  lemma {:induction false} WasQuoted(line: string, i: nat, field: string, columns: seq<string>)
    returns (content: string, tail: string, rest: seq<Item>)
    requires i <= |line| && |columns| < 96 && CsvFrom(line, i, field, true, false, columns).Some?
    ensures Left(line, i, Escape(content) + "\"" + tail, rest) && IsWhite(tail)
    ensures ReadTo(CsvFrom(line, i, field, true, false, columns), columns, field + content + tail, rest)
    decreases |line| - i, 1
  {
    hide Trim, CsvFrom, Left, ReadTo, IsSpace;
    QuotedEnds(line, i, field, columns);
    OneQuoted(line, i, field, columns);
    if line[i] != '"' {
      content, tail, rest := WasQuoted(line, i + 1, field + [line[i]], columns);
      MoreContent(field, line[i], content, tail);
      Before(line, i, Escape(content) + "\"" + tail, rest);
      EscapeMore([line[i]], line[i], content, tail);
      content := [line[i]] + content;
    } else if i + 1 < |line| && line[i + 1] == '"' {
      content, tail, rest := WasQuoted(line, i + 2, field + "\"", columns);
      MoreContent(field, '"', content, tail);
      Before(line, i + 1, Escape(content) + "\"" + tail, rest);
      Before(line, i, "\"" + (Escape(content) + "\"" + tail), rest);
      EscapeMore("\"\"", '"', content, tail);
      assert "\"" + ("\"" + (Escape(content) + "\"" + tail)) == "\"\"" + (Escape(content) + "\"" + tail);
      content := "\"" + content;
    } else {
      content := "";
      tail, rest := WasWhite(line, i + 1, field, columns);
      assert field + content + tail == field + tail;
      Before(line, i, tail, rest);
      assert Escape(content) + "\"" + tail == "\"" + tail;
    }
  }

  lemma QuotedEnds(line: string, i: nat, field: string, columns: seq<string>)
    requires i <= |line| && CsvFrom(line, i, field, true, false, columns).Some?
    ensures i < |line|
  {
  }

  lemma OneQuoted(line: string, i: nat, field: string, columns: seq<string>)
    requires i < |line|
    ensures CsvFrom(line, i, field, true, false, columns) ==
            if line[i] != '"' then CsvFrom(line, i + 1, field + [line[i]], true, false, columns)
            else if i + 1 < |line| && line[i + 1] == '"' then CsvFrom(line, i + 2, field + "\"", true, false, columns)
            else CsvFrom(line, i + 1, field, false, true, columns)
  {
    hide Trim;
  }

  lemma MoreContent(field: string, c: char, content: string, tail: string)
    ensures field + [c] + content + tail == field + ([c] + content) + tail
  {
  }

  lemma EscapeMore(marks: string, c: char, content: string, tail: string)
    requires marks == if c == '"' then "\"\"" else [c]
    ensures Escape([c] + content) + "\"" + tail == marks + (Escape(content) + "\"" + tail)
  {
    assert ([c] + content)[1..] == content;
  }

  /** Behind a closing quote. */
  lemma {:induction false} WasWhite(line: string, i: nat, field: string, columns: seq<string>)
    returns (tail: string, rest: seq<Item>)
    requires i <= |line| && |columns| < 96 && CsvFrom(line, i, field, false, true, columns).Some?
    ensures Left(line, i, tail, rest) && IsWhite(tail)
    ensures ReadTo(CsvFrom(line, i, field, false, true, columns), columns, field + tail, rest)
    decreases |line| - i, 1
  {
    hide Trim, CsvFrom, Left, ReadTo, IsSpace;
    if i == |line| {
      tail, rest := "", [];
      assert field + tail == field;
      AtTheEnd(line, field, true, columns);
    } else if line[i] == ',' {
      tail := "";
      assert field + tail == field;
      rest := WereOthers(line, i, field, true, columns);
    } else {
      OnlyWhite(line, i, field, columns);
      OneWhite(line, i, field, columns);
      tail, rest := WasWhite(line, i + 1, field + [line[i]], columns);
      assert field + [line[i]] + tail == field + ([line[i]] + tail);
      Before(line, i, tail, rest);
      tail := [line[i]] + tail;
    }
  }

  lemma OnlyWhite(line: string, i: nat, field: string, columns: seq<string>)
    requires i < |line| && line[i] != ',' && CsvFrom(line, i, field, false, true, columns).Some?
    ensures IsSpace(line[i])
  {
    hide Trim, IsSpace;
  }

  /** A line of at most 32 KiB is read as some fields exactly when it consists of at most 96 items between
      commas, bare or in quotes with white space behind, that mean these fields: the text without its
      white ends, with doubled quotes taken for one. */
  lemma CsvReadsExactly(line: string, fields: seq<string>)
    ensures Csv(line) == Some(fields) <==>
            |line| <= 32768 && exists items :: 0 < |items| <= 96 && AllWellFormed(items) && Line(items) == line
                                               && Meanings(items) == fields
  {
    hide Trim, CsvFrom, Meanings, Line, AllWellFormed;
    if Csv(line) == Some(fields) {
      var items := WereItems(line, 0, []);
      assert line[0..] == line && [] + Meanings(items) == Meanings(items);
    }
    if |line| <= 32768 && exists items :: 0 < |items| <= 96 && AllWellFormed(items) && Line(items) == line
                                          && Meanings(items) == fields {
      var items :| 0 < |items| <= 96 && AllWellFormed(items) && Line(items) == line && Meanings(items) == fields;
      assert line[0..|line|] == line && [] + Meanings(items) == Meanings(items);
      ReadItems(line, 0, items, []);
    }
  }

  // ---------- Numbers ----------

  function Power(base: nat, n: nat): nat { if n == 0 then 1 else base * Power(base, n - 1) }

  /** The first digit of a number counts most. */
  lemma {:induction false} DecimalIsPositional(s: string)
    requires IsDigits(s)
    ensures Decimal(s[1..]) < Power(10, |s| - 1)
    ensures Decimal(s) == (s[0] - '0') as nat * Power(10, |s| - 1) + Decimal(s[1..])
    decreases |s|
  {
    if |s| == 1 {
      assert s[..0] == "" && s[1..] == "";
    } else {
      var init := s[..|s| - 1];
      DecimalIsPositional(init);
      assert s[1..][..|s| - 2] == init[1..] && init[0] == s[0];
      LastDigit(s);
      LastDigit(s[1..]);
      Spread((s[0] - '0') as nat, Power(10, |s| - 2), Decimal(init[1..]), 10);
    }
  }

  lemma LastDigit(s: string)
    requires IsDigits(s)
    ensures Decimal(s) == Decimal(s[..|s| - 1]) * 10 + (s[|s| - 1] - '0') as nat
  {
  }

  /** So does the first digit of an address. */
  lemma {:induction false} HexIsPositional(s: string)
    requires s != "" && forall i :: 0 <= i < |s| ==> IsHexDigit(s[i])
    ensures Hex(s) == HexDigit(s[0]) * Power(16, |s| - 1) + Hex(s[1..])
    decreases |s|
  {
    hide HexDigit, IsHexDigit;
    if |s| == 1 {
      assert s[..0] == "" && s[1..] == "";
    } else {
      var init := s[..|s| - 1];
      HexIsPositional(init);
      assert s[1..][..|s| - 2] == init[1..] && init[0] == s[0];
      LastHexDigit(s);
      LastHexDigit(s[1..]);
      Spread(HexDigit(s[0]), Power(16, |s| - 2), Hex(init[1..]), 16);
    }
  }

  lemma LastHexDigit(s: string)
    requires s != "" && forall i :: 0 <= i < |s| ==> IsHexDigit(s[i])
    ensures Hex(s) == Hex(s[..|s| - 1]) * 16 + HexDigit(s[|s| - 1])
  {
    hide HexDigit, IsHexDigit;
  }

  ghost predicate FewDigits(digits: string) {
    1 <= |digits| <= 16 && forall i :: 0 <= i < |digits| ==> IsHexDigit(digits[i])
  }

  /** An address is "0x" in either case and one to sixteen hexadecimal digits. */
  lemma AddressExactly(s: string)
    ensures IsAddress(s) <==> exists digits :: FewDigits(digits) && (s == "0x" + digits || s == "0X" + digits)
  {
    if IsAddress(s) {
      AddressHasDigits(s);
    }
    forall digits | FewDigits(digits) && (s == "0x" + digits || s == "0X" + digits) ensures IsAddress(s) {
      DigitsMakeAddress(s, digits);
    }
    hide IsAddress, FewDigits;
  }

  lemma AddressHasDigits(s: string)
    requires IsAddress(s)
    ensures FewDigits(s[2..]) && (s == "0x" + s[2..] || s == "0X" + s[2..])
  {
    hide IsHexDigit;
    var digits := s[2..];
    assert forall i :: 0 <= i < |digits| ==> digits[i] == s[i + 2];
    assert s == [s[0]] + [s[1]] + digits;
  }

  lemma DigitsMakeAddress(s: string, digits: string)
    requires FewDigits(digits) && (s == "0x" + digits || s == "0X" + digits)
    ensures IsAddress(s)
  {
    hide IsHexDigit;
    forall i | 2 <= i < |s| ensures IsHexDigit(s[i]) {
      assert s[i] == digits[i - 2];
    }
  }

  lemma Spread(a: nat, b: nat, c: nat, base: nat)
    ensures (a * b + c) * base == a * (base * b) + c * base
  {
  }

  /** The digits of an address, in either case. */
  lemma HexDigits()
    ensures forall c :: '0' <= c <= '9' ==> HexDigit(c) == (c - '0') as nat
    ensures HexDigit('a') == HexDigit('A') == 10 && HexDigit('b') == HexDigit('B') == 11
    ensures HexDigit('c') == HexDigit('C') == 12 && HexDigit('d') == HexDigit('D') == 13
    ensures HexDigit('e') == HexDigit('E') == 14 && HexDigit('f') == HexDigit('F') == 15
  {
  }

  lemma {:induction false} SameHex(s: string, t: string)
    requires |s| == |t| && forall i :: 0 <= i < |s| ==> IsHexDigit(s[i]) && IsHexDigit(t[i])
    ensures Hex(s) == Hex(t) <==> forall i :: 0 <= i < |s| ==> HexDigit(s[i]) == HexDigit(t[i])
    decreases |s|
  {
    if s != "" {
      var n := |s| - 1;
      SameHex(s[..n], t[..n]);
      assert HexDigit(s[n]) < 16 && HexDigit(t[n]) < 16;
      hide HexDigit, IsHexDigit;
      SameParts(Hex(s[..n]), HexDigit(s[n]), Hex(t[..n]), HexDigit(t[n]));
      forall i | 0 <= i < n ensures s[i] == s[..n][i] && t[i] == t[..n][i] {}
    }
  }

  lemma SameParts(a: nat, x: nat, b: nat, y: nat)
    requires x < 16 && y < 16
    ensures a * 16 + x == b * 16 + y <==> a == b && x == y
  {
  }

  lemma {:induction false} LeadingZero(s: string)
    requires forall i :: 0 <= i < |s| ==> IsHexDigit(s[i])
    ensures Hex("0" + s) == Hex(s)
    decreases |s|
  {
    if s == "" {
      assert ("0" + s)[..0] == "" && "0" + s == "0";
    } else {
      var n := |s| - 1;
      LeadingZero(s[..n]);
      assert ("0" + s)[..n + 1] == "0" + s[..n] && ("0" + s)[n + 1] == s[n];
    }
  }

  /** Two addresses written alike name one swap chain exactly when their digits agree, whatever the case
      of the letters. */
  lemma AddressesName(s: string, t: string)
    requires IsAddress(s) && IsAddress(t) && |s| == |t|
    ensures Address(s) == Address(t) <==> forall i :: 2 <= i < |s| ==> HexDigit(s[i]) == HexDigit(t[i])
  {
    hide HexDigit, IsHexDigit, Hex;
    SameHex(s[2..], t[2..]);
    forall i | 2 <= i < |s| ensures s[i] == s[2..][i - 2] && t[i] == t[2..][i - 2] {}
    if forall i :: 0 <= i < |s[2..]| ==> HexDigit(s[2..][i]) == HexDigit(t[2..][i]) {
      forall i | 2 <= i < |s| ensures HexDigit(s[i]) == HexDigit(t[i]) {
        assert s[i] == s[2..][i - 2] && t[i] == t[2..][i - 2];
      }
    }
  }
}
