/**
 The streaming parser of frame times (electron/services/diagnostic-frame-times.ts:44-150).

 The lower-casing of header fields and the reading of decimal numbers are parameters; everything
 else is spelled out.  Samples are kept in the order in which the parser emits them.
 */
module FrameParser {
  import opened Options

  const MAX_LINE: nat := 32 * 1024
  const MAX_CHAINS: nat := 32
  const MAX_COLUMNS: nat := 96
  const MAX_SAFE_INTEGER: nat := 0x1F_FFFF_FFFF_FFFF
  const MAX_MS := 28800000.0
  const MAX_SECONDS := 86400.0

  /** How JavaScript folds a field and reads a number written in decimal notation. */
  datatype Reader = Reader(lower: string -> string, number: string -> Option<real>)

  datatype Counts = Counts(rows: nat, accepted: nat, foreignPid: nat, invalid: nat, oversized: nat,
                           excessSwapChains: nat, outOfOrder: nat)

  datatype Chain = Chain(id: nat, lastQpc: nat)

  datatype Sample = Sample(swapChainId: nat, qpcTime: nat, seconds: real, receivedAt: int, msBetweenPresents: real,
                           metrics: map<string, real>)

  datatype State = State(columns: map<string, nat>, chains: map<nat, Chain>, buffer: string, discardLine: bool,
                         counts: Counts, emitted: seq<Sample>)

  // ---------- Characters and numbers ----------

  predicate IsSpace(c: char) {
    || '\t' <= c <= '\r' || c == ' ' || c == '\U{A0}' || c == '\U{FEFF}' || c == '\U{1680}'
    || '\U{2000}' <= c <= '\U{200A}' || c == '\U{2028}' || c == '\U{2029}' || c == '\U{202F}'
    || c == '\U{205F}' || c == '\U{3000}'
  }

  function Trim(s: string): string {
    if s == "" then ""
    else if IsSpace(s[0]) then Trim(s[1..])
    else if IsSpace(s[|s| - 1]) then Trim(s[..|s| - 1])
    else s
  }

  predicate IsDigits(s: string) {
    s != "" && forall i :: 0 <= i < |s| ==> '0' <= s[i] <= '9'
  }

  function Decimal(s: string): nat
    requires forall i :: 0 <= i < |s| ==> '0' <= s[i] <= '9'
  {
    if s == "" then 0 else Decimal(s[..|s| - 1]) * 10 + (s[|s| - 1] - '0') as nat
  }

  predicate IsHexDigit(c: char) { '0' <= c <= '9' || 'a' <= c <= 'f' || 'A' <= c <= 'F' }

  function HexDigit(c: char): nat
    requires IsHexDigit(c)
  {
    if c <= '9' then (c - '0') as nat else if c <= 'F' then (c - 'A') as nat + 10 else (c - 'a') as nat + 10
  }

  function Hex(s: string): nat
    requires forall i :: 0 <= i < |s| ==> IsHexDigit(s[i])
  {
    if s == "" then 0 else Hex(s[..|s| - 1]) * 16 + HexDigit(s[|s| - 1])
  }

  /** "0x" and one to sixteen hexadecimal digits. */
  predicate IsAddress(s: string) {
    && 3 <= |s| <= 18
    && s[0] == '0' && (s[1] == 'x' || s[1] == 'X')
    && forall i :: 2 <= i < |s| ==> IsHexDigit(s[i])
  }

  function Address(s: string): nat
    requires IsAddress(s)
  {
    Hex(s[2..])
  }

  /** A decimal number no larger than a maximum, if the field is one. */
  function Numeric(reader: Reader, field: Option<string>, maximum: real): Option<real> {
    if field.None? || field.value == "" then None
    else
      var n := reader.number(field.value);
      if n.Some? && 0.0 <= n.value <= maximum then n else None
  }

  // ---------- One line of CSV ----------

  /** Parsing from position `i` with what has been read of the current field. */
  function CsvFrom(line: string, i: nat, field: string, quoted: bool, closed: bool, columns: seq<string>)
    : Option<seq<string>>
    requires i <= |line|
    decreases |line| - i
  {
    if i == |line| then
      if quoted then None else Some(columns + [Trim(field)])
    else
      var c := line[i];
      if quoted then
        if c == '"' && i + 1 < |line| && line[i + 1] == '"' then
          CsvFrom(line, i + 2, field + "\"", true, closed, columns)
        else if c == '"' then CsvFrom(line, i + 1, field, false, true, columns)
        else CsvFrom(line, i + 1, field + [c], true, closed, columns)
      else if c == ',' then
        if |columns| + 1 >= MAX_COLUMNS then None
        else CsvFrom(line, i + 1, "", false, false, columns + [Trim(field)])
      else if c == '"' && field == "" && !closed then CsvFrom(line, i + 1, field, true, closed, columns)
      else if closed && !IsSpace(c) then None
      else CsvFrom(line, i + 1, field + [c], false, closed, columns)
  }

  function Csv(line: string): Option<seq<string>> {
    if |line| > MAX_LINE then None else CsvFrom(line, 0, "", false, false, [])
  }

  method ParseFrameTimesCsvLine(line: string) returns (r: Option<seq<string>>)
    ensures r == Csv(line)
  {
    if |line| > MAX_LINE { return None; }
    var columns: seq<string> := [];
    var field, quoted, closed := "", false, false;
    var i := 0;
    while i < |line|
      invariant i <= |line|
      invariant Csv(line) == CsvFrom(line, i, field, quoted, closed, columns)
      decreases |line| - i
    {
      var c := line[i];
      if quoted {
        if c == '"' && i + 1 < |line| && line[i + 1] == '"' {
          field := field + "\"";
          i := i + 1;
        } else if c == '"' {
          quoted, closed := false, true;
        } else {
          field := field + [c];
        }
      } else if c == ',' {
        columns := columns + [Trim(field)];
        field, closed := "", false;
        if |columns| >= MAX_COLUMNS { return None; }
      } else if c == '"' && field == "" && !closed {
        quoted := true;
      } else if closed && !IsSpace(c) {
        return None;
      } else {
        field := field + [c];
      }
      i := i + 1;
    }
    if quoted { return None; }
    columns := columns + [Trim(field)];
    return Some(columns);
  }

  // ---------- What is quoted is read back ----------

  function Escape(f: string): string {
    if f == "" then "" else (if f[0] == '"' then "\"\"" else [f[0]]) + Escape(f[1..])
  }

  function Quote(f: string): string { "\"" + Escape(f) + "\"" }

  /** The fields, quoted and separated by commas. */
  function Render(fields: seq<string>): string {
    if fields == [] then "" else if |fields| == 1 then Quote(fields[0])
    else Quote(fields[0]) + "," + Render(fields[1..])
  }

  /** `text` stands in the line at `i`. */
  ghost predicate StandsAt(line: string, i: nat, text: string) {
    i + |text| <= |line| && line[i..i + |text|] == text
  }

  lemma StandsApart(line: string, i: nat, a: string, b: string)
    requires StandsAt(line, i, a + b)
    ensures StandsAt(line, i, a) && StandsAt(line, i + |a|, b)
  {
    assert line[i..i + |a|] == line[i..i + |a + b|][..|a|];
    assert line[i + |a|..i + |a| + |b|] == line[i..i + |a + b|][|a|..];
  }

  /** The characters of a quoted field. */
  lemma {:induction false} ReadEscaped(line: string, i: nat, f: string, field: string, columns: seq<string>)
    requires StandsAt(line, i, Escape(f) + "\"")
    ensures CsvFrom(line, i, field, true, false, columns) ==
            CsvFrom(line, i + |Escape(f)|, field + f, true, false, columns)
    decreases |f|
  {
    if f == "" {
      assert field + f == field;
    } else {
      var head := if f[0] == '"' then "\"\"" else [f[0]];
      assert Escape(f) + "\"" == head + (Escape(f[1..]) + "\"");
      StandsApart(line, i, head, Escape(f[1..]) + "\"");
      assert line[i] == head[0] && (|head| == 2 ==> line[i + 1] == head[1]) by {
        assert line[i..i + |head|][0] == head[0];
        if |head| == 2 {
          assert line[i..i + |head|][1] == head[1];
        }
      }
      ReadEscaped(line, i + |head|, f[1..], field + [f[0]], columns);
      assert field + [f[0]] + f[1..] == field + f;
    }
  }

  /** One quoted field, up to its closing quote. */
  lemma ReadQuoted(line: string, i: nat, f: string, columns: seq<string>)
    requires StandsAt(line, i, Quote(f))
    requires i + |Quote(f)| == |line| || line[i + |Quote(f)|] != '"'
    ensures CsvFrom(line, i, "", false, false, columns) ==
            CsvFrom(line, i + |Quote(f)|, f, false, true, columns)
  {
    hide CsvFrom;
    assert Quote(f) == "\"" + (Escape(f) + "\"");
    var end := i + 1 + |Escape(f)|;
    StandsApart(line, i, "\"", Escape(f) + "\"");
    StandsApart(line, i + 1, Escape(f), "\"");
    CharAt(line, i, '"');
    CharAt(line, end, '"');
    QuoteMarks(line, i, end, f, columns);
    ReadEscaped(line, i + 1, f, "", columns);
    assert "" + f == f;
  }

  lemma CharAt(line: string, i: nat, c: char)
    requires StandsAt(line, i, [c])
    ensures i < |line| && line[i] == c
  {
    assert line[i..i + 1][0] == c;
  }

  lemma QuoteMarks(line: string, i: nat, end: nat, f: string, columns: seq<string>)
    requires i < end < |line| && line[i] == line[end] == '"' && (end + 1 == |line| || line[end + 1] != '"')
    ensures CsvFrom(line, i, "", false, false, columns) == CsvFrom(line, i + 1, "", true, false, columns)
    ensures CsvFrom(line, end, f, true, false, columns) == CsvFrom(line, end + 1, f, false, true, columns)
  {
  }

  lemma {:induction false} ReadRendered(line: string, i: nat, fields: seq<string>, columns: seq<string>)
    requires fields != [] && |columns| + |fields| <= MAX_COLUMNS
    requires forall k :: 0 <= k < |fields| ==> Trim(fields[k]) == fields[k]
    requires StandsAt(line, i, Render(fields)) && i + |Render(fields)| == |line|
    ensures CsvFrom(line, i, "", false, false, columns) == Some(columns + fields)
    decreases |fields|
  {
    hide Trim, Quote, CsvFrom;
    var f, rest := fields[0], fields[1..];
    if rest == [] {
      ReadQuoted(line, i, f, columns);
      AfterQuote(line, i + |Quote(f)|, f, columns);
      assert columns + [f] == columns + fields;
    } else {
      assert Render(fields) == Quote(f) + ("," + Render(rest));
      StandsApart(line, i, Quote(f), "," + Render(rest));
      StandsApart(line, i + |Quote(f)|, ",", Render(rest));
      CharAt(line, i + |Quote(f)|, ',');
      ReadQuoted(line, i, f, columns);
      AfterQuote(line, i + |Quote(f)|, f, columns);
      ReadRendered(line, i + |Quote(f)| + 1, rest, columns + [f]);
      assert columns + [f] + rest == columns + fields;
    }
  }

  /** A closed field ends at a comma or at the end of the line. */
  lemma AfterQuote(line: string, i: nat, f: string, columns: seq<string>)
    requires i <= |line| && Trim(f) == f
    ensures i == |line| ==> CsvFrom(line, i, f, false, true, columns) == Some(columns + [f])
    ensures i < |line| && line[i] == ',' && |columns| + 1 < MAX_COLUMNS ==>
              CsvFrom(line, i, f, false, true, columns) == CsvFrom(line, i + 1, "", false, false, columns + [f])
  {
    hide Trim;
  }

  /** Reading undoes quoting: any trimmed fields, whatever commas and quotes they hold. */
  lemma CsvRoundTrip(fields: seq<string>)
    requires fields != [] && |fields| <= MAX_COLUMNS && |Render(fields)| <= MAX_LINE
    requires forall k :: 0 <= k < |fields| ==> Trim(fields[k]) == fields[k]
    ensures Csv(Render(fields)) == Some(fields)
  {
    var line := Render(fields);
    assert line[0..|line|] == line;
    ReadRendered(line, 0, fields, []);
    assert [] + fields == fields;
  }

  // ---------- One line ----------

  const REQUIRED: seq<string> := ["processid", "swapchainaddress", "msbetweenpresents", "timeinseconds", "qpctime"]
  const TIMES: seq<string> :=
    ["msinpresentapi", "msuntilrendercomplete", "msuntildisplayed", "msbetweendisplaychange", "msgpuactive"]
  const FLAGS: map<string, real> :=
    map["dropped" := 1.0, "syncinterval" := 16.0, "presentflags" := 4294967295.0, "allowstearing" := 1.0]

  function Lowered(reader: Reader, fields: seq<string>): seq<string> {
    seq(|fields|, i requires 0 <= i < |fields| => reader.lower(fields[i]))
  }

  predicate IsHeader(header: seq<string>) { "processid" in header && "msbetweenpresents" in header }

  predicate HeaderOk(header: seq<string>) {
    && (forall i, j :: 0 <= i < j < |header| ==> header[i] != header[j])
    && (forall i :: 0 <= i < |REQUIRED| ==> REQUIRED[i] in header)
  }

  /** The position of each of the first `k` columns. */
  function Positions(header: seq<string>, k: nat): (m: map<string, nat>)
    requires k <= |header|
    ensures forall name :: name in m ==> m[name] < k
  {
    if k == 0 then map[] else Positions(header, k - 1)[header[k - 1] := k - 1]
  }

  function Field(columns: map<string, nat>, fields: seq<string>, name: string): Option<string> {
    if name in columns && columns[name] < |fields| then Some(fields[columns[name]]) else None
  }

  function Bump(st: State, c: Counts): State { st.(counts := c) }

  function Invalid(st: State): State { st.(counts := st.counts.(invalid := st.counts.invalid + 1)) }

  /** The optional measurements of a row. */
  function Metrics(reader: Reader, columns: map<string, nat>, fields: seq<string>): map<string, real> {
    (map name | name in TIMES && Numeric(reader, Field(columns, fields, name), MAX_MS).Some? ::
       Numeric(reader, Field(columns, fields, name), MAX_MS).value) +
    (map name | name in FLAGS && IsWhole(Numeric(reader, Field(columns, fields, name), FLAGS[name])) ::
       Numeric(reader, Field(columns, fields, name), FLAGS[name]).value)
  }

  predicate IsWhole(n: Option<real>) { n.Some? && n.value == n.value.Floor as real }

  /** What a row must hold to be attributed to a swap chain. */
  datatype Row = Row(address: nat, qpc: nat, interval: real, seconds: real)

  function ReadRow(reader: Reader, columns: map<string, nat>, fields: seq<string>, receivedAt: int): Option<Row> {
    var address, qpc := Field(columns, fields, "swapchainaddress"), Field(columns, fields, "qpctime");
    var interval := Numeric(reader, Field(columns, fields, "msbetweenpresents"), MAX_MS);
    var seconds := Numeric(reader, Field(columns, fields, "timeinseconds"), MAX_SECONDS);
    if address.None? || !IsAddress(address.value) || qpc.None? || !IsDigits(qpc.value) then None
    else if !(0 < Decimal(qpc.value) <= MAX_SAFE_INTEGER) || interval.None? || seconds.None? then None
    else if !(0 < receivedAt <= MAX_SAFE_INTEGER) then None
    else Some(Row(Address(address.value), Decimal(qpc.value), interval.value, seconds.value))
  }

  /** A row that was counted. */
  function RowStep(reader: Reader, pid: nat, st: State, fields: seq<string>, receivedAt: int): State {
    var counts := st.counts;
    var pidText := Field(st.columns, fields, "processid");
    if st.columns == map[] || |fields| != |st.columns| then Invalid(st)
    else if pidText.None? || !IsDigits(pidText.value) || Decimal(pidText.value) > MAX_SAFE_INTEGER then Invalid(st)
    else if Decimal(pidText.value) != pid then Bump(st, counts.(foreignPid := counts.foreignPid + 1))
    else
      var row := ReadRow(reader, st.columns, fields, receivedAt);
      if row.None? then Invalid(st) else Attribute(reader, st, fields, row.value, receivedAt)
  }

  /** A row of this process, given to its swap chain. */
  function Attribute(reader: Reader, st: State, fields: seq<string>, row: Row, receivedAt: int): State {
    var counts := st.counts;
    if row.address !in st.chains && |st.chains| >= MAX_CHAINS then
      Bump(st, counts.(excessSwapChains := counts.excessSwapChains + 1))
    else
      var chain := if row.address in st.chains then st.chains[row.address] else Chain(|st.chains| + 1, 0);
      if row.qpc <= chain.lastQpc then
        st.(chains := st.chains[row.address := chain], counts := counts.(outOfOrder := counts.outOfOrder + 1))
      else
        st.(chains := st.chains[row.address := chain.(lastQpc := row.qpc)],
            counts := counts.(accepted := counts.accepted + 1),
            emitted := st.emitted + [Sample(chain.id, row.qpc, row.seconds, receivedAt, row.interval,
                                            Metrics(reader, st.columns, fields))])
  }

  function StripBom(line: string): string {
    if line != "" && line[0] == '\U{FEFF}' then line[1..] else line
  }

  function LineStep(reader: Reader, pid: nat, st: State, line: string, receivedAt: int): State {
    if Trim(line) == "" then st
    else
      var fields := Csv(StripBom(line));
      if fields.None? then Invalid(st)
      else
        var header := Lowered(reader, fields.value);
        if IsHeader(header) then
          if HeaderOk(header) then st.(columns := Positions(header, |header|))
          else Invalid(st.(columns := map[]))
        else
          RowStep(reader, pid, Bump(st, st.counts.(rows := st.counts.rows + 1)), fields.value, receivedAt)
  }

  // ---------- The stream ----------

  function StripReturn(line: string): string {
    if line != "" && line[|line| - 1] == '\r' then line[..|line| - 1] else line
  }

  /** One character of the stream. */
  function CharStep(reader: Reader, pid: nat, st: State, c: char, receivedAt: int): State {
    if c == '\n' then
      var done := if st.discardLine then st else LineStep(reader, pid, st, StripReturn(st.buffer), receivedAt);
      done.(buffer := "", discardLine := false)
    else if st.discardLine then st
    else if |st.buffer| + 1 > MAX_LINE then
      st.(buffer := "", discardLine := true, counts := st.counts.(oversized := st.counts.oversized + 1))
    else st.(buffer := st.buffer + [c])
  }

  /** The first `k` characters of a chunk. */
  function Feed(reader: Reader, pid: nat, st: State, chunk: string, k: nat, receivedAt: int): State
    requires k <= |chunk|
  {
    if k == 0 then st
    else CharStep(reader, pid, Feed(reader, pid, st, chunk, k - 1, receivedAt), chunk[k - 1], receivedAt)
  }

  /** An unterminated last row may be partial output. */
  function Finish(st: State): State {
    var st' := if st.buffer != "" || st.discardLine then Invalid(st) else st;
    st'.(buffer := "", discardLine := false)
  }

  function Initial(): State {
    State(map[], map[], "", false, Counts(0, 0, 0, 0, 0, 0, 0), [])
  }

  // ---------- The parser ----------

  class Parser {
    const reader: Reader
    const pid: nat
    var columns: map<string, nat>
    var chains: map<nat, Chain>
    var buffer: string
    var discardLine: bool
    var counts: Counts
    var emitted: seq<Sample>

    function Abstract(): State
      reads this
    {
      State(columns, chains, buffer, discardLine, counts, emitted)
    }

    constructor (reader: Reader, pid: nat)
      ensures this.reader == reader && this.pid == pid && Abstract() == Initial()
    {
      this.reader, this.pid := reader, pid;
      columns, chains, buffer, discardLine, emitted := map[], map[], "", false, [];
      counts := Counts(0, 0, 0, 0, 0, 0, 0);
    }

    /** A chunk of the stream, a stretch without a line end at a time. */
    method FeedChunk(chunk: string, receivedAt: int)
      requires |buffer| <= MAX_LINE
      modifies this
      ensures Abstract() == Feed(reader, pid, old(Abstract()), chunk, |chunk|, receivedAt)
      ensures |buffer| <= MAX_LINE
    {
      hide CharStep, LineStep, Feed, Stretched;
      ghost var start := Abstract();
      FedNothing(reader, pid, start, chunk, receivedAt);
      var offset := 0;
      while offset < |chunk|
        invariant offset <= |chunk| && |buffer| <= MAX_LINE
        invariant Abstract() == Feed(reader, pid, start, chunk, offset, receivedAt)
        decreases |chunk| - offset
      {
        var end := FindLineEnd(chunk, offset);
        StretchFed(reader, pid, start, chunk, offset, end, receivedAt);
        TakeStretch(chunk[offset..end]);
        if end == |chunk| {
          offset := end;
          break;
        }
        EndLine(receivedAt);
        FedOne(reader, pid, start, chunk, end, receivedAt);
        offset := end + 1;
      }
    }

    method TakeStretch(stretch: string)
      requires |buffer| <= MAX_LINE
      modifies this
      ensures Abstract() == Stretched(old(Abstract()), stretch) && |buffer| <= MAX_LINE
    {
      if !discardLine {
        if |buffer| + |stretch| > MAX_LINE {
          buffer, discardLine := "", true;
          counts := counts.(oversized := counts.oversized + 1);
        } else {
          buffer := buffer + stretch;
        }
      }
    }

    method EndLine(receivedAt: int)
      modifies this
      ensures Abstract() == CharStep(reader, pid, old(Abstract()), '\n', receivedAt) && buffer == ""
    {
      hide LineStep;
      if !discardLine {
        TakeLine(StripReturn(buffer), receivedAt);
      }
      buffer, discardLine := "", false;
    }

    /** One complete line. */
    method TakeLine(line: string, receivedAt: int)
      modifies this
      ensures Abstract() == LineStep(reader, pid, old(Abstract()), line, receivedAt)
    {
      hide Trim, Csv, Lowered, HeaderOk, Positions, RowStep, IsHeader;
      if Trim(line) == "" { return; }
      var fields := ParseFrameTimesCsvLine(StripBom(line));
      if fields.None? {
        counts := counts.(invalid := counts.invalid + 1);
        return;
      }
      var header := Lowered(reader, fields.value);
      if IsHeader(header) {
        TakeHeader(header);
        return;
      }
      counts := counts.(rows := counts.rows + 1);
      TakeRow(fields.value, receivedAt);
    }

    method TakeHeader(header: seq<string>)
      modifies this
      ensures Abstract() == if HeaderOk(header) then old(Abstract()).(columns := Positions(header, |header|))
                            else Invalid(old(Abstract()).(columns := map[]))
    {
      columns := map[];
      if !HeaderOk(header) {
        counts := counts.(invalid := counts.invalid + 1);
        return;
      }
      for i := 0 to |header|
        invariant columns == Positions(header, i)
        invariant Abstract() == old(Abstract()).(columns := columns)
      {
        columns := columns[header[i] := i];
      }
    }

    method TakeRow(fields: seq<string>, receivedAt: int)
      modifies this
      ensures Abstract() == RowStep(reader, pid, old(Abstract()), fields, receivedAt)
    {
      hide ReadRow, Decimal, Attribute, Field;
      var pidText := Field(columns, fields, "processid");
      if columns == map[] || |fields| != |columns| || pidText.None? || !IsDigits(pidText.value) ||
         Decimal(pidText.value) > MAX_SAFE_INTEGER {
        counts := counts.(invalid := counts.invalid + 1);
        return;
      }
      if Decimal(pidText.value) != pid {
        counts := counts.(foreignPid := counts.foreignPid + 1);
        return;
      }
      var row := ReadRow(reader, columns, fields, receivedAt);
      if row.None? {
        counts := counts.(invalid := counts.invalid + 1);
        return;
      }
      AttributeRow(fields, row.value, receivedAt);
    }

    method AttributeRow(fields: seq<string>, row: Row, receivedAt: int)
      modifies this
      ensures Abstract() == Attribute(reader, old(Abstract()), fields, row, receivedAt)
    {
      hide Metrics;
      var key, qpc := row.address, row.qpc;
      if key !in chains {
        if |chains| >= MAX_CHAINS {
          counts := counts.(excessSwapChains := counts.excessSwapChains + 1);
          return;
        }
        chains := chains[key := Chain(|chains| + 1, 0)];
      } else {
        assert chains == chains[key := chains[key]];
      }
      if qpc <= chains[key].lastQpc {
        counts := counts.(outOfOrder := counts.outOfOrder + 1);
        return;
      }
      ghost var chain := chains[key];
      assert chains[key := chain.(lastQpc := qpc)] == old(chains)[key := chain.(lastQpc := qpc)];
      chains := chains[key := chains[key].(lastQpc := qpc)];
      counts := counts.(accepted := counts.accepted + 1);
      emitted := emitted + [Sample(chains[key].id, qpc, row.seconds, receivedAt, row.interval,
                                   Metrics(reader, columns, fields))];
    }

    method FinishStream()
      modifies this
      ensures Abstract() == Finish(old(Abstract()))
    {
      if buffer != "" || discardLine {
        counts := counts.(invalid := counts.invalid + 1);
      }
      buffer, discardLine := "", false;
    }
  }

  method FindLineEnd(chunk: string, offset: nat) returns (end: nat)
    requires offset <= |chunk|
    ensures offset <= end <= |chunk|
    ensures end < |chunk| ==> chunk[end] == '\n'
    ensures forall i :: offset <= i < end ==> chunk[i] != '\n'
  {
    end := offset;
    while end < |chunk| && chunk[end] != '\n'
      invariant offset <= end <= |chunk|
      invariant forall i :: offset <= i < end ==> chunk[i] != '\n'
    {
      end := end + 1;
    }
  }

  lemma FedNothing(reader: Reader, pid: nat, st: State, chunk: string, receivedAt: int)
    ensures Feed(reader, pid, st, chunk, 0, receivedAt) == st
  {
  }

  lemma FedOne(reader: Reader, pid: nat, st: State, chunk: string, k: nat, receivedAt: int)
    requires k < |chunk|
    ensures Feed(reader, pid, st, chunk, k + 1, receivedAt) ==
            CharStep(reader, pid, Feed(reader, pid, st, chunk, k, receivedAt), chunk[k], receivedAt)
  {
    hide CharStep;
  }

  /** The state after a stretch without a line end. */
  function Stretched(st: State, stretch: string): State {
    if st.discardLine then st
    else if |st.buffer| + |stretch| > MAX_LINE then
      st.(buffer := "", discardLine := true, counts := st.counts.(oversized := st.counts.oversized + 1))
    else st.(buffer := st.buffer + stretch)
  }

  /** Taking a stretch at once is taking its characters one by one. */
  lemma {:induction false} StretchFed(reader: Reader, pid: nat, start: State, chunk: string, offset: nat, end: nat,
                                      receivedAt: int)
    requires offset <= end <= |chunk| && forall i :: offset <= i < end ==> chunk[i] != '\n'
    requires |Feed(reader, pid, start, chunk, offset, receivedAt).buffer| <= MAX_LINE
    ensures Feed(reader, pid, start, chunk, end, receivedAt) ==
            Stretched(Feed(reader, pid, start, chunk, offset, receivedAt), chunk[offset..end])
    decreases end
  {
    var st := Feed(reader, pid, start, chunk, offset, receivedAt);
    hide LineStep;
    if end == offset {
      assert chunk[offset..end] == "" && st.buffer + "" == st.buffer;
    } else {
      StretchFed(reader, pid, start, chunk, offset, end - 1, receivedAt);
      StretchStep(reader, pid, st, chunk[offset..end - 1], chunk[end - 1], receivedAt);
      assert chunk[offset..end] == chunk[offset..end - 1] + [chunk[end - 1]];
      hide CharStep, Stretched;
    }
  }

  lemma StretchStep(reader: Reader, pid: nat, st: State, stretch: string, c: char, receivedAt: int)
    requires c != '\n' && |st.buffer| <= MAX_LINE
    ensures CharStep(reader, pid, Stretched(st, stretch), c, receivedAt) == Stretched(st, stretch + [c])
  {
    assert st.buffer + stretch + [c] == st.buffer + (stretch + [c]);
    hide LineStep;
  }

  // ---------- How the stream is cut does not matter ----------

  /** Feeding two pieces is feeding them joined. */
  lemma {:induction false} FeedJoins(reader: Reader, pid: nat, st: State, a: string, b: string, k: nat, receivedAt: int)
    requires k <= |b|
    ensures Feed(reader, pid, st, a + b, |a| + k, receivedAt) ==
            Feed(reader, pid, Feed(reader, pid, st, a, |a|, receivedAt), b, k, receivedAt)
  {
    hide CharStep;
    if k == 0 {
      FeedPrefix(reader, pid, st, a, b, |a|, receivedAt);
    } else {
      FeedJoins(reader, pid, st, a, b, k - 1, receivedAt);
      assert (a + b)[|a| + k - 1] == b[k - 1];
    }
  }

  lemma {:induction false} FeedPrefix(reader: Reader, pid: nat, st: State, a: string, b: string, k: nat,
                                      receivedAt: int)
    requires k <= |a|
    ensures Feed(reader, pid, st, a + b, k, receivedAt) == Feed(reader, pid, st, a, k, receivedAt)
  {
    hide CharStep;
    if k > 0 {
      FeedPrefix(reader, pid, st, a, b, k - 1, receivedAt);
    }
  }

  /** The pieces of a stream, in any cut: the state, the counts and the samples are those of the
      whole stream fed at once. */
  function FeedAll(reader: Reader, pid: nat, st: State, chunks: seq<string>, k: nat, receivedAt: int): State
    requires k <= |chunks|
  {
    if k == 0 then st
    else Feed(reader, pid, FeedAll(reader, pid, st, chunks, k - 1, receivedAt), chunks[k - 1], |chunks[k - 1]|,
              receivedAt)
  }

  function Joined(chunks: seq<string>, k: nat): string
    requires k <= |chunks|
  {
    if k == 0 then "" else Joined(chunks, k - 1) + chunks[k - 1]
  }

  lemma {:induction false} CutsDoNotMatter(reader: Reader, pid: nat, st: State, chunks: seq<string>, k: nat,
                                           receivedAt: int)
    requires k <= |chunks|
    ensures FeedAll(reader, pid, st, chunks, k, receivedAt) ==
            Feed(reader, pid, st, Joined(chunks, k), |Joined(chunks, k)|, receivedAt)
  {
    hide CharStep;
    if k > 0 {
      CutsDoNotMatter(reader, pid, st, chunks, k - 1, receivedAt);
      FeedJoins(reader, pid, st, Joined(chunks, k - 1), chunks[k - 1], |chunks[k - 1]|, receivedAt);
    }
    hide Feed;
  }

  // ---------- Every row is counted once ----------

  /** How many more verdicts than rows there are. */
  function Surplus(c: Counts): int {
    c.accepted + c.foreignPid + c.invalid + c.excessSwapChains + c.outOfOrder - c.rows
  }

  /** A line that is neither blank, nor a good header, nor a row. */
  predicate Malformed(reader: Reader, line: string) {
    && Trim(line) != ""
    && var fields := Csv(StripBom(line));
       fields.None? || (var header := Lowered(reader, fields.value); IsHeader(header) && !HeaderOk(header))
  }

  predicate IsRow(reader: Reader, line: string) {
    && Trim(line) != ""
    && var fields := Csv(StripBom(line));
       fields.Some? && !IsHeader(Lowered(reader, fields.value))
  }

  /** What counting may do: `verdicts` more verdicts and `rows` more rows, and a sample exactly for
      each accepted row. */
  ghost predicate Counted(st: State, after: State, rows: nat, surplus: int) {
    var c, d := st.counts, after.counts;
    && d.rows == c.rows + rows
    && Surplus(d) == Surplus(c) + surplus
    && d.oversized == c.oversized
    && c.accepted <= d.accepted && c.foreignPid <= d.foreignPid && c.invalid <= d.invalid
    && c.excessSwapChains <= d.excessSwapChains && c.outOfOrder <= d.outOfOrder
    && |after.emitted| - |st.emitted| == d.accepted - c.accepted
  }

  /** The number in a column of a row. */
  function Column(st: State, fields: seq<string>, name: string): string {
    var field := Field(st.columns, fields, name);
    if field.Some? then field.value else ""
  }

  /** An accepted row emits one sample, made of its own columns, and becomes the latest of the swap
      chain that its address names. */
  lemma AcceptedRowSpeaksForItself(reader: Reader, pid: nat, st: State, fields: seq<string>, receivedAt: int)
    requires RowStep(reader, pid, st, fields, receivedAt).counts.accepted > st.counts.accepted
    ensures var after := RowStep(reader, pid, st, fields, receivedAt);
            var pidText, address, qpc := Column(st, fields, "processid"), Column(st, fields, "swapchainaddress"),
                                         Column(st, fields, "qpctime");
            && after.emitted != [] && after.emitted[..|after.emitted| - 1] == st.emitted
            && var x := after.emitted[|after.emitted| - 1];
               && IsDigits(pidText) && Decimal(pidText) == pid
               && IsDigits(qpc) && x.qpcTime == Decimal(qpc) && 0 < x.qpcTime <= MAX_SAFE_INTEGER
               && Some(x.msBetweenPresents) == reader.number(Column(st, fields, "msbetweenpresents"))
               && Some(x.seconds) == reader.number(Column(st, fields, "timeinseconds"))
               && 0.0 <= x.msBetweenPresents <= MAX_MS && 0.0 <= x.seconds <= MAX_SECONDS
               && x.receivedAt == receivedAt
               && IsAddress(address)
               && after.chains == st.chains[Address(address) := Chain(x.swapChainId, x.qpcTime)]
               && (Address(address) in st.chains ==>
                     x.swapChainId == st.chains[Address(address)].id && x.qpcTime > st.chains[Address(address)].lastQpc)
  {
    hide Decimal, Address, Metrics;
  }

  lemma RowCountsOnce(reader: Reader, pid: nat, st: State, fields: seq<string>, receivedAt: int)
    ensures Counted(st, RowStep(reader, pid, st, fields, receivedAt), 0, 1)
  {
    hide ReadRow, Field, Metrics, Decimal, IsDigits;
  }

  /** A line is counted once: a row as a row and under exactly one verdict, a malformed line as
      invalid, any other line not at all; only an accepted row emits a sample. */
  lemma LineCountsOnce(reader: Reader, pid: nat, st: State, line: string, receivedAt: int)
    ensures Counted(st, LineStep(reader, pid, st, line, receivedAt), if IsRow(reader, line) then 1 else 0,
                    if Malformed(reader, line) then 1 else 0)
  {
    hide Trim, Csv, Lowered, IsHeader, HeaderOk, Positions, RowStep;
    var fields := Csv(StripBom(line));
    if fields.Some? {
      RowCountsOnce(reader, pid, Bump(st, st.counts.(rows := st.counts.rows + 1)), fields.value, receivedAt);
    }
  }

  // ---------- The stream is its lines ----------

  /** The complete lines among the first `k` characters, and what follows them. */
  function Lines(stream: string, k: nat): (seq<string>, string)
    requires k <= |stream|
  {
    if k == 0 then ([], "")
    else
      var (lines, rest) := Lines(stream, k - 1);
      if stream[k - 1] == '\n' then (lines + [rest], "") else (lines, rest + [stream[k - 1]])
  }

  /** One complete line at the start of which nothing is buffered. */
  function WholeLine(reader: Reader, pid: nat, st: State, line: string, receivedAt: int): State {
    if |line| > MAX_LINE then st.(counts := st.counts.(oversized := st.counts.oversized + 1))
    else LineStep(reader, pid, st, StripReturn(line), receivedAt)
  }

  function WholeLines(reader: Reader, pid: nat, st: State, lines: seq<string>, k: nat, receivedAt: int): State
    requires k <= |lines|
  {
    if k == 0 then st
    else WholeLine(reader, pid, WholeLines(reader, pid, st, lines, k - 1, receivedAt), lines[k - 1], receivedAt)
  }

  predicate AtLineStart(st: State) { st.buffer == "" && !st.discardLine }

  /** The two differ in nothing but the buffer. */
  predicate SameButBuffer(s: State, t: State) {
    t == s.(buffer := t.buffer)
  }

  lemma RowIgnoresBuffer(reader: Reader, pid: nat, s: State, t: State, fields: seq<string>, receivedAt: int)
    requires SameButBuffer(s, t)
    ensures var u, v := RowStep(reader, pid, s, fields, receivedAt), RowStep(reader, pid, t, fields, receivedAt);
            SameButBuffer(u, v) && u.buffer == s.buffer && v.buffer == t.buffer && u.discardLine == s.discardLine
  {
    hide ReadRow, Field, Metrics, Decimal, IsDigits;
  }

  lemma LineIgnoresBuffer(reader: Reader, pid: nat, st: State, buffer: string, line: string, receivedAt: int)
    ensures LineStep(reader, pid, st.(buffer := buffer), line, receivedAt) ==
            LineStep(reader, pid, st, line, receivedAt).(buffer := buffer)
    ensures LineStep(reader, pid, st, line, receivedAt).buffer == st.buffer
    ensures LineStep(reader, pid, st, line, receivedAt).discardLine == st.discardLine
  {
    hide Trim, Csv, Lowered, IsHeader, HeaderOk, Positions, RowStep;
    var fields := Csv(StripBom(line));
    if fields.Some? {
      var s := Bump(st, st.counts.(rows := st.counts.rows + 1));
      RowIgnoresBuffer(reader, pid, s, s.(buffer := buffer), fields.value, receivedAt);
    }
  }

  lemma LineCompletes(reader: Reader, pid: nat, st: State, line: string, receivedAt: int)
    requires AtLineStart(st)
    ensures CharStep(reader, pid, Stretched(st, line), '\n', receivedAt) == WholeLine(reader, pid, st, line, receivedAt)
    ensures AtLineStart(WholeLine(reader, pid, st, line, receivedAt))
  {
    assert st.buffer + line == line;
    LineIgnoresBuffer(reader, pid, st, line, StripReturn(line), receivedAt);
    hide LineStep, StripReturn;
  }

  lemma {:induction false} WholeLinesStart(reader: Reader, pid: nat, st: State, lines: seq<string>, k: nat,
                                           receivedAt: int)
    requires AtLineStart(st) && k <= |lines|
    ensures AtLineStart(WholeLines(reader, pid, st, lines, k, receivedAt))
  {
    hide WholeLine;
    if k > 0 {
      WholeLinesStart(reader, pid, st, lines, k - 1, receivedAt);
      LineCompletes(reader, pid, WholeLines(reader, pid, st, lines, k - 1, receivedAt), lines[k - 1], receivedAt);
    }
  }

  lemma {:induction false} WholeLinesPrefix(reader: Reader, pid: nat, st: State, lines: seq<string>, last: string,
                                            k: nat,
                                            receivedAt: int)
    requires k <= |lines|
    ensures WholeLines(reader, pid, st, lines + [last], k, receivedAt) ==
            WholeLines(reader, pid, st, lines, k, receivedAt)
  {
    hide WholeLine;
    if k > 0 {
      WholeLinesPrefix(reader, pid, st, lines, last, k - 1, receivedAt);
    }
  }

  /** Each complete line that is not too long is parsed once, each other one is counted once, and
      what is left over is buffered: that is all a stream does, in whatever chunks it comes. */
  lemma {:induction false} StreamIsItsLines(reader: Reader, pid: nat, st: State, stream: string, k: nat,
                                            receivedAt: int)
    requires AtLineStart(st) && k <= |stream|
    ensures var (lines, rest) := Lines(stream, k);
            Feed(reader, pid, st, stream, k, receivedAt) ==
            Stretched(WholeLines(reader, pid, st, lines, |lines|, receivedAt), rest)
  {
    hide CharStep, Stretched, WholeLine;
    var (lines, rest) := Lines(stream, k);
    if k == 0 {
      NoStretch(st);
    } else {
      StreamIsItsLines(reader, pid, st, stream, k - 1, receivedAt);
      var (earlier, pending) := Lines(stream, k - 1);
      var before := WholeLines(reader, pid, st, earlier, |earlier|, receivedAt);
      WholeLinesStart(reader, pid, st, earlier, |earlier|, receivedAt);
      if stream[k - 1] == '\n' {
        LineCompletes(reader, pid, before, pending, receivedAt);
        WholeLinesPrefix(reader, pid, st, earlier, pending, |earlier|, receivedAt);
        NoStretch(WholeLine(reader, pid, before, pending, receivedAt));
      } else {
        StretchStep(reader, pid, before, pending, stream[k - 1], receivedAt);
      }
    }
  }

  lemma NoStretch(st: State)
    requires AtLineStart(st)
    ensures Stretched(st, "") == st
  {
    assert st.buffer + "" == st.buffer;
  }

  // ---------- Conservation over streams ----------

  predicate Parsed(line: string) { |line| <= MAX_LINE }

  function CountRows(reader: Reader, lines: seq<string>, k: nat): nat
    requires k <= |lines|
  {
    if k == 0 then 0
    else CountRows(reader, lines, k - 1) +
         if Parsed(lines[k - 1]) && IsRow(reader, StripReturn(lines[k - 1])) then 1 else 0
  }

  function CountMalformed(reader: Reader, lines: seq<string>, k: nat): nat
    requires k <= |lines|
  {
    if k == 0 then 0
    else CountMalformed(reader, lines, k - 1) +
         if Parsed(lines[k - 1]) && Malformed(reader, StripReturn(lines[k - 1])) then 1 else 0
  }

  function CountOversized(lines: seq<string>, k: nat): nat
    requires k <= |lines|
  {
    if k == 0 then 0 else CountOversized(lines, k - 1) + if Parsed(lines[k - 1]) then 0 else 1
  }

  /** A chunk of the stream, and when it was received. */
  datatype Chunk = Chunk(text: string, receivedAt: int)

  /** The first `k` chunks, each at its own time. */
  function FeedRun(reader: Reader, pid: nat, st: State, chunks: seq<Chunk>, k: nat): State
    requires k <= |chunks|
  {
    if k == 0 then st
    else
      var chunk := chunks[k - 1];
      Feed(reader, pid, FeedRun(reader, pid, st, chunks, k - 1), chunk.text, |chunk.text|, chunk.receivedAt)
  }

  function Text(chunks: seq<Chunk>, k: nat): string
    requires k <= |chunks|
  {
    if k == 0 then "" else Text(chunks, k - 1) + chunks[k - 1].text
  }

  /** The state after some complete lines and the beginning of another one: every row was counted under
      one verdict, every other malformed line as invalid, every overlong line once. */
  predicate Follows(reader: Reader, st: State, lines: seq<string>, rest: string) {
    && st.discardLine == !Parsed(rest) && st.buffer == (if Parsed(rest) then rest else "")
    && st.counts.rows == CountRows(reader, lines, |lines|)
    && Surplus(st.counts) == CountMalformed(reader, lines, |lines|)
    && st.counts.oversized == CountOversized(lines, |lines|) + (if Parsed(rest) then 0 else 1)
    && |st.emitted| == st.counts.accepted
  }

  lemma {:induction false} CountsPrefix(reader: Reader, lines: seq<string>, last: string, k: nat)
    requires k <= |lines|
    ensures CountRows(reader, lines + [last], k) == CountRows(reader, lines, k)
    ensures CountMalformed(reader, lines + [last], k) == CountMalformed(reader, lines, k)
    ensures CountOversized(lines + [last], k) == CountOversized(lines, k)
  {
    hide IsRow, Malformed, StripReturn;
    if k > 0 {
      CountsPrefix(reader, lines, last, k - 1);
    }
  }

  lemma LineFollows(reader: Reader, pid: nat, st: State, lines: seq<string>, rest: string, receivedAt: int)
    requires Follows(reader, st, lines, rest)
    ensures Follows(reader, CharStep(reader, pid, st, '\n', receivedAt), lines + [rest], "")
  {
    hide LineStep, IsRow, Malformed, StripReturn;
    CountsPrefix(reader, lines, rest, |lines|);
    LineCountsOnce(reader, pid, st, StripReturn(rest), receivedAt);
  }

  lemma CharFollows(reader: Reader, pid: nat, st: State, lines: seq<string>, rest: string, c: char, receivedAt: int)
    requires Follows(reader, st, lines, rest) && c != '\n'
    ensures Follows(reader, CharStep(reader, pid, st, c, receivedAt), lines, rest + [c])
  {
    hide CountRows, CountMalformed, CountOversized;
  }

  lemma {:induction false} LinesPrefix(s: string, t: string, k: nat)
    requires k <= |s|
    ensures Lines(s + t, k) == Lines(s, k)
  {
    if k > 0 {
      LinesPrefix(s, t, k - 1);
    }
  }

  lemma {:induction false} FeedFollows(reader: Reader, pid: nat, st: State, before: string, text: string, k: nat,
                                       receivedAt: int)
    requires k <= |text|
    requires Follows(reader, st, Lines(before, |before|).0, Lines(before, |before|).1)
    ensures var (lines, rest) := Lines(before + text, |before| + k);
            Follows(reader, Feed(reader, pid, st, text, k, receivedAt), lines, rest)
  {
    hide Follows, CharStep;
    if k == 0 {
      LinesPrefix(before, text, |before|);
    } else {
      FeedFollows(reader, pid, st, before, text, k - 1, receivedAt);
      var (lines, rest) := Lines(before + text, |before| + k - 1);
      var fed, c := Feed(reader, pid, st, text, k - 1, receivedAt), text[k - 1];
      assert (before + text)[|before| + k - 1] == c;
      if c == '\n' {
        LineFollows(reader, pid, fed, lines, rest, receivedAt);
      } else {
        CharFollows(reader, pid, fed, lines, rest, c, receivedAt);
      }
    }
  }

  lemma NothingFollows(reader: Reader)
    ensures Lines("", 0) == ([], "") && Follows(reader, Initial(), [], "")
  {
  }

  lemma {:induction false} RunFollows(reader: Reader, pid: nat, chunks: seq<Chunk>, k: nat)
    requires k <= |chunks|
    ensures var (lines, rest) := Lines(Text(chunks, k), |Text(chunks, k)|);
            Follows(reader, FeedRun(reader, pid, Initial(), chunks, k), lines, rest)
  {
    hide Follows, Feed, Lines, Initial;
    if k == 0 {
      NothingFollows(reader);
    } else {
      RunFollows(reader, pid, chunks, k - 1);
      var chunk := chunks[k - 1];
      FeedFollows(reader, pid, FeedRun(reader, pid, Initial(), chunks, k - 1), Text(chunks, k - 1), chunk.text,
                  |chunk.text|, chunk.receivedAt);
    }
  }

  /** Over any run of chunks, each received at its own time: every row is accepted, foreign, in excess,
      out of order or invalid, exactly once; beyond that only malformed lines are invalid, and when the
      stream is finished the line it breaks off in, if any; overlong lines are counted once; and every
      accepted row has emitted one sample. */
  lemma RowsAreConserved(reader: Reader, pid: nat, chunks: seq<Chunk>)
    ensures var st := FeedRun(reader, pid, Initial(), chunks, |chunks|);
            var (lines, rest) := Lines(Text(chunks, |chunks|), |Text(chunks, |chunks|)|);
            && st.counts.rows == CountRows(reader, lines, |lines|)
            && Surplus(st.counts) == CountMalformed(reader, lines, |lines|)
            && st.counts.oversized == CountOversized(lines, |lines|) + (if Parsed(rest) then 0 else 1)
            && |st.emitted| == st.counts.accepted
            && AtLineStart(Finish(st)) && Finish(st).emitted == st.emitted
            && Finish(st).counts == st.counts.(invalid := st.counts.invalid + if rest == "" then 0 else 1)
  {
    RunFollows(reader, pid, chunks, |chunks|);
    hide CountRows, CountMalformed, CountOversized, Lines, FeedRun;
  }

  // ---------- Samples are in order ----------

  /** The chains have distinct positive ids, no more than the limit; each sample belongs to one and
      is no later than its last; and within a chain later samples are strictly later. */
  ghost predicate InOrder(st: State) {
    && |st.chains| <= MAX_CHAINS
    && (forall k :: k in st.chains ==> 0 < st.chains[k].id <= |st.chains|)
    && (forall k, l :: k in st.chains && l in st.chains && k != l ==> st.chains[k].id != st.chains[l].id)
    && (forall i, k :: 0 <= i < |st.emitted| && k in st.chains && st.chains[k].id == st.emitted[i].swapChainId ==>
          st.emitted[i].qpcTime <= st.chains[k].lastQpc)
    && (forall i :: 0 <= i < |st.emitted| ==> 0 < st.emitted[i].swapChainId <= |st.chains|)
    && (forall i, j :: 0 <= i < j < |st.emitted| && st.emitted[i].swapChainId == st.emitted[j].swapChainId ==>
          st.emitted[i].qpcTime < st.emitted[j].qpcTime)
  }

  lemma AttributeInOrder(reader: Reader, st: State, fields: seq<string>, row: Row, receivedAt: int)
    requires InOrder(st)
    ensures InOrder(Attribute(reader, st, fields, row, receivedAt))
  {
    hide Metrics, InOrder;
    var after := Attribute(reader, st, fields, row, receivedAt);
    if row.address in st.chains || |st.chains| < MAX_CHAINS {
      var chain := if row.address in st.chains then st.chains[row.address] else Chain(|st.chains| + 1, 0);
      var grown := st.(chains := st.chains[row.address := chain]);
      OpenInOrder(st, row.address, chain);
      if row.qpc > chain.lastQpc {
        var sample := Sample(chain.id, row.qpc, row.seconds, receivedAt, row.interval,
                             Metrics(reader, st.columns, fields));
        EmitInOrder(grown, row.address, sample);
        var last := chain.(lastQpc := row.qpc);
        assert grown.chains[row.address := last] == st.chains[row.address := last];
        CountsDoNotMatter(grown.(chains := grown.chains[row.address := last], emitted := grown.emitted + [sample]),
                          after);
      } else {
        CountsDoNotMatter(grown, after);
      }
    } else {
      CountsDoNotMatter(st, after);
    }
  }

  lemma CountsDoNotMatter(s: State, t: State)
    requires s.chains == t.chains && s.emitted == t.emitted && InOrder(s)
    ensures InOrder(t)
  {
  }

  lemma OpenInOrder(st: State, address: nat, chain: Chain)
    requires InOrder(st)
    requires if address in st.chains then chain == st.chains[address]
             else chain == Chain(|st.chains| + 1, 0) && |st.chains| < MAX_CHAINS
    ensures InOrder(st.(chains := st.chains[address := chain]))
  {
    if address in st.chains {
      assert st.chains[address := chain] == st.chains;
    }
  }

  lemma EmitInOrder(st: State, address: nat, sample: Sample)
    requires InOrder(st) && address in st.chains && sample.swapChainId == st.chains[address].id
    requires sample.qpcTime > st.chains[address].lastQpc
    ensures InOrder(st.(chains := st.chains[address := st.chains[address].(lastQpc := sample.qpcTime)],
                        emitted := st.emitted + [sample]))
  {
  }

  lemma RowInOrder(reader: Reader, pid: nat, st: State, fields: seq<string>, receivedAt: int)
    requires InOrder(st)
    ensures InOrder(RowStep(reader, pid, st, fields, receivedAt))
  {
    hide ReadRow, Field, Decimal, IsDigits, Attribute, InOrder;
    var after := RowStep(reader, pid, st, fields, receivedAt);
    var row := ReadRow(reader, st.columns, fields, receivedAt);
    if row.Some? {
      AttributeInOrder(reader, st, fields, row.value, receivedAt);
    }
    if after.chains == st.chains && after.emitted == st.emitted {
      CountsDoNotMatter(st, after);
    }
  }

  lemma LineInOrder(reader: Reader, pid: nat, st: State, line: string, receivedAt: int)
    requires InOrder(st)
    ensures InOrder(LineStep(reader, pid, st, line, receivedAt))
  {
    hide Trim, Csv, Lowered, IsHeader, HeaderOk, Positions, RowStep, InOrder;
    var after := LineStep(reader, pid, st, line, receivedAt);
    var fields := Csv(StripBom(line));
    if fields.Some? {
      var counted := Bump(st, st.counts.(rows := st.counts.rows + 1));
      CountsDoNotMatter(st, counted);
      RowInOrder(reader, pid, counted, fields.value, receivedAt);
    }
    if after.chains == st.chains && after.emitted == st.emitted {
      CountsDoNotMatter(st, after);
    }
  }

  /** Whatever is fed, the samples emitted so far are in strict order within each swap chain. */
  lemma {:induction false} FeedInOrder(reader: Reader, pid: nat, st: State, chunk: string, k: nat, receivedAt: int)
    requires InOrder(st) && k <= |chunk|
    ensures InOrder(Feed(reader, pid, st, chunk, k, receivedAt))
  {
    hide LineStep, InOrder;
    if k > 0 {
      FeedInOrder(reader, pid, st, chunk, k - 1, receivedAt);
      var before := Feed(reader, pid, st, chunk, k - 1, receivedAt);
      var after := CharStep(reader, pid, before, chunk[k - 1], receivedAt);
      var parsed := LineStep(reader, pid, before, StripReturn(before.buffer), receivedAt);
      LineInOrder(reader, pid, before, StripReturn(before.buffer), receivedAt);
      if chunk[k - 1] == '\n' && !before.discardLine {
        CountsDoNotMatter(parsed, after);
      } else {
        CountsDoNotMatter(before, after);
      }
    }
  }

  /** So are those of any run of chunks, each received at its own time. */
  lemma {:induction false} RunInOrder(reader: Reader, pid: nat, chunks: seq<Chunk>, k: nat)
    requires k <= |chunks|
    ensures InOrder(FeedRun(reader, pid, Initial(), chunks, k))
  {
    if k > 0 {
      hide InOrder, Feed;
      RunInOrder(reader, pid, chunks, k - 1);
      var chunk := chunks[k - 1];
      FeedInOrder(reader, pid, FeedRun(reader, pid, Initial(), chunks, k - 1), chunk.text, |chunk.text|,
                  chunk.receivedAt);
    }
  }
}
