/**
 What the rows below a header say (electron/services/diagnostic-frame-times.ts:50-149): which text stands
 under which name, under which verdict a row falls, and what its sample holds.
 */
module FrameRows {
  import opened Options
  import opened FrameParser

  // ---------- Columns ----------

  /** The number of the column that carries each name. */
  lemma {:induction false} PositionsAre(header: seq<string>, k: nat, i: nat)
    requires i < k <= |header| && forall m, n :: 0 <= m < n < |header| ==> header[m] != header[n]
    ensures header[i] in Positions(header, k) && Positions(header, k)[header[i]] == i
  {
    if i < k - 1 {
      PositionsAre(header, k - 1, i);
    }
  }

  lemma {:induction false} OnlyTheNames(header: seq<string>, k: nat)
    requires k <= |header| && forall m, n :: 0 <= m < n < |header| ==> header[m] != header[n]
    ensures forall name :: name in Positions(header, k) <==> name in header[..k]
    ensures |Positions(header, k)| == k
  {
    if k > 0 {
      OnlyTheNames(header, k - 1);
      assert header[..k] == header[..k - 1] + [header[k - 1]];
      OneMoreName(Positions(header, k - 1), header[..k - 1], header[k - 1], k - 1);
    }
  }

  lemma OneMoreName(before: map<string, nat>, names: seq<string>, last: string, i: nat)
    requires last !in names && forall name :: name in before <==> name in names
    ensures forall name :: name in before[last := i] <==> name in names + [last]
    ensures |before[last := i]| == |before| + 1
  {
    assert before[last := i].Keys == before.Keys + {last};
  }

  /** A header names every column once, and the five that every row needs. */
  ghost predicate NamesOnce(header: seq<string>) {
    && (forall m, n :: 0 <= m < n < |header| ==> header[m] != header[n])
    && "processid" in header && "swapchainaddress" in header && "msbetweenpresents" in header
    && "timeinseconds" in header && "qpctime" in header
  }

  /** A line that reads as these fields. */
  ghost predicate ReadsAs(line: string, fields: seq<string>) {
    Trim(line) != "" && Csv(StripBom(line)) == Some(fields)
  }

  lemma NamesOnceIsOk(header: seq<string>)
    ensures NamesOnce(header) <==> HeaderOk(header)
  {
    assert REQUIRED[0] == "processid" && REQUIRED[1] == "swapchainaddress" && REQUIRED[2] == "msbetweenpresents"
           && REQUIRED[3] == "timeinseconds" && REQUIRED[4] == "qpctime";
    if NamesOnce(header) {
      forall i | 0 <= i < |REQUIRED| ensures REQUIRED[i] in header {
        assert i == 0 || i == 1 || i == 2 || i == 3 || i == 4;
      }
    }
  }

  /** After a header line, the fields of a row stand under its names, whatever their order. */
  lemma HeaderNamesTheColumns(reader: Reader, pid: nat, st: State, line: string, names: seq<string>,
                              fields: seq<string>, i: nat, receivedAt: int)
    requires ReadsAs(line, names) && NamesOnce(Lowered(reader, names)) && |fields| == |names| && i < |names|
    ensures var after := LineStep(reader, pid, st, line, receivedAt);
            && after == st.(columns := after.columns) && |after.columns| == |names|
            && Field(after.columns, fields, reader.lower(names[i])) == Some(fields[i])
            && forall name :: Field(after.columns, fields, name).Some? ==> name in Lowered(reader, names)
  {
    hide Trim, Csv, StripBom, RowStep, Positions, HeaderOk;
    var header := Lowered(reader, names);
    NamesOnceIsOk(header);
    PositionsAre(header, |header|, i);
    OnlyTheNames(header, |header|);
  }

  // ---------- Optional measurements ----------

  /** A text that is read as a number from 0 to a maximum. */
  ghost predicate Measures(reader: Reader, text: string, maximum: real) {
    text != "" && reader.number(text).Some? && 0.0 <= reader.number(text).value <= maximum
  }

  /** How large an optional measurement may be; a flag must be a whole number. */
  function Maximum(name: string): Option<real> {
    if name == "msinpresentapi" || name == "msuntilrendercomplete" || name == "msuntildisplayed"
       || name == "msbetweendisplaychange" || name == "msgpuactive" then Some(28800000.0)
    else if name == "dropped" || name == "allowstearing" then Some(1.0)
    else if name == "syncinterval" then Some(16.0)
    else if name == "presentflags" then Some(4294967295.0)
    else None
  }

  function IsFlag(name: string): bool {
    name == "dropped" || name == "allowstearing" || name == "syncinterval" || name == "presentflags"
  }

  predicate Whole(x: real) { x - x.Floor as real == 0.0 }

  ghost predicate Optional(reader: Reader, name: string, text: string) {
    && Maximum(name).Some? && Measures(reader, text, Maximum(name).value)
    && (IsFlag(name) ==> Whole(reader.number(text).value))
  }

  lemma NamedMeasurements(name: string)
    ensures name in TIMES <==> Maximum(name) == Some(28800000.0)
    ensures name in FLAGS <==> IsFlag(name)
    ensures name in FLAGS ==> Maximum(name) == Some(FLAGS[name])
  {
    assert TIMES[0] == "msinpresentapi" && TIMES[1] == "msuntilrendercomplete" && TIMES[2] == "msuntildisplayed"
           && TIMES[3] == "msbetweendisplaychange" && TIMES[4] == "msgpuactive";
  }

  /** What the metrics hold under a name. */
  lemma CarriedUnder(reader: Reader, columns: map<string, nat>, fields: seq<string>, name: string)
    ensures var metrics, text := Metrics(reader, columns, fields), Field(columns, fields, name);
            && (name in metrics ==> text.Some? && Some(metrics[name]) == reader.number(text.value))
            && (name in metrics <==>
                || (name in FLAGS && IsWhole(Numeric(reader, text, FLAGS[name])))
                || (name in TIMES && Numeric(reader, text, MAX_MS).Some?))
  {
    hide Field, TIMES, FLAGS;
  }

  lemma NotBoth(name: string)
    ensures !(name in TIMES && name in FLAGS)
  {
    hide Maximum, IsFlag;
    NamedMeasurements(name);
    MaximumOfFlags(name);
  }

  lemma MaximumOfFlags(name: string)
    ensures IsFlag(name) ==> Maximum(name) != Some(28800000.0)
  {
  }

  /** A sample carries an optional measurement exactly when its column is there and holds an admissible
      number, and carries that number. */
  lemma MeasurementIsCarried(reader: Reader, header: seq<string>, fields: seq<string>, i: nat)
    requires NamesOnce(header) && |fields| == |header| && i < |header|
    ensures var metrics := Metrics(reader, Positions(header, |header|), fields);
            && (header[i] in metrics <==> Optional(reader, header[i], fields[i]))
            && (header[i] in metrics ==> Some(metrics[header[i]]) == reader.number(fields[i]))
  {
    hide Positions, Maximum, IsFlag, TIMES, FLAGS, Metrics, NamesOnce;
    assert forall m, n :: 0 <= m < n < |header| ==> header[m] != header[n] by { NamedOnce(header); }
    PositionsAre(header, |header|, i);
    NamedMeasurements(header[i]);
    NotBoth(header[i]);
    KnownMaximum(header[i]);
    CarriedUnder(reader, Positions(header, |header|), fields, header[i]);
  }

  lemma OnlyColumnsAreCarried(reader: Reader, header: seq<string>, fields: seq<string>, name: string)
    requires NamesOnce(header) && |fields| == |header|
    requires name in Metrics(reader, Positions(header, |header|), fields)
    ensures name in header
  {
    hide Positions, Metrics, TIMES, FLAGS, NamesOnce;
    NamedOnce(header);
    OnlyTheNames(header, |header|);
    CarriedUnder(reader, Positions(header, |header|), fields, name);
  }

  lemma NamedOnce(header: seq<string>)
    requires NamesOnce(header)
    ensures forall m, n :: 0 <= m < n < |header| ==> header[m] != header[n]
  {
  }

  lemma KnownMaximum(name: string)
    ensures Maximum(name).Some? ==> Maximum(name) == Some(28800000.0) || IsFlag(name)
  {
  }

  /** A sample carries exactly the optional measurements whose columns are there and hold an admissible
      number, and carries those numbers. */
  ghost predicate Carries(reader: Reader, header: seq<string>, fields: seq<string>, metrics: map<string, real>)
    requires |fields| == |header|
  {
    && (forall i :: 0 <= i < |header| ==>
          && (header[i] in metrics <==> Optional(reader, header[i], fields[i]))
          && (header[i] in metrics ==> Some(metrics[header[i]]) == reader.number(fields[i])))
    && (forall name :: name in metrics ==> name in header)
  }

  lemma SampleCarries(reader: Reader, header: seq<string>, fields: seq<string>)
    requires NamesOnce(header) && |fields| == |header|
    ensures Carries(reader, header, fields, Metrics(reader, Positions(header, |header|), fields))
  {
    hide Positions, Metrics, NamesOnce, Optional;
    var metrics := Metrics(reader, Positions(header, |header|), fields);
    forall i | 0 <= i < |header|
      ensures header[i] in metrics <==> Optional(reader, header[i], fields[i])
      ensures header[i] in metrics ==> Some(metrics[header[i]]) == reader.number(fields[i])
    {
      MeasurementIsCarried(reader, header, fields, i);
    }
    forall name | name in metrics ensures name in header {
      OnlyColumnsAreCarried(reader, header, fields, name);
    }
  }

  // ---------- Verdicts ----------

  ghost predicate Counter(text: string) {
    IsDigits(text) && Decimal(text) <= 0x1F_FFFF_FFFF_FFFF
  }

  /** Where the five needed columns stand. */
  datatype Places = Places(pid: nat, address: nat, interval: nat, seconds: nat, qpc: nat)

  ghost predicate Stand(header: seq<string>, at: Places) {
    && at.pid < |header| && header[at.pid] == "processid"
    && at.address < |header| && header[at.address] == "swapchainaddress"
    && at.interval < |header| && header[at.interval] == "msbetweenpresents"
    && at.seconds < |header| && header[at.seconds] == "timeinseconds"
    && at.qpc < |header| && header[at.qpc] == "qpctime"
  }

  /** All that a row of this process must hold: an address, a positive counter, up to eight hours of
      milliseconds since the last frame, and up to a day of seconds. */
  ghost predicate Fit(reader: Reader, fields: seq<string>, at: Places, receivedAt: int)
    requires at.address < |fields| && at.interval < |fields| && at.seconds < |fields| && at.qpc < |fields|
  {
    && IsAddress(fields[at.address])
    && Counter(fields[at.qpc]) && Decimal(fields[at.qpc]) > 0
    && Measures(reader, fields[at.interval], 28800000.0) && Measures(reader, fields[at.seconds], 86400.0)
    && 0 < receivedAt <= 0x1F_FFFF_FFFF_FFFF
  }

  /** The columns that a state has are those of a header. */
  ghost predicate Below(st: State, header: seq<string>) {
    NamesOnce(header) && st.columns == Positions(header, |header|)
  }

  lemma Stands(st: State, header: seq<string>, at: Places, fields: seq<string>)
    requires Below(st, header) && Stand(header, at) && |fields| == |header|
    ensures |st.columns| == |header|
    ensures Field(st.columns, fields, "processid") == Some(fields[at.pid])
    ensures Field(st.columns, fields, "swapchainaddress") == Some(fields[at.address])
    ensures Field(st.columns, fields, "msbetweenpresents") == Some(fields[at.interval])
    ensures Field(st.columns, fields, "timeinseconds") == Some(fields[at.seconds])
    ensures Field(st.columns, fields, "qpctime") == Some(fields[at.qpc])
  {
    hide Positions;
    PositionsAre(header, |header|, at.pid);
    PositionsAre(header, |header|, at.address);
    PositionsAre(header, |header|, at.interval);
    PositionsAre(header, |header|, at.seconds);
    PositionsAre(header, |header|, at.qpc);
    OnlyTheNames(header, |header|);
  }

  lemma FitIsRead(reader: Reader, st: State, header: seq<string>, at: Places, fields: seq<string>, receivedAt: int)
    requires Below(st, header) && Stand(header, at) && |fields| == |header|
    ensures var row := ReadRow(reader, st.columns, fields, receivedAt);
            && (row.Some? <==> Fit(reader, fields, at, receivedAt))
            && (row.Some? ==>
                  row.value == Row(Address(fields[at.address]), Decimal(fields[at.qpc]),
                                   reader.number(fields[at.interval]).value, reader.number(fields[at.seconds]).value))
  {
    Stands(st, header, at, fields);
    hide Below, Stand, IsAddress, IsDigits, Decimal, Address, Field;
  }

  /** The counts after a row, by verdict. */
  datatype Verdict = Accepted | Foreign | Invalid | Excess | OutOfOrder

  function Tally(c: Counts, v: Verdict): Counts {
    match v
    case Accepted => c.(accepted := c.accepted + 1)
    case Foreign => c.(foreignPid := c.foreignPid + 1)
    case Invalid => c.(invalid := c.invalid + 1)
    case Excess => c.(excessSwapChains := c.excessSwapChains + 1)
    case OutOfOrder => c.(outOfOrder := c.outOfOrder + 1)
  }

  /** Which verdict a row falls under.  An address that was not seen before needs one of 32 places; one
      that was needs a later counter. */
  ghost function VerdictOn(reader: Reader, pid: nat, chains: map<nat, Chain>, fields: seq<string>, at: Places,
                           receivedAt: int): Verdict
    requires at.pid < |fields| && at.address < |fields| && at.interval < |fields|
    requires at.seconds < |fields| && at.qpc < |fields|
  {
    if !Counter(fields[at.pid]) then Invalid
    else if Decimal(fields[at.pid]) != pid then Foreign
    else if !Fit(reader, fields, at, receivedAt) then Invalid
    else
      var address := Address(fields[at.address]);
      if address in chains then
        if Decimal(fields[at.qpc]) > chains[address].lastQpc then Accepted else OutOfOrder
      else if |chains| < 32 then Accepted
      else Excess
  }

  /** The sample of an accepted row: the numbers that stand in the needed columns, and the chain that its
      address names, or a new one. */
  ghost predicate SampleOf(reader: Reader, chains: map<nat, Chain>, fields: seq<string>, at: Places, receivedAt: int,
                           x: Sample)
    requires at.address < |fields| && at.interval < |fields| && at.seconds < |fields| && at.qpc < |fields|
  {
    && IsDigits(fields[at.qpc]) && x.qpcTime == Decimal(fields[at.qpc])
    && Some(x.msBetweenPresents) == reader.number(fields[at.interval])
    && Some(x.seconds) == reader.number(fields[at.seconds])
    && x.receivedAt == receivedAt
    && IsAddress(fields[at.address])
    && x.swapChainId == if Address(fields[at.address]) in chains then chains[Address(fields[at.address])].id
                        else |chains| + 1
  }

  /** A row of this process, in terms of what it holds. */
  lemma FitRowFalls(reader: Reader, st: State, fields: seq<string>, row: Row, receivedAt: int)
    ensures var after := Attribute(reader, st, fields, row, receivedAt);
            var known := row.address in st.chains;
            var v := if known then if row.qpc > st.chains[row.address].lastQpc then Accepted else OutOfOrder
                     else if |st.chains| >= 32 then Excess
                     else if row.qpc > 0 then Accepted
                     else OutOfOrder;
            && after.counts == Tally(st.counts, v) && after.columns == st.columns
            && if v.Accepted? then
                 var id := if known then st.chains[row.address].id else |st.chains| + 1;
                 && after.emitted == st.emitted + [Sample(id, row.qpc, row.seconds, receivedAt, row.interval,
                                                          Metrics(reader, st.columns, fields))]
                 && after.chains == st.chains[row.address := Chain(id, row.qpc)]
               else after.emitted == st.emitted && (row.qpc > 0 ==> after.chains == st.chains)
  {
    hide Metrics;
  }

  lemma RowFalls(reader: Reader, pid: nat, st: State, header: seq<string>, at: Places, fields: seq<string>,
                 receivedAt: int)
    requires Below(st, header) && Stand(header, at) && |fields| == |header|
    ensures var after := RowStep(reader, pid, st, fields, receivedAt);
            var v := VerdictOn(reader, pid, st.chains, fields, at, receivedAt);
            && after.counts == Tally(st.counts, v) && after.columns == st.columns
            && if v.Accepted? then
                 && |after.emitted| == |st.emitted| + 1
                 && var x := after.emitted[|st.emitted|];
                    && after.emitted == st.emitted + [x] && SampleOf(reader, st.chains, fields, at, receivedAt, x)
                    && x.metrics == Metrics(reader, st.columns, fields)
                    && after.chains == st.chains[Address(fields[at.address]) := Chain(x.swapChainId, x.qpcTime)]
               else after.emitted == st.emitted && after.chains == st.chains
  {
    hide Below, Fit, IsAddress, IsDigits, Decimal, Address, Field, ReadRow, Metrics, Attribute;
    Stands(st, header, at, fields);
    FitIsRead(reader, st, header, at, fields, receivedAt);
    NotEmpty(st, header, at);
    if Fit(reader, fields, at, receivedAt) {
      FitHolds(reader, fields, at, receivedAt);
      FitRowFalls(reader, st, fields, ReadRow(reader, st.columns, fields, receivedAt).value, receivedAt);
    }
  }

  lemma NotEmpty(st: State, header: seq<string>, at: Places)
    requires Below(st, header) && Stand(header, at)
    ensures st.columns != map[]
  {
    hide Positions;
    PositionsAre(header, |header|, at.pid);
  }

  lemma FitHolds(reader: Reader, fields: seq<string>, at: Places, receivedAt: int)
    requires at.address < |fields| && at.interval < |fields| && at.seconds < |fields| && at.qpc < |fields|
    requires Fit(reader, fields, at, receivedAt)
    ensures IsAddress(fields[at.address]) && IsDigits(fields[at.qpc]) && Decimal(fields[at.qpc]) > 0
    ensures reader.number(fields[at.interval]).Some? && reader.number(fields[at.seconds]).Some?
  {
    hide IsAddress, IsDigits, Decimal;
  }

  /** Whatever came before, a row that is read below a header with as many names falls under its verdict
      alone, and is accepted with the numbers that stand under "qpctime", "timeinseconds" and
      "msbetweenpresents". */
  lemma RowsBelowAHeader(reader: Reader, pid: nat, st: State, headerLine: string, names: seq<string>, line: string,
                         fields: seq<string>, at: Places, headerAt: int, receivedAt: int)
    requires ReadsAs(headerLine, names) && NamesOnce(Lowered(reader, names)) && Stand(Lowered(reader, names), at)
    requires ReadsAs(line, fields) && |fields| == |names|
    requires !("processid" in Lowered(reader, fields) && "msbetweenpresents" in Lowered(reader, fields))
    ensures var after := LineStep(reader, pid, LineStep(reader, pid, st, headerLine, headerAt), line, receivedAt);
            var v := VerdictOn(reader, pid, st.chains, fields, at, receivedAt);
            && after.counts == Tally(st.counts.(rows := st.counts.rows + 1), v)
            && if v.Accepted? then
                 && |after.emitted| == |st.emitted| + 1
                 && var x := after.emitted[|st.emitted|];
                    && after.emitted == st.emitted + [x]
                    && SampleOf(reader, st.chains, fields, at, receivedAt, x)
                    && Carries(reader, Lowered(reader, names), fields, x.metrics)
                    && after.chains == st.chains[Address(fields[at.address]) := Chain(x.swapChainId, x.qpcTime)]
               else after.emitted == st.emitted && after.chains == st.chains
  {
    hide Trim, Csv, StripBom, RowStep, Positions, HeaderOk, VerdictOn, SampleOf, Carries, Metrics, Tally;
    var header := Lowered(reader, names);
    NamesOnceIsOk(header);
    var below := LineStep(reader, pid, st, headerLine, headerAt);
    assert Below(below, header);
    var counted := below.(counts := below.counts.(rows := below.counts.rows + 1));
    assert LineStep(reader, pid, below, line, receivedAt) == RowStep(reader, pid, counted, fields, receivedAt);
    RowFalls(reader, pid, counted, header, at, fields, receivedAt);
    SampleCarries(reader, header, fields);
  }

  /** A row of another length, or one above every header, is invalid. */
  lemma OtherRowsAreInvalid(reader: Reader, pid: nat, st: State, line: string, fields: seq<string>, receivedAt: int)
    requires ReadsAs(line, fields) && (st.columns == map[] || |fields| != |st.columns|)
    requires !("processid" in Lowered(reader, fields) && "msbetweenpresents" in Lowered(reader, fields))
    ensures var after := LineStep(reader, pid, st, line, receivedAt);
            && after.counts == Tally(st.counts.(rows := st.counts.rows + 1), Invalid)
            && after.emitted == st.emitted && after.columns == st.columns && after.chains == st.chains
  {
    hide Trim, Csv, StripBom;
  }

  /** A second header line replaces the columns, and a faulty one leaves none. */
  lemma FaultyHeaderLeavesNone(reader: Reader, pid: nat, st: State, line: string, names: seq<string>, receivedAt: int)
    requires ReadsAs(line, names) && !NamesOnce(Lowered(reader, names))
    requires "processid" in Lowered(reader, names) && "msbetweenpresents" in Lowered(reader, names)
    ensures var after := LineStep(reader, pid, st, line, receivedAt);
            after.columns == map[] && after.counts == Tally(st.counts, Invalid) && after.emitted == st.emitted
  {
    hide Trim, Csv, StripBom, HeaderOk;
    NamesOnceIsOk(Lowered(reader, names));
  }
}
