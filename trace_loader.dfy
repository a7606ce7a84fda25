/** The trace loader of the v1.1 tool (`TraceLoadingWorker.run`): it reads a
    CSV trace row by row, validates and normalises each row into
    `[timestamp, id_hex, dlc, data_hex]`, counts malformed rows and, when a
    signal database is loaded, builds one `(timestamps, values)` pair of
    parallel lists per decoded signal. */
module TraceLoader {
  import opened Common
  import opened SignalDb

  /** Why a row was counted as malformed. */
  datatype RowError = TooFewFields | BadId | BadDlc | BadData

  /** The fate of one CSV row. */
  datatype RowVerdict =
    | Skipped                      // fewer than four fields, all blank
    | Malformed(reason: RowError)  // counted in `error_counter`
    | Accepted(record: seq<string>, canId: nat, dlc: nat, payload: seq<byte>)

  const MaxDlc := 64

  /** The identifier column: base 16 after a case-insensitive `0x`
      prefix, base 10 otherwise. */
  function ParseId(s: string): (r: Option<nat>)
    ensures HasHexPrefix(s) ==> r == ParseDigits(s[2..], 16)
    ensures !HasHexPrefix(s) ==> r == ParseDigits(s, 10)
  {
    if HasHexPrefix(s) then ParseHex(s) else ParseDecimal(s)
  }

  /** `any(field.strip() for field in row)` */
  predicate HasNonBlankField(fields: seq<string>) {
    fields != [] && (Strip(fields[0]) != [] || HasNonBlankField(fields[1..]))
  }

  /** The data column with all whitespace removed, in upper case. */
  function NormaliseData(s: string): string {
    Upper(RemoveSpaces(s))
  }

  /** Validation of the four stripped leading fields, in the order the
      loader applies it: identifier, DLC, data. */
  function ParseFields(stamp: string, idText: string, dlcText: string, dataText: string): RowVerdict {
    match ParseId(idText)
    case None => Malformed(BadId)
    case Some(canId) =>
      match ParseDecimal(dlcText)
      case None => Malformed(BadDlc)
      case Some(dlc) =>
        if dlc > MaxDlc then Malformed(BadDlc)
        else
          var dataHex := NormaliseData(dataText);
          match FromHex(dataHex)
          case None => Malformed(BadData)
          case Some(payload) => Accepted([stamp, ToHex(canId), ToDecimal(dlc), dataHex], canId, dlc, payload)
  }

  /** Validation of one row. */
  function ParseRow(fields: seq<string>): RowVerdict {
    if |fields| < 4 then
      if HasNonBlankField(fields) then Malformed(TooFewFields) else Skipped
    else
      ParseFields(Strip(fields[0]), Strip(fields[1]), Strip(fields[2]), Strip(fields[3]))
  }

  // ---------------------------------------------------------------------
  // Properties of one row

  /** A short row is never accepted; it is an error exactly when one of its
      fields is not blank. */
  lemma ShortRow(fields: seq<string>)
    requires |fields| < 4
    ensures !ParseRow(fields).Accepted?
    ensures ParseRow(fields).Malformed? <==> exists i :: 0 <= i < |fields| && !IsBlank(fields[i])
  {
    NonBlankField(fields);
  }

  lemma {:induction false} NonBlankField(fields: seq<string>)
    ensures HasNonBlankField(fields) <==> exists i :: 0 <= i < |fields| && !IsBlank(fields[i])
  {
    if fields != [] {
      NonBlankField(fields[1..]);
      if !IsBlank(fields[0]) {
        assert !IsBlank(fields[0]);
      } else if exists i :: 0 <= i < |fields| && !IsBlank(fields[i]) {
        var i :| 0 <= i < |fields| && !IsBlank(fields[i]);
        assert fields[1..][i - 1] == fields[i];
      }
    }
  }

  /** An accepted row is stored normalised: the identifier as upper-case
      hexadecimal without prefix that reads back as the identifier, the DLC
      as a decimal in 0..64 that reads back as the DLC, the data as
      whitespace-free upper-case hexadecimal that is exactly the text of the
      decoded payload. */
  lemma FieldsNormalised(stamp: string, idText: string, dlcText: string, dataText: string)
    requires ParseFields(stamp, idText, dlcText, dataText).Accepted?
    ensures var v := ParseFields(stamp, idText, dlcText, dataText);
      && |v.record| == 4
      && v.record[0] == stamp
      && IsUpperHexText(v.record[1]) && ParseHex(v.record[1]) == Some(v.canId)
      && ParseId(idText) == Some(v.canId)
      && 0 <= v.dlc <= MaxDlc && ParseDecimal(v.record[2]) == Some(v.dlc)
      && v.record[3] == NormaliseData(dataText)
      && IsUpperHexText(v.record[3]) && BytesToHex(v.payload) == v.record[3]
  {
    var v := ParseFields(stamp, idText, dlcText, dataText);
    HexRoundTrip(v.canId);
    DecimalRoundTrip(v.dlc);
    var hex := NormaliseData(dataText);
    assert IsUpperHexText(hex) by {
      assert AllDigits(hex, 16) by { FromHexAccepts(hex); }
      forall i | 0 <= i < |hex| ensures '0' <= hex[i] <= '9' || 'A' <= hex[i] <= 'F' {
        assert hex[i] == UpperChar(RemoveSpaces(dataText)[i]);
      }
    }
    FromHexCanonical(hex);
  }

  lemma AcceptedNormalised(fields: seq<string>)
    requires ParseRow(fields).Accepted?
    ensures |fields| >= 4
    ensures var v := ParseRow(fields);
      && |v.record| == 4
      && v.record[0] == Strip(fields[0])
      && IsUpperHexText(v.record[1]) && ParseHex(v.record[1]) == Some(v.canId)
      && 0 <= v.dlc <= MaxDlc && ParseDecimal(v.record[2]) == Some(v.dlc)
      && IsUpperHexText(v.record[3]) && BytesToHex(v.payload) == v.record[3]
  {
    FieldsNormalised(Strip(fields[0]), Strip(fields[1]), Strip(fields[2]), Strip(fields[3]));
  }

  /** The identifier accepts plain decimal and `0x`-prefixed hexadecimal
      text; both forms of the same number give the same identifier. */
  lemma IdForms(n: nat)
    ensures ParseId(ToDecimal(n)) == Some(n)
    ensures ParseId("0x" + ToHex(n)) == Some(n)
    ensures ParseId("0X" + ToHex(n)) == Some(n)
  {
    DecimalRoundTrip(n);
    HexRoundTrip(n);
    assert ("0x" + ToHex(n))[2..] == ToHex(n);
    assert ("0X" + ToHex(n))[2..] == ToHex(n);
    assert !HasHexPrefix(ToDecimal(n)) by {
      if |ToDecimal(n)| >= 2 { assert ToDecimal(n)[0] != '0'; }
    }
  }

  /** A DLC above 64 rejects a row whose identifier is valid. */
  lemma DlcOutOfRange(stamp: string, idText: string, dlcText: string, dataText: string)
    requires ParseId(idText).Some?
    requires ParseDecimal(dlcText).Some? && ParseDecimal(dlcText).value > MaxDlc
    ensures ParseFields(stamp, idText, dlcText, dataText) == Malformed(BadDlc)
  {
  }

  /** The payload length is not checked against the DLC: a row announcing
      eight bytes whose data column is blank is accepted with an empty
      payload. */
  lemma DlcNotCheckedAgainstData(stamp: string, blank: string)
    requires IsBlank(blank)
    ensures ParseFields(stamp, "0x100", "8", blank).Accepted?
    ensures ParseFields(stamp, "0x100", "8", blank).payload == []
  {
    assert ParseDigits("100", 16) == Some(256) by {
      assert "100"[..2] == "10" && "10"[..1] == "1" && "1"[..0] == [];
    }
    assert ParseId("0x100") == Some(256) by {
      assert "0x100"[2..] == "100";
    }
    assert ParseDecimal("8") == Some(8) by {
      assert "8"[..0] == [];
    }
    assert RemoveSpaces(blank) == [] by { BlankRemoved(blank); }
  }

  lemma {:induction false} BlankRemoved(s: string)
    requires IsBlank(s)
    ensures RemoveSpaces(s) == []
  {
    if s != [] { BlankRemoved(s[..|s| - 1]); }
  }

  // ---------------------------------------------------------------------
  // The whole trace, as functions of the verdicts of the rows read so far.
  // The row at position `k` (from 0) has line number `k + 1`.

  /** The verdict of every row of the file, in order. */
  function Verdicts(rows: seq<seq<string>>): (vs: seq<RowVerdict>)
    ensures |vs| == |rows|
    ensures forall k :: 0 <= k < |rows| ==> vs[k] == ParseRow(rows[k])
  {
    seq(|rows|, k requires 0 <= k < |rows| => ParseRow(rows[k]))
  }

  /** What decoding a row gives: None when the row is not accepted or no
      database is loaded. */
  function RowDecode(v: RowVerdict, db: Option<Decoder>): Option<DecodeOutcome> {
    if v.Accepted? && db.Some? then Some(db.value(v.canId, v.payload)) else None
  }

  /** The time recorded for a decoded row: `float(timestamp)`, or the line
      number when the text is not a number. */
  function RowTime(v: RowVerdict, line: nat, toFloat: string -> Option<real>): real
    requires v.Accepted? && |v.record| > 0
  {
    match toFloat(v.record[0])
    case Some(t) => t
    case None => line as real
  }

  /** `trace_data`: the normalised records of the accepted rows, in order. */
  function Records(vs: seq<RowVerdict>): seq<seq<string>> {
    if vs == [] then []
    else Records(Init(vs)) + (if Last(vs).Accepted? then [Last(vs).record] else [])
  }

  /** One for a malformed row and one for an accepted row whose decode
      raised something other than KeyError. */
  function RowErrors(v: RowVerdict, db: Option<Decoder>): nat {
    if v.Malformed? then 1
    else if RowDecode(v, db) == Some(DecodeFailed) then 1
    else 0
  }

  /** `error_counter` */
  function Errors(vs: seq<RowVerdict>, db: Option<Decoder>): nat {
    if vs == [] then 0 else Errors(Init(vs), db) + RowErrors(Last(vs), db)
  }

  predicate RowDecoded(v: RowVerdict, db: Option<Decoder>) {
    RowDecode(v, db).Some? && RowDecode(v, db).value.Decoded?
  }

  /** `decoded_counter` */
  function DecodedRows(vs: seq<RowVerdict>, db: Option<Decoder>): nat {
    if vs == [] then 0
    else DecodedRows(Init(vs), db) + (if RowDecoded(Last(vs), db) then 1 else 0)
  }

  predicate RowHasSignal(v: RowVerdict, db: Option<Decoder>, name: string) {
    RowDecoded(v, db) && name in RowDecode(v, db).value.signals
  }

  /** The shape ParseRow gives every verdict: an accepted row's record
      has its four fields. */
  predicate RowShape(v: RowVerdict) {
    v.Accepted? ==> |v.record| == 4
  }

  predicate WellFormed(vs: seq<RowVerdict>) {
    forall k :: 0 <= k < |vs| ==> RowShape(vs[k])
  }

  /** The timestamps recorded for one signal, in row order. */
  function Times(vs: seq<RowVerdict>, db: Option<Decoder>, toFloat: string -> Option<real>, name: string): seq<real>
    requires WellFormed(vs)
  {
    if vs == [] then []
    else
      Times(Init(vs), db, toFloat, name)
      + (if RowHasSignal(Last(vs), db, name) then [RowTime(Last(vs), |vs|, toFloat)] else [])
  }

  /** The values recorded for one signal, in row order. */
  function Values(vs: seq<RowVerdict>, db: Option<Decoder>, name: string): seq<SignalValue> {
    if vs == [] then []
    else
      Values(Init(vs), db, name)
      + (if RowHasSignal(Last(vs), db, name) then [RowDecode(Last(vs), db).value.signals[name]] else [])
  }

  lemma RecordsHaveFourFields(rows: seq<seq<string>>)
    ensures WellFormed(Verdicts(rows))
  {
    forall k | 0 <= k < |rows| && ParseRow(rows[k]).Accepted?
      ensures |ParseRow(rows[k]).record| == 4
    {
      AcceptedNormalised(rows[k]);
    }
  }

  // ---------------------------------------------------------------------
  // Properties of the whole trace

  /** Each signal's timestamp and value lists have the same length: one
      entry per row that decoded the signal. */
  lemma {:induction false} SeriesAligned(vs: seq<RowVerdict>, db: Option<Decoder>, toFloat: string -> Option<real>, name: string)
    requires WellFormed(vs)
    ensures |Times(vs, db, toFloat, name)| == |Values(vs, db, name)|
    ensures |Values(vs, db, name)| <= DecodedRows(vs, db)
  {
    if vs != [] {
      SeriesAligned(Init(vs), db, toFloat, name);
    }
  }

  /** The counters never exceed the number of rows, and decoded rows are
      accepted rows. */
  lemma {:induction false} CountersBounded(vs: seq<RowVerdict>, db: Option<Decoder>)
    ensures |Records(vs)| <= |vs|
    ensures Errors(vs, db) <= |vs|
    ensures DecodedRows(vs, db) <= |Records(vs)|
  {
    if vs != [] {
      CountersBounded(Init(vs), db);
    }
  }

  /** Without a database nothing is decoded, no series is built and every
      row is either stored, or counted as an error, or blank. */
  lemma {:induction false} NoDatabase(vs: seq<RowVerdict>, toFloat: string -> Option<real>, name: string)
    requires WellFormed(vs)
    ensures DecodedRows(vs, None) == 0
    ensures Times(vs, None, toFloat, name) == []
    ensures Errors(vs, None) + |Records(vs)| <= |vs|
  {
    if vs != [] {
      NoDatabase(Init(vs), toFloat, name);
    }
  }

  /** The shape AcceptedNormalised gives every stored record. */
  predicate Normalised(rec: seq<string>) {
    && |rec| == 4
    && IsUpperHexText(rec[1]) && ParseHex(rec[1]).Some?
    && ParseDecimal(rec[2]).Some? && ParseDecimal(rec[2]).value <= MaxDlc
    && IsUpperHexText(rec[3]) && FromHex(rec[3]).Some?
  }

  /** Every record the loader stores is normalised. */
  lemma {:induction false} RecordsNormalised(rows: seq<seq<string>>)
    ensures forall k :: 0 <= k < |Records(Verdicts(rows))| ==> Normalised(Records(Verdicts(rows))[k])
  {
    if rows != [] {
      RecordsNormalised(Init(rows));
      assert Init(Verdicts(rows)) == Verdicts(Init(rows));
      var v := ParseRow(Last(rows));
      assert Last(Verdicts(rows)) == v;
      var before := Records(Verdicts(Init(rows)));
      var added := if v.Accepted? then [v.record] else [];
      assert Records(Verdicts(rows)) == before + added;
      RowNormalised(Last(rows));
      AllNormalisedAppend(before, added);
    }
  }

  /** The record an accepted row stores is normalised. */
  lemma RowNormalised(fields: seq<string>)
    ensures ParseRow(fields).Accepted? ==> Normalised(ParseRow(fields).record)
  {
    if ParseRow(fields).Accepted? {
      AcceptedNormalised(fields);
      BytesHexRoundTrip(ParseRow(fields).payload);
    }
  }

  lemma AllNormalisedAppend(xs: seq<seq<string>>, ys: seq<seq<string>>)
    requires forall k :: 0 <= k < |xs| ==> Normalised(xs[k])
    requires forall k :: 0 <= k < |ys| ==> Normalised(ys[k])
    ensures forall k :: 0 <= k < |xs + ys| ==> Normalised((xs + ys)[k])
  {
    forall k | 0 <= k < |xs + ys|
      ensures Normalised((xs + ys)[k])
    {
      if k < |xs| { assert (xs + ys)[k] == xs[k]; } else { assert (xs + ys)[k] == ys[k - |xs|]; }
    }
  }

  /** A row whose identifier the database does not know adds nothing to
      any series and counts no error. */
  lemma UnknownIdIgnored(vs: seq<RowVerdict>, v: RowVerdict, db: Option<Decoder>, toFloat: string -> Option<real>, name: string)
    requires WellFormed(vs) && RowShape(v)
    requires RowDecode(v, db) == Some(UnknownFrame)
    ensures Errors(vs + [v], db) == Errors(vs, db)
    ensures Times(vs + [v], db, toFloat, name) == Times(vs, db, toFloat, name)
    ensures Values(vs + [v], db, name) == Values(vs, db, name)
    ensures Records(vs + [v]) == Records(vs) + [v.record]
  {
    assert Init(vs + [v]) == vs;
  }

  /** A decoded row whose timestamp is not a number is placed at its line
      number in every series it contributes to. */
  lemma LineNumberFallback(vs: seq<RowVerdict>, v: RowVerdict, db: Option<Decoder>, toFloat: string -> Option<real>, name: string)
    requires WellFormed(vs) && RowShape(v)
    requires RowHasSignal(v, db, name) && toFloat(v.record[0]).None?
    ensures Times(vs + [v], db, toFloat, name) == Times(vs, db, toFloat, name) + [(|vs| + 1) as real]
  {
    assert Init(vs + [v]) == vs;
  }

  // ---------------------------------------------------------------------
  // The loader

  /** One more row: how each whole-trace quantity grows. */
  lemma CountStep(vs: seq<RowVerdict>, v: RowVerdict, db: Option<Decoder>)
    requires WellFormed(vs) && RowShape(v)
    ensures WellFormed(vs + [v])
    ensures Records(vs + [v]) == Records(vs) + (if v.Accepted? then [v.record] else [])
    ensures Errors(vs + [v], db) == Errors(vs, db) + RowErrors(v, db)
    ensures DecodedRows(vs + [v], db) == DecodedRows(vs, db) + (if RowDecoded(v, db) then 1 else 0)
  {
    assert Init(vs + [v]) == vs;
    assert Last(vs + [v]) == v;
  }

  lemma Step(vs: seq<RowVerdict>, v: RowVerdict, db: Option<Decoder>, toFloat: string -> Option<real>)
    requires WellFormed(vs) && RowShape(v)
    ensures WellFormed(vs + [v])
    ensures forall name ::
              Values(vs + [v], db, name) ==
              Values(vs, db, name) + (if RowHasSignal(v, db, name) then [RowDecode(v, db).value.signals[name]] else [])
    ensures forall name ::
              Times(vs + [v], db, toFloat, name) ==
              Times(vs, db, toFloat, name) + (if RowHasSignal(v, db, name) then [RowTime(v, |vs| + 1, toFloat)] else [])
  {
    assert Init(vs + [v]) == vs;
    assert Last(vs + [v]) == v;
  }

  /** The series map holds exactly the signals decoded so far, each with its
      timestamps and values in row order. */
  ghost predicate SeriesMatch(series: map<string, Series<SignalValue>>, vs: seq<RowVerdict>, db: Option<Decoder>, toFloat: string -> Option<real>)
    requires WellFormed(vs)
  {
    && (forall name :: name in series <==> Values(vs, db, name) != [])
    && (forall name :: name in series ==>
          series[name] == Series(Times(vs, db, toFloat, name), Values(vs, db, name)))
  }

  /** A signal's lists before a row is added: empty when it has none yet. */
  function Before(series: map<string, Series<SignalValue>>, name: string): Series<SignalValue> {
    if name in series then series[name] else EmptySeries()
  }

  /** `r` is `series` after appending `t` and each decoded value to the
      lists of its signal, creating missing entries; other signals keep
      their lists. */
  predicate Appended(series: map<string, Series<SignalValue>>, t: real, signals: map<string, SignalValue>,
                     r: map<string, Series<SignalValue>>)
  {
    && r.Keys == series.Keys + signals.Keys
    && (forall name :: name in signals ==>
          r[name] == Series(Before(series, name).times + [t], Before(series, name).values + [signals[name]]))
    && (forall name :: name in series && name !in signals ==> r[name] == series[name])
  }

  lemma SeriesKept(series: map<string, Series<SignalValue>>, vs: seq<RowVerdict>, v: RowVerdict,
                   db: Option<Decoder>, toFloat: string -> Option<real>)
    requires WellFormed(vs) && RowShape(v) && SeriesMatch(series, vs, db, toFloat)
    requires !RowDecoded(v, db)
    ensures WellFormed(vs + [v]) && SeriesMatch(series, vs + [v], db, toFloat)
  {
    Step(vs, v, db, toFloat);
  }

  lemma SeriesGrown(series: map<string, Series<SignalValue>>, r: map<string, Series<SignalValue>>,
                    vs: seq<RowVerdict>, v: RowVerdict, db: Option<Decoder>, toFloat: string -> Option<real>)
    requires WellFormed(vs) && RowShape(v) && SeriesMatch(series, vs, db, toFloat)
    requires RowDecoded(v, db)
    requires Appended(series, RowTime(v, |vs| + 1, toFloat), RowDecode(v, db).value.signals, r)
    ensures WellFormed(vs + [v]) && SeriesMatch(r, vs + [v], db, toFloat)
  {
    Step(vs, v, db, toFloat);
    forall name | name !in series
      ensures Times(vs, db, toFloat, name) == []
    {
      SeriesAligned(vs, db, toFloat, name);
    }
  }

  /** The inner loop over `decoded_signals.items()`. */
  method AppendSignals(series: map<string, Series<SignalValue>>, t: real, signals: map<string, SignalValue>)
    returns (r: map<string, Series<SignalValue>>)
    ensures Appended(series, t, signals, r)
  {
    r := series;
    var todo := signals.Keys;
    while todo != {}
      invariant todo <= signals.Keys
      invariant r.Keys == series.Keys + (signals.Keys - todo)
      invariant forall name :: name in signals && name !in todo ==>
        r[name] == Series(Before(series, name).times + [t], Before(series, name).values + [signals[name]])
      invariant forall name :: name in series && (name !in signals || name in todo) ==> r[name] == series[name]
      decreases todo
    {
      var name :| name in todo;
      if name !in r {
        r := r[name := EmptySeries()];
      }
      r := r[name := Series(r[name].times + [t], r[name].values + [signals[name]])];
      todo := todo - {name};
    }
  }

  /** The body of the loader's loop for one validated row at line `line`.
      The message counter is the length of the trace and is not kept apart. */
  method LoadRow(v: RowVerdict, line: nat, db: Option<Decoder>, toFloat: string -> Option<real>,
                 trace: seq<seq<string>>, series: map<string, Series<SignalValue>>,
                 decodedCounter: nat, errorCounter: nat)
    returns (trace': seq<seq<string>>, series': map<string, Series<SignalValue>>,
             decodedCounter': nat, errorCounter': nat)
    requires RowShape(v)
    ensures RowLoaded(v, line, db, toFloat, trace, series, decodedCounter, errorCounter,
                      trace', series', decodedCounter', errorCounter')
  {
    trace', series', decodedCounter', errorCounter' := trace, series, decodedCounter, errorCounter;
    match v {
      case Skipped =>
      case Malformed(_) =>
        errorCounter' := errorCounter + 1;
      case Accepted(record, canId, dlc, payload) =>
        trace' := trace + [record];
        if db.Some? {
          match db.value(canId, payload) {
            case UnknownFrame =>
            case DecodeFailed =>
              errorCounter' := errorCounter + 1;
            case Decoded(signals) =>
              decodedCounter' := decodedCounter + 1;
              series' := AppendSignals(series, RowTime(v, line, toFloat), signals);
          }
        }
    }
  }

  /** `TraceLoadingWorker.run` over the rows of the file, with the loaded
      database (if any) and Python's `float()` on the timestamp text. */
  method LoadTrace(rows: seq<seq<string>>, db: Option<Decoder>, toFloat: string -> Option<real>)
    returns (trace: seq<seq<string>>, series: map<string, Series<SignalValue>>,
             messageCounter: nat, decodedCounter: nat, errorCounter: nat)
    ensures WellFormed(Verdicts(rows))
    ensures trace == Records(Verdicts(rows))
    ensures messageCounter == |trace|
    ensures decodedCounter == DecodedRows(Verdicts(rows), db)
    ensures errorCounter == Errors(Verdicts(rows), db)
    ensures forall name :: name in series <==> Values(Verdicts(rows), db, name) != []
    ensures forall name :: name in series ==>
      series[name] == Series(Times(Verdicts(rows), db, toFloat, name), Values(Verdicts(rows), db, name))
  {
    trace, series := [], map[];
    decodedCounter, errorCounter := 0, 0;
    var lineNum := 0;
    LoadedStart(rows, db, toFloat);
    while lineNum < |rows|
      invariant 0 <= lineNum <= |rows|
      invariant Loaded(rows, lineNum, db, toFloat, trace, series, decodedCounter, errorCounter)
    {
      var v := ParseRow(rows[lineNum]);
      RowShaped(rows[lineNum]);
      var trace', series', decodedCounter', errorCounter' :=
        LoadRow(v, lineNum + 1, db, toFloat, trace, series, decodedCounter, errorCounter);
      LoadedStep(rows, lineNum, db, toFloat, trace, series, decodedCounter, errorCounter,
                 trace', series', decodedCounter', errorCounter');
      trace, series, decodedCounter, errorCounter := trace', series', decodedCounter', errorCounter';
      lineNum := lineNum + 1;
    }
    LoadedEnd(rows, db, toFloat, trace, series, decodedCounter, errorCounter);
    messageCounter := |trace|;
  }

  /** The loader's state after the rows whose verdicts are `vs`. */
  ghost predicate State(vs: seq<RowVerdict>, db: Option<Decoder>, toFloat: string -> Option<real>,
                        trace: seq<seq<string>>, series: map<string, Series<SignalValue>>,
                        decodedCounter: nat, errorCounter: nat)
  {
    && WellFormed(vs)
    && trace == Records(vs)
    && decodedCounter == DecodedRows(vs, db)
    && errorCounter == Errors(vs, db)
    && SeriesMatch(series, vs, db, toFloat)
  }

  /** The loader's state after the first `n` rows. */
  ghost predicate Loaded(rows: seq<seq<string>>, n: nat, db: Option<Decoder>, toFloat: string -> Option<real>,
                         trace: seq<seq<string>>, series: map<string, Series<SignalValue>>,
                         decodedCounter: nat, errorCounter: nat)
  {
    n <= |rows| && State(Verdicts(rows[..n]), db, toFloat, trace, series, decodedCounter, errorCounter)
  }

  /** What loading one row does: an accepted row is stored; a malformed
      row and a failed decode count an error; a decoded row counts and
      appends its signals at its time; nothing else changes. */
  ghost predicate RowLoaded(v: RowVerdict, line: nat, db: Option<Decoder>, toFloat: string -> Option<real>,
                            trace: seq<seq<string>>, series: map<string, Series<SignalValue>>,
                            decodedCounter: nat, errorCounter: nat,
                            trace': seq<seq<string>>, series': map<string, Series<SignalValue>>,
                            decodedCounter': nat, errorCounter': nat)
  {
    && RowShape(v)
    && trace' == trace + (if v.Accepted? then [v.record] else [])
    && decodedCounter' == decodedCounter + (if RowDecoded(v, db) then 1 else 0)
    && errorCounter' == errorCounter + RowErrors(v, db)
    && (!RowDecoded(v, db) ==> series' == series)
    && (RowDecoded(v, db) ==> Appended(series, RowTime(v, line, toFloat), RowDecode(v, db).value.signals, series'))
  }

  lemma StateStep(vs: seq<RowVerdict>, v: RowVerdict, db: Option<Decoder>, toFloat: string -> Option<real>,
                  trace: seq<seq<string>>, series: map<string, Series<SignalValue>>,
                  decodedCounter: nat, errorCounter: nat,
                  trace': seq<seq<string>>, series': map<string, Series<SignalValue>>,
                  decodedCounter': nat, errorCounter': nat)
    requires State(vs, db, toFloat, trace, series, decodedCounter, errorCounter)
    requires RowLoaded(v, |vs| + 1, db, toFloat, trace, series, decodedCounter, errorCounter,
                       trace', series', decodedCounter', errorCounter')
    ensures State(vs + [v], db, toFloat, trace', series', decodedCounter', errorCounter')
  {
    CountStep(vs, v, db);
    if RowDecoded(v, db) {
      SeriesGrown(series, series', vs, v, db, toFloat);
    } else {
      SeriesKept(series, vs, v, db, toFloat);
    }
  }

  lemma RowShaped(row: seq<string>)
    ensures RowShape(ParseRow(row))
  {
    if ParseRow(row).Accepted? {
      AcceptedNormalised(row);
    }
  }

  lemma LoadedStart(rows: seq<seq<string>>, db: Option<Decoder>, toFloat: string -> Option<real>)
    ensures Loaded(rows, 0, db, toFloat, [], map[], 0, 0)
  {
    assert rows[..0] == [];
  }

  lemma LoadedStep(rows: seq<seq<string>>, n: nat, db: Option<Decoder>, toFloat: string -> Option<real>,
                   trace: seq<seq<string>>, series: map<string, Series<SignalValue>>,
                   decodedCounter: nat, errorCounter: nat,
                   trace': seq<seq<string>>, series': map<string, Series<SignalValue>>,
                   decodedCounter': nat, errorCounter': nat)
    requires n < |rows| && Loaded(rows, n, db, toFloat, trace, series, decodedCounter, errorCounter)
    requires RowLoaded(ParseRow(rows[n]), n + 1, db, toFloat, trace, series, decodedCounter, errorCounter,
                       trace', series', decodedCounter', errorCounter')
    ensures Loaded(rows, n + 1, db, toFloat, trace', series', decodedCounter', errorCounter')
  {
    PrefixSnoc(rows, n);
    VerdictsSnoc(rows[..n], rows[n]);
    StateStep(Verdicts(rows[..n]), ParseRow(rows[n]), db, toFloat, trace, series, decodedCounter, errorCounter,
              trace', series', decodedCounter', errorCounter');
  }

  lemma PrefixSnoc<T>(s: seq<T>, i: nat)
    requires i < |s|
    ensures s[..i + 1] == s[..i] + [s[i]]
  {
  }

  lemma VerdictsSnoc(rows: seq<seq<string>>, row: seq<string>)
    ensures Verdicts(rows + [row]) == Verdicts(rows) + [ParseRow(row)]
  {
  }

  lemma LoadedEnd(rows: seq<seq<string>>, db: Option<Decoder>, toFloat: string -> Option<real>,
                  trace: seq<seq<string>>, series: map<string, Series<SignalValue>>,
                  decodedCounter: nat, errorCounter: nat)
    requires Loaded(rows, |rows|, db, toFloat, trace, series, decodedCounter, errorCounter)
    ensures WellFormed(Verdicts(rows))
    ensures trace == Records(Verdicts(rows))
    ensures decodedCounter == DecodedRows(Verdicts(rows), db)
    ensures errorCounter == Errors(Verdicts(rows), db)
    ensures forall name :: name in series <==> Values(Verdicts(rows), db, name) != []
    ensures forall name :: name in series ==>
      series[name] == Series(Times(Verdicts(rows), db, toFloat, name), Values(Verdicts(rows), db, name))
  {
    assert rows[..|rows|] == rows;
  }
}
