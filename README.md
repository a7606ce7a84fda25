# Vector CAN diagnose tool: a verified model of its core logic

The tool is a PyQt desktop application for Vector CAN interfaces. It comes in
two near-identical revisions, `Vector_diagnose_tool_v1.1.py` and
`Vector_diag_guid.py`. It loads CAN traces from CSV files, decodes signals
with a DBC database, logs live traffic to CSV, runs UDS diagnostic requests
described by ODX, and manages several CAN networks with a connection state
machine. This project models the sequential decision and bookkeeping logic
around the libraries it uses, and proves what that logic guarantees.

Modules (one `.dfy` file each):

- `Common` (`common.dfy`): text and number helpers.
  - `str.strip()`, whitespace removal, upper-casing.
  - Decimal and hexadecimal parsing and printing.
  - `bytes.fromhex` and `bytes.hex().upper()`, with round-trip lemmas.
- `SignalDb` (`signal_db.dfy`): the DBC database as an abstract partial
  decode function, the decoded value type, and Python's `float()` on it.
- `TraceLoader` (`trace_loader.dfy`): `TraceLoadingWorker.run` of v1.1.
  - Row validation as a pure verdict per row.
  - The imperative loader loop, proved against whole-trace functions
    (records, counters, per-signal series).
- `Loggers` (`loggers.dfy`): the two `LoggingWorker` revisions as classes.
  - `RowLogger` (v1.1, with its final drain).
  - `FrameLogger` (guid, with its row counter and without a final drain).
- `Diagnostics` (`diagnostics.dfy`): the v1.1 diagnostic path.
  - The request builders of the diagnostics tab and the two busy/precondition gates.
  - `DiagnosticWorker.run` as a pure pipeline: addressing, service lookup,
    parameter mapping, response classification.
- `Listener` (`listener.dfy`): `CanListenerThread.run` as a transducer
  from a script of `recv` outcomes to the signals it emits.
- `Display` (`display.dfy`): the pure display helpers.
  - Latest values, bounded windows, stride sampling.
  - Status-bar truncation and baud-rate validation.
- `Networks` (`networks.dfy`): one network of the guid main window.
  - A class whose methods are `connect_network`, `disconnect_network`,
    `handle_connection_closed`, `_finalize_disconnect`,
    `handle_listener_error` and `handle_live_message`.

How the environment is modelled:

- Foreign calls are function-typed parameters or datatypes of outcomes. These are:
  - the cantools decode;
  - `float()` on timestamp text, and the `.6f` timestamp formatting;
  - odxtools `encode_request` and `ecu.decode`;
  - the ISO-TP send/receive exchange;
  - the outcome of opening the Vector bus.
- Threads are modelled sequentially. Each method is one step of one thread,
  and a stop request is an explicit call or script step.

Diagnostic addressing falls back to 0x7E0/0x7E8 when the ODX lookup
gives nothing or raises (`Vector_diagnose_tool_v1.1.py:396-411`). It is not
treated as a configuration error. As a consequence, the "no addressing"
error at line 413 can never occur (`Diagnostics.Prepare`, `Diagnostics.Run`).

## Model

| member | source | states |
|---|---|---|
| Common.Strip | Vector_diagnose_tool_v1.1.py:162 | the stripped text is no longer than the input, has no whitespace at either end, and is empty exactly when the field is blank |
| Common.StripUnchanged | Vector_diagnose_tool_v1.1.py:162 | text with no whitespace at either end is left unchanged by stripping |
| Common.RemoveSpaces | Vector_diagnose_tool_v1.1.py:184 | `"".join(s.split())` leaves no whitespace, does not lengthen the text, and leaves text without whitespace unchanged |
| Common.RemoveSpacesAppend | Vector_diagnose_tool_v1.1.py:184 | removing whitespace from joined texts is removing it from each and joining, so every non-blank character is kept in order |
| Common.UpperIdempotent | Vector_diagnose_tool_v1.1.py:184 | upper-casing an upper-cased text changes nothing |
| Common.UpperFromHex | Vector_diagnose_tool_v1.1.py:184-186 | upper-casing before `bytes.fromhex` does not change what the text parses to, or whether it parses |
| Common.Hex2ReadsBack | Vector_diagnose_tool_v1.1.py:526 | the two digits `f"{n:02X}"` writes for a byte parse back as that byte |
| Common.ParseDecimal | Vector_diagnose_tool_v1.1.py:175 | `int(dlc_str)` succeeds exactly on a non-empty run of decimal digits |
| Common.ParseHex | Vector_diagnose_tool_v1.1.py:1701 | `int(text, 16)` reads the digits after an optional `0x`/`0X` prefix, in base 16 |
| Common.HexRoundTrip | Vector_diagnose_tool_v1.1.py:166-167 | the upper-case hexadecimal text `f"{n:X}"` parses back to `n` in base 16 |
| Common.DecimalRoundTrip | Vector_diagnose_tool_v1.1.py:175-197 | the stored `str(dlc)` parses back to the same DLC |
| Common.DigitsRoundTrip | Vector_diagnose_tool_v1.1.py:166-167 | the digits printed for `n` in base 10 or 16 read back as `n` |
| Common.Hex2 | Vector_diagnose_tool_v1.1.py:526 | `f"{n:02X}"` has at least two characters, a leading minus for a negative code, and exactly the two upper-case digits of a byte |
| Common.BytesToHex | Vector_diag_guid.py:154 | `data.hex().upper()` has two upper-case hexadecimal digits per byte |
| Common.FromHex | Vector_diagnose_tool_v1.1.py:186 | `bytes.fromhex` yields one byte per two digits |
| Common.FromHexAccepts | Vector_diagnose_tool_v1.1.py:184-195 | the normalised data field is accepted exactly when it has an even number of hexadecimal digits |
| Common.BytesHexRoundTrip | Vector_diag_guid.py:154 | the payload text the guid logger writes decodes back to the same bytes |
| Common.FromHexCanonical | Vector_diagnose_tool_v1.1.py:184-197 | an accepted upper-case data field is the canonical text of its bytes, so the stored `data_hex` and the decoded payload agree |
| SignalDb.AsFloat | Vector_diag_guid.py:1556 | `float(value)` succeeds exactly on a numeric value; `Networks.SeriesStepShape` and `Networks.StepIsLatest` prove what the live path does with that number |
| TraceLoader.ParseId | Vector_diagnose_tool_v1.1.py:166 | an identifier with a case-insensitive `0x` prefix is read in base 16 after the prefix; any other is read in base 10 |
| TraceLoader.ShortRow | Vector_diagnose_tool_v1.1.py:156-160 | a row with fewer than four fields is never stored, and counts as an error exactly when one of its fields is not blank |
| TraceLoader.NonBlankField | Vector_diagnose_tool_v1.1.py:157 | `any(field.strip() for field in row)` holds exactly when some field is not blank |
| TraceLoader.FieldsNormalised | Vector_diagnose_tool_v1.1.py:162-198 | an accepted row is stored as the stripped timestamp, the identifier as upper-case hexadecimal without prefix that reads back as the identifier, the DLC in 0..64 as decimal that reads back as the DLC, and the whitespace-free upper-case data that is exactly the text of the decoded payload |
| TraceLoader.AcceptedNormalised | Vector_diagnose_tool_v1.1.py:156-198 | an accepted row had at least four fields; its record starts with the stripped timestamp and holds the normalised identifier, DLC and data |
| TraceLoader.IdForms | Vector_diagnose_tool_v1.1.py:165-167 | a plain decimal identifier and a `0x`- or `0X`-prefixed hexadecimal identifier are both read as the number they denote |
| TraceLoader.DlcOutOfRange | Vector_diagnose_tool_v1.1.py:173-181 | a DLC above 64 makes a row with a valid identifier malformed, for the DLC |
| TraceLoader.DlcNotCheckedAgainstData | Vector_diagnose_tool_v1.1.py:173-197 | a row announcing DLC 8 with a blank data field is accepted with an empty payload: data length is not checked against the DLC |
| TraceLoader.BlankRemoved | Vector_diagnose_tool_v1.1.py:184 | removing whitespace from a blank field leaves nothing |
| TraceLoader.RecordsHaveFourFields | Vector_diagnose_tool_v1.1.py:197 | every stored record has exactly four fields |
| TraceLoader.SeriesAligned | Vector_diagnose_tool_v1.1.py:213-217 | each signal's timestamp and value lists have equal length, and no more entries than decoded rows |
| TraceLoader.CountersBounded | Vector_diagnose_tool_v1.1.py:159-223 | stored records and errors never exceed the rows read, and decoded rows never exceed stored records |
| TraceLoader.NoDatabase | Vector_diagnose_tool_v1.1.py:201 | without a database nothing is decoded, no signal gets a timestamp, and errors and stored records together never exceed the rows |
| TraceLoader.RecordsNormalised | Vector_diagnose_tool_v1.1.py:197 | every record in `trace_data` has the normalised four-field shape |
| TraceLoader.RowNormalised | Vector_diagnose_tool_v1.1.py:162-197 | the record of one accepted row has the normalised shape |
| TraceLoader.UnknownIdIgnored | Vector_diagnose_tool_v1.1.py:219-220 | a stored row whose identifier the database does not know adds no error and no signal entry |
| TraceLoader.LineNumberFallback | Vector_diagnose_tool_v1.1.py:207-211 | a decoded row whose timestamp is not a number is placed at its line number |
| TraceLoader.CountStep | Vector_diagnose_tool_v1.1.py:156-223 | one more row grows the records by its record if accepted, the errors by its error count and the decoded count by one if it decoded |
| TraceLoader.AppendSignals | Vector_diagnose_tool_v1.1.py:213-217 | the inner loop appends the time and each decoded value to that signal's lists, creating empty lists first, and leaves other signals alone |
| TraceLoader.LoadRow | Vector_diagnose_tool_v1.1.py:156-223 | one row: an accepted row is stored; a malformed row or a failed decode counts one error; a decoded row counts and appends its signals at its time; nothing else changes |
| TraceLoader.Verdicts | Vector_diagnose_tool_v1.1.py:156-195 | one verdict per row, in row order; `TraceLoader.LoadTrace` proves that the reading loop's counters, records and series are the ones these verdicts define |
| TraceLoader.LoadTrace | Vector_diagnose_tool_v1.1.py:125-227 | after the loop: `trace_data` is the records of the accepted rows in file order, `message_counter` is their number, both counters match their definitions, and the series hold exactly the decoded signals with their values and times in row order |
| TraceLoader.LoadedStep | Vector_diagnose_tool_v1.1.py:145-223 | the loop invariant holds after one more row |
| Loggers.RowLogger.constructor | Vector_diagnose_tool_v1.1.py:239-246 | a new worker is not running, has no writer and an empty queue |
| Loggers.RowLogger.Start | Vector_diagnose_tool_v1.1.py:249-256 | the worker runs, the file holds the four-column header and nothing is queued |
| Loggers.RowLogger.Enqueue | Vector_diagnose_tool_v1.1.py:297-302 | a row is queued at the back exactly when the worker runs and its writer is set |
| Loggers.RowLogger.DrainCycle | Vector_diagnose_tool_v1.1.py:258-270 | one pass writes the queued rows in FIFO order and empties the queue |
| Loggers.RowLogger.Stop | Vector_diagnose_tool_v1.1.py:293-295 | the flag is cleared and nothing else changes |
| Loggers.RowLogger.Finish | Vector_diagnose_tool_v1.1.py:272-291 | after the final drain the file is the header followed by every accepted row, exactly once and in order |
| Loggers.BoolText | Vector_diag_guid.py:155-157 | `str()` of a bool is `True` exactly for true |
| Loggers.FrameRow | Vector_diag_guid.py:150-159 | a frame's CSV row has the seven header columns |
| Loggers.FrameRowReadsBack | Vector_diag_guid.py:150-159 | every field of a frame reads back from its row: identifier, DLC, payload and the three flags |
| Loggers.RenderRows | Vector_diag_guid.py:148-161 | the formatting loop produces the rows of its batch |
| Loggers.LogExtends | Vector_diag_guid.py:140-161 | a log holding the first frames meant for the file, extended by the rows of the rest, holds them all |
| Loggers.FrameRows | Vector_diag_guid.py:148-161 | one row per frame, in order; its partners are `Loggers.RenderRows`, the writing loop proved to produce it, and `Loggers.FrameRowsAppend` |
| Loggers.FrameRowsAppend | Vector_diag_guid.py:148-161 | rendering two batches one after the other gives the rows of the joined batch |
| Loggers.FrameLogger.constructor | Vector_diag_guid.py:119-128 | a new worker is not running, has no file, an empty queue and a zero counter |
| Loggers.FrameLogger.Start | Vector_diag_guid.py:130-138 | the worker runs, the counter is reset, and the file holds the seven-column header; a leftover queue stays queued for this file |
| Loggers.FrameLogger.AddMessage | Vector_diag_guid.py:185-189 | a frame is queued at the back exactly when the worker runs |
| Loggers.FrameLogger.AddMessages | Vector_diag_guid.py:191-195 | a list is queued in its own order exactly when the worker runs |
| Loggers.FrameLogger.Cycle | Vector_diag_guid.py:140-168 | one pass swaps the queue out, writes one row per frame in queue order and counts each; it sleeps only when the queue was empty; the file stays the header plus the first `counter` frames |
| Loggers.FrameLogger.Stop | Vector_diag_guid.py:181-183 | the flag is cleared and nothing else changes |
| Loggers.FrameLogger.Finish | Vector_diag_guid.py:170-179 | as written: the file is closed with the queue still full, so it holds only `1 + accepted - queued` rows |
| Loggers.FrameLogger.FinishDraining | Vector_diag_guid.py:170-179 | with a final drain, the file is the header followed by every frame meant for it, and the counter equals their number |
| Loggers.LeftoverDropped | Vector_diag_guid.py:140-179 | a frame queued after the last pass and before `stop` is never written |
| Loggers.LeftoverWritten | Vector_diag_guid.py:140-179 | with the final drain, the same frame is written and counted |
| Diagnostics.BuildReadDid | Vector_diagnose_tool_v1.1.py:1678-1688 | no selection is reported first; a missing or negative DID is invalid; otherwise the request carries the DID |
| Diagnostics.BuildReadDtc | Vector_diagnose_tool_v1.1.py:1690-1708 | a mask is read only for report types 0x01, 0x02 and 0x17, must be hexadecimal in 0..0xFF, and is carried only then |
| Diagnostics.BuildClearDtc | Vector_diagnose_tool_v1.1.py:1710-1719 | the group is accepted exactly as hexadecimal text in 0..0xFFFFFF and carried as that number |
| Diagnostics.BuildEcuReset | Vector_diagnose_tool_v1.1.py:1721-1727 | no selection is reported; otherwise the request carries the reset type |
| Diagnostics.ClearDtcAcceptsHex | Vector_diagnose_tool_v1.1.py:1710-1719 | every group in range, typed in hexadecimal with or without `0x`, builds the request for that group |
| Diagnostics.EmitAction | Vector_diagnose_tool_v1.1.py:1644-1676 | the tab emits a request exactly when a network and an ECU are selected, the network is known and connected, and no diagnostic worker of it runs; the checks come in that order |
| Diagnostics.Gate | Vector_diagnose_tool_v1.1.py:2482-2516 | the worker starts exactly when the network is known, idle, connected with a bus, with an ECU selected and ODX loaded; an unknown id, a busy worker and a missing connection are reported first |
| Diagnostics.ResolveAddressing | Vector_diagnose_tool_v1.1.py:387-414 | both identifiers are always present: each missing one takes its default 0x7E0/0x7E8, and a raising lookup sets both defaults |
| Diagnostics.FindService | Vector_diagnose_tool_v1.1.py:425-442 | the request type's own service wins over an alias; `Diagnostics.FindServiceFound` proves when the lookup succeeds and that it returns one of the ECU's services |
| Diagnostics.FindServiceFound | Vector_diagnose_tool_v1.1.py:425-442 | the lookup succeeds exactly when the type or its alias names a service of the ECU, and returns one of its services |
| Diagnostics.MapParams | Vector_diagnose_tool_v1.1.py:448-485 | the four supported types put their field into the first declared request parameter; a mask goes into the second only if one exists and a mask was given; no parameters, a missing field and an unsupported type are errors |
| Diagnostics.BuiltRequestsMap | Vector_diagnose_tool_v1.1.py:448-485 | every request a builder produces has the field the worker reads, so mapping fails only for lack of request parameters |
| Diagnostics.NrcDescription | Vector_diagnose_tool_v1.1.py:525-526 | a code the ECU's table names is described by that name; `Diagnostics.UnknownNrcReadsBack` proves what the fallback text says about a code the table does not name |
| Diagnostics.UnknownNrcReadsBack | Vector_diagnose_tool_v1.1.py:525-526 | a one-byte code with no ODX name is described as `Unknown NRC (0x` + two digits + `)`, and the two digits parse back as the code |
| Diagnostics.RawNrc | Vector_diagnose_tool_v1.1.py:524 | the code is byte 2 of a response longer than two bytes, else 0xFF |
| Diagnostics.ClassifyUndecoded | Vector_diagnose_tool_v1.1.py:519-540 | an undecoded response is negative exactly when it starts with 0x7F; any other non-empty one is an undecodable positive; an empty one is an error; never positive |
| Diagnostics.ClassifyDecoded | Vector_diagnose_tool_v1.1.py:544-562 | a decoded response is positive exactly when ODX says so, with its parameters; a negative one takes its code from `ResponseCode`, else from the raw bytes, and a non-integer code fails formatting |
| Diagnostics.Prepare | Vector_diagnose_tool_v1.1.py:369-491 | the checks come in the source's order; a prepared request is non-empty, uses the service the lookup found, the mapped parameters and the resolved identifiers; the addressing error never occurs |
| Diagnostics.Run | Vector_diagnose_tool_v1.1.py:362-570 | success is reported exactly for a positive response, and the addressing error never occurs |
| Diagnostics.RunClassifies | Vector_diagnose_tool_v1.1.py:513-562 | once a response arrives, the outcome is a decode failure, the classification of an undecoded response, or the classification of the decoded message, as ODX's decode says; a decoded positive response is a success carrying its parameters |
| Diagnostics.RawBytesCarried | Vector_diagnose_tool_v1.1.py:363-570 | every result carries the bytes so far: nothing before encoding, the request with no response after a timeout, and both bytes otherwise |
| Diagnostics.UndecodedNegative | Vector_diagnose_tool_v1.1.py:519-536 | an undecodable response starting with 0x7F is reported as a failed negative response with the raw code and its description |
| Diagnostics.UnknownServiceFails | Vector_diagnose_tool_v1.1.py:441-442 | a request type with no service fails before anything is encoded or sent |
| Listener.Run | Vector_diag_guid.py:209-244 | the thread emits exactly the events of its loop, plus `connection_closed` once the loop has ended |
| Listener.LoopStays | Vector_diag_guid.py:212 | once the flag is cleared, later steps change nothing |
| Listener.Live | Vector_diag_guid.py:212-236 | the leading steps that keep the loop running are counted, and the step after them ends it |
| Listener.LoopShape | Vector_diag_guid.py:212-236 | the loop runs exactly while no step ended it; it emits one message per frame received so far, in order; at most one error, as its last event, exactly when a bus or other error ended it |
| Listener.ListenerContract | Vector_diag_guid.py:209-244 | `message_received` once per frame before the end, in order; at most one `listener_error`; `connection_closed` exactly once and last when the loop has ended, preceded by the error if one ended it |
| Display.LatestValues | Vector_diagnose_tool_v1.1.py:2600-2606 | a signal appears exactly when its list is non-empty; `Display.LatestAfterAppend` proves that an appended point becomes that signal's latest value and that the other signals keep theirs |
| Display.LatestAfterAppend | Vector_diag_guid.py:1720-1729 | after appending a point to one signal, that point is its latest value; other signals keep theirs |
| Display.KeepLast | Vector_diag_guid.py:1562-1564 | `s[-n:]` is the newest `min(n, len)` elements |
| Display.KeepLastProperties | Vector_diag_guid.py:1562-1564 | trimming twice is trimming once, and the newest element is always kept |
| Display.TableRows | Vector_diag_guid.py:597 | the table shows at most 10000 rows, the newest ones, and the whole trace when it is short enough |
| Display.PlotAppend | Vector_diag_guid.py:961-967 | the new point is the last of the curve, both lists keep equal length within 10000, and they are the newest suffix of the extended lists |
| Display.EveryNth | Vector_diagnose_tool_v1.1.py:1095-1096 | a stride sample is empty exactly when its input is |
| Display.EveryNthLength | Vector_diagnose_tool_v1.1.py:1095-1096 | `s[::step]` has `ceil(len / step)` elements |
| Display.EveryNthElements | Vector_diagnose_tool_v1.1.py:1095-1096 | element `i` of `s[::step]` is `s[i * step]` |
| Display.Sample | Vector_diagnose_tool_v1.1.py:1093-1096 | a series within the limit is plotted whole; a longer one is sampled at every `(len // max)`-th index |
| Display.SampleBounds | Vector_diagnose_tool_v1.1.py:1093-1096 | a sampled series keeps between `max` and `2 * max - 1` points, with timestamps and values sampled alike |
| Display.StatusText | Vector_diagnose_tool_v1.1.py:2680-2691 | the message follows `Net <name>: ` when the network is known; a long status above 150 characters keeps its first 147 and ends in `...` |
| Display.ConfigChange | Vector_diag_guid.py:392-406 | a baud-rate change is emitted exactly when the value reads as an integer above 0, and carries that integer; other keys pass unchanged |
| Display.BaudAccepted | Vector_diag_guid.py:394-399 | a baud rate typed as decimal digits is accepted exactly when it is positive |
| Networks.SeriesStep | Vector_diag_guid.py:1554-1566 | appending a point keeps both lists equal in length and within 20000 |
| Networks.SeriesStepShape | Vector_diag_guid.py:1554-1566 | a non-numeric value leaves the curve alone; a number is appended with the frame time and the curve keeps its newest 20000 points |
| Networks.LiveDecode | Vector_diag_guid.py:1516-1529 | signals are decoded exactly when there is a database, the frame is a data frame that is neither an error nor a remote frame, and the database decodes it; they are then the database's decode of it |
| Networks.StepIsLatest | Vector_diag_guid.py:1549-1566 | a numeric value the live path appends becomes its signal's latest value and time |
| Networks.Network.constructor | Vector_diag_guid.py:1187-1203 | a new network is offline with no bus, no listener, no error and no live data |
| Networks.Network.Connect | Vector_diag_guid.py:1333-1410 | nothing happens when python-can is missing or the network is active; a missing channel, baud rate or FD data rate refuses with no state change; otherwise the network ends online with a running listener, or in error with its message and no bus |
| Networks.Network.FinalizeDisconnect | Vector_diag_guid.py:1460-1484 | afterwards there is no bus and no listener, the status is offline and the error is cleared |
| Networks.Network.Disconnect | Vector_diag_guid.py:1416-1447 | nothing when offline or in error; with a running listener only a stop request; otherwise finalised at once |
| Networks.Network.HandleConnectionClosed | Vector_diag_guid.py:1450-1458 | the ended listener's signal finalises the network, from any status |
| Networks.Network.HandleListenerError | Vector_diag_guid.py:1490-1497 | the status becomes error with the listener's message; nothing else changes |
| Networks.Network.HandleLiveMessage | Vector_diag_guid.py:1501-1572 | the frame goes to a running logger only while logging; each decoded signal's cache entry becomes its value and the frame time; each curve takes one bounded step; the connection state is untouched |
| Networks.Network.Forward | Vector_diag_guid.py:1510-1513 | a running, open logger is handed the frame only while logging |
| Networks.Network.UpdateLiveData | Vector_diag_guid.py:1516-1566 | the cache and the curves are updated from the decoded signals and the connection state is untouched |
| Networks.CacheLatest | Vector_diag_guid.py:1530-1535 | each decoded signal now holds its value and the frame time; other entries are unchanged |
| Networks.CachedStep | Vector_diag_guid.py:1534-1535 | updating one more decoded signal extends the cache relation by that signal |
| Networks.AppendCurves | Vector_diag_guid.py:1549-1566 | each decoded signal's curve, created empty if missing, takes one step; other curves are unchanged; all stay bounded |
| Networks.CurvedStep | Vector_diag_guid.py:1550-1566 | stepping one more decoded signal keeps every curve bounded and extends the curve relation by that signal |
| Networks.TwoPhaseDisconnect | Vector_diag_guid.py:1416-1458 | disconnecting with a running listener first only requests a stop, and the later `connection_closed` brings the network offline |
| Networks.ErrorThenClosed | Vector_diag_guid.py:1416-1497 | after a listener error, disconnecting does nothing, and the following `connection_closed` brings the network offline with its error cleared |

## Left out

- Qt widgets, tables, trees, dialogs, plots, progress and status signals (including the loggers' `message_count` and `status` signals): user interface, no logic to prove.
- The libraries' own work is left out: DBC loading and decoding, ODX loading, encoding and decoding, ISO-TP segmentation, and opening, receiving on and shutting down the bus. Each appears only as an abstract outcome or function parameter.
- `float()` on timestamp text and the `.6f` and `.4g` formatting: these are parameters, because floating-point text is not modelled.
- Python `int()` leniency: the model accepts plain digit runs with an optional `0x`/`0X` prefix for base 16. Signs, underscores and inner whitespace are left out.
- Whitespace is ASCII whitespace plus `\x1c`-`\x1f`, `\x85` and `\xa0`. Other Unicode spaces are left out.
- Common.Upper: only ASCII letters are upper-cased. Python's `str.upper()` also maps other characters, some to two letters (U+FB00 `ﬀ` becomes `FF`, which `bytes.fromhex` accepts); the model rejects such data text as malformed.
- Thread scheduling, QMutex locking, `msleep`, and the race between `stop()` and a running loop. Each loop step and each stop is a sequential call.
- Networks.Network.HandleConnectionClosed: it finalises whichever listener sent the signal. A stale listener's signal finalising a newer connection is not modelled, because it needs interleaved threads.
- The bookkeeping of the `workers` dictionary (`Vector_diag_guid.py:1386-1387`, `1441-1446`, `1453-1455`) is left out. It is not part of the network's state.
- A bus shutdown error in `_finalize_disconnect` is only printed, so it is not modelled.
- Starting and stopping logging, and loading DBC files and traces, change `is_logging`, `logging_worker` and `db`. In `Networks.Network` these are constants, so those operations are not modelled.
- The guid `TraceLoadingWorker` (`Vector_diag_guid.py:93-106`) is a placeholder, and `DbcLoadingWorker` only calls cantools. Neither is modelled.
- The guid plot down-sampling by float indices (`Vector_diag_guid.py:924-927`) is left out, because it is floating-point arithmetic.
- SecurityAccess, WriteDataByIdentifier and the other request types raise `NotImplementedError`, and they are modelled as that error only. Their buttons are not modelled, and neither is the ODX file loader.
- Exceptions raised by the ISO-TP stack during send, and the stack's stop in `finally`, are not modelled: they only add error text.
- Diagnostics.Run: the exception text of a failed request (message and traceback) is replaced by a `DiagError` value. The timeout case carries no response (`None`), as the source does.
- Networks.Network.Connect: a channel configuration without `app_name` or `chan_index` raises `KeyError` before the `try` (`Vector_diag_guid.py:1359-1360`). The model's channel configuration always has both fields.
- Networks.Network.Forward: the logger's `isRunning()` is modelled as its file being open; `add_message` itself checks the running flag.
- File I/O and CSV quoting: a file is the sequence of rows written to it, and a trace file is the sequence of its rows. The failure to open a trace file (`Vector_diagnose_tool_v1.1.py:228-232`) is left out with the rest of the I/O.

## Findings

| source | as written | input that shows it | evidently intended | confidence | as-written member | corrected member |
|---|---|---|---|---|---|---|
| Vector_diag_guid.py:140-179 | after `stop()` the loop ends and the file is closed, with no final drain of `message_queue` | start logging, let one pass run, add one frame, stop: the file holds only the header and the frame stays queued | the final drain of the earlier revision (`Vector_diagnose_tool_v1.1.py:272-279`): every frame queued while running is written once, in order | medium, not executed | Loggers.LeftoverDropped | Loggers.LeftoverWritten |
