/** One entry of `networks_data` in the Vector_diag_guid.py main window: the
    connection state machine driven by `connect_network`,
    `disconnect_network`, the listener's `listener_error` and
    `connection_closed` signals and `_finalize_disconnect`, and the live
    data `handle_live_message` keeps for the network. */
module Networks {
  import opened Common
  import opened SignalDb
  import opened Loggers
  import opened Display

  datatype Status = Offline | Connecting | Online | Error

  /** What `can.interface.Bus(interface='vector', ...)` does. */
  datatype OpenOutcome =
    | Opened
    | VectorFailure(text: string)   // raises VectorError
    | CanFailure(text: string)      // raises can.CanError
    | OtherFailure(text: string)    // raises anything else

  datatype ConnectVerdict =
    | CanUnavailable   // python-can is not installed
    | AlreadyActive    // online or connecting
    | NoChannel
    | NoBaudRate
    | NoDataBaudRate   // CAN FD without a data phase baud rate
    | Attempted        // the bus open was tried

  datatype DisconnectVerdict = NothingToDo | StopRequestedOnly | Finalized

  /** What the live path stores for a decoded signal's curve. */
  function SeriesStep(s: Series<real>, t: real, v: SignalValue): (r: Series<real>)
    requires |s.times| == |s.values| <= MaxHistory
    ensures |r.times| == |r.values| <= MaxHistory
  {
    match AsFloat(v)
    case None => s
    case Some(x) =>
      var ts, vs := s.times + [t], s.values + [x];
      if |ts| > MaxHistory then Series(KeepLast(ts, MaxHistory), KeepLast(vs, MaxHistory))
      else Series(ts, vs)
  }

  /** A value that is not a number leaves the curve alone; a number is
      appended with the frame's timestamp, and once the curve holds
      `MaxHistory` points its oldest point is dropped. */
  lemma SeriesStepShape(s: Series<real>, t: real, v: SignalValue)
    requires |s.times| == |s.values| <= MaxHistory
    ensures var r := SeriesStep(s, t, v);
      && (AsFloat(v).None? ==> r == s)
      && (AsFloat(v).Some? ==>
        && |r.times| == (if |s.times| < MaxHistory then |s.times| + 1 else MaxHistory)
        && r.times[|r.times| - 1] == t && r.values[|r.values| - 1] == AsFloat(v).value
        && r.times == (s.times + [t])[|s.times| + 1 - |r.times|..]
        && r.values == (s.values + [AsFloat(v).value])[|s.values| + 1 - |r.values|..])
  {
  }

  /** The signals `handle_live_message` decodes from a frame: only with a
      database, for a data frame that is neither an error nor a remote
      frame and that carries data; an unknown identifier or a failing
      decode gives none. */
  function LiveDecode(db: Option<Decoder>, m: Frame): (r: map<string, SignalValue>)
    ensures r != map[] ==> db.Some? && !m.isErrorFrame && !m.isRemoteFrame && m.data != []
    ensures r != map[] ==> db.value(m.arbitrationId, m.data) == Decoded(r)
    ensures (db.Some? && !m.isErrorFrame && !m.isRemoteFrame && m.data != []
             && db.value(m.arbitrationId, m.data).Decoded?) ==> r == db.value(m.arbitrationId, m.data).signals
  {
    if db.Some? && !m.isErrorFrame && !m.isRemoteFrame && m.data != [] then
      match db.value(m.arbitrationId, m.data)
      case Decoded(signals) => signals
      case _ => map[]
    else map[]
  }

  /** A numeric value the live path appends becomes its curve's latest
      point, as the plot and table read it back. */
  lemma StepIsLatest(series: map<string, Series<real>>, name: string, t: real, v: SignalValue)
    requires Bounded(series) && AsFloat(v).Some?
    ensures var after := series[name := SeriesStep(BeforeCurve(series, name), t, v)];
      name in LatestValues(after) && LatestValues(after)[name] == (AsFloat(v).value, t)
  {
    var c := SeriesStep(BeforeCurve(series, name), t, v);
    SeriesStepShape(BeforeCurve(series, name), t, v);
    var after := series[name := c];
    assert after[name] == c && c.times != [] && c.values != [];
    var latest := LatestValues(after);
    assert name in latest;
    assert latest[name] == (c.values[|c.values| - 1], c.times[|c.times| - 1]);
  }

  /** The bounded-history condition on every curve. */
  predicate Bounded(series: map<string, Series<real>>) {
    forall name :: name in series ==> |series[name].times| == |series[name].values| <= MaxHistory
  }

  function BeforeCurve(series: map<string, Series<real>>, name: string): Series<real> {
    if name in series then series[name] else EmptySeries()
  }

  class Network {
    // configuration (`interface_channel`, `baud_rate`, `is_fd`,
    // `data_baud_rate`); a rate of 0 stands for a missing one
    const channelSet: bool
    const baudRate: int
    const isFd: bool
    const dataBaudRate: int

    /** `connection_status` */
    var status: Status
    /** `can_bus` is not None */
    var hasBus: bool
    /** `listener_thread` is not None */
    var hasListener: bool
    /** the listener thread's `isRunning()` */
    var listenerRunning: bool
    /** `stop()` has been called on the listener */
    var stopRequested: bool
    /** `last_hw_error` */
    var lastHwError: Option<string>

    /** `db`, `latest_signal_values`, `signal_time_series` */
    const db: Option<Decoder>
    var latest: map<string, (SignalValue, real)>
    var series: map<string, Series<real>>

    /** `is_logging` and `logging_worker` */
    const isLogging: bool
    const logger: FrameLogger?

    /** `connecting` is never seen between two events; online means a bus
        and a listener; offline means neither and no error; an error status
        carries its message; every curve is bounded. */
    ghost predicate Valid()
      reads this
    {
      && status != Connecting
      && (status == Online ==> hasBus && hasListener)
      && (status == Offline ==> !hasBus && !hasListener && lastHwError.None?)
      && (status == Error ==> lastHwError.Some?)
      && (listenerRunning ==> hasListener)
      && (stopRequested ==> hasListener)
      && Bounded(series)
    }

    /** A newly added network: offline, with its configuration. */
    constructor (channelSet: bool, baudRate: int, isFd: bool, dataBaudRate: int, db: Option<Decoder>,
                 isLogging: bool, logger: FrameLogger?)
      ensures Valid()
      ensures this.channelSet == channelSet && this.baudRate == baudRate
      ensures this.isFd == isFd && this.dataBaudRate == dataBaudRate && this.db == db
      ensures status == Offline && !hasBus && !hasListener && !listenerRunning && !stopRequested
      ensures lastHwError == None && latest == map[] && series == map[]
      ensures this.isLogging == isLogging && this.logger == logger
    {
      this.channelSet, this.baudRate, this.isFd, this.dataBaudRate := channelSet, baudRate, isFd, dataBaudRate;
      this.db := db;
      status := Offline;
      hasBus, hasListener, listenerRunning, stopRequested := false, false, false, false;
      lastHwError := None;
      latest, series := map[], map[];
      this.isLogging, this.logger := isLogging, logger;
    }

    /** `connect_network`: the checks, then `connecting`, then the bus
        open, which ends `online` with a started listener or `error`. */
    method Connect(canAvailable: bool, open: OpenOutcome) returns (verdict: ConnectVerdict)
      requires Valid()
      modifies this
      ensures Valid()
      ensures !canAvailable ==> verdict == CanUnavailable
      ensures canAvailable && old(status) == Online ==> verdict == AlreadyActive
      ensures canAvailable && old(status) != Online ==>
        verdict == (if !channelSet then NoChannel
                    else if baudRate == 0 then NoBaudRate
                    else if isFd && dataBaudRate == 0 then NoDataBaudRate
                    else Attempted)
      ensures verdict != Attempted ==>
        status == old(status) && hasBus == old(hasBus) && hasListener == old(hasListener)
        && listenerRunning == old(listenerRunning) && stopRequested == old(stopRequested)
        && lastHwError == old(lastHwError)
      ensures verdict == Attempted && open.Opened? ==>
        status == Online && hasBus && hasListener && listenerRunning && !stopRequested && lastHwError == None
      ensures verdict == Attempted && !open.Opened? ==>
        && status == Error && !hasBus
        && hasListener == old(hasListener) && listenerRunning == old(listenerRunning)
        && stopRequested == old(stopRequested)
        && lastHwError == Some(if open.OtherFailure? then "Unexpected error: " + open.text else open.text)
      ensures latest == old(latest) && series == old(series)
    {
      if !canAvailable {
        return CanUnavailable;
      }
      if status == Online || status == Connecting {
        return AlreadyActive;
      }
      if !channelSet {
        return NoChannel;
      }
      if baudRate == 0 {
        return NoBaudRate;
      }
      if isFd && dataBaudRate == 0 {
        return NoDataBaudRate;
      }
      status := Connecting;
      lastHwError := None;
      if open.Opened? {
        hasBus := true;
        status := Online;
        hasListener, listenerRunning, stopRequested := true, true, false;
      } else {
        // VectorError, can.CanError and any other exception are handled
        // alike; only the message differs
        status := Error;
        lastHwError := Some(if open.OtherFailure? then "Unexpected error: " + open.text else open.text);
        hasBus := false;
      }
      verdict := Attempted;
    }

    /** `_finalize_disconnect`: shut the bus down (its errors are only
        printed) and clear the hardware state. */
    method FinalizeDisconnect()
      requires Valid()
      modifies this
      ensures Valid()
      ensures status == Offline && !hasBus && !hasListener && lastHwError == None
      ensures !listenerRunning && !stopRequested
      ensures latest == old(latest) && series == old(series)
    {
      hasBus := false;
      hasListener, listenerRunning, stopRequested := false, false, false;
      status := Offline;
      lastHwError := None;
    }

    /** `disconnect_network`: nothing when offline or in error; with a
        running listener only a stop request, whose `connection_closed`
        finalises later; otherwise finalise now. */
    method Disconnect() returns (verdict: DisconnectVerdict)
      requires Valid()
      modifies this
      ensures Valid()
      ensures old(status) == Offline || old(status) == Error ==>
        verdict == NothingToDo && status == old(status) && hasBus == old(hasBus)
        && hasListener == old(hasListener) && stopRequested == old(stopRequested)
        && lastHwError == old(lastHwError)
      ensures old(status) == Online && old(listenerRunning) ==>
        verdict == StopRequestedOnly && status == Online && hasBus && hasListener
        && listenerRunning && stopRequested && lastHwError == old(lastHwError)
      ensures old(status) == Online && !old(listenerRunning) ==>
        verdict == Finalized && status == Offline && !hasBus && !hasListener && lastHwError == None
      ensures listenerRunning == (old(listenerRunning) && verdict != Finalized)
      ensures latest == old(latest) && series == old(series)
    {
      if status == Offline || status == Error {
        return NothingToDo;
      }
      if hasListener && listenerRunning {
        stopRequested := true;
        verdict := StopRequestedOnly;
      } else {
        FinalizeDisconnect();
        verdict := Finalized;
      }
    }

    /** `handle_connection_closed`: the listener has ended; finalise. This
        is also how an error status returns to offline. */
    method HandleConnectionClosed()
      requires Valid()
      modifies this
      ensures Valid()
      ensures status == Offline && !hasBus && !hasListener && !listenerRunning && lastHwError == None
      ensures latest == old(latest) && series == old(series)
    {
      listenerRunning := false;
      FinalizeDisconnect();
    }

    /** `handle_listener_error`: record the message; the listener ends on
        its own and its `connection_closed` finalises. */
    method HandleListenerError(message: string)
      requires Valid()
      modifies this
      ensures Valid()
      ensures status == Error && lastHwError == Some(message)
      ensures hasBus == old(hasBus) && hasListener == old(hasListener)
      ensures listenerRunning == old(listenerRunning) && stopRequested == old(stopRequested)
      ensures latest == old(latest) && series == old(series)
    {
      status := Error;
      lastHwError := Some(message);
    }

    /** `handle_live_message`: forward the frame to a running logger, decode
        it, update the latest-value cache and append each numeric value to
        its signal's bounded curve. */
    method HandleLiveMessage(m: Frame)
      requires Valid()
      requires logger != null ==> logger.Valid()
      modifies this, logger
      ensures Valid()
      ensures logger != null ==> logger.Valid()
      ensures logger != null ==>
        logger.queue == old(logger.queue) +
          (if isLogging && old(logger.fileOpen) && old(logger.running) then [m] else [])
      ensures logger != null ==> logger.written == old(logger.written) && logger.counter == old(logger.counter)
      ensures var decoded := LiveDecode(db, m);
        Cached(old(latest), decoded, m.timestamp, decoded.Keys, latest)
      ensures var decoded := LiveDecode(db, m);
        Bounded(old(series)) && Curved(old(series), decoded, m.timestamp, decoded.Keys, series)
      ensures status == old(status) && hasBus == old(hasBus) && hasListener == old(hasListener)
      ensures listenerRunning == old(listenerRunning) && stopRequested == old(stopRequested)
      ensures lastHwError == old(lastHwError)
    {
      Forward(m);
      UpdateLiveData(m);
    }

    /** The logging half of `handle_live_message`: while logging, a logger
        whose file is open is handed the frame. */
    method Forward(m: Frame)
      requires logger != null ==> logger.Valid()
      modifies logger
      ensures logger != null ==> logger.Valid()
      ensures logger != null ==>
        logger.queue == old(logger.queue) +
          (if isLogging && old(logger.fileOpen) && old(logger.running) then [m] else [])
      ensures logger != null ==> logger.written == old(logger.written) && logger.counter == old(logger.counter)
    {
      if isLogging && logger != null && logger.fileOpen {
        logger.AddMessage(m);
      }
    }

    /** The display half of `handle_live_message`. */
    method UpdateLiveData(m: Frame)
      requires Valid()
      modifies this
      ensures Valid()
      ensures var decoded := LiveDecode(db, m);
        Cached(old(latest), decoded, m.timestamp, decoded.Keys, latest)
      ensures var decoded := LiveDecode(db, m);
        Bounded(old(series)) && Curved(old(series), decoded, m.timestamp, decoded.Keys, series)
      ensures status == old(status) && hasBus == old(hasBus) && hasListener == old(hasListener)
      ensures listenerRunning == old(listenerRunning) && stopRequested == old(stopRequested)
      ensures lastHwError == old(lastHwError)
    {
      var decoded := LiveDecode(db, m);
      latest := CacheLatest(latest, decoded, m.timestamp);
      series := AppendCurves(series, decoded, m.timestamp);
    }
  }

  /** `cache` is `latest` with each signal of `done` set to its decoded
      value and the frame's timestamp, and nothing else changed. */
  predicate Cached(latest: map<string, (SignalValue, real)>, decoded: map<string, SignalValue>, t: real,
                   done: set<string>, cache: map<string, (SignalValue, real)>)
    requires done <= decoded.Keys
  {
    && cache.Keys == latest.Keys + done
    && (forall name :: name in done ==> cache[name] == (decoded[name], t))
    && (forall name :: name in latest && name !in done ==> cache[name] == latest[name])
  }

  /** `curves` is `series` with each signal of `done` taken one
      `SeriesStep` further (from an empty curve when it had none), and
      nothing else changed. */
  predicate Curved(series: map<string, Series<real>>, decoded: map<string, SignalValue>, t: real,
                   done: set<string>, curves: map<string, Series<real>>)
    requires done <= decoded.Keys && Bounded(series)
  {
    && curves.Keys == series.Keys + done
    && (forall name :: name in done ==> curves[name] == SeriesStep(BeforeCurve(series, name), t, decoded[name]))
    && (forall name :: name in series && name !in done ==> curves[name] == series[name])
  }

  /** The latest-value cache after a decoded frame: each decoded signal
      now holds its value and the frame's timestamp. */
  method CacheLatest(latest: map<string, (SignalValue, real)>, decoded: map<string, SignalValue>, t: real)
    returns (cache: map<string, (SignalValue, real)>)
    ensures Cached(latest, decoded, t, decoded.Keys, cache)
  {
    cache := latest;
    var done: set<string> := {};
    while done != decoded.Keys
      invariant done <= decoded.Keys
      invariant Cached(latest, decoded, t, done, cache)
      decreases |decoded.Keys - done|
    {
      var name :| name in decoded.Keys - done;
      CachedStep(latest, decoded, t, done, cache, name);
      cache := cache[name := (decoded[name], t)];
      SizeGrows(decoded.Keys, done, name);
      done := done + {name};
    }
  }

  lemma CachedStep(latest: map<string, (SignalValue, real)>, decoded: map<string, SignalValue>, t: real,
                   done: set<string>, cache: map<string, (SignalValue, real)>, name: string)
    requires done <= decoded.Keys && name in decoded && name !in done
    requires Cached(latest, decoded, t, done, cache)
    ensures Cached(latest, decoded, t, done + {name}, cache[name := (decoded[name], t)])
  {
  }

  lemma SizeGrows(all: set<string>, done: set<string>, name: string)
    requires done <= all && name in all && name !in done
    ensures |all - (done + {name})| < |all - done|
  {
    assert all - done == (all - (done + {name})) + {name};
  }

  /** The curves after a decoded frame: a missing curve is created empty,
      and a numeric value is appended and the curve cut to its bound. */
  method AppendCurves(series: map<string, Series<real>>, decoded: map<string, SignalValue>, t: real)
    returns (curves: map<string, Series<real>>)
    requires Bounded(series)
    ensures Bounded(curves)
    ensures Curved(series, decoded, t, decoded.Keys, curves)
  {
    curves := series;
    var done: set<string> := {};
    while done != decoded.Keys
      invariant done <= decoded.Keys
      invariant Bounded(curves)
      invariant Curved(series, decoded, t, done, curves)
      decreases |decoded.Keys - done|
    {
      var name :| name in decoded.Keys - done;
      // a curve missing so far starts empty
      var before := if name in curves then curves[name] else EmptySeries();
      CurvedStep(series, decoded, t, done, curves, name);
      curves := curves[name := SeriesStep(before, t, decoded[name])];
      SizeGrows(decoded.Keys, done, name);
      done := done + {name};
    }
  }

  lemma CurvedStep(series: map<string, Series<real>>, decoded: map<string, SignalValue>, t: real,
                   done: set<string>, curves: map<string, Series<real>>, name: string)
    requires done <= decoded.Keys && name in decoded && name !in done
    requires Bounded(series) && Bounded(curves)
    requires Curved(series, decoded, t, done, curves)
    ensures var before := if name in curves then curves[name] else EmptySeries();
      && before == BeforeCurve(series, name)
      && var next := curves[name := SeriesStep(before, t, decoded[name])];
      && Bounded(next)
      && Curved(series, decoded, t, done + {name}, next)
  {
  }

  /** The two-phase disconnect of a connected network: the stop request
      leaves it online with its bus, and the listener's `connection_closed`
      brings it offline. */
  method TwoPhaseDisconnect(net: Network) returns (first: DisconnectVerdict)
    requires net.Valid() && net.status == Online && net.listenerRunning
    modifies net
    ensures net.Valid()
    ensures first == StopRequestedOnly
    ensures net.status == Offline && !net.hasBus && !net.hasListener && net.lastHwError == None
  {
    first := net.Disconnect();
    assert net.status == Online && net.hasBus;
    net.HandleConnectionClosed();
  }

  /** A listener error on a connected network: `disconnect_network` now
      does nothing, and the `connection_closed` that follows the error
      brings the network offline and clears the error. */
  method ErrorThenClosed(net: Network, message: string) returns (second: DisconnectVerdict)
    requires net.Valid() && net.status == Online
    modifies net
    ensures net.Valid()
    ensures second == NothingToDo
    ensures net.status == Offline && !net.hasBus && net.lastHwError == None
  {
    net.HandleListenerError(message);
    second := net.Disconnect();
    assert net.status == Error && net.lastHwError == Some(message);
    net.HandleConnectionClosed();
  }
}
