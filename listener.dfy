/** The receive loop of `CanListenerThread` (Vector_diag_guid.py) as a
    transducer: the outcomes of successive `bus.recv(timeout=0.1)` calls,
    and the main window's `stop()` request, go in; the Qt signals the
    thread emits come out. */
module Listener {

  import opened Common

  /** What happens at one test of the loop: `recv` returns a message,
      returns None (timeout), raises `can.CanError`, raises anything else,
      or `stop()` has cleared the flag before the test. */
  datatype Step<F> =
    | Got(frame: F)
    | RecvTimeout
    | BusError(text: string)
    | OtherError(text: string, details: string)
    | StopRequested

  datatype Event<F> =
    | MessageReceived(frame: F)
    | ListenerError(message: string)
    | ConnectionClosed

  /** A step that ends the loop. */
  predicate Ends<F>(s: Step<F>) {
    s.BusError? || s.OtherError? || s.StopRequested?
  }

  /** The events one loop pass emits and whether the flag is still set. */
  function StepEvents<F>(s: Step<F>): (seq<Event<F>>, bool) {
    match s
    case Got(f) => ([MessageReceived(f)], true)
    case RecvTimeout => ([], true)
    case BusError(e) => ([ListenerError("CAN Bus Error: " + e)], false)
    case OtherError(e, d) => ([ListenerError("Listener Error: " + e + "\n" + d)], false)
    case StopRequested => ([], false)
  }

  /** The events the `while self._is_running` loop has emitted after the
      given steps, and whether it is still running; steps after the loop
      ended have no effect. */
  function Loop<F>(script: seq<Step<F>>): (seq<Event<F>>, bool) {
    if script == [] then ([], true)
    else
      var before := Loop(Init(script));
      if !before.1 then before
      else (before.0 + StepEvents(Last(script)).0, StepEvents(Last(script)).1)
  }

  /** Everything the thread emits: the loop's events and, once the loop has
      ended, `connection_closed` from the `finally` block. */
  function Emitted<F>(script: seq<Step<F>>): seq<Event<F>> {
    if Loop(script).1 then Loop(script).0 else Loop(script).0 + [ConnectionClosed]
  }

  /** The thread body. */
  method Run<F>(script: seq<Step<F>>) returns (events: seq<Event<F>>, ended: bool)
    ensures events == Emitted(script)
    ensures ended <==> !Loop(script).1
  {
    events := [];
    var running := true;
    var i := 0;
    while running && i < |script|
      invariant 0 <= i <= |script|
      invariant (events, running) == Loop(script[..i])
    {
      assert Init(script[..i + 1]) == script[..i] && Last(script[..i + 1]) == script[i];
      assert events + [] == events;
      match script[i] {
        case Got(f) =>
          events := events + [MessageReceived(f)];
        case RecvTimeout =>
        case BusError(e) =>
          events := events + [ListenerError("CAN Bus Error: " + e)];
          running := false;
        case OtherError(e, d) =>
          events := events + [ListenerError("Listener Error: " + e + "\n" + d)];
          running := false;
        case StopRequested =>
          running := false;
      }
      i := i + 1;
    }
    if !running {
      LoopStays(script[..i], script[i..]);
      assert script[..i] + script[i..] == script;
    } else {
      assert script[..i] == script;
    }
    ended := !running;
    if ended {
      events := events + [ConnectionClosed];
    }
  }

  /** Once the loop has ended, later steps change nothing. */
  lemma {:induction false} LoopStays<F>(s: seq<Step<F>>, t: seq<Step<F>>)
    requires !Loop(s).1
    ensures Loop(s + t) == Loop(s)
  {
    if t != [] {
      assert Init(s + t) == s + Init(t);
      assert Last(s + t) == Last(t);
      LoopStays(s, Init(t));
    } else {
      assert s + t == s;
    }
  }

  // ---------------------------------------------------------------------
  // Properties

  /** The number of leading steps that do not end the loop. */
  function Live<F>(script: seq<Step<F>>): (n: nat)
    ensures n <= |script|
    ensures forall k :: 0 <= k < n ==> !Ends(script[k])
    ensures n < |script| ==> Ends(script[n])
  {
    if script == [] || Ends(script[0]) then 0 else 1 + Live(script[1..])
  }

  function Frames<F>(script: seq<Step<F>>): seq<F> {
    if script == [] then []
    else Frames(Init(script)) + (if Last(script).Got? then [Last(script).frame] else [])
  }

  function Messages<F>(events: seq<Event<F>>): seq<F> {
    if events == [] then []
    else Messages(Init(events)) + (if Last(events).MessageReceived? then [Last(events).frame] else [])
  }

  function Count<T(==)>(s: seq<T>, x: T): nat {
    if s == [] then 0 else Count(Init(s), x) + (if Last(s) == x then 1 else 0)
  }

  predicate IsError<F>(e: Event<F>) {
    e.ListenerError?
  }

  function ErrorCount<F>(events: seq<Event<F>>): nat {
    if events == [] then 0 else ErrorCount(Init(events)) + (if IsError(Last(events)) then 1 else 0)
  }

  lemma MessagesAppend<F>(xs: seq<Event<F>>, ys: seq<Event<F>>)
    ensures Messages(xs + ys) == Messages(xs) + Messages(ys)
    ensures ErrorCount(xs + ys) == ErrorCount(xs) + ErrorCount(ys)
    ensures forall x :: Count(xs + ys, x) == Count(xs, x) + Count(ys, x)
    decreases |ys|
  {
    if ys != [] {
      assert Init(xs + ys) == xs + Init(ys);
      assert Last(xs + ys) == Last(ys);
      MessagesAppend(xs, Init(ys));
    } else {
      assert xs + ys == xs;
    }
  }

  /** The loop runs exactly as long as no step has ended it; while it runs
      it has emitted one message per received frame, in order, and nothing
      else; and once it has ended it has emitted at most one error, as its
      last event. */
  lemma {:induction false} LoopShape<F>(script: seq<Step<F>>)
    ensures Loop(script).1 <==> Live(script) == |script|
    ensures Messages(Loop(script).0) == Frames(script[..Live(script)])
    ensures Count(Loop(script).0, ConnectionClosed) == 0
    ensures Loop(script).1 ==> ErrorCount(Loop(script).0) == 0
    ensures ErrorCount(Loop(script).0) <= 1
    ensures ErrorCount(Loop(script).0) == 1 <==>
      Live(script) < |script| && !script[Live(script)].StopRequested?
    ensures ErrorCount(Loop(script).0) == 1 ==> IsError(Last(Loop(script).0))
  {
    if script != [] {
      var s, x := Init(script), Last(script);
      assert script == s + [x];
      LoopShape(s);
      LiveSnoc(s, x);
      var (events, running) := Loop(s);
      if running {
        assert script[..Live(script)] == s + [x] || Live(script) == |s|;
        if Live(script) == |script| {
          assert script[..Live(script)] == s + [x];
          assert Init(s + [x]) == s && s[..Live(s)] == s;
          MessagesAppend(events, StepEvents(x).0);
          var step := StepEvents(x).0;
          if x.Got? {
            assert Init(step) == [] && Last(step) == MessageReceived(x.frame);
          }
          assert Messages(step) == (if x.Got? then [x.frame] else []);
        } else {
          assert script[..Live(script)] == s[..Live(s)];
          MessagesAppend(events, StepEvents(x).0);
        }
      } else {
        assert script[..Live(script)] == s[..Live(s)];
      }
    }
  }

  lemma {:induction false} LiveSnoc<F>(s: seq<Step<F>>, x: Step<F>)
    ensures Live(s + [x]) == if Live(s) < |s| then Live(s) else if Ends(x) then |s| else |s| + 1
  {
    if s != [] {
      assert (s + [x])[1..] == s[1..] + [x];
      LiveSnoc(s[1..], x);
    }
  }

  /** What the thread emits as a whole: `message_received` for each frame
      received before the loop ended, in order; at most one
      `listener_error`; and `connection_closed` exactly once, as the last
      event, when and only when the loop has ended. */
  lemma ListenerContract<F>(script: seq<Step<F>>)
    ensures Messages(Emitted(script)) == Frames(script[..Live(script)])
    ensures ErrorCount(Emitted(script)) <= 1
    ensures Count(Emitted(script), ConnectionClosed) == (if Live(script) < |script| then 1 else 0)
    ensures Live(script) < |script| ==> Last(Emitted(script)) == ConnectionClosed
    ensures Live(script) < |script| && !script[Live(script)].StopRequested? ==>
      |Emitted(script)| >= 2 && IsError(Emitted(script)[|Emitted(script)| - 2])
  {
    LoopShape(script);
    var (events, running) := Loop(script);
    if !running {
      MessagesAppend(events, [ConnectionClosed]);
      var closed: seq<Event<F>> := [ConnectionClosed];
      assert Init(closed) == [] && Last(closed) == ConnectionClosed;
      assert Init(events + [ConnectionClosed]) == events;
    }
  }
}
