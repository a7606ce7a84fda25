/** The small pure helpers around the displays of both revisions: the
    latest value of each signal, the bounded windows kept for the trace
    table and the plots, the stride sampling of long plot series, the
    status-bar text and the validation of baud-rate settings. */
module Display {
  import opened Common
  import opened SignalDb

  // ---------------------------------------------------------------------
  // Latest values

  /** `_get_latest_values_from_timeseries`: for every signal whose two lists
      are both non-empty, its last value and last timestamp. */
  function LatestValues<V>(series: map<string, Series<V>>): (r: map<string, (V, real)>)
    ensures forall name :: name in r <==>
      name in series && series[name].times != [] && series[name].values != []
    ensures forall name :: name in r ==>
      r[name] == (series[name].values[|series[name].values| - 1], series[name].times[|series[name].times| - 1])
  {
    map name | name in series && series[name].times != [] && series[name].values != [] ::
      (series[name].values[|series[name].values| - 1], series[name].times[|series[name].times| - 1])
  }

  /** After a row appends `t` and a value to a signal's lists, that pair is
      the signal's latest value; signals the row did not touch keep theirs. */
  lemma LatestAfterAppend<V>(series: map<string, Series<V>>, name: string, t: real, v: V,
                             other: string, r: map<string, Series<V>>)
    requires name in r && r[name].times == (if name in series then series[name].times else []) + [t]
    requires r[name].values == (if name in series then series[name].values else []) + [v]
    requires other != name && other in series && other in r && r[other] == series[other]
    ensures LatestValues(r)[name] == (v, t)
    ensures other in LatestValues(r) <==> other in LatestValues(series)
    ensures other in LatestValues(r) ==> LatestValues(r)[other] == LatestValues(series)[other]
  {
  }

  // ---------------------------------------------------------------------
  // Bounded windows

  const MaxTableRows := 10000
  const MaxPlotPoints := 10000
  /** The per-signal history the live path keeps: twice what a plot shows. */
  const MaxHistory := 2 * MaxPlotPoints

  /** `s[-n:]`: the newest `n` elements (all of them when there are fewer). */
  function KeepLast<T>(s: seq<T>, n: nat): (r: seq<T>)
    requires n > 0
    ensures |r| == if |s| <= n then |s| else n
    ensures r == s[|s| - |r|..]
  {
    if |s| <= n then s else s[|s| - n..]
  }

  /** Keeping the newest `n` twice keeps the same elements, and the newest
      element is always kept. */
  lemma KeepLastProperties<T>(s: seq<T>, n: nat)
    requires n > 0
    ensures KeepLast(KeepLast(s, n), n) == KeepLast(s, n)
    ensures s != [] ==> KeepLast(s, n)[|KeepLast(s, n)| - 1] == s[|s| - 1]
  {
  }

  /** The rows the trace table shows (`trace_data[-MAX_TABLE_ROWS:]`). */
  function TableRows<T>(trace: seq<T>): (r: seq<T>)
    ensures |r| <= MaxTableRows
    ensures |trace| <= MaxTableRows ==> r == trace
    ensures r == trace[|trace| - |r|..]
  {
    KeepLast(trace, MaxTableRows)
  }

  /** `update_plot_data`: append one point to a plotted curve, then keep its
      newest `MAX_PLOT_POINTS` points. */
  function PlotAppend(xs: seq<real>, ys: seq<real>, t: real, v: real): (r: (seq<real>, seq<real>))
    requires |xs| == |ys|
    ensures |r.0| == |r.1| <= MaxPlotPoints && 0 < |r.0| <= |xs| + 1
    ensures r.0[|r.0| - 1] == t && r.1[|r.1| - 1] == v
    ensures r.0 == (xs + [t])[|xs| + 1 - |r.0|..] && r.1 == (ys + [v])[|ys| + 1 - |r.1|..]
  {
    var x, y := xs + [t], ys + [v];
    if |x| > MaxPlotPoints then (x[|x| - MaxPlotPoints..], y[|y| - MaxPlotPoints..]) else (x, y)
  }

  // ---------------------------------------------------------------------
  // Stride sampling

  const MaxPointsDisplay := 50000

  /** `s[::step]`: the elements at indices 0, step, 2 * step, ... */
  function EveryNth<T>(s: seq<T>, step: nat): (r: seq<T>)
    requires step > 0
    ensures s == [] <==> r == []
  {
    if s == [] then []
    else if |s| <= step then [s[0]]
    else [s[0]] + EveryNth(s[step..], step)
  }

  /** `s[::step]` has `ceil(|s| / step)` elements... */
  lemma {:induction false} EveryNthLength<T>(s: seq<T>, step: nat)
    requires step > 0
    ensures var r := EveryNth(s, step);
      r != [] ==> (|r| - 1) * step < |s| <= |r| * step
  {
    if s != [] && |s| > step {
      var rest := EveryNth(s[step..], step);
      EveryNthLength(s[step..], step);
      assert |EveryNth(s, step)| == |rest| + 1;
      MulSucc(|rest| - 1, step);
      MulSucc(|rest|, step);
    }
  }

  /** ... the `i`-th being `s[i * step]`. */
  lemma {:induction false} EveryNthElements<T>(s: seq<T>, step: nat)
    requires step > 0
    ensures var r := EveryNth(s, step);
      forall i :: 0 <= i < |r| ==> i * step < |s| && r[i] == s[i * step]
  {
    var r := EveryNth(s, step);
    if s != [] && |s| > step {
      var rest := EveryNth(s[step..], step);
      EveryNthElements(s[step..], step);
      assert r == [s[0]] + rest;
      forall i | 1 <= i < |r|
        ensures i * step < |s| && r[i] == s[i * step]
      {
        MulSucc(i - 1, step);
        assert r[i] == rest[i - 1];
      }
    }
  }

  lemma MulSucc(a: nat, k: nat)
    ensures (a + 1) * k == a * k + k
  {
  }

  /** The plot sampling: a series longer than `max` points is thinned to
      every `(n // max)`-th point. */
  function Sample<T>(s: seq<T>, max: nat): (r: seq<T>)
    requires max > 0
    ensures |s| <= max ==> r == s
    ensures |s| > max ==> forall i :: 0 <= i < |r| ==>
      i * (|s| / max) < |s| && r[i] == s[i * (|s| / max)]
  {
    if |s| > max then EveryNthElements(s, |s| / max); EveryNth(s, |s| / max) else s
  }

  /** Sampling keeps at least `max` points and fewer than `2 * max`, and
      samples timestamps and values at the same indices. */
  lemma SampleBounds<T, U>(ts: seq<T>, vs: seq<U>, max: nat)
    requires max > 0 && |ts| == |vs|
    ensures |ts| > max ==> max <= |Sample(ts, max)| <= 2 * max - 1
    ensures |Sample(ts, max)| == |Sample(vs, max)|
  {
    var n := |ts|;
    if n > max {
      var step := n / max;
      DivBounds(n, max);
      var r, q := EveryNth(ts, step), EveryNth(vs, step);
      EveryNthLength(ts, step);
      EveryNthLength(vs, step);
      SameCount(|r|, |q|, n, step);
      CountBounds(|r|, n, step, max);
    }
  }

  lemma DivBounds(n: nat, max: nat)
    requires max > 0
    ensures (n / max) * max <= n < (n / max) * max + max
  {
  }

  /** The number of samples is fixed by the length and the step. */
  lemma SameCount(c: nat, d: nat, n: nat, step: nat)
    requires step > 0 && n > 0 && c > 0 && d > 0
    requires (c - 1) * step < n <= c * step
    requires (d - 1) * step < n <= d * step
    ensures c == d
  {
    if c < d {
      MulMono(c, d - 1, step);
    } else if d < c {
      MulMono(d, c - 1, step);
    }
  }

  lemma MulMono(a: nat, b: nat, k: nat)
    requires a <= b
    ensures a * k <= b * k
  {
  }

  /** With `step = n // max`, the `c` samples satisfy `max <= c < 2 * max`. */
  lemma CountBounds(c: nat, n: nat, step: nat, max: nat)
    requires max > 0 && step > 0 && c > 0
    requires step * max <= n < step * max + max
    requires (c - 1) * step < n <= c * step
    ensures max <= c <= 2 * max - 1
  {
    if c < max {
      MulMono(c, max - 1, step);
    }
    if c >= 2 * max {
      MulMono(2 * max - 1, c - 1, step);
      assert (2 * max - 1) * step == 2 * (max * step) - step;
      // so max * step - step < max, i.e. (max - 1) * (step - 1) < 1
      if step >= 2 && max >= 2 {
        MulMono(2, step, max - 1);
      }
    }
  }

  // ---------------------------------------------------------------------
  // Status bar

  const StatusLimit := 150

  /** `update_network_status`: the message, after `Net <name>: ` when the
      network is known; a long status over 150 characters keeps its first
      147 and ends in `...`. */
  function StatusText(networkName: Option<string>, message: string, isLongStatus: bool): (r: string)
    ensures var full := (if networkName.Some? then "Net " + networkName.value + ": " else "") + message;
      && (!isLongStatus || |full| <= StatusLimit ==> r == full)
      && (isLongStatus && |full| > StatusLimit ==>
            |r| == StatusLimit && r[..147] == full[..147] && r[147..] == "...")
    ensures isLongStatus ==> |r| <= StatusLimit
  {
    var prefix := if networkName.Some? then "Net " + networkName.value + ": " else "";
    var full := prefix + message;
    if isLongStatus && |full| > StatusLimit then full[..147] + "..." else full
  }

  // ---------------------------------------------------------------------
  // Configuration changes

  /** The value a configuration widget reports. */
  datatype ConfigValue = Text(text: string) | Number(n: int) | Flag(b: bool)

  /** Python's `int(value)` on such a value, over a plain digit grammar for
      text. */
  function IntOf(v: ConfigValue): Option<int> {
    match v
    case Text(s) => (match ParseDecimal(Strip(s)) case Some(n) => Some(n as int) case None => None)
    case Number(n) => Some(n)
    case Flag(b) => Some(if b then 1 else 0)
  }

  predicate IsBaudKey(key: string) {
    key == "baud_rate" || key == "data_baud_rate"
  }

  /** `_emit_config_change`: what `configChanged` carries, if anything. */
  function ConfigChange(key: string, value: ConfigValue): (r: Option<(string, ConfigValue)>)
    ensures !IsBaudKey(key) ==> r == Some((key, value))
    ensures IsBaudKey(key) ==> (r.Some? <==> IntOf(value).Some? && IntOf(value).value > 0)
    ensures IsBaudKey(key) && r.Some? ==> r.value == (key, Number(IntOf(value).value)) && r.value.1.n > 0
  {
    if IsBaudKey(key) then
      match IntOf(value)
      case Some(n) => if n > 0 then Some((key, Number(n))) else None
      case None => None
    else Some((key, value))
  }

  /** A baud rate typed as decimal digits is accepted exactly when it is
      positive, and is carried as that number. */
  lemma BaudAccepted(key: string, n: nat)
    requires IsBaudKey(key)
    ensures ConfigChange(key, Text(ToDecimal(n))) == if n > 0 then Some((key, Number(n))) else None
  {
    var s := ToDecimal(n);
    DecimalRoundTrip(n);
    assert IsUpperHexText(s);
    assert !IsSpace(s[0]) && !IsSpace(s[|s| - 1]);
    StripUnchanged(s);
    assert IntOf(Text(s)) == Some(n);
  }
}
