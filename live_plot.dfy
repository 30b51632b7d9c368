/** The live-plot subscriber's time-window buffers: three parallel queues of
    arrival times, temperatures and humidities, trimmed to the last
    `WindowSec` seconds (plot_clean_simple_constants.py). */
module LivePlot {
  import opened Wrappers

  /** How many seconds of history the plot keeps. */
  const WindowSec: real := 180.0

  /** A value of the decoded JSON object, as far as `on_msg` cares: JSON
      null, something `float()` converts (with the converted value), or
      something it refuses. */
  datatype Value = Null | Number(x: real) | NotNumeric

  type Message = map<string, Value>

  /** `d.get(key, default)`: a key that is present wins even when its value
      is null. */
  function Get(d: Message, key: string, default: Value): Value {
    if key in d then d[key] else default
  }

  /** The temperature `on_msg` plots: `temperature_c`, else `temp_c`, else
      `temperature`, else null. */
  function PickTemperature(d: Message): (v: Value)
    ensures "temperature_c" in d ==> v == d["temperature_c"]
    ensures "temperature_c" !in d && "temp_c" in d ==> v == d["temp_c"]
    ensures "temperature_c" !in d && "temp_c" !in d && "temperature" in d ==> v == d["temperature"]
    ensures "temperature_c" !in d && "temp_c" !in d && "temperature" !in d ==> v == Null
  {
    Get(d, "temperature_c", Get(d, "temp_c", Get(d, "temperature", Null)))
  }

  /** The humidity `on_msg` plots: `humidity_pct`, else `humidity`, else
      null. */
  function PickHumidity(d: Message): (v: Value)
    ensures "humidity_pct" in d ==> v == d["humidity_pct"]
    ensures "humidity_pct" !in d && "humidity" in d ==> v == d["humidity"]
    ensures "humidity_pct" !in d && "humidity" !in d ==> v == Null
  {
    Get(d, "humidity_pct", Get(d, "humidity", Null))
  }

  /** How many leading timestamps `_trim` pops: the longest prefix whose
      entries are all older than `cutoff`. */
  function DropCount(ts: seq<real>, cutoff: real): (k: nat)
    ensures k <= |ts|
  {
    if |ts| > 0 && ts[0] < cutoff then 1 + DropCount(ts[1..], cutoff) else 0
  }

  /** What `_trim` pops is exactly the stale prefix: every dropped timestamp
      is older than the cutoff and the first kept one, if any, is not. */
  lemma {:induction false} DropCountIsStalePrefix(ts: seq<real>, cutoff: real)
    ensures forall i :: 0 <= i < DropCount(ts, cutoff) ==> ts[i] < cutoff
    ensures DropCount(ts, cutoff) < |ts| ==> ts[DropCount(ts, cutoff)] >= cutoff
  {
    if |ts| > 0 && ts[0] < cutoff {
      DropCountIsStalePrefix(ts[1..], cutoff);
    }
  }

  predicate Sorted(ts: seq<real>) {
    forall i, j :: 0 <= i <= j < |ts| ==> ts[i] <= ts[j]
  }

  /** On timestamps in arrival order, everything `_trim` keeps is within the
      window. */
  lemma SortedTrimKeepsOnlyRecent(ts: seq<real>, cutoff: real)
    requires Sorted(ts)
    ensures forall i :: DropCount(ts, cutoff) <= i < |ts| ==> ts[i] >= cutoff
  {
  }

  /** A last timestamp that is not stale is never popped. */
  lemma {:induction false} LastSurvivesTrim(ts: seq<real>, cutoff: real)
    requires |ts| > 0 && ts[|ts| - 1] >= cutoff
    ensures DropCount(ts, cutoff) < |ts|
  {
    if ts[0] < cutoff {
      assert |ts| > 1;
      assert ts[1..][|ts[1..]| - 1] == ts[|ts| - 1];
      LastSurvivesTrim(ts[1..], cutoff);
    }
  }

  /** The x coordinates `update` plots: seconds since the oldest kept point. */
  function RelativeTimes(tbuf: seq<real>): (x: seq<real>)
    ensures |x| == |tbuf|
    ensures forall i :: 0 <= i < |x| ==> x[i] + tbuf[0] == tbuf[i]
  {
    seq(|tbuf|, i requires 0 <= i < |tbuf| => tbuf[i] - tbuf[0])
  }

  /** The plot starts at zero, and on timestamps in arrival order that all lie
      within the window ending at `now`, every x lies in [0, WindowSec] and
      the x values are in order. */
  lemma RelativeTimesSpan(tbuf: seq<real>, now: real)
    requires |tbuf| > 0 && Sorted(tbuf)
    requires tbuf[0] >= now - WindowSec && tbuf[|tbuf| - 1] <= now
    ensures RelativeTimes(tbuf)[0] == 0.0
    ensures forall i :: 0 <= i < |tbuf| ==> 0.0 <= RelativeTimes(tbuf)[i] <= WindowSec
    ensures Sorted(RelativeTimes(tbuf))
  {
  }

  /** One redraw: the x values with the temperature and humidity series. */
  datatype Frame = Frame(x: seq<real>, temperatures: seq<real>, humidities: seq<real>)

  /** `update`: nothing is redrawn while there are no points; otherwise the
      three series have one entry per kept point. */
  function Redraw(tbuf: seq<real>, temps: seq<real>, hums: seq<real>): (f: Option<Frame>)
    ensures f.None? <==> tbuf == []
    ensures f.Some? ==>
      && f.value.x == RelativeTimes(tbuf) && f.value.x[0] == 0.0
      && f.value.temperatures == temps && f.value.humidities == hums
  {
    if tbuf == [] then None else Some(Frame(RelativeTimes(tbuf), temps, hums))
  }

  /** What the callback as written leaves in the buffers once the None check
      has passed: `now` goes into the time buffer before either value is
      converted, so a value `float()` refuses aborts the callback with the
      buffers already out of step, and the trim is never reached. */
  function AppendAsWritten(tbuf: seq<real>, temps: seq<real>, hums: seq<real>,
                           t: Value, h: Value, now: real): (r: (seq<real>, seq<real>, seq<real>))
    requires t != Null && h != Null
    ensures r.0 == tbuf + [now]
    ensures r.1 <= temps + (if t.Number? then [t.x] else [])
    ensures (|r.1| - |temps| == |r.0| - |tbuf| && |r.2| - |hums| == |r.0| - |tbuf|)
        <==> t.Number? && h.Number?
  {
    if t.NotNumeric? then (tbuf + [now], temps, hums)
    else if h.NotNumeric? then (tbuf + [now], temps + [t.x], hums)
    else (tbuf + [now], temps + [t.x], hums + [h.x])
  }

  /** A message such as {"temperature": "hot", "humidity": 40} leaves one
      more timestamp than temperature after the callback as written. */
  lemma AsWrittenBreaksLockstep(tbuf: seq<real>, temps: seq<real>, hums: seq<real>, now: real)
    requires |tbuf| == |temps| == |hums|
    ensures var d := map["temperature" := NotNumeric, "humidity" := Number(40.0)];
            var after := AppendAsWritten(tbuf, temps, hums, PickTemperature(d), PickHumidity(d), now);
            |after.0| != |after.1| && |after.1| == |after.2|
  {
  }

  /** The three module-level deques `tbuf`, `T` and `H`. */
  class PlotBuffers {
    var tbuf: seq<real>
    var temps: seq<real>
    var hums: seq<real>

    /** The buffers move in lockstep: entry i of each belongs to one point. */
    ghost predicate Valid()
      reads this
    {
      |tbuf| == |temps| == |hums|
    }

    constructor ()
      ensures Valid() && tbuf == [] && temps == [] && hums == []
    {
      tbuf, temps, hums := [], [], [];
    }

    /** `_trim`: pop all three buffers from the front while the oldest point
        is older than `now - WindowSec`. */
    method Trim(now: real)
      requires Valid()
      modifies this
      ensures Valid()
      ensures var k := DropCount(old(tbuf), now - WindowSec);
        && tbuf == old(tbuf)[k..]
        && temps == old(temps)[k..]
        && hums == old(hums)[k..]
      ensures tbuf == [] || tbuf[0] >= now - WindowSec
    {
      var cutoff := now - WindowSec;
      ghost var k := 0;
      while |tbuf| > 0 && tbuf[0] < cutoff
        invariant Valid()
        invariant 0 <= k <= |old(tbuf)|
        invariant tbuf == old(tbuf)[k..] && temps == old(temps)[k..] && hums == old(hums)[k..]
        invariant DropCount(old(tbuf), cutoff) == k + DropCount(tbuf, cutoff)
        decreases |tbuf|
      {
        tbuf := tbuf[1..];
        temps := temps[1..];
        hums := hums[1..];
        k := k + 1;
      }
    }

    /** `on_msg` on an already decoded message, with `now` the arrival time:
        a message without both values is ignored; otherwise one point is
        appended to every buffer and the buffers are trimmed. Both values are
        converted before anything is appended, so a value `float()` refuses
        also leaves the buffers as they were. */
    method OnMsg(d: Message, now: real)
      requires Valid()
      modifies this
      ensures Valid()
      ensures var t, h := PickTemperature(d), PickHumidity(d);
        !(t.Number? && h.Number?) ==>
          tbuf == old(tbuf) && temps == old(temps) && hums == old(hums)
      ensures var t, h := PickTemperature(d), PickHumidity(d);
        t.Number? && h.Number? ==>
          var k := DropCount(old(tbuf) + [now], now - WindowSec);
          && tbuf == (old(tbuf) + [now])[k..]
          && temps == (old(temps) + [t.x])[k..]
          && hums == (old(hums) + [h.x])[k..]
          && |tbuf| > 0
          && tbuf[|tbuf| - 1] == now && temps[|temps| - 1] == t.x && hums[|hums| - 1] == h.x
          && tbuf[0] >= now - WindowSec
    {
      var t := PickTemperature(d);
      var h := PickHumidity(d);
      if t.Null? || h.Null? {
        return;
      }
      if t.NotNumeric? || h.NotNumeric? {
        return;
      }
      tbuf := tbuf + [now];
      temps := temps + [t.x];
      hums := hums + [h.x];
      LastSurvivesTrim(tbuf, now - WindowSec);
      Trim(now);
    }
  }
}
