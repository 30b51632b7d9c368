/** The raw-to-clean transform of the edge processor: schema check of a raw
    reading, the shared five-sample temperature window, and the clean record
    built from it (models_and_processor.py). */
module SensorPipeline {
  import opened Wrappers

  const MinTemperature: real := -40.0
  const MaxTemperature: real := 125.0
  const MinHumidity: real := 0.0
  const MaxHumidity: real := 100.0
  /** `maxlen` of the rolling window. */
  const WindowCapacity: nat := 5
  const SchemaVersion: string := "1.0"

  // ---------------------------------------------------------------------------
  // Schemas
  // ---------------------------------------------------------------------------

  /** One field of a decoded JSON object: present with a value of the declared
      type, absent, or present with a value of another type. */
  datatype Field<+T> = Present(value: T) | Missing | Mistyped

  /** The payload handed to `process`: either not a JSON object at all, or an
      object whose four schema fields have been looked up. */
  datatype Payload =
    | NotJson
    | Decoded(deviceId: Field<string>, ts: Field<int>, temperature: Field<real>, humidity: Field<real>)

  datatype FieldName = DeviceId | Ts | Temperature | Humidity

  datatype SchemaError =
    | InvalidJson
    | MissingField(field: FieldName)
    | WrongType(field: FieldName)
    | OutOfRange(field: FieldName)

  /** A validated raw reading (`SensorIn`). */
  datatype SensorIn = SensorIn(deviceId: string, ts: int, temperature: real, humidity: real)

  datatype Quality = Warmup | Ok

  /** The clean record (`SensorOut`). */
  datatype SensorOut = SensorOut(
    deviceId: string,
    ts: int,
    temperatureC: real,
    temperatureAvg5C: real,
    humidityPct: real,
    quality: Quality,
    schemaVersion: string)

  predicate TemperatureInRange(t: real) {
    MinTemperature <= t <= MaxTemperature
  }

  predicate HumidityInRange(h: real) {
    MinHumidity <= h <= MaxHumidity
  }

  /** What `SensorIn` accepts: every field present with its type, and both
      readings inside their closed ranges. */
  predicate Acceptable(p: Payload) {
    && p.Decoded?
    && p.deviceId.Present?
    && p.ts.Present?
    && p.temperature.Present? && TemperatureInRange(p.temperature.value)
    && p.humidity.Present? && HumidityInRange(p.humidity.value)
  }

  /** The error, if any, for one field whose value carries no constraint. */
  function TypeErrors<T>(f: Field<T>, name: FieldName): seq<SchemaError> {
    match f
    case Present(_) => []
    case Missing => [MissingField(name)]
    case Mistyped => [WrongType(name)]
  }

  /** The error, if any, for one numeric field constrained to [lo, hi]. */
  function RangeErrors(f: Field<real>, name: FieldName, lo: real, hi: real): seq<SchemaError> {
    match f
    case Present(v) => if lo <= v <= hi then [] else [OutOfRange(name)]
    case Missing => [MissingField(name)]
    case Mistyped => [WrongType(name)]
  }

  /** Every field error of a decoded object, in declaration order; the model
      library checks all fields rather than stopping at the first. */
  function FieldErrors(p: Payload): seq<SchemaError>
    requires p.Decoded?
  {
    TypeErrors(p.deviceId, DeviceId)
    + TypeErrors(p.ts, Ts)
    + RangeErrors(p.temperature, Temperature, MinTemperature, MaxTemperature)
    + RangeErrors(p.humidity, Humidity, MinHumidity, MaxHumidity)
  }

  /** `SensorIn.model_validate_json`: a typed reading, or the non-empty list
      of reasons it was refused. */
  function Validate(p: Payload): (r: Result<SensorIn, seq<SchemaError>>)
    ensures r.Success? <==> Acceptable(p)
    ensures r.Success? ==>
      && p.Decoded?
      && r.value.deviceId == p.deviceId.value && r.value.ts == p.ts.value
      && r.value.temperature == p.temperature.value && r.value.humidity == p.humidity.value
    ensures r.Failure? ==> |r.error| > 0
  {
    if p.NotJson? then Failure([InvalidJson])
    else
      var errors := FieldErrors(p);
      if errors == [] then
        Success(SensorIn(p.deviceId.value, p.ts.value, p.temperature.value, p.humidity.value))
      else Failure(errors)
  }

  /** An out-of-range error names a field exactly when that field is present
      and outside its closed range. */
  lemma RangeErrorIffOutside(p: Payload)
    requires p.Decoded?
    ensures OutOfRange(Temperature) in FieldErrors(p)
        <==> p.temperature.Present? && !TemperatureInRange(p.temperature.value)
    ensures OutOfRange(Humidity) in FieldErrors(p)
        <==> p.humidity.Present? && !HumidityInRange(p.humidity.value)
    ensures MissingField(Temperature) in FieldErrors(p) <==> p.temperature.Missing?
  {
  }

  /** The bounds are inclusive: -40 and 125, 0 and 100 pass, and any value
      beyond them by however little is refused. */
  lemma BoundsAreInclusive(id: string, ts: int, t: real, h: real, eps: real)
    requires eps > 0.0
    requires TemperatureInRange(t) && HumidityInRange(h)
    ensures Validate(Decoded(Present(id), Present(ts), Present(-40.0), Present(h))).Success?
    ensures Validate(Decoded(Present(id), Present(ts), Present(125.0), Present(h))).Success?
    ensures Validate(Decoded(Present(id), Present(ts), Present(t), Present(0.0))).Success?
    ensures Validate(Decoded(Present(id), Present(ts), Present(t), Present(100.0))).Success?
    ensures Validate(Decoded(Present(id), Present(ts), Present(-40.0 - eps), Present(h))).Failure?
    ensures Validate(Decoded(Present(id), Present(ts), Present(125.0 + eps), Present(h))).Failure?
    ensures Validate(Decoded(Present(id), Present(ts), Present(t), Present(0.0 - eps))).Failure?
    ensures Validate(Decoded(Present(id), Present(ts), Present(t), Present(100.0 + eps))).Failure?
  {
  }

  // ---------------------------------------------------------------------------
  // Rolling window
  // ---------------------------------------------------------------------------

  function Min(a: int, b: int): int {
    if a <= b then a else b
  }

  /** The last `n` elements of `s` (all of `s` when it is shorter). */
  function LastN<T>(s: seq<T>, n: nat): (r: seq<T>)
    ensures |r| == Min(|s|, n)
  {
    if |s| <= n then s else s[|s| - n..]
  }

  /** `deque.append` on a deque with `maxlen=5`: a full window first drops
      its oldest entry. */
  function Push(w: seq<real>, x: real): (r: seq<real>)
    requires |w| <= WindowCapacity
    ensures |r| == Min(|w| + 1, WindowCapacity) && r[|r| - 1] == x
  {
    if |w| < WindowCapacity then w + [x] else w[1..] + [x]
  }

  /** Pushing onto a window is FIFO: the result is the last five elements of
      the old window followed by the new value, never more than five, and
      the new value is last. */
  lemma PushIsFifo(w: seq<real>, x: real)
    requires |w| <= WindowCapacity
    ensures Push(w, x) == LastN(w + [x], WindowCapacity)
    ensures |Push(w, x)| == Min(|w| + 1, WindowCapacity)
    ensures Push(w, x)[|Push(w, x)| - 1] == x
  {
  }

  /** The window kept over a whole history is the last five accepted values:
      pushing the next value onto it is the same as taking the last five of
      the extended history. */
  lemma LastNPush(accepted: seq<real>, x: real)
    ensures Push(LastN(accepted, WindowCapacity), x) == LastN(accepted + [x], WindowCapacity)
  {
  }

  /** The window after a stream of accepted values, pushed one at a time. */
  function PushAll(w: seq<real>, xs: seq<real>): (r: seq<real>)
    requires |w| <= WindowCapacity
    ensures |r| <= WindowCapacity
    decreases |xs|
  {
    if xs == [] then w
    else
      PushIsFifo(w, xs[0]);
      PushAll(Push(w, xs[0]), xs[1..])
  }

  /** After N accepted readings from an empty start the window is the last
      min(N, 5) of them, in arrival order. */
  lemma {:induction false} PushAllFromEmpty(xs: seq<real>)
    ensures PushAll([], xs) == LastN(xs, WindowCapacity)
    ensures |PushAll([], xs)| == Min(|xs|, WindowCapacity)
  {
    PushAllKeepsLast([], xs);
  }

  lemma {:induction false} PushAllKeepsLast(history: seq<real>, xs: seq<real>)
    ensures PushAll(LastN(history, WindowCapacity), xs) == LastN(history + xs, WindowCapacity)
    decreases |xs|
  {
    if xs != [] {
      LastNPush(history, xs[0]);
      PushAllKeepsLast(history + [xs[0]], xs[1..]);
      assert history + [xs[0]] + xs[1..] == history + xs;
    } else {
      assert history + xs == history;
    }
  }

  // ---------------------------------------------------------------------------
  // Average and rounding
  // ---------------------------------------------------------------------------

  /** `sum(...)` over the window, left to right. */
  function Sum(s: seq<real>): real {
    if s == [] then 0.0 else s[0] + Sum(s[1..])
  }

  predicate AllWithin(s: seq<real>, lo: real, hi: real) {
    forall i :: 0 <= i < |s| ==> lo <= s[i] <= hi
  }

  lemma {:induction false} SumBounds(s: seq<real>, lo: real, hi: real)
    requires AllWithin(s, lo, hi)
    ensures (|s| as real) * lo <= Sum(s) <= (|s| as real) * hi
  {
    if s != [] {
      assert AllWithin(s[1..], lo, hi);
      SumBounds(s[1..], lo, hi);
    }
  }

  /** The moving average over whatever the window holds: during warm-up the
      divisor is the current count, not five. */
  function Mean(w: seq<real>): real
    requires |w| > 0
  {
    Sum(w) / (|w| as real)
  }

  /** The average of values inside [lo, hi] lies inside [lo, hi]. */
  lemma MeanWithin(w: seq<real>, lo: real, hi: real)
    requires |w| > 0 && AllWithin(w, lo, hi)
    ensures lo <= Mean(w) <= hi
  {
    SumBounds(w, lo, hi);
  }

  /** `round(x, 2)`: the nearest multiple of 0.01, ties to the even
      hundredth; the result is never more than half a hundredth away. */
  function Round2(x: real): (r: real)
    ensures -0.005 <= r - x <= 0.005
  {
    var scaled := x * 100.0;
    var n := scaled.Floor;
    var frac := scaled - n as real;
    var k := if frac < 0.5 then n
             else if frac > 0.5 then n + 1
             else if n % 2 == 0 then n else n + 1;
    k as real / 100.0
  }

  /** A value that already has at most two decimals is left unchanged. */
  lemma Round2OfHundredths(k: int)
    ensures Round2(k as real / 100.0) == k as real / 100.0
  {
  }

  /** Rounding never leaves a range whose ends are whole hundredths. */
  lemma Round2Within(x: real, lo: int, hi: int)
    requires lo as real / 100.0 <= x <= hi as real / 100.0
    ensures lo as real / 100.0 <= Round2(x) <= hi as real / 100.0
  {
    var scaled := x * 100.0;
    var n := scaled.Floor;
    assert lo as real <= scaled <= hi as real;
    assert lo <= n <= hi;
    assert n == hi ==> scaled - n as real == 0.0;
  }

  /** The published average of validated temperatures is itself a valid
      temperature. */
  lemma AverageInRange(w: seq<real>)
    requires |w| > 0 && AllWithin(w, MinTemperature, MaxTemperature)
    ensures MinTemperature <= Round2(Mean(w)) <= MaxTemperature
  {
    MeanWithin(w, MinTemperature, MaxTemperature);
    Round2Within(Mean(w), -4000, 12500);
  }

  // ---------------------------------------------------------------------------
  // Quality
  // ---------------------------------------------------------------------------

  /** `"OK"` once the window is full, `"WARMUP"` before. */
  function Classify(windowLength: nat): Quality {
    if windowLength == WindowCapacity then Ok else Warmup
  }

  /** On a stream of accepted readings from an empty start, the first four
      are tagged WARMUP and every later one OK. */
  lemma QualityAfterStream(xs: seq<real>)
    ensures Classify(|PushAll([], xs)|) == Ok <==> |xs| >= WindowCapacity
  {
    PushAllFromEmpty(xs);
  }

  /** Once OK, always OK: a full window stays full. */
  lemma QualityStaysOk(w: seq<real>, x: real)
    requires |w| <= WindowCapacity && Classify(|w|) == Ok
    ensures Classify(|Push(w, x)|) == Ok
  {
  }

  // ---------------------------------------------------------------------------
  // Output record
  // ---------------------------------------------------------------------------

  /** The clean record for a validated reading, given the window after the
      reading's temperature has been pushed. */
  function Emit(raw: SensorIn, w: seq<real>): SensorOut
    requires |w| > 0
  {
    SensorOut(raw.deviceId, raw.ts, raw.temperature, Round2(Mean(w)), raw.humidity,
              Classify(|w|), SchemaVersion)
  }

  /** Sums of short literal windows, for the worked examples below. */
  lemma SumOfFour(a: real, b: real, c: real, d: real)
    ensures Sum([a, b, c, d]) == a + b + c + d
  {
    assert [d][1..] == [];
    assert Sum([d]) == d;
    assert [c, d][1..] == [d];
    assert Sum([c, d]) == c + d;
    assert [b, c, d][1..] == [c, d];
    assert Sum([b, c, d]) == b + c + d;
    assert [a, b, c, d][1..] == [b, c, d];
  }

  lemma SumOfFive(a: real, b: real, c: real, d: real, e: real)
    ensures Sum([a, b, c, d, e]) == a + b + c + d + e
  {
    SumOfFour(b, c, d, e);
    assert [a, b, c, d, e][1..] == [b, c, d, e];
  }

  /** Processing is not idempotent: the same valid reading processed twice
      in a row, after three earlier readings, yields a different average and
      a different quality the second time. */
  lemma NotIdempotent()
    ensures var w := [20.0, 22.0, 24.0];
            var raw := SensorIn("d1", 100, 25.0, 40.0);
            var first := Emit(raw, Push(w, 25.0));
            var second := Emit(raw, Push(Push(w, 25.0), 25.0));
            && first.temperatureAvg5C == 22.75 && first.quality == Warmup
            && second.temperatureAvg5C == 23.2 && second.quality == Ok
  {
    var w1 := Push([20.0, 22.0, 24.0], 25.0);
    assert w1 == [20.0, 22.0, 24.0, 25.0];
    var w2 := Push(w1, 25.0);
    assert w2 == [20.0, 22.0, 24.0, 25.0, 25.0];
    SumOfFour(20.0, 22.0, 24.0, 25.0);
    SumOfFive(20.0, 22.0, 24.0, 25.0, 25.0);
    assert Mean(w1) == 2275 as real / 100.0;
    assert Mean(w2) == 2320 as real / 100.0;
    Round2OfHundredths(2275);
    Round2OfHundredths(2320);
  }

  /** Six readings 20, 22, ..., 30: after the fifth the window is full with
      average 24.00 and quality OK; the sixth evicts 20 and the average
      becomes 26.00. */
  lemma SmoothingExample()
    ensures PushAll([], [20.0, 22.0, 24.0, 26.0, 28.0]) == [20.0, 22.0, 24.0, 26.0, 28.0]
    ensures Round2(Mean(PushAll([], [20.0, 22.0, 24.0, 26.0, 28.0]))) == 24.0
    ensures Classify(|PushAll([], [20.0, 22.0, 24.0, 26.0, 28.0])|) == Ok
    ensures PushAll([], [20.0, 22.0, 24.0, 26.0, 28.0, 30.0]) == [22.0, 24.0, 26.0, 28.0, 30.0]
    ensures Round2(Mean(PushAll([], [20.0, 22.0, 24.0, 26.0, 28.0, 30.0]))) == 26.0
  {
  }

  // ---------------------------------------------------------------------------
  // The processor and its window
  // ---------------------------------------------------------------------------

  /** The module-level `_window` together with `process`. `accepted` is the
      history of every temperature that passed validation; the window is
      always its last five entries. */
  class Processor {
    var window: seq<real>
    ghost var accepted: seq<real>

    ghost predicate Valid()
      reads this
    {
      && window == LastN(accepted, WindowCapacity)
      && AllWithin(accepted, MinTemperature, MaxTemperature)
    }

    constructor ()
      ensures Valid() && accepted == [] && window == []
    {
      window := [];
      accepted := [];
    }

    /** Validate, then push, average, classify and build the clean record.
        A refused payload leaves the window exactly as it was. */
    method Process(p: Payload) returns (r: Result<SensorOut, seq<SchemaError>>)
      requires Valid()
      modifies this
      ensures Valid()
      ensures r.Success? <==> Acceptable(p)
      ensures r.Failure? ==>
        r.error == Validate(p).error && window == old(window) && accepted == old(accepted)
      ensures r.Success? ==>
        var raw := Validate(p).value;
        && accepted == old(accepted) + [raw.temperature]
        && window == Push(old(window), raw.temperature)
        && |window| == Min(|accepted|, WindowCapacity)
        && r.value.deviceId == raw.deviceId
        && r.value.ts == raw.ts
        && r.value.temperatureC == raw.temperature
        && r.value.humidityPct == raw.humidity
        && r.value.temperatureAvg5C == Round2(Mean(window))
        && MinTemperature <= r.value.temperatureAvg5C <= MaxTemperature
        && (r.value.quality == Ok <==> |accepted| >= WindowCapacity)
        && r.value.schemaVersion == "1.0"
        && r.value == Emit(raw, window)
    {
      var v := Validate(p);
      if v.Failure? {
        return Failure(v.error);
      }
      var raw := v.value;
      LastNPush(accepted, raw.temperature);
      if |window| == WindowCapacity {
        window := window[1..];
      }
      window := window + [raw.temperature];
      accepted := accepted + [raw.temperature];
      assert AllWithin(window, MinTemperature, MaxTemperature) by {
        assert forall i :: 0 <= i < |window| ==> window[i] in accepted;
      }
      AverageInRange(window);
      r := Success(Emit(raw, window));
    }
  }
}
