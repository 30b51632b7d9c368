# Sensor edge pipeline and live-plot buffers, modelled in Dafny

This project models the two pieces of the DHT11 → AWS IoT sensor pipeline that
hold real logic:

- **The raw-to-clean processor** (`models_and_processor.py`). A raw reading is
  checked against the `SensorIn` schema: `device_id` a string, `ts` an integer,
  `temperature` in [-40, 125], `humidity` in [0, 100]. Accepted temperatures go
  into one process-wide rolling window of five, with the oldest evicted first.
  A `SensorOut` record is then built. It carries the four input fields through
  unchanged, adds the moving average rounded to two decimals, and adds a quality
  tag, `WARMUP` until the window is full and `OK` after that. A refused reading
  never touches the window.
- **The live-plot subscriber's buffers** (`plot_clean_simple_constants.py`).
  Three parallel queues hold arrival times, temperatures and humidities.
  `_trim` pops them from the front while the oldest point is more than
  `WINDOW_SEC` = 180 seconds old. `on_msg` picks the two values from
  alternative keys, appends a point and trims. `update` turns arrival times
  into seconds since the oldest kept point.

Files:

- `wrappers.dfy`: `Option` and `Result`.
- `sensor_pipeline.dfy`: module `SensorPipeline`. It holds the schema
  (`Payload`, `Validate`), the window (`Push`, `LastN`, `PushAll`), the average
  (`Sum`, `Mean`, `Round2`), the quality tag (`Classify`), the output record
  (`Emit`), and the class `Processor`. That class owns the window, and its
  `Process` method is `process()`. A ghost history `accepted` records every
  temperature that passed validation. The invariant `Valid()` says the window
  is always the last five entries of that history.
- `live_plot.dfy`: module `LivePlot`. It holds the key selection
  (`PickTemperature`, `PickHumidity`), the specification of the trim
  (`DropCount`), the x computation (`RelativeTimes`, `Redraw`), and the class
  `PlotBuffers` with its methods `Trim` and `OnMsg`.

Three facts about the code shape the model:

- `SensorIn` declares `device_id` as a plain `str`, so any string is accepted,
  including the empty one.
- The schema library checks every field, so a refused payload reports every
  failing field, in declaration order.
- `_window` is a single module-level deque, so one window is shared by every
  `device_id`.

## Model

| member | source | states |
|---|---|---|
| `SensorPipeline.Validate` | models_and_processor.py:17-28 | A payload is accepted exactly when it is a JSON object with `device_id` and `ts` present and well-typed, `temperature` present and in [-40, 125], and `humidity` present and in [0, 100]. An accepted reading carries the four input values unchanged. A refusal carries at least one reason. |
| `SensorPipeline.RangeErrorIffOutside` | models_and_processor.py:27-28 | An out-of-range error names temperature (or humidity) exactly when that field is present and outside its closed range. A missing-field error for temperature appears exactly when the field is absent. |
| `SensorPipeline.BoundsAreInclusive` | models_and_processor.py:27-28 | Temperatures -40 and 125 are accepted, and so are humidities 0 and 100. Any value beyond these bounds, by any positive amount, is refused. |
| `SensorPipeline.Push` | models_and_processor.py:72 | Appending to the `maxlen=5` window gives a window of length min(\|w\|+1, 5) whose last entry is the new value. `PushIsFifo` states which entries remain. |
| `SensorPipeline.PushIsFifo` | models_and_processor.py:72 | Appending to the `maxlen=5` window gives the last min(5, \|w\|+1) elements of `w + [x]`. The new value comes last. Nothing is reordered. |
| `SensorPipeline.LastNPush` | models_and_processor.py:72 | Pushing a value onto the last five of a history gives the last five of the extended history. This is the step that keeps the window equal to the tail of everything accepted. |
| `SensorPipeline.PushAllFromEmpty` | models_and_processor.py:45 | After N accepted readings from an empty start, the window is the last min(N, 5) of them, in arrival order, so its length is min(N, 5). |
| `SensorPipeline.SumBounds` | models_and_processor.py:73 | If every window entry lies in [lo, hi], the sum lies between n·lo and n·hi, where n is the window length. |
| `SensorPipeline.Sum` | models_and_processor.py:73 | `sum(_window)`, left to right. `SumBounds` bounds it by the window length times the entries' range. |
| `SensorPipeline.Mean` | models_and_processor.py:73 | `sum(_window) / len(_window)`: during warm-up the divisor is the current count, not five. `MeanWithin` and `AverageInRange` state its range. |
| `SensorPipeline.MeanWithin` | models_and_processor.py:73 | The average over the current contents (the divisor is the current count) lies within any range that holds every entry. |
| `SensorPipeline.Round2` | models_and_processor.py:81 | Rounding to two decimals moves a value by at most 0.005. |
| `SensorPipeline.Round2OfHundredths` | models_and_processor.py:81 | A value that already has at most two decimals is unchanged by rounding. |
| `SensorPipeline.Round2Within` | models_and_processor.py:81 | Rounding never leaves a range whose ends are whole hundredths. |
| `SensorPipeline.AverageInRange` | models_and_processor.py:72-81 | The published average of a window of validated temperatures lies in [-40, 125]. |
| `SensorPipeline.QualityAfterStream` | models_and_processor.py:83 | On a stream of accepted readings from an empty start, the tag is `OK` exactly from the fifth reading on and `WARMUP` before it. |
| `SensorPipeline.QualityStaysOk` | models_and_processor.py:83 | Once the window is full, so the tag is `OK`, every further accepted reading keeps it `OK`. |
| `SensorPipeline.Classify` | models_and_processor.py:83 | `"OK"` when the window length equals `maxlen`, `"WARMUP"` otherwise. `QualityAfterStream` and `QualityStaysOk` state when each tag is given. |
| `SensorPipeline.Emit` | models_and_processor.py:77-84 | The `SensorOut(...)` call. `Processor.Process` states it field by field and builds its record with it, so `NotIdempotent` applies to `process`. |
| `SensorPipeline.NotIdempotent` | models_and_processor.py:72-83 | The same valid reading processed twice after three earlier readings gives 22.75 / `WARMUP` the first time and 23.2 / `OK` the second time. |
| `SensorPipeline.SmoothingExample` | models_and_processor.py:72-83 | For readings 20, 22, 24, 26, 28, the window is full with average 24.0 and tag `OK`. A sixth reading, 30, evicts 20 and the average becomes 26.0. |
| `SensorPipeline.Processor.constructor` | models_and_processor.py:45 | The window starts empty, and so does the accepted history. |
| `SensorPipeline.Processor.Process` | models_and_processor.py:51-86 | Refusal happens exactly when validation fails. A refusal returns the validation errors and leaves the window and history unchanged. On success the temperature is appended to the history and pushed onto the window, and the window length is min(accepted, 5). The record copies `device_id`, `ts`, temperature and humidity, carries the rounded mean of the new window (which lies in [-40, 125]), is tagged `OK` exactly when at least five readings have been accepted, and has schema version "1.0". The record is `Emit` of the reading and the new window. |
| `LivePlot.PickTemperature` | plot_clean_simple_constants.py:77 | The temperature comes from `temperature_c`, else `temp_c`, else `temperature`. A key counts as present even when its value is null. When none of the three keys is present the result is null. |
| `LivePlot.PickHumidity` | plot_clean_simple_constants.py:78 | The humidity comes from `humidity_pct`, else `humidity`, with the same presence rule. When neither key is present the result is null. |
| `LivePlot.Get` | plot_clean_simple_constants.py:77-78 | `dict.get(key, default)`: a present key wins even when its value is null. `PickTemperature` and `PickHumidity` state the resulting precedence. |
| `LivePlot.DropCount` | plot_clean_simple_constants.py:63 | The number of leading times the trim loop pops, never more than the buffer holds. `DropCountIsStalePrefix` states that it is exactly the stale prefix. |
| `LivePlot.DropCountIsStalePrefix` | plot_clean_simple_constants.py:62-66 | The trim pops exactly the stale prefix. Every popped time is older than `now - WINDOW_SEC`. The first kept time, if there is one, is not. |
| `LivePlot.SortedTrimKeepsOnlyRecent` | plot_clean_simple_constants.py:62-66 | When the times are in non-decreasing order, every time the trim keeps is at least `now - WINDOW_SEC`. |
| `LivePlot.LastSurvivesTrim` | plot_clean_simple_constants.py:81-83 | A last time that is not stale is never popped. The newly appended point therefore always survives. |
| `LivePlot.RelativeTimes` | plot_clean_simple_constants.py:108-109 | The x list has one entry per kept time, and adding the oldest time to each entry gives back that entry's time. |
| `LivePlot.RelativeTimesSpan` | plot_clean_simple_constants.py:106-109 | x starts at 0. When the times are in order and lie within the window ending at `now`, every x lies in [0, 180] and the x list is in order. |
| `LivePlot.Redraw` | plot_clean_simple_constants.py:104-111 | Nothing is redrawn while the time buffer is empty. Otherwise x is `RelativeTimes(tbuf)`, so x[i] = tbuf[i] - tbuf[0] and x[0] = 0, and the temperature and humidity series are the buffers themselves. |
| `LivePlot.AppendAsWritten` | plot_clean_simple_constants.py:82 | In the callback as written, the arrival time is always appended. The three buffers grow together only when both values convert to numbers. |
| `LivePlot.AsWrittenBreaksLockstep` | plot_clean_simple_constants.py:82 | For `{"temperature": "hot", "humidity": 40}`, the callback as written leaves one more time than temperatures. |
| `LivePlot.PlotBuffers.constructor` | plot_clean_simple_constants.py:51-53 | The three buffers start empty, so they are in lockstep. |
| `LivePlot.PlotBuffers.Trim` | plot_clean_simple_constants.py:55-66 | Each buffer becomes the suffix of itself that remains after the same number of leading elements, the stale prefix of the time buffer, are removed. The lengths stay equal. Afterwards the time buffer is empty or its first time is at least `now - WINDOW_SEC`. |
| `LivePlot.PlotBuffers.OnMsg` | plot_clean_simple_constants.py:69-85 | A message without a numeric temperature and a numeric humidity leaves every buffer unchanged. Otherwise one point is appended to each buffer and the buffers are trimmed. Afterwards they are non-empty and in lockstep, the last point is (`now`, temperature, humidity), and the first time is within the window. |

## Left out

- JSON decoding and the schema library's coercions (for example `"25"` to 25.0, or 1.0 to 1 for `ts`) are not modelled. The input is an already-decoded record: each field is present and well-typed, missing, or mistyped, and a payload that is not a JSON object is a single `NotJson` case.
- The text of the `schema_error:...` message is not modelled. A refusal carries a list of typed errors instead.
- Floating point is not modelled. Temperatures, humidities, timestamps and averages are `real`s, so there is no NaN, no infinity and no rounding in `sum` or in the division.
- `SensorPipeline.Round2`: exact round-half-even to two decimals of the real value. Python's `round(x, 2)` rounds the binary float, so on a value such as 2.675 the two can differ.
- `edge_processor_clean.py` is not part of this model. It is MQTT/mTLS setup plus a callback that publishes the record when `process` succeeds and logs it otherwise.
- `publisher_dht11_to_aws_iot.py` is not part of this model. It covers hardware reads, retry and sleep loops, and publishing.
- The AWS IoT connection, the subscription, the matplotlib figure and animation, and the `print` in the callback's exception handler are not modelled.
- `on_msg`'s decoding is not modelled: `payload.decode`, `json.loads`, and a JSON value that is not an object (on which `d.get` raises). In each case the handler at plot_clean_simple_constants.py:84-85 catches the exception before anything is appended, so the buffers are unchanged. `OnMsg` takes the decoded object.
- `time.time()` is not modelled: `now` is a parameter of `OnMsg` and `Trim`.
- Concurrency is not modelled. Each `process` or `on_msg` call is one atomic step, and the MQTT callback threads are outside the model.
- `LivePlot.PlotBuffers.Trim`: requires the three buffers to have equal lengths. The Python pops `T` and `H` without checking, and would raise `IndexError` on an empty deque. With the corrected `OnMsg` the lengths are always equal. The as-written desync is covered under Findings.
- A JSON value that `float()` accepts is modelled as `Number(x)` with its converted value. The model does not follow which strings or booleans convert.
- `LivePlot.Redraw`: returns the frame as a value instead of calling `set_data`, `relim` and `autoscale_view`. It requires nothing of the three series' lengths.

## Findings

| source | as written | input that shows it | evidently intended | confidence | as-written member | corrected member |
|---|---|---|---|---|---|---|
| plot_clean_simple_constants.py:82 | `tbuf.append(now)` runs before `float(temp)` and `float(hum)`. A value that `float()` refuses raises after the time (and possibly the temperature) has already been appended. The exception is caught and the callback returns with the buffers out of step. Later trims then pop `T`/`H` out of step with `tbuf`, or raise on an empty deque, and `update` plots series of different lengths. | a message `{"temperature": "hot", "humidity": 40}` | Convert both values before appending anything, so a bad payload leaves all three buffers untouched and they stay in lockstep. | high (derived from the code; not executed) | `LivePlot.AsWrittenBreaksLockstep` | `LivePlot.PlotBuffers.OnMsg` |
