# Sunshine watch face: render state and tick loop

A model of the engine of the Sunshine Android Wear watch face
(`WatchFace.java`). The engine shows time, date, the day's minimum and
maximum temperature and a weather icon, and keeps its weather state in sync
with the paired phone. The model covers the engine's own logic:

- **Weather icons** (`weather_icons.dfy`): the pure mapping from an
  OpenWeatherMap condition code to an icon category, with `NoIcon` for the
  engine's `-1` answer. Every category is characterised as the exact set of
  codes that yield it, which also pins down the branch order (761 is fog, the
  storm test's `== 761` arm is dead).
- **Tick delay** (`tick_schedule.dfy`): the wait `1000 - now % 1000` with
  Java's truncating `%` on `long`, proved to land on a whole-second boundary,
  to be the next such boundary for a non-negative clock, and to lie in
  `[1000, 2000)` for a clock before the epoch.
- **Weather records** (`weather_data.dfy`): data items and change events, the
  render state `(weatherId, minTemp, maxTemp)`, the "last weather record
  wins" rule and its composition over successive batches.
- **Draw guards** (`draw_guards.dfy`): which weather elements a frame draws:
  the minimum iff present, the maximum iff present, the icon iff the mapping
  has one. The code as written (which the engine draws with) and a
  corrected version are both modelled (see Findings).
- **Engine** (`engine.dfy`): a class whose fields the callbacks update in
  place: the three weather fields, `lowBitAmbient`, `antialias`,
  `receiverRegistered`, plus the platform state the callbacks read or cause:
  visibility, ambient mode, the handler's queued tick messages, a redraw
  counter standing for `invalidate()`, and the log of receiver
  register/unregister calls. Its invariant `Valid()` states that at most one
  tick message is ever queued and that register and unregister calls
  strictly alternate, with `receiverRegistered` true exactly after a
  register.

The model follows the code where it departs from what the face is meant to
do:

- Becoming visible or hidden does not queue or remove a tick in the code;
  only `onAmbientModeChanged`, the tick handler itself and `onDestroy` touch
  the queue. A tick queued before the face is hidden is still delivered once,
  redraws, and is not re-armed.
- The temperatures are guarded separately in the code (minimum iff present,
  maximum iff present), not "both or neither".
- A weather record overwrites the three fields with whatever its data map
  returns, absent strings included; there is no reject-on-missing-field.

Platform inputs are parameters: the wall-clock reading is the `now` argument
of the tick handler; `isVisible()` and `isInAmbientMode()` are the fields
`visible` and `ambient`, set by the visibility and ambient callbacks.

## Model

| member | source | states |
|---|---|---|
| `WeatherIcons.WeatherIconId` | watch/src/main/java/com/example/android/sunshine/app/WatchFace.java:236-261 | storm exactly for 200–232 and 781, light rain for 300–321, rain for 500–504 and 520–531, snow for 511 and 600–622, fog for 701–761, clear for 800, light clouds for 801, cloudy for 802–804, and no icon exactly for every other code |
| `WeatherIcons.StormTestOnlyCatches781` | watch/src/main/java/com/example/android/sunshine/app/WatchFace.java:249-252 | of the two codes the storm test names, only 781 yields storm; 761 is caught by the fog range first |
| `WeatherIcons.UndocumentedCodesHaveNoIcon` | watch/src/main/java/com/example/android/sunshine/app/WatchFace.java:260 | the unknown code -1, the gap 505–510 and 999 draw no icon |
| `TickSchedule.JavaRem` | watch/src/main/java/com/example/android/sunshine/app/WatchFace.java:101 | Java's `long` remainder: `a == q * b + r` for a quotient `q` with the dividend's sign, and `r` lies in `[0, b)` for a non-negative dividend and in `(-b, 0]` for a negative one |
| `TickSchedule.TickDelay` | watch/src/main/java/com/example/android/sunshine/app/WatchFace.java:101 | `now + delay` is a whole second; the delay is in `[1, 1000]` for a non-negative clock and in `[1000, 2000)` before the epoch |
| `TickSchedule.TickDelayIsNextBoundary` | watch/src/main/java/com/example/android/sunshine/app/WatchFace.java:101 | from a non-negative clock no shorter positive wait reaches a whole second, so the tick lands on the next boundary |
| `WeatherData.LatestWeather` | watch/src/main/java/com/example/android/sunshine/app/WatchFace.java:327-334 | no record iff no item has the weather path; otherwise the record is an item with that path after which no item has it (the last one) |
| `WeatherData.ChangedItems` | watch/src/main/java/com/example/android/sunshine/app/WatchFace.java:305-307 | an item is kept iff some event of the changed kind carries it; never more items than events |
| `WeatherData.LatestWeatherConcat` | watch/src/main/java/com/example/android/sunshine/app/WatchFace.java:327-334 | over a concatenation, the later part's weather record wins if it has one, else the earlier part's |
| `WeatherData.ApplyBatchConcat` | watch/src/main/java/com/example/android/sunshine/app/WatchFace.java:326-334 | absorbing two batches in turn equals absorbing their concatenation |
| `WeatherData.ApplyBatchWithoutWeatherIsIdentity` | watch/src/main/java/com/example/android/sunshine/app/WatchFace.java:328 | a batch with no weather item leaves the render state unchanged |
| `WeatherData.ApplyBatchStep` | watch/src/main/java/com/example/android/sunshine/app/WatchFace.java:328-333 | one more item replaces all three fields if it has the weather path, otherwise changes nothing |
| `WeatherData.LatestChangedWeather` | watch/src/main/java/com/example/android/sunshine/app/WatchFace.java:305-313 | the record `onDataChanged` leaves is the item of the last event that is both a change and on the weather path; there is none iff no event is both |
| `WeatherData.AllChangedKeepsEveryItem` | watch/src/main/java/com/example/android/sunshine/app/WatchFace.java:305-307 | when every event is a change, the change stream yields exactly the events' items in order, so `onDataChanged` then behaves as `onResult` |
| `WeatherData.SingleRecordBatch` | watch/src/main/java/com/example/android/sunshine/app/WatchFace.java:328-333 | a batch with one weather record (800, "10°", "20°") among other items yields that state |
| `DrawGuards.DrawWeatherAsWritten` | watch/src/main/java/com/example/android/sunshine/app/WatchFace.java:228-233 | as written, drawing fails with a null dereference iff a maximum is present without a minimum, with an out-of-range text end iff the minimum is longer than the maximum, and otherwise draws the minimum iff present, the maximum only as cut to the minimum's length, and the icon iff the mapping has one |
| `DrawGuards.DrawWeather` | watch/src/main/java/com/example/android/sunshine/app/WatchFace.java:228-233 | the minimum text is drawn iff present, the maximum text iff present and in full, the icon iff the mapping has one for the code; at most three elements |
| `DrawGuards.AsWrittenAgreesWhenLengthsMatch` | watch/src/main/java/com/example/android/sunshine/app/WatchFace.java:228-229 | when no maximum is present, or both texts have the same length, the code as written draws exactly what the corrected draw does |
| `DrawGuards.MaxWithoutMinCrashes` | watch/src/main/java/com/example/android/sunshine/app/WatchFace.java:229 | minimum absent, maximum "20°": the draw as written fails with a null dereference, the corrected draw shows "20°" and the icon |
| `DrawGuards.ShorterMinTruncatesMax` | watch/src/main/java/com/example/android/sunshine/app/WatchFace.java:229 | minimum "9°", maximum "12°": the code as written draws "12"; the corrected draw shows "12°" |
| `DrawGuards.LongerMinOverrunsMax` | watch/src/main/java/com/example/android/sunshine/app/WatchFace.java:229 | minimum "-10°", maximum "5°": the code as written fails with an out-of-range end; the corrected draw shows "5°" |
| `WatchFaceEngine.DrawCrashIsReachable` | watch/src/main/java/com/example/android/sunshine/app/WatchFace.java:229 | one weather record without a minimum, absorbed into the initial state, leaves a state on which the draw as written fails with a null dereference |
| `WatchFaceEngine.Engine.constructor` | watch/src/main/java/com/example/android/sunshine/app/WatchFace.java:74-90 | a new engine has code -1, no temperatures, low-bit off, anti-aliasing on, the receiver unregistered, no tick queued and no redraw requested |
| `WatchFaceEngine.Engine.OnPropertiesChanged` | watch/src/main/java/com/example/android/sunshine/app/WatchFace.java:174-179 | the low-bit flag takes the reported value and nothing else changes |
| `WatchFaceEngine.Engine.OnTimeTick` | watch/src/main/java/com/example/android/sunshine/app/WatchFace.java:181-185 | exactly one redraw is requested |
| `WatchFaceEngine.Engine.OnTimeZoneChanged` | watch/src/main/java/com/example/android/sunshine/app/WatchFace.java:109-115 | exactly one redraw is requested |
| `WatchFaceEngine.Engine.HandleUpdateMessage` | watch/src/main/java/com/example/android/sunshine/app/WatchFace.java:94-107 | delivering the queued tick requests exactly one redraw and leaves exactly one tick queued, with the next-boundary delay, iff visible and not ambient, else none; at most one tick stays queued |
| `WatchFaceEngine.Engine.OnAmbientModeChanged` | watch/src/main/java/com/example/android/sunshine/app/WatchFace.java:187-198 | anti-aliasing becomes `!(ambient && lowBit)`, one redraw, all queued ticks removed, one immediate tick queued iff visible and not ambient |
| `WatchFaceEngine.Engine.OnVisibilityChanged` | watch/src/main/java/com/example/android/sunshine/app/WatchFace.java:263-284 | afterwards `receiverRegistered` equals the visibility; a register call is made only when becoming visible unregistered, an unregister only when hiding registered, so the calls strictly alternate |
| `WatchFaceEngine.Engine.OnDestroy` | watch/src/main/java/com/example/android/sunshine/app/WatchFace.java:286-290 | no tick stays queued; the weather fields and everything else are unchanged |
| `WatchFaceEngine.Engine.OnResult` | watch/src/main/java/com/example/android/sunshine/app/WatchFace.java:325-337 | the three fields become those of the last weather item of the batch, or stay as they were if none; one redraw iff visible and not ambient |
| `WatchFaceEngine.Engine.OnDataChanged` | watch/src/main/java/com/example/android/sunshine/app/WatchFace.java:303-318 | as `OnResult` over the items of the changed-kind events only |
| `WatchFaceEngine.Engine.OnDraw` | watch/src/main/java/com/example/android/sunshine/app/WatchFace.java:228-233 | the weather elements drawn for the current fields, or the failure, are exactly those of the draw as written, crashes included |

## Findings

| source | as written | input that shows it | evidently intended | confidence | as-written member | corrected member |
|---|---|---|---|---|---|---|
| watch/src/main/java/com/example/android/sunshine/app/WatchFace.java:229 | the maximum is drawn over `[0, min_temp.length())` | `min_temp` null, `max_temp` "20°": null dereference | the maximum drawn over its own length | high; not executed | `DrawGuards.MaxWithoutMinCrashes` (on `DrawGuards.DrawWeatherAsWritten`) | `DrawGuards.DrawWeather` |
| watch/src/main/java/com/example/android/sunshine/app/WatchFace.java:229 | same range, minimum shorter than maximum | `min_temp` "9°", `max_temp` "12°": "12" drawn | "12°" drawn | high; not executed | `DrawGuards.ShorterMinTruncatesMax` (on `DrawGuards.DrawWeatherAsWritten`) | `DrawGuards.DrawWeather` |
| watch/src/main/java/com/example/android/sunshine/app/WatchFace.java:229 | same range, minimum longer than maximum | `min_temp` "-10°", `max_temp` "5°": text end past the string, an index-out-of-bounds failure | "5°" drawn | high; not executed | `DrawGuards.LongerMinOverrunsMax` (on `DrawGuards.DrawWeatherAsWritten`) | `DrawGuards.DrawWeather` |

The engine's `OnDraw` draws as the code is written, so it fails on the states
above; `DrawGuards.DrawWeather` is the corrected draw, related to it by
`DrawGuards.AsWrittenAgreesWhenLengthsMatch`.

## Left out

- Canvas and paint work: background colour, text sizes, anti-aliasing applied to paints, layout offsets and the divider line (the offsets use floating point). `antialias` is computed but its use on the paints is not modelled.
- Time and date formatting (`SimpleDateFormat`, `Calendar`, time zones): library behaviour; the time string and its split at index 3 are not modelled, and `OnTimeZoneChanged` keeps only the redraw.
- Bitmap decoding and scaling of the icon: foreign calls; the model emits the icon category instead of a resource id.
- Connection to the phone (`GoogleApiClient` connect, disconnect, listener registration, the logging connection callbacks) and releasing the data buffers: network and IPC plumbing.
- The receiver's intent filter and broadcast delivery, and the `WatchFaceStyle` set-up: only the registration flag and the register/unregister calls are kept.
- Handler timing and threading: queued ticks are a sequence of delays, delivered one at a time by `HandleUpdateMessage`; when a tick is delivered and the due time on the handler's own clock are not modelled. Message codes other than the tick are never posted and are not modelled.
- The initial visibility and ambient state are taken as hidden and interactive; the platform sets them before calling the engine.
- `TickDelay`: does not model 64-bit overflow of the clock reading, which cannot occur for real clock values.
- `DrawGuards.DrawWeatherAsWritten`: text lengths are counted in characters, while Java's `String.length()` counts UTF-16 code units; the truncation and out-of-range conditions agree only for texts without characters outside the Basic Multilingual Plane, which the model assumes.
- Data-map lookups: an item carries the values its data map returns; how a missing `weather_id` key is defaulted is the library's behaviour.
