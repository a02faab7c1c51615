# Step tracker: a verified functional model

This project models the logic of a phone-based step tracker in Dafny. There are two sides:

- **Client side.** Three independently written clients turn acceleration samples into steps. Each one counts steps locally, uploads the counts on a timer and polls the server for an alert:
  - an iOS app (`StepDetector`, `MotionManager`, the `ApiClient` contract);
  - a browser page (`phone.js`);
  - a simulated Python phone (`processing.py`, `client.py`).
- **Server side.** An in-memory store keeps, per device, an append-only activity log and a FIFO alert queue. Two uploads more than three minutes apart queue an inactivity alert. Integer helpers bucket steps per minute and per day.

Each client variant is modelled separately, because they behave differently:

- **iOS** uploads `max(unsent, 1)` and always zeroes `unsent`.
- **Browser** skips the upload when nothing is unsent. It zeroes `unsent` only when an OK response arrives.
- **Python** skips the upload when nothing is unsent, but zeroes `unsent` whatever the outcome.
- **Initial debounce time:** iOS and Python start with "no step yet"; the browser starts at time 0.

Every operation is a pure function over an immutable state record. Clock readings and network outcomes are parameters:

- the sensor timestamp and `Date()` on iOS;
- `time.time()` in Python;
- `performance.now()` and `new Date()` in the browser;
- "now" and "today" on the server.

An asynchronous completion is a separate event. The acceleration magnitude `sqrt(ax² + ay² + az²)` is a `real` input, and detector arithmetic is over `real`. Server timestamps are integer seconds since the epoch, in UTC.

Modules, one per source file:

| module | file | models |
|---|---|---|
| `Window` | window.dfy | the bounded magnitude FIFO the three detectors share |
| `StepDetector` | step_detector.dfy | `StepDetector.swift` |
| `Processing` | processing.dfy | `phone_client/processing.py` |
| `ApiClient` | api_client.dfy | what `ApiClient.swift` promises its caller |
| `MotionManager` | motion_manager.dfy | `MotionManager.swift` |
| `Phone`, `Decimal` | phone.dfy, decimal.dfy | `ui/phone.js` |
| `Client` | client.dfy | one iteration of `phone_client/client.py`'s loop |
| `Database` | database.dfy | `server/database.py` |
| `Server` | server.dfy | the store-touching handlers of `server/main.py` |
| `Analytics` | analytics.dfy | the integer helpers of `server/analytics.py` |

Behaviour of the code that the model keeps as it is:

- `MotionManager.start` keeps the detector's window and its last-step time, so both carry over into the next session.
- The iOS client has no reset operation.
- The iOS accelerometer closure does not check `isRunning`. An update already queued when `stop` runs is still counted, and it can upload and poll.
- A late alert completion can land after `stop` or a restart, and so can a late upload completion in the browser.
- The browser's `stopSampling` keeps `sessionStart`. Its `lastStepTime` and `lastSampleTime` are never reset.
- The iOS alert completion sets `lastAlert` for any non-nil string. The browser and Python clients ignore an empty alert, because `""` is falsy in both languages.

## Model

| member | source | states |
|---|---|---|
| Window.Push | phone_client/processing.py:22 | Below capacity a push appends. At capacity it appends and drops the oldest value, so the window never exceeds its bound. |
| Window.FillHoldsMostRecent | phone_client/processing.py:22-28 | From an empty window, pushing any stream leaves exactly its most recent `cap` magnitudes, oldest first. |
| StepDetector.Update | StepPhoneClient/StepPhoneClient/StepDetector.swift:27-51 | The window becomes the FIFO push of the new magnitude and stays within `windowSize`. The result is 0 or 1. It is 1 exactly when the window is full, the magnitude exceeds the post-insertion mean by more than the threshold, and there was no prior step or `minStepInterval` has elapsed. A 1 records the timestamp; a 0 leaves `lastStepTime` unchanged. |
| StepDetector.RunWindowIsMostRecent | StepPhoneClient/StepPhoneClient/StepDetector.swift:31-34 | After any sample sequence from a fresh detector, the window holds the last `windowSize` magnitudes in insertion order. |
| StepDetector.WarmUpIsSilent | StepPhoneClient/StepPhoneClient/StepDetector.swift:36-38 | From a fresh detector, every one of the first `windowSize - 1` samples returns 0. |
| StepDetector.RunOutputsAreBits | StepPhoneClient/StepPhoneClient/StepDetector.swift:27-28 | Every output of a run is 0 or 1. |
| StepDetector.LastStepTimeTracksLastStep | StepPhoneClient/StepPhoneClient/StepDetector.swift:43-50 | After a run, `lastStepTime` is the timestamp of the latest accepted sample, or its initial value if none was accepted. |
| StepDetector.PrefixRun | StepPhoneClient/StepPhoneClient/StepDetector.swift:27-51 | The detector is causal: the outputs for a prefix of the samples are the same as the first outputs of the whole run. |
| StepDetector.ConsecutiveStepsAreSpaced | StepPhoneClient/StepPhoneClient/StepDetector.swift:43-47 | Two consecutive accepted steps are at least `minStepInterval` apart on the sensor clock. |
| Processing.New | phone_client/processing.py:9-23 | A zero sample rate raises ZeroDivisionError at `1.0 / sample_rate_hz`, before the window exists. Otherwise construction raises ValueError exactly for a negative window size, and keeps the given parameters when it succeeds. |
| Processing.Update | phone_client/processing.py:25-44 | The window stays within `window_size`. The result is 0 while fewer than `window_size` values are held. A step needs `mag - avg > threshold` and records `now`; with no previous step a crossing is accepted unconditionally; otherwise a step needs `min_step_interval_s` elapsed on the supplied clock. A zero window size raises ZeroDivisionError. |
| Processing.PythonAgreesWithSwift | phone_client/processing.py:30-44 | For any positive window size, the Python detector returns what the Swift detector returns on the same magnitude and clock reading. |
| MotionManager.Init | StepPhoneClient/StepPhoneClient/MotionManager.swift:14-31 | A new manager is idle, with zero counters, no alert, a fresh detector, and both timers at the construction time. |
| MotionManager.Start | StepPhoneClient/StepPhoneClient/MotionManager.swift:33-45 | A no-op when already running or when the accelerometer is unavailable. Otherwise it sets running, zeroes both counters, clears the alert and sets both timers to now, keeping the detector. |
| MotionManager.OnSample | StepPhoneClient/StepPhoneClient/MotionManager.swift:49-94 | An update without data changes nothing. Otherwise, whether or not the session is running, the detector state becomes the Swift detector's state after this sample and both counters gain its output. When the send interval has elapsed, `max(unsent, 1)` is uploaded, `unsent` becomes 0 and the send timer becomes now. The poll check is independent: it fires exactly when its own interval has elapsed and then resets its timer. The running flag and the alert are unchanged. |
| MotionManager.OnAlert | StepPhoneClient/StepPhoneClient/MotionManager.swift:83-91 | Only a non-nil alert overwrites `lastAlert`; nothing else changes. |
| MotionManager.Stop | StepPhoneClient/StepPhoneClient/MotionManager.swift:97-101 | Clears `isRunning` and keeps the counters, the alert, the timers and the detector. |
| MotionManager.Replay | StepPhoneClient/StepPhoneClient/MotionManager.swift:57-77 | Under any sequence of start, stop, sample and alert events, `0 <= unsentSteps <= totalSteps` holds and the window stays within 20 samples. |
| MotionManager.UploadsArePositive | StepPhoneClient/StepPhoneClient/MotionManager.swift:70-77 | Every upload the app issues carries at least one step. |
| MotionManager.UploadsCoverDetectedSteps | StepPhoneClient/StepPhoneClient/MotionManager.swift:62-77 | Over a run of samples, the uploaded steps plus what is still unsent are at least the steps detected plus what was unsent before. No detected step is lost locally. |
| ApiClient.SendSteps | StepPhoneClient/StepPhoneClient/ApiClient.swift:36-37 | A request goes out exactly for a positive count, and it carries that count. |
| ApiClient.AlertOf | StepPhoneClient/StepPhoneClient/ApiClient.swift:63-85 | Transport errors, missing data and decode failures all yield nil. A decoded body yields its `alert` field. |
| Phone.Init | ui/phone.js:15-26 | The page loads idle with an empty window, zero counters, both sample and step times at 0, no session start and no alert. |
| Phone.HandleMotion | ui/phone.js:68-96 | Nothing changes when not sampling or within 40 ms of the last accepted sample. An event without acceleration only advances `lastSampleTime`. Otherwise the window is the FIFO push. A step needs a full window, `filtered > 0.8` and 300 ms since `lastStepTime`; it adds exactly 1 to both counters and sets `lastStepTime`. Without a step, counters and `lastStepTime` are unchanged. |
| Phone.SendTick | ui/phone.js:98-107 | A request is issued exactly when sampling with `unsentSteps > 0`, and it carries `unsentSteps`. |
| Phone.SendCompleted | ui/phone.js:109-126 | Only an OK response sets `unsentSteps` to 0, even if steps were counted while the request was in flight. An HTTP error or an exception changes nothing. |
| Phone.AlertCompleted | ui/phone.js:129-147 | Only a non-empty alert in a successful body replaces the shown alert; nothing else changes. |
| Phone.StartSampling | ui/phone.js:192-212 | A no-op while sampling. Otherwise it starts sampling, zeroes both counters, empties the window and starts the session clock; the debounce time carries over. |
| Phone.StopSampling | ui/phone.js:214-227 | Ends sampling and changes nothing else. |
| Phone.ResetSession | ui/phone.js:229-243 | Always ends idle, with zero counters, an empty window, no session start and the placeholder alert. It always issues the server reset. |
| Phone.SessionTime | ui/phone.js:56-66 | With no session the result is "00:00". At or after the session start the result is `mm:ss`: the seconds field is two digits in 00–59, the minutes field has exactly two digits or no leading zero, and minutes × 60 + seconds is the elapsed whole seconds. Before the start, the clock begins with a minus sign. |
| Phone.Replay | ui/phone.js:68-243 | Under any sequence of page events, `0 <= unsentSteps <= totalSteps` holds and the window stays within 20 samples. |
| Phone.CountedStepsAreSpaced | ui/phone.js:90-93 | From page load, consecutive counted steps are at least 300 ms apart, even across stop, restart and reset. Since the debounce time starts at 0, no step is counted before 300 ms. |
| Phone.JsRem | ui/phone.js:64 | The remainder is the dividend minus the divisor times the quotient truncated toward zero. It lies in `[0, b)` for a non-negative dividend and in `(-b, 0]` for a negative one. |
| Decimal.IntToString | ui/phone.js:63-64 | A non-negative number renders as a non-empty digit string that reads back as the number. A negative one renders as `-` followed by digits that read back as its magnitude. No leading zero is written, except for 0 itself. |
| Decimal.PadStart2 | ui/phone.js:63-64 | A string of two or more characters is unchanged. A shorter one is prefixed with zeros to length two, and the original string ends the result. |
| Decimal.ValueOfNatToString | ui/phone.js:63-64 | Reading back the decimal rendering of a natural number gives the number. |
| Decimal.PadStart2KeepsValue | ui/phone.js:63-64 | Zero-padding to two characters keeps a numeral's value. |
| Client.Init | phone_client/client.py:19-23 | Startup fails exactly when the configured sample rate is zero, because the detector's constructor divides by it. Otherwise the loop starts with a fresh detector, nothing unsent and both timers at now. |
| Client.Iterate | phone_client/client.py:30-78 | The detector state and output are those of the Python detector on this reading. The output is added to `unsent_steps`. When the send interval has elapsed and something is unsent, exactly that amount is attempted and `unsent_steps` becomes 0 whatever the outcome. `last_send_time` moves to now exactly when the interval has elapsed, even if nothing was sent. The poll timer moves to now whenever its interval has elapsed, even on request error. Both intervals are the configured settings. A due poll whose body carries a non-empty alert announces exactly that alert, and an announcement happens only then. |
| Client.AttemptsConserveSteps | phone_client/client.py:33-58 | No attempted upload carries 0 steps. Attempted steps plus unsent steps equal the steps unsent at the start plus every detected step. |
| Database.GetActivity | server/database.py:23-27 | An unknown device yields the empty list. |
| Database.StoreActivity | server/database.py:13-20 | Appends exactly one `(timestamp, steps)` entry at the end of that device's log. The other devices and all alert queues are unchanged. |
| Database.PushAlert | server/database.py:30-31 | Appends the message to the end of the device's queue; nothing else changes. |
| Database.PopAlert | server/database.py:34-37 | Removes and returns the oldest message. An empty or unknown queue yields None and an unchanged store. Other devices are untouched. |
| Database.ResetDeviceData | server/database.py:40-45 | Forgets this device's activity and alerts only. |
| Database.PopNTakesOldest | server/database.py:34-37 | `n` pops return the `n` oldest messages in order and leave the rest queued. |
| Database.FifoRoundTrip | server/database.py:30-37 | Pushing m1…mk onto an empty queue and popping k times returns m1…mk in order and leaves the queue empty. |
| Server.ReceiveStepData | server/main.py:30-47 | The packet is stored first. An inactivity alert is queued exactly when the device already had an entry and the new timestamp is more than 180 s after the last one in list order. At most one alert is queued, and the reply is always ok. |
| Server.OtherDevicesUntouched | server/main.py:36-45 | An upload changes neither the log nor the queue of any other device. |
| Server.GapStep | server/main.py:39-45 | When the log holds exactly the earlier packets, one upload queues the inactivity message exactly when it comes more than three minutes after the previous packet. |
| Server.GetAlert | server/main.py:66-69 | Consumes exactly the oldest queued alert, or returns null and changes nothing. The activity logs and every other device's queue are unchanged. |
| Server.ResetUser | server/main.py:57-63 | Empties the device's log and queue, leaves other devices alone and replies ok. |
| Server.UserActivity | server/main.py:50-54 | An unknown device yields the empty list, and a known device yields its stored log. |
| Server.LogRecordsEveryPacket | server/main.py:36 | A stream of uploads extends the device's log with every packet, in arrival order. |
| Server.AlertsCountGaps | server/main.py:39-45 | From a fresh device, the number of queued alerts equals the number of consecutive packet pairs more than three minutes apart. |
| Analytics.GetDeviceEntries | server/analytics.py:10-14 | Returns the device's log, or the empty list for an unknown device. |
| Analytics.EntriesInWindow | server/analytics.py:19-24 | Empty input gives empty output. An entry is kept exactly when its timestamp is at least `now - window_seconds`. |
| Analytics.EntriesInWindowAsWritten | server/analytics.py:19-24 | The code as written: empty input gives empty output. Otherwise it raises TypeError exactly when some stored timestamp carries a UTC offset. A log of naive timestamps is filtered as `Analytics.EntriesInWindow` filters it. |
| Analytics.ClientUploadsBreakPaceWindow | server/analytics.py:22-24 | When every stored timestamp carries an offset, which is what every client sends, the code as written raises for any non-empty log. The intended filter keeps each entry inside the window. |
| Analytics.KeepSinceMembers | server/analytics.py:24 | The cutoff filter keeps exactly the entries at or after the cutoff. |
| Analytics.WindowKeepsOrder | server/analytics.py:24 | The window filter keeps the original order: filtering a concatenation equals concatenating the filtered parts. |
| Analytics.Totals | server/analytics.py:67-72 | Bucket keys are distinct. A key is present exactly when some entry falls into that minute or day. |
| Analytics.TotalsAreBucketSums | server/analytics.py:70-71 | Each bucket's total equals the steps of exactly the entries whose timestamp truncates to that bucket. |
| Analytics.TotalsPreserveSum | server/analytics.py:67-72 | The bucket totals add up to the steps of all entries. |
| Analytics.PerMinuteTotals | server/analytics.py:67-72 | There is one bucket per occupied minute, keyed by a multiple of 60 seconds. |
| Analytics.SortByKey | server/analytics.py:105 | Sorting by date yields strictly ascending keys with the same keys and totals. |
| Analytics.HistoricalDailyTotals | server/analytics.py:94-105 | Dates are strictly ascending. Each day appears exactly when it has activity and its age lies in `[0, days_back]`. |
| Analytics.DailyTotalsAreDaySums | server/analytics.py:96-98 | Each listed day carries that day's step total. |
| Analytics.EstimateMetFromPace | server/analytics.py:39-44 | The MET is at least 1.5 for every pace. It is exactly 1.5 below 20 steps per minute, and at least 6 from 100 upward. |
| Analytics.MetIsMonotone | server/analytics.py:39-44 | A faster pace never yields a lower MET, including across both breakpoints. |

## Left out

- Magnitude: `sqrt`, and the g to m/s² scaling on iOS, are taken as given. The magnitude is an input.
- Floating point: detector arithmetic, the MET curve and the timers are over exact reals. NaN is modelled only where a zero window size produces it.
- Fixed-width integers: Swift `Int` overflow traps and JavaScript number precision are not modelled. Counters are unbounded integers.
- Network I/O: all HTTP plumbing is out of scope, including `ApiClient.swift`'s requests, `fetch`, `requests` and FastAPI/CORS wiring. Only its observable contract is modelled, as collaborator outcomes passed in as parameters.
- Concurrency: each asynchronous completion (`await`, `DispatchQueue.main.async`, `setInterval` callbacks) is one atomic event. Interleavings are modelled only as event orders.
- Clocks: wall clocks and sensor clocks are parameters. Server timestamps are integer seconds in UTC, so sub-second differences are not modelled. Whether a timestamp carries a UTC offset is modelled only for the pace window; see Findings.
- Python client crashes: the client only ever builds the detector with window size 20, so the detector's `ZeroDivisionError` on a zero window cannot occur there. A zero configured sample rate is modelled as a failed startup. Exceptions other than `requests.RequestException` are not modelled.
- Python client configuration: `config.py` is not part of this model. Its sample rate and its send and poll intervals are parameters (`Client.Settings`). The iOS send and poll intervals (5 s each) are fixed in `MotionManager.swift` and are modelled as constants. The iOS sensor update rate only paces the samples and is not modelled.
- The page's initial alert text comes from HTML, which is not part of this model. It is taken to be the placeholder that `resetSession` writes.
- The browser's alert-poll timer only issues a request. Its completion is the only part that changes the page, and it is modelled as `Phone.AlertCompleted`.
- UI, rendering and side effects: `updateNumbers`, distance and calorie display rounding, DOM and button state, `ContentView.swift`, the dashboard, vibration, notifications and logging are out of scope. The one exception is the Python client's alert announcement (`Client.Effects.announced`). It is the only observable result of a successful poll, and it is where that client's notification would go.
- Permissions: `requestMotionPermission` is left out. Only whether motion events reach `handleMotion` matters, and `Phone.HandleMotion` models that through the sampling flag.
- Sensor simulation: `phone_client/sensors.py` is random noise plus a sine wave, with no behaviour to state.
- Float analytics: `compute_pace_spm`, `compute_calories_today`, `estimate_accel_variance_proxy`, `correct_step_count`, `predict_daily_steps` and `analytics_for_device` are left out. They depend on float rounding and on `int(round(...))` of float products.
- Client.Init: a negative configured sample rate starts successfully, as in the source. The loop's `time.sleep(detector.sample_period)` then raises ValueError at the end of the first iteration. The sleep and that crash are not modelled; for a positive rate the sleep only paces the loop.
- Phone.SessionTime: before the session start only the leading minus sign is stated, not the full text (for example `-2:-2` at 62 s before the start).

## Findings

| source | as written | input that shows it | evidently intended | confidence | as-written member | corrected member |
|---|---|---|---|---|---|---|
| server/analytics.py:22-24 | The cutoff is the naive `datetime.utcnow()` minus the window, and it is compared with stored timestamps. Every client uploads an offset-aware timestamp (`Z` or `+00:00`), and Python raises TypeError when it compares an aware datetime with a naive one. | Any device with at least one uploaded entry: `_entries_in_window` raises instead of returning the recent entries. | Keep exactly the entries at or after now minus the window, comparing UTC instants. | not executed; follows from Python's datetime comparison rules and the three clients' timestamp formats | Analytics.EntriesInWindowAsWritten, Analytics.ClientUploadsBreakPaceWindow | Analytics.EntriesInWindow |
