# Bridge server decision logic, modelled in Dafny

This project models the decision and state logic of the Python bridge server
behind the field-operations dashboard:

- **Alerts** (`alerts.dfy`): the `/alerts` endpoint. It classifies three sensor
  readings (temperature, gas in ppm, vibration in g) against fixed critical
  thresholds. The answer is a red alert when all three are high, a yellow
  alert listing the high sensors in a fixed order when some are, and
  HTTP 204 No Content when none are.
- **NetworkStatus** (`network_status.dfy`): the link quality computed from an
  RSSI reading. It also models the choice between the device's own JSON
  (status 200) and mock data (any other outcome).
- **PredictiveAnalysis** (`predictive_analysis.dfy`): three stateful
  estimators, each a class whose methods update fields in place.
  - `EMAForecaster` is an exponential moving average with an optional level.
  - `ETAPredictor` keeps a bounded window of clamped speed samples and
    divides the remaining distance by their harmonic mean, with a minimum
    speed as the floor.
  - `RiskHeatmap` is a rows×cols grid. Its cells decay with elapsed time
    and are reinforced cell by cell.

Readings, speeds and risk values are `real`, so there is no floating-point
rounding. The network, the random draws and the wall clock are parameters:
the device's reply, the drawn RSSI, and the current time `now`.

## Model

| member | source | states |
|---|---|---|
| `Alerts.Threshold` | app.py:18-20 | each critical threshold is the configured constant, and every one is positive |
| `Alerts.GetAlertStatus` | app.py:55-99 | red exactly when all three readings are strictly above their thresholds; 204 exactly when none is; yellow exactly when some but not all are; the yellow warnings name exactly the high sensors, each once with its reading, ordered temperature, gas, vibration; the status is 204 exactly when no reading is high and 200 otherwise; the severity is "red" exactly when all three are high and "yellow" exactly when some reading is not; red and yellow messages start with their fixed prefixes |
| `Alerts.CollectWarnings` | app.py:80-86 | the list holds one warning per high sensor and none for the others, each with its reading, ordered temperature, gas, vibration; it is empty exactly when no reading is high |
| `Alerts.IsHigh` | app.py:57-65 | a sensor is high exactly when its key is present and the value stored under it is strictly above the threshold; a reading at or below its threshold is not high (the comparisons are strict), and a missing reading is never high, so missing data cannot raise an alert |
| `Alerts.Label` | app.py:81-86 | every warning label starts with "High " |
| `Alerts.JoinLabels` | app.py:88 | the joined labels are empty exactly when there are no warnings, and start with the first warning's label |
| `Alerts.JoinLabelsEndsWithLast` | app.py:88 | the joined labels end with the last warning's label |
| `Alerts.YellowMessage` | app.py:88 | the yellow message starts with "WARNING: Elevated Sensor Readings:" and ends with ". Monitor system." |
| `NetworkStatus.Quality` | network_status.py:9 | quality is in [0, 100] and even; 0 at or below -100 dBm; 100 at or above -50 dBm; `2 * (rssi + 100)` in between |
| `NetworkStatus.QualityMonotone` | network_status.py:9 | quality is non-decreasing in the RSSI |
| `NetworkStatus.Mock` | network_status.py:6-10 | the mock holds exactly rssi, quality and timestamp; for an RSSI drawn from [-86, -54] the quality is `2 * (rssi + 100)` and lies in [28, 92] |
| `NetworkStatus.SetDefault` | network_status.py:22 | an existing key keeps its value, a missing key is added with the default, and no other key changes |
| `NetworkStatus.GetNetworkStrength` | network_status.py:12-26 | on status 200 with a JSON object the device's fields are returned unchanged, plus a timestamp when it had none; on any other status, a body that is not a JSON object, or a raised request, the result is the mock data |
| `NetworkStatus.AlwaysTimestamped` | network_status.py:10-26 | whatever the reply, the result carries a timestamp |
| `PredictiveAnalysis.Blend` | predictive_analysis.py:30-31 | with alpha in [0, 1] the EMA step lies between the new value and the old level |
| `PredictiveAnalysis.EMAForecaster.constructor` | predictive_analysis.py:15-23 | a new forecaster has no level and the given `alpha`, 0.3 when none is given |
| `PredictiveAnalysis.EMAForecaster.Update` | predictive_analysis.py:25-32 | the first update sets the level to the observation and returns it; later ones blend; the level always stays within the range of the observations (for alpha in [0, 1]) |
| `PredictiveAnalysis.EMAForecaster.Predict` | predictive_analysis.py:34-40 | fails before any update; afterwards it returns the current level whatever `steps` is (1 when none is given) |
| `PredictiveAnalysis.LastN` | predictive_analysis.py:86 | the window keeps min(n, window) samples |
| `PredictiveAnalysis.LastNAppend` | predictive_analysis.py:86-90 | appending to the trimmed window gives the same window as appending to the full history |
| `PredictiveAnalysis.ETAPredictor.constructor` | predictive_analysis.py:82-86 | a new predictor has an empty window of the given size, 30 when none is given |
| `PredictiveAnalysis.ETAPredictor.UpdateSpeed` | predictive_analysis.py:88-90 | the clamped sample max(0, speed) is appended and the oldest is evicted past `window`; the window stays the last `window` samples of everything fed |
| `PredictiveAnalysis.ETAPredictor.WindowFacts` | predictive_analysis.py:86-90 | the window never holds more than `window` samples; after n appends it holds min(n, window); every stored sample is non-negative |
| `PredictiveAnalysis.CountPositiveAtMostLength` | predictive_analysis.py:100 | the number of samples kept for the mean is at most the number of samples in the window |
| `PredictiveAnalysis.CountPositiveZero` | predictive_analysis.py:100-102 | no sample is kept for the mean exactly when no sample is positive (no samples, or only zeros) |
| `PredictiveAnalysis.ZeroSampleIgnored` | predictive_analysis.py:99-100 | a zero sample changes neither the count nor the inverse sum of the mean |
| `PredictiveAnalysis.SumInverseZero` | predictive_analysis.py:105-106 | the sum of inverses is zero exactly when no sample is positive |
| `PredictiveAnalysis.SumInversePositive` | predictive_analysis.py:105-106 | with a positive sample present, the sum of inverses is positive, so the mean is defined |
| `PredictiveAnalysis.SumInverseAtLeast` | predictive_analysis.py:105-106 | when every sample is at most `hi`, the inverses sum to at least (number of positive samples) / `hi` |
| `PredictiveAnalysis.SumInverseAtMost` | predictive_analysis.py:105-106 | when every positive sample is at least `lo`, the inverses sum to at most (number of positive samples) / `lo` |
| `PredictiveAnalysis.HarmonicMean` | predictive_analysis.py:104-106 | the harmonic mean of the positive samples is positive |
| `PredictiveAnalysis.HarmonicMeanAtMost` | predictive_analysis.py:104-106 | the harmonic mean is at most any bound on all samples |
| `PredictiveAnalysis.HarmonicMeanAtLeast` | predictive_analysis.py:104-106 | the harmonic mean is at least any positive bound below the positive samples |
| `PredictiveAnalysis.HarmonicMeanBounds` | predictive_analysis.py:104-106 | the harmonic mean lies between the slowest positive sample and the fastest sample |
| `PredictiveAnalysis.SpeedUsed` | predictive_analysis.py:96-107 | the speed used is at least `min_speed`, and exactly `min_speed` when no sample is positive (no samples, or only zeros) |
| `PredictiveAnalysis.SpeedUsedBounds` | predictive_analysis.py:104-107 | with a positive sample, the speed used lies between the slowest positive sample and the larger of the fastest sample and `min_speed` |
| `PredictiveAnalysis.ETAPredictor.EstimateEtaSeconds` | predictive_analysis.py:92-109 | the ETA is the distance over the speed used, and an error exactly when that speed is 0; with `min_speed > 0` (0.05 when none is given) and a non-negative distance it succeeds and is at most `distance / min_speed` |
| `PredictiveAnalysis.Elapsed` | predictive_analysis.py:130-131 | elapsed time is never negative, and is 0 exactly when the clock did not advance |
| `PredictiveAnalysis.DecayFactor` | predictive_analysis.py:137 | the factor is non-negative, at most 1 for a non-negative rate, and 1 when no time elapsed |
| `PredictiveAnalysis.Occurrences` | predictive_analysis.py:148-150 | a cell is counted exactly when it is listed |
| `PredictiveAnalysis.OccurrencesAtMostLength` | predictive_analysis.py:148-150 | a cell is never counted more often than the list is long |
| `PredictiveAnalysis.Reinforcement` | predictive_analysis.py:148-150 | a cell that is not listed gains nothing, and a non-negative amount never lowers a cell |
| `PredictiveAnalysis.ReinforcementCounts` | predictive_analysis.py:148-150 | a cell gains `amount` once per listed occurrence |
| `PredictiveAnalysis.RiskHeatmap.constructor` | predictive_analysis.py:119-127 | a new heatmap is an all-zero rows×cols grid with its clock started at `now`, decaying at the given rate, 0.01 per second when none is given |
| `PredictiveAnalysis.RiskHeatmap.ApplyDecay` | predictive_analysis.py:129-141 | every cell is multiplied by the same factor for the elapsed time; a clock that did not advance leaves the grid unchanged; the clock moves to `now` |
| `PredictiveAnalysis.RiskHeatmap.Reinforce` | predictive_analysis.py:143-150 | after decay, each in-bounds cell gains `amount` per occurrence in the list; out-of-bounds pairs change nothing; the grid keeps its size; `amount` is 1.0 when none is given |
| `PredictiveAnalysis.RiskHeatmap.Get` | predictive_analysis.py:152-155 | decay is applied first, and the grid itself is returned, not a copy |

## Left out

- `Kalman1D` (predictive_analysis.py:45-72) is not modelled. Its gain and covariance updates are floating-point numerics with no stated invariant.
- Floating-point rounding: all arithmetic is over exact reals. No claim is made about the float values of the EMA blend or of the harmonic mean.
- Alerts.GetAlertStatus: the red message is only its fixed prefix, and each yellow warning label omits the formatted reading ("High Temp" rather than "High Temp (96.3°C)"). The readings themselves are kept in the warnings list. Float formatting is not modelled.
- The `timestamp` field of the red and yellow JSON alerts, which comes from `time.time()`, is not modelled.
- `fetch_external_sensor_data` (app.py:24-47) is not modelled. It is a random simulation; the sensor data is a parameter of `GetAlertStatus`.
- Flask routing, CORS, `jsonify`, the `/network` passthrough route and `app.run` (app.py:4-14, 102-117) are not modelled. They are framework I/O.
- `requests.get` and its 2-second timeout, `random.randint` and `time.time` in network_status.py are not modelled as effects. The reply, the drawn RSSI and the time are parameters.
- NetworkStatus.Mock: takes an RSSI already inside the mock's draw range [-86, -54] as its precondition, because `random.randint` is the only source of that value.
- The `__main__` demonstration blocks of all three files only print, and are not modelled.
- The browser dashboard's client-side alert poller and rescuer-count estimator are not part of this model. Their JavaScript source is not among the modelled files. This model covers the server that the poller queries.
- Python dataclasses let callers reassign `alpha`, `window`, `rows`, `cols` and `decay_per_sec` after construction. The model makes these fields constants set by the constructor, because none of the modelled methods changes them.
- PredictiveAnalysis.EMAForecaster.constructor: a caller may pass an initial `_level` to the dataclass. The model always starts with no level. The other private fields cannot be seeded this way, because `__post_init__` overwrites `_speeds` (predictive_analysis.py:85-86) and `_grid` and `_last_ts` (predictive_analysis.py:125-127).
- The default arguments (alpha 0.3, steps 1, window 30, min_speed 0.05, decay_per_sec 0.01, amount 1.0) are modelled as Dafny default parameter values. They are named by the constants `DefaultAlpha` through `DefaultAmount`.
- PredictiveAnalysis.ETAPredictor.constructor: `window` is a `nat`. A negative window makes `deque` raise `ValueError`, and that error path is not modelled.
- PredictiveAnalysis.ETAPredictor.EstimateEtaSeconds: infinite and NaN speeds are not modelled, because samples are exact reals. In the source an infinite sample is stored as is. Its inverse is 0.0, so a window holding only `inf` gives a sum of inverses of 0.0, and line 106 of predictive_analysis.py raises `ZeroDivisionError` even with `min_speed` 0.05. The model's third ensures (success for `min_speed > 0` and a non-negative distance) holds only for finite samples.
- `float(speed_mps)` on a non-numeric argument, and `reinforce` given an iterable that is not a sequence of pairs, are not modelled. Inputs are typed as reals and integer pairs.
- Time is not read from the wall clock. `RiskHeatmap` takes the current time `now` as a parameter of its constructor, `ApplyDecay`, `Reinforce` and `Get`, and computes the elapsed time from it and the stored `_last_ts` exactly as the source does.
