# Smart plant monitoring: sensor simulator

A Dafny model of the sensor simulator of a plant monitoring system
(`simulator.py`). The simulator produces synthetic soil-moisture, light,
temperature and humidity readings according to one of five scenarios and posts
each reading to a storage endpoint, retrying a failed submission. The model
covers:

- the scenario enumeration and its selection from the command line
  (`modes.dfy`, module `Modes`);
- readings, the thresholds record and the random draws (`readings.dfy`, module
  `Readings`). Temperature and humidity are integer tenths: 26.0 °C is `260`.
  A call `random.randint(lo, hi)` becomes `RandInt(lo, hi, x)`, and
  `round(random.uniform(a, b), 1)` becomes `Uniform(a, b, x)`. In both, `x` is
  a raw value supplied by the random source. Lemmas show that every value in
  the range is reachable, so the model narrows nothing;
- the reading generator (`generator.dfy`, module `Generator`): the five range
  rules as functions, the dispatch on the scenario, and the class
  `SensorSimulator`. The class keeps the scenario and thresholds fixed and
  counts its readings in place;
- the submission client (`client.dfy`, module `Client`): the bounded retry
  loop of `send_reading` as a method. It runs over the sequence of outcomes
  that successive requests would have (`Status(code)`, `Timeout`,
  `ConnError`, `Other`). It returns the boolean result and a log of `Post` and
  `Sleep` events;
- the health summary of a reading (`health.dfy`, module `Health`);
- the main generate–submit–count loop, run for a finite list of rounds
  (`driver.dfy`, module `Driver`).

Behaviour observed in the code and proved here:

- A comment on the fully random rule calls its ranges "hardware limits". In
  fact it draws from the thresholds record, whose comment calls its values
  "healthy ranges". Those healthy ranges lie exactly inside the health
  summary's limits. So with the defaults, a fully random reading is never
  flagged (`Health.RandomDefaultAlwaysHealthy`). It cannot exercise the
  alerting paths.
- From the 15th drought reading on, the soil value is at most 1750, so "soil
  too dry" is always reported first (`Health.DroughtEventuallyDry`).

## Model

| member | source | states |
|---|---|---|
| `Modes.LookupMode` | simulator.py:238-241 | a scenario is found exactly when the string equals that scenario's enum value; no other string finds one (the enum constructor's ValueError is `None`) |
| `Modes.ModeFromArgs` | simulator.py:235-242 | with no argument the scenario is NORMAL; otherwise it is the scenario whose value equals the lower-cased first argument, and NORMAL when none does |
| `Modes.ModeValueInjective` | simulator.py:36-42 | distinct scenarios carry distinct values, so a selection is unambiguous |
| `Modes.ValueSelectsMode` | simulator.py:235-242 | passing any scenario's value as the argument selects that scenario |
| `Modes.UpperCaseArgument` | simulator.py:237-239 | an upper-case argument (`DRY_SOIL`) selects the scenario it spells |
| `Readings.DefaultThresholds` | simulator.py:45-55 | the default record's integer ranges are non-empty, so the fully random rule can always draw from them |
| `Readings.RandInt` | simulator.py:88-89 | an integer draw lies in the inclusive range `lo..hi` |
| `Readings.Uniform` | simulator.py:90-91 | a rounded continuous draw lies in the closed interval between its two bounds, in either order |
| `Readings.RandIntCovers` | simulator.py:88-89 | every value of the inclusive range can be drawn |
| `Readings.UniformCovers` | simulator.py:90-91 | every tenth of the closed interval can be drawn |
| `Generator.DrySoilBase` | simulator.py:96 | the drought baseline is `max(1200, 2400 - 50 count)`: at least both, and equal to one of them |
| `Generator.NormalReading` | simulator.py:85-92 | soil 2000..2400, light 1000..1500, 26.0..30.0 °C, 50.0..70.0 % |
| `Generator.DrySoilReading` | simulator.py:94-102 | soil within 100 of the baseline for this count, hence 1100..2450 once the count is at least 1; light 1200..1600, 30.0..34.0 °C, 35.0..50.0 % |
| `Generator.HotWeatherReading` | simulator.py:104-111 | soil 1600..2000, light 1500..1800, 34.0..40.0 °C, 30.0..45.0 % |
| `Generator.NightReading` | simulator.py:113-120 | soil 2000..2400, light 0..200, 20.0..25.0 °C, 60.0..80.0 % |
| `Generator.RandomReading` | simulator.py:122-129 | every field lies within the thresholds, whatever their values, as long as the integer ranges are non-empty |
| `Generator.Generate` | simulator.py:74-83 | the reading produced for a scenario lies within that scenario's envelope (`ModeEnvelope`); the match on the scenario is exhaustive and exclusive |
| `Generator.GenerateCovers` | simulator.py:85-129 | conversely, every reading within a scenario's envelope is produced by some draw |
| `Generator.DrySoilBaseNonIncreasing` | simulator.py:96 | the drought baseline never rises from one count to a later one |
| `Generator.DrySoilBaseDrift` | simulator.py:96 | the baseline drops by exactly 50 per reading until the 24th, then stays at 1200 |
| `Generator.Run` | simulator.py:70-83 | successive generations from a simulator that has taken `start` readings yield one reading per draw |
| `Generator.RunAt` | simulator.py:70-83 | the i-th of successive readings is generated with count `start + i + 1` |
| `Generator.RunWithinEnvelope` | simulator.py:70-129 | every reading of a run of successive calls lies in the scenario's envelope for its own count |
| `Generator.DrySoilRunDrifts` | simulator.py:94-99 | in a drought run from a fresh simulator, reading i has soil within 100 of `max(1200, 2400 - 50 (i+1))`, and later baselines are no higher |
| `Generator.SensorSimulator.constructor` | simulator.py:65-68 | a new simulator has the given scenario, the default thresholds and a count of 0 |
| `Generator.SensorSimulator.GenerateReading` | simulator.py:70-83 | the count grows by exactly 1 before the reading is produced; the reading is the chosen scenario's rule applied to the new count; scenario and thresholds are unchanged |
| `Client.AttemptsUsed` | simulator.py:151-161 | a submission makes between 1 and 3 requests; every request before the last failed; stopping before the budget means the last one succeeded |
| `Client.CountsAppend` | simulator.py:151-173 | the posts, pauses and blocking seconds of two consecutive log segments add up |
| `Client.TraceCounts` | simulator.py:151-173 | a submission of k requests logs k posts, all of the same reading, and k-1 pauses; assuming each request ends within its 10-second timeout, it blocks for at most `10 k + 5 (k-1)` seconds (40 for three requests) |
| `Client.DeliveredIffLastSucceeded` | simulator.py:151-175 | a submission reports success exactly when its last request got status 200 or 201 |
| `Client.ImmediateSuccess` | simulator.py:159-161 | a first request with status 200 or 201 is the only request and the submission succeeds |
| `Client.PersistentFailure` | simulator.py:162-175 | three failures of any kind (other status, timeout, connection error, other error) give three requests, two pauses and failure |
| `Client.SucceedsOnLastAttempt` | simulator.py:151-175 | fail, fail, succeed gives three requests, two pauses and success |
| `Client.SupabaseClient.constructor` | simulator.py:139-141 | a client keeps the URL and key it is given |
| `Client.SupabaseClient.SendReading` | simulator.py:149-175 | returns true exactly when one of the first three requests got status 200 or 201. Its log is the posts up to the first success, or all three, with one pause between each pair. Every outcome is handled and none escapes |
| `Health.JoinLabels` | simulator.py:225 | a joined summary of a non-empty issue list starts with the first issue's full label; a single issue gives exactly its label, and with more issues the first label is followed by the `" \| "` separator |
| `Health.GetHealthStatus` | simulator.py:203-225 | the summary lists exactly the issues whose condition holds, in checking order, or is the healthy message when there is none |
| `Health.DetectedBySensor` | simulator.py:207-223 | the reported issues are those of soil, then temperature, then light, then humidity, at most one per sensor |
| `Health.DetectedSpec` | simulator.py:205-223 | an issue is reported exactly when its condition holds; issues come in the order soil, temperature, light, humidity; dry/wet soil, hot/cold and low/high humidity are never reported together |
| `Health.HealthyIffNoIssue` | simulator.py:225 | the summary is the healthy message exactly when no issue is reported, that is, when no condition holds |
| `Health.NormalAlwaysHealthy` | simulator.py:85-92 | a healthy-plant reading never raises an issue |
| `Health.NightAlwaysLowLight` | simulator.py:113-120 | a night reading always reports low light |
| `Health.DroughtEventuallyDry` | simulator.py:94-99 | from the 15th drought reading on, dry soil is always the first issue |
| `Health.RandomDefaultAlwaysHealthy` | simulator.py:48-55 | with the default thresholds a fully random reading never raises an issue |
| `Driver.DeliveredCount` | simulator.py:258-261 | the number of delivered rounds is at most the number of rounds |
| `Driver.RunSession` | simulator.py:251-267 | after n rounds there are n readings and the simulator's count has grown by n (from a fresh simulator it is n). The success count equals the number of delivered submissions, so it never exceeds the reading count. The readings are those of `Run` on the same draws, so equal scenarios and draws give equal readings |
| `Driver.SessionStep` | simulator.py:256-261 | one more round appends its reading and adds one success exactly when its submission is delivered |
| `Driver.RunSnoc` | simulator.py:256-257 | one more generation appends the reading made with the next count |

## Left out

- HTTP transport: `requests.post`, its headers, JSON body, the 10-second timeout
  and the endpoint URL are replaced by the sequence of request outcomes
  (network I/O through a foreign library). `SendReading` takes that sequence
  with at least three outcomes, since every request yields one.
- Request duration: how long a request takes is not modelled. The library's
  10-second timeout bounds the connect phase and each wait between received
  bytes, not the whole request, and name lookup is not bounded at all.
  `Client.TraceCounts` assumes each request ends within its timeout, so its
  seconds bound is not a bound on the real program.
- `send_reading` posts to the module-level endpoint, not to the client's own
  `url`. The model's client keeps `url` and `key` but never uses them, because
  the transport is abstract.
- `time.sleep(RETRY_DELAY)` is a `Sleep(5)` event in the submission log. The
  driver's 15-second pause between rounds is not modelled (real time).
- `random.randint` / `random.uniform` are oracle values (`Draw`); the
  distribution is not modelled, only the reachable set.
- Floating point: `round(uniform(a, b), 1)` is modelled as a tenth in the
  closed interval. Binary float representation and Python's rounding of ties
  are left out.
- Thresholds are modelled in whole tenths. A float threshold off the
  one-decimal grid (such as 24.05) could be undershot by the rounded draw;
  `Generator.RandomReading` and `Readings.Uniform` hold for thresholds on the
  grid, which the defaults (the only thresholds the program uses) are.
- `Generator.RandomReading`: requires non-empty integer ranges. With an
  inverted range, `random.randint` raises ValueError; that error path is not
  modelled. The thresholds are always the defaults, which satisfy the
  requirement.
- Lower-casing covers ASCII letters only. Python's `str.lower` also maps other
  characters. Two of them produce ASCII letters: the Kelvin sign becomes `k`,
  and no scenario name contains `k`; capital I with dot above becomes `i`
  followed by a combining dot, which changes the string's length (the model's
  `Lower` keeps the length) but leaves the combining dot in the string, so it
  matches no scenario either. The selected scenario is the same.
- Console output: banner, per-reading printout, timestamps, success-rate line,
  emoji, the "Unknown mode" diagnostic and the interrupt summary. The health
  labels are kept without their emoji.
- Environment and `.env` loading (configuration I/O).
- The unbounded driver loop and its `KeyboardInterrupt` exit. `RunSession`
  runs over a finite list of rounds, and the end of the list is the interrupt.
