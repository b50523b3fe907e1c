# f1-cockpit: a verified model of the cockpit's timers and helpers

f1-cockpit is a decorative Formula 1 dashboard. Its behaviour lives in a
handful of timer callbacks and in the small formatting and classification
helpers next to them. This project models them in Dafny:

- the team-radio player: its 44-message script, the one-second tick that logs
  the message due and narrates it when nothing else is being narrated, and the
  search for a male speech voice;
- the track map's lap tracker: the position, lap counter, lap time and best lap,
  advanced every 100 ms, and the circuit lookup that falls back to Monaco;
- the telemetry dashboard's 100 ms tick: speed, RPM, gear, fuel, four tyres,
  ERS and DRS;
- the live classification: the two-second roster map and the gap formatter;
- the race indicators: the start-light counter and the pit-exit toggle, with the
  lights and labels derived from them;
- the tyre panel's wear bands, wear ring angle and delta sign rule;
- the task list's local edits: the add guard, the prepend of a created task,
  toggle, delete and the acceptance of a fetched list.

Each timer callback is one `Tick` method on a class that owns the component's
state. Each `Math.random()` draw becomes a parameter with a range precondition.
Time, ids and the speech engine's voice list are parameters as well. The
JavaScript number helpers the formatters rely on are modelled exactly on `real`
and `string`, in `js_format.dfy`: `Math.floor`, `%`, `toFixed`, `padStart` and
`toString`. Each formatter is paired with a reader (`ParseClock`,
`ParseSigned`) that recovers the value from its text.

Files:

- `wrappers.dfy`: `Option`.
- `js_format.dfy`: the number and string helpers, and their read-back lemmas.
- `race_clock.dfy`: `formatTime` (track map and leaderboard) and the radio log's `m:ss` label.
- `radio_script.dfy`: the script, `find`, and the messages due by a given second.
- `voice_select.dfy`: `getMaleVoice`.
- `engineer_radio.dfy`: the radio player.
- `track_map.dfy`: the lap tracker and the circuit lookup.
- `telemetry.dfy`: the dashboard tick.
- `leaderboard.dfy`: the classification tick and `formatGap`.
- `race_indicators.dfy`: start lights and pit exit.
- `tire_visualization.dfy`: the tyre panel helpers.
- `tasks.dfy`: the task page.

Behaviours of the code worth knowing:

- The script has 44 messages; all 44 are logged by second 270.
- The leader's gap is not always 0. Gaps are measured against the first row's
  lap time from before the tick, so after the first tick the first row's own
  gap is its variation (`Leaderboard.LeaderGap`).
- Stopping the race resets neither the telemetry nor the lap tracker. Their
  ticks simply stop running (`Telemetry.Dashboard.Tick` and
  `TrackMap.LapTracker.Tick` with `racing == false`).
- `formatGap` gives three decimals to every gap below 1, negative gaps
  included. A negative gap is shown as "+-0.100".

## Model

| member | source | states |
|---|---|---|
| JsFormat.JsFloor | components/track-map.tsx:120 | `Math.floor(x)` is the integer r with r <= x < r + 1 |
| JsFormat.JsRemainder | components/track-map.tsx:121 | `x % y` is x minus the quotient truncated toward zero times y, so x - r is a whole multiple of y; it lies in [0, y) for x >= 0 and in (-y, 0] for x < 0 |
| JsFormat.NatToString | components/engineer-radio.tsx:241 | `toString` of a whole number: digits only, no leading zero, and its value is the number |
| JsFormat.PadStart | components/track-map.tsx:122 | `padStart(width, c)`: the text keeps its characters at the end, grows to `width` when shorter, and only `c` is added in front |
| JsFormat.ZeroPadParse | components/track-map.tsx:122 | zeros padded in front of a decimal do not change the value it reads as |
| JsFormat.ToFixed | components/track-map.tsx:121 | `toFixed(f)` is never empty; it starts with "-" exactly when x < 0, and with a digit otherwise |
| JsFormat.ToFixedShape | components/track-map.tsx:121 | after an optional "-", the text of `toFixed(f)` is digits and, for f > 0, a single "." followed by exactly f digits |
| JsFormat.FixedDigitsShape | components/track-map.tsx:121 | the unsigned digits of `toFixed(f)` have a single "." followed by exactly f digits when f > 0, and are all digits when f = 0 |
| JsFormat.ZeroPadShape | components/track-map.tsx:122 | `padStart(width, "0")` keeps that shape and its f decimals |
| JsFormat.ToFixedValue | components/track-map.tsx:121 | the text of `toFixed(f)` reads back as a value within half a unit in the last place (10^-f / 2) of x |
| JsFormat.ToFixedExact | components/track-map.tsx:121 | on a whole number of 10^-f units, `toFixed(f)` reads back exactly |
| RaceClock.FormatTimeReads | components/track-map.tsx:119-123 | for s >= 0 the lap-time text reads back as floor(s/60) minutes and a seconds field within 0.0005 of s mod 60, so minutes * 60 + seconds is within 0.0005 of s; the text is digits, ":", then a seconds field of at least 6 characters with a single "." and exactly three decimals; the leaderboard's `formatTime` (components/live-leaderboard.tsx:35-39) is the same function |
| RaceClock.FormatTimeExample | components/track-map.tsx:119-123 | 65.5 s is shown as exactly the text "1:05.500", which reads back as 1 minute and 5.5 seconds |
| RaceClock.FormatTimeOnMillis | components/track-map.tsx:119-123 | on a whole number of milliseconds the formatter as written equals the exact millisecond formatter |
| RaceClock.FormatTimeSixty | components/track-map.tsx:119-123 | as written, 119.9996 s reads back as 1 minute and 60 seconds |
| RaceClock.FormatMillisReads | components/track-map.tsx:119-123 | the exact formatter's seconds field is in [0, 60), and the text reads back as exactly the milliseconds given |
| RaceClock.FormatTimeRoundedReads | components/track-map.tsx:119-123 | the corrected formatter (round to the millisecond first) has a seconds field in [0, 60) and reads back within 0.0005 of s |
| RaceClock.TimeLabelReads | components/engineer-radio.tsx:241 | the log's "m:ss" label reads back as time / 60 minutes and time % 60 seconds, with exactly two seconds digits |
| RadioScript.ScriptLength | components/engineer-radio.tsx:12-78 | the script has 44 messages, the first due at second 2 and the last at 270 |
| RadioScript.ScriptIncreasing | components/engineer-radio.tsx:12-78 | script times strictly increase, so no two messages share a time |
| RadioScript.ScriptSpeakers | components/engineer-radio.tsx:12-78 | every message is from "GP" or "Max" |
| RadioScript.ScriptTimes | components/engineer-radio.tsx:12-78 | every message is due between second 2 and second 270 |
| RadioScript.Find | components/engineer-radio.tsx:155 | a message `find` returns is due at the second asked for |
| RadioScript.FindFirst | components/engineer-radio.tsx:155 | `find` returns nothing exactly when no message is due at t, otherwise the first message due at t |
| RadioScript.UpToStep | components/engineer-radio.tsx:150-159 | the messages due by t + 1 are those due by t followed by the one `find` picks for t + 1, if any |
| RadioScript.WholeScriptBy270 | components/engineer-radio.tsx:12-78 | by second 270 every message is due, in script order |
| RadioScript.NothingBefore | components/engineer-radio.tsx:12-78 | before second 2 nothing is due |
| VoiceSelect.LowerChar | components/engineer-radio.tsx:86 | `toLowerCase` maps A-Z to a-z and leaves other characters alone |
| VoiceSelect.IncludesAt | components/engineer-radio.tsx:85-86 | `includes` holds exactly when the pattern occurs at some index |
| VoiceSelect.FemaleIncludesMale | components/engineer-radio.tsx:86 | every name that includes "female" includes "male" |
| VoiceSelect.FirstIn | components/engineer-radio.tsx:84-87 | each `find`: nothing exactly when no voice meets the predicate, otherwise the first voice that does |
| VoiceSelect.Rank | components/engineer-radio.tsx:83-108 | a voice's rank is the first of the four predicates it meets, or 5 when it meets none |
| VoiceSelect.BestIndex | components/engineer-radio.tsx:80-111 | reference choice: the first voice among those of the best rank, and nothing only for an empty list |
| VoiceSelect.CascadeIsBest | components/engineer-radio.tsx:80-111 | the cascade of `find`s and the final `voices[0]` returns exactly the reference choice |
| VoiceSelect.SearchFindsAVoice | components/engineer-radio.tsx:111 | the search returns nothing exactly when no voice is available, and otherwise one of the voices |
| VoiceSelect.FemaleFirstWins | components/engineer-radio.tsx:84-87 | as written, a voice named female listed first and in the language is chosen, whatever follows it |
| VoiceSelect.GetMaleVoicePicksFemale | components/engineer-radio.tsx:84-87 | as written, for [Female, Male] in en-US the female voice is chosen |
| VoiceSelect.MaleVoiceExample | components/engineer-radio.tsx:84-87 | the corrected search picks the male voice in that example |
| VoiceSelect.MaleVoiceAvoidsFemale | components/engineer-radio.tsx:80-111 | the corrected search returns a voice not named female whenever one exists, and a male-named voice in the language whenever one exists |
| EngineerRadio.Speech | components/engineer-radio.tsx:165-180 | the text is the message; "GP" speaks at rate 1.3 and pitch 0.9, anyone else at rate 1.25 and pitch 1.0; volume is always 0.8; the voice is the one `getMaleVoice("en-US")` returns as written |
| EngineerRadio.PlayStep | components/engineer-radio.tsx:155-159 | the message due at the new second was never emitted, and logging it keeps log, set and clock in step |
| EngineerRadio.ScriptPlayable | components/engineer-radio.tsx:12-78 | the panel's script has increasing times, none due at second 0 |
| EngineerRadio.Advance | components/engineer-radio.tsx:150-194 | one second: the clock grows by 1, at most one message is logged, and speech starts only when the flag was down, raising it |
| EngineerRadio.AdvancePlaying | components/engineer-radio.tsx:150-159 | each second logs exactly the message `find` picks for it, if any, and the log stays the messages due so far |
| EngineerRadio.AdvanceSpeaks | components/engineer-radio.tsx:156-163 | a due message is always logged; it is spoken exactly when nothing was being spoken, with the speech parameters above, and the flag is then up |
| EngineerRadio.RadioPlayer.constructor | components/engineer-radio.tsx:115-119 | clock 0, empty log, empty emitted set, flag down |
| EngineerRadio.RadioPlayer.Tick | components/engineer-radio.tsx:150-196 | the tick updates the fields as `Advance` says and keeps the log and the emitted set equal to the messages due and their times |
| EngineerRadio.RadioPlayer.Finished | components/engineer-radio.tsx:182-188 | the end or failure of speech clears the flag and nothing else, and keeps the player's invariant |
| EngineerRadio.RadioPlayer.Stop | components/engineer-radio.tsx:137-141 | from any state, stopping sets the clock to 0, empties the log and the emitted set, clears the flag, and establishes the player's invariant |
| EngineerRadio.LogTimesIncrease | components/engineer-radio.tsx:156-157 | no script time is logged twice: the log's times strictly increase |
| EngineerRadio.WholeRaceLogged | components/engineer-radio.tsx:150-196 | from a reset, once the clock reaches 270 the log holds all 44 messages in ascending time order, once each |
| TrackMap.TrackInfo | components/track-map.tsx:95 | a known key gives its circuit; any other key gives Monaco |
| TrackMap.UnknownIsMonaco | components/track-map.tsx:95 | an unknown key shows Monaco's 19 turns |
| TrackMap.BestAfter | components/track-map.tsx:106-108 | the best lap after a lap is set, is at most that lap, and never exceeds the old best |
| TrackMap.LapTracker.constructor | components/track-map.tsx:90-93 | position 0, lap 1, lap time 0, no best lap |
| TrackMap.LapTracker.Tick | components/track-map.tsx:97-114 | not racing changes nothing; otherwise position goes to (p + 2) mod 360; a wrap happens exactly at 358 and then counts a lap, updates the best lap and restarts the lap time; otherwise the lap time grows by 0.1 |
| TrackMap.PositionBounds | components/track-map.tsx:102 | the position is an even angle below 360 |
| TrackMap.LapsCounted | components/track-map.tsx:102-105 | the lap counter is one more than the number of 180-tick laps run |
| Telemetry.SpeedToward | components/telemetry-dashboard.tsx:35-38 | the new speed lies between the old one and the target, and the distance left shrinks to 0.9 |
| Telemetry.RpmToward | components/telemetry-dashboard.tsx:40-43 | the new RPM lies between the old one and the target, and the distance left shrinks to 0.85 |
| Telemetry.Gear | components/telemetry-dashboard.tsx:45-48 | the gear is in 1..8, and gear g covers speeds [50(g-1), 50g), the end bands open |
| Telemetry.GearMonotone | components/telemetry-dashboard.tsx:45-48 | a higher speed never gives a lower gear |
| Telemetry.Drain | components/telemetry-dashboard.tsx:50-54 | a decrement floored at 0: never negative, never above the old value, exact while the old value covers it |
| Telemetry.Charge | components/telemetry-dashboard.tsx:55 | an increment capped at 100: never above the cap, never below the old value, equal to x + d up to the cap, and exactly the cap once x + d reaches it |
| Telemetry.DrainTimesValue | components/telemetry-dashboard.tsx:50 | n drains by d are one drain by n * d, floored at 0 |
| Telemetry.FuelAfterFiftyEight | components/telemetry-dashboard.tsx:50 | 58 ticks from a full tank leave 98.84 |
| Telemetry.Dashboard.constructor | components/telemetry-dashboard.tsx:17-26 | speed 0, RPM 0, gear 1, fuel 100, tyres 100, DRS off, ERS 100 |
| Telemetry.Dashboard.Tick | components/telemetry-dashboard.tsx:32-57 | not racing changes nothing; otherwise each field takes its updater's value, the gear from the speed before the tick and DRS open exactly when its draw exceeds 0.7; every gauge stays in range |
| Leaderboard.InitialRosterShape | components/live-leaderboard.tsx:20-30 | seven drivers in positions 1 to 7, exactly one player (the first), no times and no gaps |
| Leaderboard.NewLapTime | components/live-leaderboard.tsx:58-60 | the new lap time is the old one (or a fresh one in [80, 100) when unset) plus a variation in [-0.25, 0.25) |
| Leaderboard.NextDriver | components/live-leaderboard.tsx:57-70 | a row keeps its name, team and player flag, takes position index + 1, and has gap = new lap time - the leader's lap time before the tick, or 0 while that is unset |
| Leaderboard.NextRoster | components/live-leaderboard.tsx:56-71 | the tick maps every row with its own draws and keeps the length |
| Leaderboard.TickKeepsRows | components/live-leaderboard.tsx:57-71 | a tick keeps the rows' order, names, teams and player flags, and numbers the rows by index |
| Leaderboard.UnsetLeaderGapsZero | components/live-leaderboard.tsx:62-63 | while the first row has no lap time, every gap after the tick is 0 |
| Leaderboard.FirstTick | components/live-leaderboard.tsx:58-63 | from the initial roster, the first tick gives every gap 0 and every lap time in [79.75, 100.25) |
| Leaderboard.LeaderGap | components/live-leaderboard.tsx:62-63 | once the first row is timed, its own gap after a tick is its variation, 0 only when that draw is exactly 0.5 |
| Leaderboard.FormatGap | components/live-leaderboard.tsx:41-45 | "---" exactly for a gap of 0; otherwise "+" first, followed by "-" exactly for a negative gap |
| Leaderboard.FormatGapReads | components/live-leaderboard.tsx:41-45 | after its "+", a non-zero gap's text reads back within 0.0005 below 1 and within 0.05 from 1 up; after an optional "-" it has exactly three decimals below 1 and exactly one from 1 up |
| Leaderboard.Board.constructor | components/live-leaderboard.tsx:20-30 | the board starts with the initial roster |
| Leaderboard.Board.Tick | components/live-leaderboard.tsx:52-76 | not racing changes nothing; otherwise the roster becomes its map; the seven rows keep names, teams, player flags and positions 1 to 7 |
| RaceIndicators.NextLight | components/race-indicators.tsx:23-26 | the step adds a light below 5 and holds 5, so the counter never exceeds 5 |
| RaceIndicators.LightsAfterValue | components/race-indicators.tsx:22-27 | n steps from 0 leave min(n, 5): five steps reach 5, and it stays there |
| RaceIndicators.LightsRise | components/race-indicators.tsx:23-26 | the counter never decreases while racing and never passes 5 |
| RaceIndicators.NextPit | components/race-indicators.tsx:40 | every pit step changes the status |
| RaceIndicators.PitTwice | components/race-indicators.tsx:40 | two pit steps restore the status |
| RaceIndicators.StartLights | components/race-indicators.tsx:67-72 | light k is lit exactly when k <= counter, and green exactly when the counter is at least 5 |
| RaceIndicators.StartLightsLit | components/race-indicators.tsx:67-72 | exactly min(counter, 5) lights are lit |
| RaceIndicators.StartLabel | components/race-indicators.tsx:76 | the label is "GO!" exactly when the counter is at least 5, otherwise "n/5" |
| RaceIndicators.PitLight | components/race-indicators.tsx:83-86 | the pit light is lit exactly when the exit is open, and it is then green |
| RaceIndicators.Indicators.constructor | components/race-indicators.tsx:11-12 | counter 0, pit exit closed |
| RaceIndicators.Indicators.Stop | components/race-indicators.tsx:15-36 | when not racing the counter is 0 and the pit exit closed |
| RaceIndicators.Indicators.LightTick | components/race-indicators.tsx:22-27 | the start-light step, leaving the pit exit alone |
| RaceIndicators.Indicators.PitTick | components/race-indicators.tsx:39-41 | the pit step, leaving the counter alone |
| TireVisualization.BandOf | components/tire-visualization.tsx:46-51 | green above 70, yellow in (40, 70], orange in (20, 40], red at 20 and below |
| TireVisualization.BandMonotone | components/tire-visualization.tsx:46-51 | more tread never gives a worse band |
| TireVisualization.WearColor | components/tire-visualization.tsx:46-51 | the text colour is "text-" + the band's colour + "-500" |
| TireVisualization.WearIndicatorColor | components/tire-visualization.tsx:53-58 | the indicator colour is "bg-" + the band's colour + "-500" |
| TireVisualization.ColoursAgree | components/tire-visualization.tsx:46-58 | the two colour classes name the same colour for every wear value |
| TireVisualization.WearAngle | components/tire-visualization.tsx:71 | the angle is in [0, 360] for wear in [0, 100], 360 exactly at 100 and 0 exactly at 0 |
| TireVisualization.WearAngleMonotone | components/tire-visualization.tsx:71 | more tread never gives a smaller ring |
| TireVisualization.Delta | components/tire-visualization.tsx:27 | the delta is 0.02 s per point of wear, within 0.25 either way |
| TireVisualization.GreenIffPositive | components/tire-visualization.tsx:28 | the delta text starts with "+", and so is shown green, exactly when the delta is positive |
| TireVisualization.WornTyreShownGreen | components/tire-visualization.tsx:27-28 | below 87.5 wear every delta is shown green |
| TireVisualization.DeltaTextReads | components/tire-visualization.tsx:28 | the delta text without its "+" reads back within 0.005 of the delta and, after an optional "-", has exactly two decimals |
| Tasks.TrimStart | app/tasks/page.tsx:70 | the text without leading white space: a suffix, only white space removed, no white space first |
| Tasks.TrimEnd | app/tasks/page.tsx:70 | the text without trailing white space: a prefix, only white space removed, no white space last |
| Tasks.Trim | app/tasks/page.tsx:70 | `trim()` is the slice of the text left after removing its leading and trailing white space, and only that: everything before and after the slice is white space; it is empty exactly when the text is all white space, and otherwise has no white space at either end |
| Tasks.TrimIdempotent | app/tasks/page.tsx:70-71 | trimming twice is trimming once |
| Tasks.AddGuard | app/tasks/page.tsx:70 | a task is added exactly when some typed character is not white space and the user id is non-empty |
| Tasks.Toggled | app/tasks/page.tsx:94 | tasks with the id get done = !d; every other task, the length and the order are unchanged |
| Tasks.ToggleIdempotent | app/tasks/page.tsx:94 | repeating a toggle with the same current value changes nothing more |
| Tasks.Without | app/tasks/page.tsx:109 | a task is kept exactly when it was there and its id differs |
| Tasks.WithoutAppend | app/tasks/page.tsx:109 | deleting distributes over concatenation, so the kept tasks stay in order |
| Tasks.WithoutAbsent | app/tasks/page.tsx:109 | deleting an id no task has changes nothing |
| Tasks.WithoutCount | app/tasks/page.tsx:109 | the list shrinks by exactly the number of tasks with the id |
| Tasks.TaskPage.constructor | app/tasks/page.tsx:33-36 | no tasks, empty input, no user id |
| Tasks.TaskPage.InitUser | app/tasks/page.tsx:39-46 | the user id is the stored one when non-empty, else the generated one; it is never empty |
| Tasks.TaskPage.Type | app/tasks/page.tsx:130 | typing sets the input and nothing else |
| Tasks.TaskPage.Load | app/tasks/page.tsx:54-61 | a fetched result replaces the list only when it is an array |
| Tasks.TaskPage.AddTask | app/tasks/page.tsx:69-89 | a blocked add sends nothing and changes nothing; otherwise it sends the user id and the trimmed text, clears the input, and prepends a created record with an id, leaving the rest of the list unchanged |
| Tasks.TaskPage.Toggle | app/tasks/page.tsx:92-104 | the list becomes its toggle; input and user id are unchanged |
| Tasks.TaskPage.Delete | app/tasks/page.tsx:107-115 | the list becomes the tasks without the id; input and user id are unchanged |

## Left out

- The speech engine (`speechSynthesis.speak`, `cancel`, `getVoices`, `onvoiceschanged`) is not modelled. The voice list is a parameter, a speech request is returned by `Tick`, and the end or failure of speech is the `Finished` method. The `'speechSynthesis' in window` test is taken as true.
- `setInterval`, `clearInterval` and React's render scheduling are not modelled. Each timer callback is one `Tick` call, and each component's timers are independent.
- `Math.random()`, `Date.now()` and `uuidv4` are parameters with range preconditions. A logged message's id is an arbitrary real.
- TrackMap.LapTracker.Tick: in the wrap tick the source both sets the lap time to 0 and queues `prev + 0.1`. The model takes the lap time to be 0 after a wrap. It also reads the best-lap comparison from the lap time before the tick.
- Numbers are exact reals, not IEEE-754 doubles. Rounding drift, `toFixed` of values of 10^21 and above, and `NaN` (which `||` in the leaderboard treats like 0) are not modelled.
- VoiceSelect.LowerChar: only A-Z are lower-cased. `toLowerCase` also folds non-ASCII letters.
- EngineerRadio.RadioPlayer: the player takes its script as a parameter. `WholeRaceLogged` is stated for the panel's own `Script`.
- TrackMap.Circuits: the SVG path, view box and start position of each circuit are not modelled. Keys that name `Object.prototype` members are not modelled either.
- TrackMap.LapTracker: the display of the lap time and the best lap is not modelled. Both use the lap-time formatter modelled in `RaceClock`.
- TireVisualization: the random temperatures, the `toFixed(0)` wear percentage and the conic-gradient text are not modelled.
- Leaderboard: the random race-distance badge and the live indicator are not modelled.
- Tasks: the fetch, PATCH and DELETE requests, `localStorage` and the loading flag are I/O and are not modelled. `AddTask` takes the server's answer as a parameter and applies it at once. An await between the request and the answer is not modelled.
- The aero simulation, the driver profile, the circuit selector, the navigation bar, the layout, the API routes, the database connection and the task schema are not part of this model.

## Findings

| source | as written | input that shows it | evidently intended | confidence | as-written member | corrected member |
|---|---|---|---|---|---|---|
| components/track-map.tsx:119-123 | the seconds are rounded to 3 decimals after the minutes are taken, so they can round up to 60 | 119.9996 s is shown as "1:60.000" | "2:00.000": round to the millisecond first, then split into minutes and seconds below 60 | high; not executed | RaceClock.FormatTimeSixty | RaceClock.FormatTimeRoundedReads |
| components/engineer-radio.tsx:84-87 | the first priority tests `includes('male')`, which every name containing "female" passes | voices [Female (en-US), Male (en-US)] yield the female voice | a male voice: the first priority also excludes names containing "female" | high; not executed | VoiceSelect.GetMaleVoicePicksFemale | VoiceSelect.MaleVoiceAvoidsFemale |
