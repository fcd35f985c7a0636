# Temperature view model

A Dafny model of `TemperatureViewModel`, the state core of a small Android
app that simulates a temperature sensor. A simulation job pushes a reading
into a bounded window, newest first, every two seconds. The view model
publishes four statistics over that window: the current, minimum, maximum
and average temperature. A pause/resume toggle starts and cancels the job.

The model has five modules:

- `Wrappers` (`wrappers.dfy`): `Option`, standing for Kotlin's nullable values.
- `Window` (`window.dfy`): `Reading`, the capacity of 20, and `Push`, which is
  `(listOf(newReading) + it).take(20)`. It also has `PushAll`, a run of pushes,
  with its closed form: the last `min(n, 20)` readings, newest first.
- `Aggregates` (`aggregates.dfy`): `currentTemp`, `minTemp`, `maxTemp` and
  `avgTemp` as pure functions of a window snapshot. Minimum and maximum are
  left folds, as `minOfOrNull`/`maxOfOrNull` compute them.
- `Controller` (`controller.dfy`): the `_isPaused` / `simulationJob` state
  machine of `togglePauseResume` and `init`, plus the single-flight invariant.
  That invariant says at most one job is live, and a job is live iff the
  view model is not paused.
- `ViewModel` (`view_model.dfy`): the window and the run state together. A
  `Tick` is one loop iteration of a simulation job. Only the live job can
  change the window.

Measurements are `real`, not `Float`/`Double`. The reading a tick pushes is
an input: the random value and the clock time are parameters, not modelled.

The comment in `init` says the simulation starts as soon as the view model
is created, but the code does the opposite. `_isPaused` is initialised to
`false` and `init` calls `togglePauseResume()` once, so a freshly constructed
view model is paused and has never launched a job. The model follows the code
(`Controller.Construct`, `ViewModel.Construct`).

## Model

| member | source | states |
|---|---|---|
| `Window.Push` | app/src/main/java/com/example/indivassignment4q3/MainActivity.kt:77-80 | the new window has length min(old length + 1, 20), so at most 20; index 0 is the new reading; the rest is the first min(old length, 19) old readings in their old order |
| `Window.Take` | app/src/main/java/com/example/indivassignment4q3/MainActivity.kt:79 | `take(n)` keeps min(length, n) elements, each at its original index |
| `Window.PushAllIsTake` | app/src/main/java/com/example/indivassignment4q3/MainActivity.kt:77-80 | from a window within capacity, a run of pushes equals prepending the run newest first and truncating once to 20 |
| `Window.PushAllBounded` | app/src/main/java/com/example/indivassignment4q3/MainActivity.kt:77-80 | any number of pushes keeps the window at most 20 long; the length is min(old length + pushes, 20) |
| `Window.FromEmpty` | app/src/main/java/com/example/indivassignment4q3/MainActivity.kt:77-80 | from the empty window, n pushes give min(n, 20) readings, and index i holds the (i+1)-th most recently pushed reading |
| `Window.FromEmptyIsSuffix` | app/src/main/java/com/example/indivassignment4q3/MainActivity.kt:77-80 | from the empty window, the window is exactly the last min(n, 20) pushed readings in reverse push order |
| `Window.Retained` | app/src/main/java/com/example/indivassignment4q3/MainActivity.kt:77-80 | with distinct readings, the j-th pushed reading is still in the window iff it is among the last 20 pushed; after 21 pushes the first one is gone |
| `Aggregates.MinFrom` | app/src/main/java/com/example/indivassignment4q3/MainActivity.kt:59 | the running minimum of `minOfOrNull` ends at or below its start and below every later value, and is the start or one of those values |
| `Aggregates.MaxFrom` | app/src/main/java/com/example/indivassignment4q3/MainActivity.kt:60 | the running maximum of `maxOfOrNull` ends at or above its start and above every later value, and is the start or one of those values |
| `Aggregates.MinOf` | app/src/main/java/com/example/indivassignment4q3/MainActivity.kt:59 | `minTemp` is null iff the window is empty; otherwise it is at most every value in the window and equals the value of some reading |
| `Aggregates.MaxOf` | app/src/main/java/com/example/indivassignment4q3/MainActivity.kt:60 | `maxTemp` is null iff the window is empty; otherwise it is at least every value in the window and equals the value of some reading |
| `Aggregates.SumBounds` | app/src/main/java/com/example/indivassignment4q3/MainActivity.kt:61 | when every value lies in [lo, hi], the sum that `average()` divides lies in [n·lo, n·hi] |
| `Aggregates.QuotientBetween` | app/src/main/java/com/example/indivassignment4q3/MainActivity.kt:61 | dividing a sum bounded by n·lo and n·hi by the positive count n gives a value in [lo, hi] |
| `Aggregates.AverageBetween` | app/src/main/java/com/example/indivassignment4q3/MainActivity.kt:59-61 | on a non-empty window, `minTemp <= avgTemp <= maxTemp` |
| `Aggregates.Current` | app/src/main/java/com/example/indivassignment4q3/MainActivity.kt:58 | `currentTemp` is null iff the window is empty; otherwise it is the value of the newest reading, at index 0 |
| `Aggregates.Average` | app/src/main/java/com/example/indivassignment4q3/MainActivity.kt:61 | `avgTemp` is null iff the window is empty; otherwise it times the count is the sum of the values, so it is the mean |
| `Aggregates.CurrentAfterPush` | app/src/main/java/com/example/indivassignment4q3/MainActivity.kt:58-80 | right after a push `currentTemp` is the value just pushed |
| `Aggregates.StatsConsistent` | app/src/main/java/com/example/indivassignment4q3/MainActivity.kt:58-61 | all four statistics are null iff the window is empty; otherwise all are present, with min <= current <= max and min <= average <= max |
| `Aggregates.ThreeReadings` | app/src/main/java/com/example/indivassignment4q3/MainActivity.kt:58-80 | pushing 70, 72, 68 gives the window [68, 72, 70] with current 68, min 68, max 72 and average 70 |
| `Controller.Fields` | app/src/main/java/com/example/indivassignment4q3/MainActivity.kt:42-49 | before `init` the flag is false and no job is stored, live or launched; this state breaks single flight (it claims to run with no job) |
| `Controller.Toggle` | app/src/main/java/com/example/indivassignment4q3/MainActivity.kt:64-88 | toggling flips the paused flag and preserves well-formedness and the single-flight invariant |
| `Controller.Construct` | app/src/main/java/com/example/indivassignment4q3/MainActivity.kt:42-54 | after construction (flag false, then one toggle in `init`) the view model is paused, stores no job, has no live job and has launched none |
| `Controller.AtMostOneLive` | app/src/main/java/com/example/indivassignment4q3/MainActivity.kt:49 | under the single-flight invariant at most one simulation job is live |
| `Controller.ToggleTwice` | app/src/main/java/com/example/indivassignment4q3/MainActivity.kt:65 | toggling twice restores the paused flag |
| `Controller.ResumeLaunchesOne` | app/src/main/java/com/example/indivassignment4q3/MainActivity.kt:67-69 | a paused-to-running toggle launches exactly one job not live before, stores it, and it becomes the only live job |
| `Controller.PauseCancels` | app/src/main/java/com/example/indivassignment4q3/MainActivity.kt:84-87 | a running-to-paused toggle cancels the stored job, leaves no live job and launches nothing |
| `Controller.ToggleRepeatedly` | app/src/main/java/com/example/indivassignment4q3/MainActivity.kt:51-88 | after construction and n toggles the state is valid, paused iff n is even, and (n+1)/2 jobs have been launched |
| `ViewModel.Construct` | app/src/main/java/com/example/indivassignment4q3/MainActivity.kt:38-54 | the constructed view model has an empty window, is paused, has no live job and satisfies the invariants |
| `ViewModel.TogglePauseResume` | app/src/main/java/com/example/indivassignment4q3/MainActivity.kt:64-88 | toggling leaves the readings unchanged, flips the flag and preserves the invariants |
| `ViewModel.Tick` | app/src/main/java/com/example/indivassignment4q3/MainActivity.kt:69-83 | a job's loop iteration never changes the run state and keeps the invariants; only the stored live job of a running view model can change the window |
| `ViewModel.PausedIsFrozen` | app/src/main/java/com/example/indivassignment4q3/MainActivity.kt:84-87 | while paused, no sequence of ticks by any job changes the view model |
| `ViewModel.RunningTicksPush` | app/src/main/java/com/example/indivassignment4q3/MainActivity.kt:70-82 | while running, the stored job's ticks are exactly the window pushes of its readings, and the invariants hold afterwards |
| `ViewModel.Published` | app/src/main/java/com/example/indivassignment4q3/MainActivity.kt:58-61 | the published statistics are all null iff the window is empty; current is the newest value; otherwise all are present with min <= current <= max and min <= average <= max |
| `ViewModel.ConstructedPublishesNothing` | app/src/main/java/com/example/indivassignment4q3/MainActivity.kt:51-61 | right after construction current, min, max and average are all null |
| `ViewModel.TickPublishesCurrent` | app/src/main/java/com/example/indivassignment4q3/MainActivity.kt:58-80 | after a tick of a live job, the published current temperature is the value just pushed |

## Left out

- `MainActivity.onCreate`, `Greeting` and `GreetingPreview` are Compose presentation code.
- Reading generation (`Random.nextFloat() * 20 + 65` and the `HH:mm:ss` timestamp) involves randomness and the clock. Each reading is an input to `ViewModel.Tick`.
- `Float`/`Double` rounding in the values and in `average()` is not modelled. Values are reals, so the average is the exact mean.
- Coroutine scheduling is not modelled: `viewModelScope.launch`, `delay(2000)`, and thread safety of `update`. A job is an abstract id, and a tick is one loop iteration.
- `ViewModel.TogglePauseResume` leaves the readings unchanged, which describes the model's step, not the Kotlin call. `viewModelScope` dispatches on the main thread immediately, so a resume called from the main thread runs the new job's first iteration and pushes one reading before `togglePauseResume` returns. The model leaves that push to the first `ViewModel.Tick` after the toggle.
- Cooperative cancellation timing is not modelled. `ViewModel.Tick` treats a job as stopped as soon as `cancel()` is called: a cancelled job pushes nothing more.
- `stateIn(viewModelScope, WhileSubscribed(5000), null)` is not modelled, nor is any other subscription, replay or sharing of the flows. The published statistics are `StatsOf` of the current window, with no lag.
