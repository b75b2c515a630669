# Pomodoro timer store — Dafny model

This project models the session reducer of a Pomodoro timer
(`src/lib/stores/timerStore.ts`). The store holds one `TimerState`: the
current session, the history of completed sessions, and the settings. Six
operations each replace it with a successor state:

* `startTimer`
* `pauseTimer`
* `resetTimer`
* `updateRemaining`
* `completeSession`
* `updateSettings`

The only real rule is how the break after a pomodoro is chosen. It is a long
break when the number of completed pomodoros, this one included, is a
multiple of `longBreakInterval`, and a short break otherwise. After any break
comes a pomodoro.

Layout:

* `timer.dfy`, module `Timer`: the records (`Session`, `Settings`,
  `TimerState`, and `SettingsPatch`, which stands for `Partial<settings>`), the
  defaults, the initial state, and one total function per operation. Each
  operation's contract lists which fields change and how, and which do not.
  The module also holds algebraic lemmas: idempotence, last tick wins, and
  settings patches composing.
* `cycle.dfy`, module `Cycle`: a call datatype `Op`, `Apply` and `Run` (calls
  issued one at a time). It proves three things.
  * The history is append-only over any sequence of calls.
  * Every reachable state keeps an invariant: the current session is not
    stamped, its length comes from the settings, and every archived entry is
    idle and stamped.
  * The break schedule. `ScheduledType(i, k)` is an independent reference
    definition of the type at position `i` of the cycle. Every call that keeps
    the interval preserves "history and current session are on schedule".
    From this follows the default rhythm P S P S P S P L P S.
* `store.dfy`, module `Store`: the store cell as a class `TimerStore`. Its
  `state` field is replaced by each method with the reducer's result, and the
  methods keep `Cycle.Invariant`.

Modelling decisions:

* The session field `type` is called `kind`, because `type` is a Dafny keyword.
* Durations and counts are `nat`.
* The completion time is an opaque `Timestamp` that the caller passes in,
  where the source calls `new Date()`.
* `longBreakInterval == 0`: in the source, `x % 0` is `NaN`, and `NaN === 0`
  is false. So every break after a pomodoro is short. The model states this as
  an explicit `interval > 0 &&` guard, with no precondition.
* The settings are meant to be positive, but the code never checks this, so
  the model allows `0` in every field.

## Model

| member | source | states |
|---|---|---|
| `Timer.DefaultSettings` | src/lib/stores/timerStore.ts:25-30 | defaults are 1500 s, 300 s and 900 s, and a long break every 4 pomodoros |
| `Timer.Initial` | src/lib/stores/timerStore.ts:32-41 | startup state: an idle, unstamped pomodoro of 1500 s with 1500 s remaining, an empty history, default settings |
| `Timer.DurationFor` | src/lib/stores/timerStore.ts:99-105 | a session of each type gets the matching settings field: pomodoroDuration, shortBreakDuration or longBreakDuration (the same lookup as at lines 123-129) |
| `Timer.CountPomodoros` | src/lib/stores/timerStore.ts:94 | the pomodoro count of a history is at most its length, and is zero exactly when the history holds no pomodoro |
| `Timer.CountPomodorosCountsKinds` | src/lib/stores/timerStore.ts:94 | the count equals the number of occurrences of `Pomodoro` in the multiset of the history's session types, which is what filtering by type and taking the length gives |
| `Timer.NextType` | src/lib/stores/timerStore.ts:93-97 | a pomodoro follows every break; a break follows every pomodoro, and it is long iff the interval is positive and divides (pomodoros in history + 1) |
| `Timer.StartTimer` | src/lib/stores/timerStore.ts:48-55 | status becomes running; type, duration, remaining, completedAt, history and settings unchanged |
| `Timer.PauseTimer` | src/lib/stores/timerStore.ts:57-64 | status becomes paused from any status; every other field unchanged |
| `Timer.ResetTimer` | src/lib/stores/timerStore.ts:66-74 | remaining == duration == old duration and status idle from any status; type, history and settings unchanged, so nothing is archived |
| `Timer.UpdateRemaining` | src/lib/stores/timerStore.ts:76-84 | remaining becomes exactly `seconds`; status, duration, type, history and settings unchanged, so no completion happens |
| `Timer.CompleteSession` | src/lib/stores/timerStore.ts:85-117 | history grows by exactly one; earlier entries unchanged; the new last entry is the old current session, idle and stamped with `now`; settings unchanged; next type by the break rule; new session idle, unstamped, with duration == remaining == the settings' value for its type |
| `Timer.MergeSettings` | src/lib/stores/timerStore.ts:121 | each field the patch supplies is replaced; each field it omits keeps its old value |
| `Timer.UpdateSettings` | src/lib/stores/timerStore.ts:119-141 | settings become the merge; the session type is unchanged; duration == remaining == the new settings' value for that type; status idle; history unchanged |
| `Timer.StartTimerIdempotent` | src/lib/stores/timerStore.ts:48-55 | starting twice is starting once |
| `Timer.PauseTimerIdempotent` | src/lib/stores/timerStore.ts:57-64 | pausing twice is pausing once |
| `Timer.ResetForgetsProgress` | src/lib/stores/timerStore.ts:66-74 | a reset after a tick, a start, a pause or a reset gives the same state as a reset alone |
| `Timer.UpdateRemainingLastWins` | src/lib/stores/timerStore.ts:76-84 | two ticks in a row equal the last one alone |
| `Timer.MergeSettingsNeutralAndIdempotent` | src/lib/stores/timerStore.ts:121 | an empty patch keeps the settings; applying a patch twice equals applying it once |
| `Timer.UpdateSettingsCompose` | src/lib/stores/timerStore.ts:119-141 | two settings updates equal one update with the combined patch, where later fields win |
| `Timer.UpdateSettingsKeepsOtherDurations` | src/lib/stores/timerStore.ts:122-139 | a patch that omits the current type's duration keeps the session's duration, given that the duration came from the settings |
| `Timer.PomodoroChangeDuringShortBreak` | src/lib/stores/timerStore.ts:122-139 | changing pomodoroDuration during a short break keeps the break's duration, sets remaining to it and status to idle |
| `Timer.PomodoroChangeDuringPomodoro` | src/lib/stores/timerStore.ts:122-139 | changing pomodoroDuration to `s` during a pomodoro sets duration == remaining == s and status to idle |
| `Cycle.ApplyAppendOnly` | src/lib/stores/timerStore.ts:48-141 | each call keeps the old history as a prefix and appends one entry exactly when it is a completion |
| `Cycle.RunAppendOnly` | src/lib/stores/timerStore.ts:48-141 | over any call sequence the old history stays a prefix, and the length grows by the number of completions |
| `Cycle.InitialInvariant` | src/lib/stores/timerStore.ts:32-41 | the startup state satisfies the state invariant |
| `Cycle.ApplyInvariant` | src/lib/stores/timerStore.ts:48-141 | every operation preserves the invariant: current session unstamped, its duration taken from the settings for its type, every history entry idle and stamped |
| `Cycle.RunInvariant` | src/lib/stores/timerStore.ts:48-141 | any call sequence preserves the invariant |
| `Cycle.ReachableInvariant` | src/lib/stores/timerStore.ts:32-141 | every state reachable from startup satisfies the invariant |
| `Cycle.ApplyKeepsProgressBound` | src/lib/stores/timerStore.ts:76-84 | from remaining <= duration, a call keeps remaining <= duration iff it is not a tick above the duration, because the reducer does no bounds check |
| `Cycle.BreakAfterPomodoro` | src/lib/stores/timerStore.ts:93-97 | in the reference schedule, the break after the n-th pomodoro is long iff k > 0 and k divides n |
| `Cycle.CountOnSchedule` | src/lib/stores/timerStore.ts:94 | a history that follows the schedule holds (length + 1) / 2 pomodoros |
| `Cycle.InitialOnSchedule` | src/lib/stores/timerStore.ts:32-41 | the startup state is on schedule |
| `Cycle.ApplyOnSchedule` | src/lib/stores/timerStore.ts:85-116 | any call that keeps longBreakInterval keeps the history and the current session on the reference schedule |
| `Cycle.RunOnSchedule` | src/lib/stores/timerStore.ts:85-116 | any call sequence that keeps the interval, with completions interleaved with other calls in any order, stays on schedule |
| `Cycle.DefaultRhythm` | src/lib/stores/timerStore.ts:93-97 | from startup with interval 4, the first ten archived types are P S P S P S P L P S: the 4th pomodoro is followed by a long break, the 1st-3rd and the 5th by short ones (derived from `RunOnSchedule` and `BreakAfterPomodoro`) |
| `Cycle.FourCompletions` | src/lib/stores/timerStore.ts:85-116 | four instant completions from startup archive P S P S, the last stamped with its time, and leave an idle 1500 s pomodoro current |
| `Store.TimerStore.constructor` | src/lib/stores/timerStore.ts:43-44 | the store starts at the initial state, which satisfies the invariant |
| `Store.TimerStore.StartTimer` | src/lib/stores/timerStore.ts:48-56 | the cell is replaced by the start successor, and the invariant is kept |
| `Store.TimerStore.PauseTimer` | src/lib/stores/timerStore.ts:57-65 | the cell is replaced by the pause successor, and the invariant is kept |
| `Store.TimerStore.ResetTimer` | src/lib/stores/timerStore.ts:66-75 | the cell is replaced by the reset successor, and the invariant is kept |
| `Store.TimerStore.UpdateRemaining` | src/lib/stores/timerStore.ts:76-84 | the cell is replaced by the tick successor, and the invariant is kept |
| `Store.TimerStore.CompleteSession` | src/lib/stores/timerStore.ts:85-118 | the cell is replaced by the completion successor for the given time, and the invariant is kept |
| `Store.TimerStore.UpdateSettings` | src/lib/stores/timerStore.ts:119-142 | the cell is replaced by the settings successor, and the invariant is kept |

## Left out

- `subscribe` and Svelte's `writable`/`update` listener fan-out (src/lib/stores/timerStore.ts:1, 44, 47): these belong to a foreign library and only notify subscribers. The store is one field that each method replaces.
- `new Date()`: it reads the wall clock. The completion time is a parameter.
- The tick source that drives `updateRemaining`: it is not part of this file.
- JavaScript `number` semantics: fractional, negative and NaN values are not modelled. Durations, counts and the interval are `nat`.
- An explicitly `undefined` key in the partial settings object is not modelled. In JavaScript such a key overwrites the old value with `undefined`, but a `SettingsPatch` field is either supplied or omitted.
- The module-level singleton export (src/lib/stores/timerStore.ts:146): it only instantiates the store once.
