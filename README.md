# Station timer renderer, modelled in Dafny

The station timer is an Electron app for circuit training. Its renderer counts
down an active period and then a cooldown period for each station. It shows
the time left, how many stations remain and what to do next. It can be paused:
the pause button raises a flag and notifies the host window. At its next check
the countdown asks the host, synchronously, whether to go on ('pause-wait').

This project models the renderer's logic in Dafny:

- `TimeFormat`: `getFormattedTime`, which turns whole seconds into `S`, `M:SS`
  or `H:MM:SS`. A parser of that format, `ParseTime`, serves as its inverse.
- `Text`: `toSentenceCase`, `ensureArray` and the stations-remaining text of
  `setRemainingText`. `number-to-words` is a function parameter `words`.
- `Schedule`: the run as pure functions over a snapshot `State`. The snapshot
  holds the flag, the clicks and host replies still to come, whether a request
  hangs, and a trace of what the page shows or sends. The functions cover the
  tick loop and final pause check of `countdown`, `pauseWait`, the pause button,
  `durationCountdown`, `breakDurationCountdown`, `countdownAction`, the station
  `for` loop and `endTimer`.
- `StepFacts`, `CountdownFacts`, `StationFacts` and `PauseProtocol`: what these
  functions do to the trace, stated per kind of event.
  - `CountdownFacts`: each countdown shows its seconds in order.
  - `StationFacts`: a whole run shows each station's seconds, its
    stations-remaining texts and its instructions in order, and ends exactly
    once.
  - `PauseProtocol`: callbacks run only while the flag is clear; a
    'pause-wait' is only ever sent while it is set.
- `Answers`: what the host's replies decide. A request hangs only when no
  reply is left. A host with a `false` reply for every second in which the
  pause button is clicked lets the run finish, however many `true` replies
  come in between.
- `Views`: the texts of the three views, read off a trace.
- `Timer.StationTimer`: the renderer as a class.
  - Its fields: the module-level `settings` and `paused`, the three views'
    texts, and the environment's remaining input.
  - Its methods follow the source's statements one by one, with the
    `countdown` `while` loop and the station `for` loop as loops.
  - Each method is proved to change the state exactly as the matching
    `Schedule` function says, so the lemmas above hold for the class.

The trace records each view update by its argument, not by its text:

- `Shown(second)` stands for the counter text `FormattedTime(second)`.
- `Remaining(left)` stands for `RemainingText(left, toWords)`.
- `Info(step)` stands for `InstructionText(step)`.
- `Ended` stands for the counter text "0".

`Views.Screen` reads the three texts off a trace: each view shows the text of
the last event that set it, or "" before the first one. The class invariant
`StationTimer.Valid()` says that the class's three text fields are exactly
what `Views.Screen` reads off its trace, and that the trace keeps the pause
protocol. Every method that changes the class requires and keeps `Valid()`.
The class reaches `getFormattedTime` through its constant `formatTime`, which
the constructor sets to `FormattedTime`.

Behaviour kept as written:

- Negative `duration`, `breakDuration` and `numRepeats` are not clamped. A
  countdown from `d <= 0` shows nothing and leaves `currentSecond` at `d`; a
  run with `numRepeats <= 0` goes straight to `endTimer`.
- A 'pause-wait' reply of `true` leaves the flag set. The loop then asks again
  without ticking, for as long as the host keeps replying `true`.

## Model

| member | source | states |
|---|---|---|
| TimeFormat.FormattedSeconds | app/renderers/index.js:86-113 | `FormattedTime` (`getFormattedTime`) below one minute: the text is the unpadded decimal of the seconds and contains no ':' |
| TimeFormat.FormattedMinutes | app/renderers/index.js:86-113 | `FormattedTime` from one minute to below one hour: unpadded minutes, ':', two-digit seconds, with exactly one ':' |
| TimeFormat.FormattedMinutesText | app/renderers/index.js:100-112 | from one minute to below one hour the text is `M:SS` |
| TimeFormat.FormattedHours | app/renderers/index.js:86-113 | `FormattedTime` from one hour on: hours, ':', two-digit minutes (also "00"), ':', two-digit seconds, with exactly two ':' |
| TimeFormat.FormattedHoursText | app/renderers/index.js:94-112 | from one hour on the text is `H:MM:SS` |
| TimeFormat.LayoutWithHours | app/renderers/index.js:94-112 | `Layout` (the three `if` blocks): with hours present the minutes and seconds are both zero-padded to two digits |
| TimeFormat.Units | app/renderers/index.js:88-90 | hours, minutes and seconds recombine to the input, minutes and seconds are below 60, and below one hour the hours are 0 |
| TimeFormat.ParseFormattedTime | app/renderers/index.js:86-113 | reading the fields back gives H*3600 + M*60 + S, the original number of seconds, for every input |
| TimeFormat.ParseSeconds | app/renderers/index.js:88-112 | the round trip for the `S` layout |
| TimeFormat.ParseMinutes | app/renderers/index.js:88-112 | the round trip for the `M:SS` layout |
| TimeFormat.ParseHours | app/renderers/index.js:88-112 | the round trip for the `H:MM:SS` layout |
| TimeFormat.FormattedTimeInjective | app/renderers/index.js:86-113 | two different numbers of seconds never give the same text |
| TimeFormat.FormattedTimeExamples | app/renderers/index.js:86-113 | 0 gives "0" and 5 gives "5" |
| TimeFormat.FormattedMinuteExample | app/renderers/index.js:86-113 | 65 gives "1:05" |
| TimeFormat.FormattedHourExample | app/renderers/index.js:86-113 | 3600 gives "1:00:00" |
| TimeFormat.FormattedHourMinuteExample | app/renderers/index.js:86-113 | 3725 gives "1:02:05" |
| TimeFormat.Decimal | app/renderers/index.js:95-112 | the decimal text of a number is a non-empty run of digits, without a leading zero, one digit long exactly below 10 |
| TimeFormat.DecimalValue | app/renderers/index.js:95-112 | reading a number's decimal text back gives the number |
| TimeFormat.TwoDigitsValue | app/renderers/index.js:102-110 | the zero-padded two-digit text of a value below 60 reads back as that value |
| Text.SentenceCaseShape | app/renderers/index.js:45-49 | `SentenceCase` (`toSentenceCase`): "" exactly for an empty string or a non-string; otherwise the same length, the first character in upper case and the rest in lower case, each the argument's character up to case |
| Text.SentenceCaseIdempotent | app/renderers/index.js:45-49 | sentence-casing a result again changes nothing |
| Text.LowerAllAt | app/renderers/index.js:48 | `LowerAll` (`toLowerCase`): lower-casing keeps the length and lower-cases every character in place |
| Text.Upper | app/renderers/index.js:48 | an upper-cased character is not a lower-case letter; lower-case letters become upper-case, anything else is kept |
| Text.Lower | app/renderers/index.js:48 | a lower-cased character is not an upper-case letter; upper-case letters become lower-case, anything else is kept |
| Text.UpperLower | app/renderers/index.js:48 | case mapping is idempotent and upper-casing does not change a character's lower case |
| Text.EnsureArrayIdempotent | app/renderers/index.js:51-53 | `EnsureArray` (`ensureArray`): passing the result through again gives it back unchanged |
| Text.RemainingTextCases | app/renderers/index.js:233-248 | `RemainingText` (the text `setRemainingText` computes): "No more stations" for 0, "Last station" for 1, and for every other count, and only for them, the sentence-cased words of the count followed by " stations remaining" |
| Text.RemainingTextThree | app/renderers/index.js:237-245 | with "three" as the words of 3 the stations-remaining text is "Three stations remaining" |
| StepFacts.PressTimesFacts | app/renderers/index.js:157-160 | `Schedule.Press`/`PressTimes` (the pause button, clicked n times): the flag is set exactly when it was set before or there was a click; no other part of the state and no other kind of event changes |
| StepFacts.RepeatedClicksSameAsOne | app/renderers/index.js:157-160 | clicking the pause button several times leaves the same flag and inputs as clicking it once |
| StepFacts.RepeatedClicksNotify | app/renderers/index.js:159 | each click sends one 'pause' notification |
| StepFacts.SleepFacts | app/renderers/index.js:145 | `Schedule.Sleep` (`await sleep(1000)`): a one-second wait can only raise the flag, consumes no host reply, and adds nothing but 'pause' notifications |
| StepFacts.PauseWaitFacts | app/renderers/index.js:118-122 | `Schedule.PauseWait` (`pauseWait`): the handshake consumes no click, changes nothing once a request hangs, and adds nothing but its reply |
| StepFacts.ActionFacts | app/renderers/index.js:127-131 | `Schedule.Callback`/`Action` (`action`): one tick shows its second, restarts the progress bar once, plays the cue once in the cooldown and never in the active phase, and changes nothing else |
| CountdownFacts.LoopSecond | app/renderers/index.js:135-148 | `Schedule.Loop` (the `while` loop): `currentSecond` never goes below 0 from a positive start, stays put from `d <= 0`, and ends at 0 unless a request hangs |
| CountdownFacts.LoopShows | app/renderers/index.js:135-148 | `Schedule.Loop`: the loop shows the seconds from the start down to where it stops, in order, none skipped or repeated, whatever the pauses |
| CountdownFacts.LoopCues | app/renderers/index.js:127-148 | the progress bar restarts once per second shown; the cue plays once per second shown in the cooldown and never in the active phase |
| CountdownFacts.LoopNeutral | app/renderers/index.js:135-148 | the loop sets no stations-remaining text or instruction and does not end the run |
| CountdownFacts.ShowsCountDown | app/renderers/index.js:129-130 | a countdown from d to e shows d - e seconds, the i-th being d - i |
| CountdownFacts.CountdownEffect | app/renderers/index.js:124-155 | `Schedule.Countdown` (`countdown`): where `currentSecond` ends, the seconds shown, the callbacks run, and no other effect |
| CountdownFacts.CountdownComplete | app/renderers/index.js:124-155 | unless a request hangs, `countdown(d)` runs its action exactly max(d, 0) times, shows d, d-1, ..., 1, and plays the cue only in the cooldown |
| CountdownFacts.FinalPauseCheck | app/renderers/index.js:150-153 | after the loop, a clear flag changes nothing; a set flag makes exactly one more handshake, whose reply becomes the flag |
| CountdownFacts.ZeroCountdown | app/renderers/index.js:135-153 | with d <= 0 the loop body never runs and only the final pause check is made |
| StationFacts.StationHangs | app/renderers/index.js:250-263 | once a request hangs, nothing in a station happens any more |
| StationFacts.DurationInfo | app/renderers/index.js:204 | the active countdown sets the instruction to "Complete your activity" and to nothing else |
| StationFacts.BreakInfo | app/renderers/index.js:212 | the cooldown sets the instruction to "Go to your next station" and to nothing else |
| StationFacts.DurationShows | app/renderers/index.js:200-206 | `Schedule.DurationCountdown` (`durationCountdown`): the active countdown shows every second of `duration` |
| StationFacts.DurationBeeps | app/renderers/index.js:205 | the active countdown never plays the cue |
| StationFacts.BreakShows | app/renderers/index.js:208-217 | `Schedule.BreakDurationCountdown` (`breakDurationCountdown`): the cooldown shows every second of `breakDuration` |
| StationFacts.BreakBeeps | app/renderers/index.js:213-216 | the cooldown plays the cue once per second of `breakDuration` |
| StationFacts.CountdownActionShows | app/renderers/index.js:250-253 | `Schedule.CountdownAction` (`countdownAction`): the active seconds are shown, then the cooldown seconds |
| StationFacts.CountdownActionInfo | app/renderers/index.js:250-253 | `countdownAction` sets the active instruction, then the cooldown instruction |
| StationFacts.StationShows | app/renderers/index.js:258-263 | `Schedule.Station` (the loop body): one pass shows both countdowns in full |
| StationFacts.StationRemaining | app/renderers/index.js:258-263 | one pass sets the stations-remaining text for the count, then for the count minus one |
| StationFacts.StationInfo | app/renderers/index.js:257-264 | one pass sets the active, then the cooldown instruction |
| StationFacts.StationBeeps | app/renderers/index.js:257-264 | one pass plays the cue once per cooldown second |
| StationFacts.StationsShows | app/renderers/index.js:257-264 | `Schedule.Stations` (the station `for` loop): the loop shows `duration` and then `breakDuration` seconds for each station, in order |
| StationFacts.StationsRemaining | app/renderers/index.js:257-264 | the station loop sets the stations-remaining text for N, N-1, N-1, N-2, ..., 1, 0 |
| StationFacts.StationsInfo | app/renderers/index.js:257-264 | the station loop alternates the active and cooldown instructions, N times each |
| StationFacts.StationsBeeps | app/renderers/index.js:257-264 | the cue plays N * breakDuration times in all |
| StationFacts.StationsNotEnded | app/renderers/index.js:257-264 | the station loop never ends the run itself |
| StationFacts.RunDisplayLength | app/renderers/index.js:250-264 | N stations show N * (duration + breakDuration) seconds in total |
| StationFacts.RemainingScheduleAt | app/renderers/index.js:257-264 | the stations-remaining settings by position: the i-th is N - (i+1)/2 |
| StationFacts.RemainingScheduleEnds | app/renderers/index.js:257-264 | with N > 0 stations there are 2N stations-remaining settings, from N down to 0, "No more stations" last |
| StationFacts.InfoScheduleAt | app/renderers/index.js:257-264 | the instruction settings by position: active at even positions, cooldown at odd ones |
| StationFacts.EndTimerFacts | app/renderers/index.js:219-231 | `Schedule.EndTimer` (`endTimer`): the counter is set to "0", then the closing instruction, and nothing else |
| StationFacts.RunComplete | app/renderers/index.js:255-266 | `Schedule.Run` (the handler's run): a run the host lets finish shows every station's seconds, stations-remaining texts and instructions in order and plays N * breakDuration cues; then, exactly once and last, "0" and "Return to your original station" |
| StationFacts.RunHangs | app/renderers/index.js:255-266 | a run whose request hangs never reaches `endTimer` |
| StationFacts.NoStations | app/renderers/index.js:257-265 | with numRepeats <= 0 no countdown runs and `endTimer` follows at once |
| PauseProtocol.HonestPressTimes | app/renderers/index.js:157-160 | clicks keep the pause protocol |
| PauseProtocol.HonestPauseWait | app/renderers/index.js:118-122 | a handshake made with the flag set keeps the protocol, and its reply becomes the flag |
| PauseProtocol.HonestLoop | app/renderers/index.js:135-148 | the tick loop keeps the protocol: no tick while the flag is set, no handshake while it is clear |
| PauseProtocol.HonestCountdown | app/renderers/index.js:124-155 | `countdown`, with its final check, keeps the protocol |
| PauseProtocol.HonestStations | app/renderers/index.js:257-264 | the station loop keeps the protocol |
| PauseProtocol.RunHonest | app/renderers/index.js:179-266 | every run from the initial clear flag keeps the protocol, whatever the clicks and replies |
| PauseProtocol.DisciplinedAt | app/renderers/index.js:137-142 | in a run that keeps the protocol, every handshake happens with the flag set and every tick with it clear |
| PauseProtocol.UnpausedRunEnds | app/renderers/index.js:255-266 | without clicks the host is never asked and the run finishes with the flag clear |
| PauseProtocol.UnpausedRunCompletes | app/renderers/index.js:255-266 | without clicks the run shows every second and every stations-remaining text and ends on "0" and the closing instruction |
| Answers.RunHangsDry | app/renderers/index.js:118-122 | from a state in which a hang means no reply is left, a run that hangs has used up every reply |
| Answers.HangsOnlyWhenDry | app/renderers/index.js:179-266 | from the start, whatever the clicks and replies, a run hangs only after using up every reply |
| Answers.SuppliedTick | app/renderers/index.js:142-145 | a tick and its second of clicks keep enough `false` replies for the raised flag and every clicked second still to come |
| Answers.SuppliedPause | app/renderers/index.js:137-140 | with the flag set and a `false` reply in hand, the handshake does not hang and clears the flag |
| Answers.SuppliedCountdown | app/renderers/index.js:124-155 | with enough `false` replies a countdown does not hang and ends with the flag clear |
| Answers.AnsweredRunEnds | app/renderers/index.js:255-266 | when every reply is `false` and there are at least as many as there are seconds in which the button is clicked, the run does not hang and ends with the flag clear |
| Answers.AnsweredTick | app/renderers/index.js:142-145 | a tick and its second of clicks keep a `false` reply in store for the raised flag and for every clicked second still to come |
| Answers.AnsweredPause | app/renderers/index.js:118-122 | with the flag set and a `false` reply still to come, the handshake does not hang; the flag takes the reply, so `true` keeps it set and `false` clears it, and the store stays sufficient |
| Answers.AnsweredCountdown | app/renderers/index.js:124-155 | a countdown re-requests through every `true` reply and does not hang while enough `false` replies are to come |
| Answers.AnsweredStation | app/renderers/index.js:255-263 | one station keeps enough `false` replies in store and does not hang |
| Answers.EventuallyAnsweredRunEnds | app/renderers/index.js:179-266 | when the replies hold at least one `false` per second in which the button is clicked, wherever the `true` replies fall, the run does not hang and reaches `endTimer` |
| Views.RemainingViewLast | app/renderers/index.js:233-248 | the stations-remaining view shows the text of the last stations-remaining event of the trace |
| Views.InfoViewLast | app/renderers/index.js:200-231 | the instruction view shows the text of the last instruction event of the trace |
| Views.ScreenAtEnd | app/renderers/index.js:219-231 | a trace ending with "0" on the counter, the closing instruction and a complete stations-remaining schedule shows "0", the closing instruction and "No more stations" |
| Views.FinishedRunViews | app/renderers/index.js:255-266 | when a run finishes, the counter shows "0", the instruction view the closing instruction and, if there was a station, the stations-remaining view "No more stations" |
| Timer.StationTimer.constructor | app/renderers/index.js:40-43 | no settings yet, the flag clear, empty views, `formatTime` is `FormattedTime`, and `Valid()` holds |
| Timer.StationTimer.PressPause | app/renderers/index.js:157-160 | the state becomes `Schedule.Press` of the old one: the flag is raised and 'pause' is sent; the views are unchanged and `Valid()` is kept |
| Timer.StationTimer.Sleep | app/renderers/index.js:145 | the clicks of this second are handled one by one and the state becomes `Schedule.Sleep` of the old one; the views are unchanged and `Valid()` is kept |
| Timer.StationTimer.PauseWait | app/renderers/index.js:118-122 | called only with the flag set: the flag takes the host's reply, or the request hangs when there is none, as `Schedule.PauseWait` says; `Valid()` is kept |
| Timer.StationTimer.Action | app/renderers/index.js:127-131 | called only with the flag clear: the state becomes `Schedule.Action` of the old one, the counter shows `formatTime` of the second, the next second is one less, and `Valid()` is kept |
| Timer.StationTimer.Turn | app/renderers/index.js:137-146 | one iteration: while paused the state becomes `Schedule.PauseWait` of the old one and the second stays put; otherwise it becomes `Schedule.Sleep(Schedule.Action(...))`, the counter shows the second and it goes down by one; the rest of the loop agrees with the old state's |
| Timer.StationTimer.Ticks | app/renderers/index.js:135-148 | the `while` loop: the state and final second follow `Schedule.Loop`; unless a request hangs the second ends at 0; once anything was shown the counter shows `formatTime` of the last second shown, else it is unchanged; `Valid()` is kept |
| Timer.StationTimer.Countdown | app/renderers/index.js:124-155 | the state and final second follow `Schedule.Countdown`; once anything was shown the counter shows `formatTime` of the last second shown (1 when the run goes on); `Valid()` is kept |
| Timer.StationTimer.SetInfo | app/renderers/index.js:204 | the state becomes `Schedule.Emit` of the instruction, and the instruction view shows its text unless a request hangs |
| Timer.StationTimer.SetRemainingText | app/renderers/index.js:233-248 | the state becomes `Schedule.Emit` of `Remaining(count)`, and the stations-remaining view shows `RemainingText` of the count unless a request hangs |
| Timer.StationTimer.DurationCountdown | app/renderers/index.js:200-206 | the state follows `Schedule.DurationCountdown`; the instruction view shows "Complete your activity"; the counter ends on `formatTime(1)` when `duration > 0` and nothing hangs, and is unchanged when `duration <= 0`; `Valid()` is kept |
| Timer.StationTimer.BreakDurationCountdown | app/renderers/index.js:208-217 | the state follows `Schedule.BreakDurationCountdown`; the instruction view shows "Go to your next station"; the counter ends on `formatTime(1)` when `breakDuration > 0` and nothing hangs; `Valid()` is kept |
| Timer.StationTimer.CountdownAction | app/renderers/index.js:250-253 | the state follows `Schedule.CountdownAction`; the counter ends on `formatTime(1)` when `breakDuration > 0` and nothing hangs; `Valid()` is kept |
| Timer.StationTimer.EndTimer | app/renderers/index.js:219-231 | the state follows `Schedule.EndTimer`: the counter shows "0" and the instruction view "Return to your original station", unless a request hangs |
| Timer.StationTimer.Station | app/renderers/index.js:258-263 | one pass of the loop body, returning `stationsLeft - 1`: the state follows `Schedule.Station`, the rest of the loop agrees with the old state's, and the stations-remaining view shows the text for one station fewer |
| Timer.StationTimer.Stations | app/renderers/index.js:257-264 | the state follows `Schedule.Stations`; with at least one station the stations-remaining view ends on "No more stations"; `Valid()` is kept |
| Timer.StationTimer.StartTimer | app/renderers/index.js:179-266 | the settings are stored, the state follows `Schedule.Run`, `Valid()` still holds, and a finished run ends showing "0", "No more stations" and the closing instruction |

## Left out

- Presentation is not modelled: DOM lookups, CSS classes, `skipTransition`'s reflow, button visibility and the progress bar's animation. A restart of the progress bar is one `Progress` event.
- Mute and unmute are not modelled, because they go through Electron's web contents.
- The audio element's `play()` is one `Beep` event.
- The restart and exit handlers and `resetTimer` are not modelled. They only send messages or reset presentation.
- The IPC transport is not modelled: 'pause' is a `PauseSent` event, and the 'pause-wait' replies are an input sequence.
  - When the replies run out during a request, the request never returns. Nothing happens after that (`blocked`).
- `sleep(1000)` takes no time, and the Promise machinery is sequential steps.
- Pause clicks are handled only during a one-second wait: the model takes them as an input of clicks per wait. The synchronous code between waits cannot be interrupted.
- A second `start-timer` arriving during a run would interleave two runs. This is not modelled.
- `number-to-words` is an uninterpreted function `toWords: int -> string`.
- Timer.StationTimer.Valid: it does not restate that `formatTime` is `FormattedTime`. The constructor ensures it, and the field is a constant, so the methods' counter texts are `FormattedTime` of the second for every object the constructor makes.
- Text.Upper: only ASCII letters change case; JavaScript's full Unicode case mapping is not modelled.
- Text.Lower: only ASCII letters change case, for the same reason.
- TimeFormat.FormattedTime: it takes a natural number of seconds. The source's JavaScript numbers may be fractional or negative and are divided in floating point; for whole-number settings the renderer passes it only positive whole seconds.
- Settings: `duration`, `breakDuration` and `numRepeats` are integers; fractional settings are not modelled.
- StepFacts.RepeatedClicksSameAsOne: it states equality of everything but the trace, because each click also sends one more 'pause' notification (StepFacts.RepeatedClicksNotify counts them).
- app/renderers/pause.js is not part of this model. It only closes the pause window.
