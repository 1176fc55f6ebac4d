/** The renderer's run, as functions over a snapshot of its state: the tick
    loop of `countdown`, the pause handshake `pauseWait`, the pause button,
    and the station loop of the `start-timer` handler. Every `await` is one
    sequential step. What the page shows or sends is appended to a trace. */
module Schedule {

  datatype Phase = Active | Cooldown

  /** What the renderer does that can be observed, in the order it does it. */
  datatype Event =
    | Remaining(left: int)       // stations-remaining view set to `RemainingText(left, …)`
    | Info(step: Instruction)    // instruction view set to `InstructionText(step)`
    | Progress                   // progress bar restarted (`setProgressBar`)
    | Beep                       // audio cue played
    | Shown(second: nat)         // counter text set to `getFormattedTime(second)`
    | PauseSent                  // 'pause' notification sent to the host
    | PauseWaited(reply: bool)   // 'pause-wait' request answered by the host
    | Ended                      // `endTimer`: the counter shows "0" and the run is over

  datatype Kind = RemainingKind | InfoKind | ProgressKind | BeepKind | ShownKind
                | PauseSentKind | PauseWaitedKind | EndedKind

  function KindOf(e: Event): (k: Kind)
  {
    match e
    case Remaining(_) => RemainingKind
    case Info(_) => InfoKind
    case Progress => ProgressKind
    case Beep => BeepKind
    case Shown(_) => ShownKind
    case PauseSent => PauseSentKind
    case PauseWaited(_) => PauseWaitedKind
    case Ended => EndedKind
  }

  /** The three instructions the renderer gives. */
  datatype Instruction = ActiveInfo | CoolDownInfo | CompleteInfo

  function InstructionText(i: Instruction): (t: string)
  {
    match i
    case ActiveInfo => "Complete your activity"
    case CoolDownInfo => "Go to your next station"
    case CompleteInfo => "Return to your original station"
  }

  /** The `start-timer` message's payload. */
  datatype Settings = Settings(duration: int, breakDuration: int, numRepeats: int)

  /** A snapshot of the renderer and of what its environment has left to offer.
      - paused: the module-level flag;
      - clicks: how often the pause button is clicked during each coming one-second wait;
      - replies: the host's answers to the coming 'pause-wait' requests;
      - blocked: a 'pause-wait' request is outstanding that the host never answers;
      - trace: everything observable so far. */
  datatype State = State(paused: bool, clicks: seq<nat>, replies: seq<bool>, blocked: bool, trace: seq<Event>)

  function Max0(x: int): (n: nat) { if x > 0 then x else 0 }

  /** One observable effect. Once a request hangs, nothing after it happens. */
  function Emit(w: State, e: Event): (r: State)
  {
    if w.blocked then w else w.(trace := w.trace + [e])
  }

  /** The pause button's action: raise the flag, notify the host. */
  function Press(w: State): (r: State)
  {
    w.(paused := true, trace := w.trace + [PauseSent])
  }

  function PressTimes(w: State, n: nat): (r: State)
    decreases n
  {
    if n == 0 then w else PressTimes(Press(w), n - 1)
  }

  /** `await sleep(1000)`: the one second during which clicks on the pause
      button are handled. */
  function Sleep(w: State): (r: State)
  {
    if w.blocked || |w.clicks| == 0 then w
    else PressTimes(w.(clicks := w.clicks[1..]), w.clicks[0])
  }

  /** `pauseWait`: the host's reply replaces the flag. Without a reply the
      synchronous request never returns. */
  function PauseWait(w: State): (r: State)
  {
    if w.blocked then w
    else if |w.replies| == 0 then w.(blocked := true)
    else w.(paused := w.replies[0], replies := w.replies[1..], trace := w.trace + [PauseWaited(w.replies[0])])
  }

  /** The `onEachSecond` callback of the phase: the progress bar is reset in
      both phases, and the cue is played before it during the cooldown. */
  function Callback(w: State, phase: Phase): (r: State)
  {
    if phase == Cooldown then Emit(Emit(w, Beep), Progress) else Emit(w, Progress)
  }

  /** `action` inside `countdown`: callback, then the counter shows the time
      still to go (the text is `FormattedTime(second)`). */
  function Action(w: State, second: nat, phase: Phase): (r: State)
  {
    Emit(Callback(w, phase), Shown(second))
  }

  /** The result of a countdown: the new state and the final `currentSecond`. */
  datatype Outcome = Outcome(state: State, second: int)

  /** The `while (currentSecond > 0)` loop of `countdown`. */
  function Loop(w: State, second: int, phase: Phase): (o: Outcome)
    decreases Max0(second), |w.replies|, !w.blocked
  {
    if second <= 0 || w.blocked then Outcome(w, second)
    else if w.paused then Loop(PauseWait(w), second, phase)
    else Loop(Sleep(Action(w, second, phase)), second - 1, phase)
  }

  /** `countdown(duration, …)`: the tick loop, then one more pause check. */
  function Countdown(w: State, duration: int, phase: Phase): (o: Outcome)
  {
    var o := Loop(w, duration, phase);
    if o.state.paused then Outcome(PauseWait(o.state), o.second) else o
  }

  /** `durationCountdown`: the active instruction, then a countdown of `duration`. */
  function DurationCountdown(w: State, s: Settings): (r: State)
  {
    Countdown(Emit(w, Info(ActiveInfo)), s.duration, Active).state
  }

  /** `breakDurationCountdown`: the cooldown instruction, then a countdown of
      `breakDuration` whose callback also plays the cue. */
  function BreakDurationCountdown(w: State, s: Settings): (r: State)
  {
    Countdown(Emit(w, Info(CoolDownInfo)), s.breakDuration, Cooldown).state
  }

  /** `countdownAction`. */
  function CountdownAction(w: State, s: Settings): (r: State)
  {
    BreakDurationCountdown(DurationCountdown(w, s), s)
  }

  /** One pass of the station loop's body for `stationsLeft == left`. */
  function Station(w: State, left: int, s: Settings): (r: State)
  {
    Emit(CountdownAction(Emit(w, Remaining(left)), s), Remaining(left - 1))
  }

  /** `for (let stationsLeft = …; stationsLeft > 0; stationsLeft -= 1)`. */
  function Stations(w: State, left: int, s: Settings): (r: State)
    decreases Max0(left)
  {
    if left <= 0 || w.blocked then w else Stations(Station(w, left, s), left - 1, s)
  }

  /** `endTimer`: the counter shows "0", then the closing instruction. */
  function EndTimer(w: State): (r: State)
  {
    Emit(Emit(w, Ended), Info(CompleteInfo))
  }

  /** What the `start-timer` handler does after storing the settings. */
  function Run(w: State, s: Settings): (r: State)
  {
    EndTimer(Stations(w, s.numRepeats, s))
  }

  // ---------------------------------------------------------------------------
  // Reading a trace

  /** The events of one kind, in order. */
  function Only(t: seq<Event>, k: Kind): (r: seq<Event>)
    decreases |t|
  {
    if t == [] then []
    else Only(t[..|t| - 1], k) + (if KindOf(t[|t| - 1]) == k then [t[|t| - 1]] else [])
  }

  /** The seconds a countdown from `from` that stopped at `to` shows: from, from - 1, …, to + 1. */
  function Shows(from: int, to: int): (t: seq<Event>)
    decreases Max0(from - to)
  {
    if from <= to || from <= 0 then [] else [Shown(from)] + Shows(from - 1, to)
  }

  /** The seconds a whole run of `n` stations shows. */
  function RunDisplay(n: int, duration: int, breakDuration: int): (t: seq<Event>)
    decreases Max0(n)
  {
    if n <= 0 then [] else Shows(duration, 0) + Shows(breakDuration, 0) + RunDisplay(n - 1, duration, breakDuration)
  }

  /** The stations-remaining settings of a run of `n` stations: n, n-1, n-1, n-2, …, 1, 0. */
  function RemainingSchedule(n: int): (t: seq<Event>)
    decreases Max0(n)
  {
    if n <= 0 then []
    else [Remaining(n), Remaining(n - 1)] + RemainingSchedule(n - 1)
  }

  /** The instruction texts of `n` stations: active, then cooldown, each time. */
  function InfoSchedule(n: int): (t: seq<Event>)
    decreases Max0(n)
  {
    if n <= 0 then [] else [Info(ActiveInfo), Info(CoolDownInfo)] + InfoSchedule(n - 1)
  }

  /** The pause flag after one more event: a 'pause' notification raises it,
      a 'pause-wait' reply replaces it, nothing else touches it. */
  function FlagStep(flag: bool, e: Event): (b: bool)
  {
    match e
    case PauseSent => true
    case PauseWaited(b) => b
    case _ => flag
  }

  /** The pause flag as the trace tells it, starting from `p`. */
  function FlagAfter(p: bool, t: seq<Event>): (b: bool)
    decreases |t|
  {
    if t == [] then p else FlagStep(FlagAfter(p, t[..|t| - 1]), t[|t| - 1])
  }

  /** An event may happen with the flag in this state: a 'pause-wait' only while
      the flag is set, a tick's effects only while it is clear. */
  predicate Allowed(flag: bool, e: Event)
  {
    match e
    case PauseWaited(_) => flag
    case Progress => !flag
    case Beep => !flag
    case Shown(_) => !flag
    case _ => true
  }

  /** Every event of the trace was allowed when it happened. */
  predicate Disciplined(p: bool, t: seq<Event>)
    decreases |t|
  {
    t == [] || (Disciplined(p, t[..|t| - 1]) && Allowed(FlagAfter(p, t[..|t| - 1]), t[|t| - 1]))
  }

  /** The trace obeys the pause protocol and agrees with the flag. */
  predicate Honest(p: bool, w: State)
  {
    Disciplined(p, w.trace) && FlagAfter(p, w.trace) == w.paused
  }
}
