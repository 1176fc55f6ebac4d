/** The renderer itself: its module-level state (`settings`, `paused`), the
    three text views it writes, and the handlers and helpers of the
    `start-timer` run as methods that update them step by step. Each method is
    proved to do what the matching function of `Schedule` says, so everything
    proved there about traces holds for the renderer's runs. */
module Timer {
  import opened Wrappers
  import opened TimeFormat
  import opened Text
  import Schedule
  import StepFacts
  import CountdownFacts
  import StationFacts
  import PauseProtocol
  import Views

  class StationTimer {
    /** `numberToWords.toWords`. */
    const toWords: int -> string
    /** `getFormattedTime`; the constructor fixes it to `FormattedTime`. */
    const formatTime: nat -> string

    /** The last `start-timer` payload (kept for the restart button). */
    var settings: Option<Schedule.Settings>
    /** The module-level pause flag. */
    var paused: bool

    /** `textContent` of the stations-remaining, counter and instruction views. */
    var remainingText: string
    var counterText: string
    var infoText: string

    /** What the environment still has to offer: clicks on the pause button
        during each coming one-second wait, and the host's answers to the
        coming 'pause-wait' requests; `blocked` once a request is left
        unanswered. */
    var clicks: seq<nat>
    var replies: seq<bool>
    var blocked: bool

    /** Everything observable so far. */
    ghost var trace: seq<Schedule.Event>

    ghost function Current(): (w: Schedule.State)
      reads this
    {
      Schedule.State(paused, clicks, replies, blocked, trace)
    }

    /** The renderer keeps the pause protocol, and each view shows the text of
        the last event of the trace that set it. */
    ghost predicate Valid()
      reads this
    {
      && Schedule.Honest(false, Current())
      && Views.Screen(trace, toWords, formatTime) == Views.Texts(remainingText, counterText, infoText)
    }

    constructor (toWords: int -> string, clicks: seq<nat>, replies: seq<bool>)
      ensures this.toWords == toWords && formatTime == FormattedTime && settings == None
      ensures Current() == PauseProtocol.Start(clicks, replies)
      ensures remainingText == "" && counterText == "" && infoText == ""
      ensures Valid()
    {
      this.toWords := toWords;
      formatTime := FormattedTime;
      settings := None;
      paused := false;
      remainingText := "";
      counterText := "";
      infoText := "";
      this.clicks := clicks;
      this.replies := replies;
      blocked := false;
      trace := [];
    }

    /** The pause button's action. */
    method PressPause()
      requires Valid()
      modifies this
      ensures Current() == Schedule.Press(old(Current()))
      ensures Valid()
      ensures settings == old(settings)
      ensures remainingText == old(remainingText) && counterText == old(counterText) && infoText == old(infoText)
    {
      ghost var w := Current();
      paused := true;
      trace := trace + [Schedule.PauseSent];
      PauseProtocol.HonestSnoc(false, w, Schedule.PauseSent);
      Views.Snoc(w.trace, Schedule.PauseSent, toWords, formatTime);
    }

    /** `await sleep(1000)`: the clicks of this second are handled, one at a time. */
    method Sleep()
      requires Valid()
      modifies this
      ensures Current() == Schedule.Sleep(old(Current()))
      ensures Valid()
      ensures settings == old(settings)
      ensures remainingText == old(remainingText) && counterText == old(counterText) && infoText == old(infoText)
    {
      if blocked || |clicks| == 0 {
        return;
      }
      var n := clicks[0];
      clicks := clicks[1..];
      ghost var start := Current();
      var i := 0;
      while i < n
        invariant 0 <= i <= n
        invariant Current() == Schedule.PressTimes(start, i)
        invariant Valid()
        invariant settings == old(settings)
        invariant remainingText == old(remainingText) && counterText == old(counterText) && infoText == old(infoText)
      {
        PressPause();
        StepFacts.PressTimesSnoc(start, i);
        i := i + 1;
      }
    }

    /** `pauseWait`: the flag takes the host's reply. */
    method PauseWait()
      requires Valid() && paused
      modifies this
      ensures Current() == Schedule.PauseWait(old(Current()))
      ensures Valid()
      ensures settings == old(settings)
      ensures remainingText == old(remainingText) && counterText == old(counterText) && infoText == old(infoText)
    {
      if blocked {
        return;
      }
      if |replies| == 0 {
        blocked := true;
      } else {
        ghost var w := Current();
        var reply := replies[0];
        replies := replies[1..];
        paused := reply;
        trace := trace + [Schedule.PauseWaited(reply)];
        PauseProtocol.HonestSnoc(false, w, Schedule.PauseWaited(reply));
        Views.Snoc(w.trace, Schedule.PauseWaited(reply), toWords, formatTime);
      }
    }

    /** `action` of `countdown`: the callback, the counter text, and the
        decrement of `currentSecond`. */
    method Action(currentSecond: nat, phase: Schedule.Phase) returns (next: int)
      requires Valid() && !blocked && !paused
      modifies this
      ensures next == currentSecond - 1
      ensures Current() == Schedule.Action(old(Current()), currentSecond, phase)
      ensures Valid()
      ensures counterText == formatTime(currentSecond)
      ensures settings == old(settings)
      ensures remainingText == old(remainingText) && infoText == old(infoText)
    {
      ghost var w := Current();
      if phase == Schedule.Cooldown {
        trace := trace + [Schedule.Beep];
        Views.Snoc(w.trace, Schedule.Beep, toWords, formatTime);
      }
      ghost var t := trace;
      trace := trace + [Schedule.Progress];
      Views.Snoc(t, Schedule.Progress, toWords, formatTime);
      t := trace;
      counterText := formatTime(currentSecond);
      trace := trace + [Schedule.Shown(currentSecond)];
      Views.Snoc(t, Schedule.Shown(currentSecond), toWords, formatTime);
      next := currentSecond - 1;
      PauseProtocol.HonestAction(false, w, currentSecond, phase);
    }

    /** One turn of the `while` loop of `countdown`: the handshake while the
        flag is set, otherwise the tick's action and the one-second wait. */
    method Turn(currentSecond: int, phase: Schedule.Phase) returns (next: int)
      requires Valid() && currentSecond > 0 && !blocked
      modifies this
      ensures old(paused) ==> Current() == Schedule.PauseWait(old(Current()))
      ensures !old(paused) ==> Current() == Schedule.Sleep(Schedule.Action(old(Current()), currentSecond, phase))
      ensures Valid()
      ensures Schedule.Loop(Current(), next, phase) == Schedule.Loop(old(Current()), currentSecond, phase)
      ensures old(paused) ==> next == currentSecond && counterText == old(counterText)
      ensures !old(paused) ==> next == currentSecond - 1 && counterText == formatTime(next + 1)
      ensures next == currentSecond ==> |replies| < old(|replies|) || (blocked && replies == old(replies))
      ensures settings == old(settings)
      ensures remainingText == old(remainingText) && infoText == old(infoText)
    {
      ghost var before := Current();
      if paused {
        PauseWait();
        next := currentSecond;
      } else {
        next := Action(currentSecond, phase);
        Sleep();
      }
      CountdownFacts.LoopTurn(before, Current(), currentSecond, next, phase);
    }

    /** The `while` loop of `countdown`; returns where `currentSecond`
        stopped. While the host has not answered a pause, the loop goes no
        further. */
    method Ticks(duration: int, phase: Schedule.Phase) returns (last: int)
      requires Valid()
      modifies this
      ensures Schedule.Outcome(Current(), last) == Schedule.Loop(old(Current()), duration, phase)
      ensures Valid()
      ensures duration <= 0 ==> last == duration
      ensures !blocked && duration > 0 ==> last == 0
      ensures last != duration ==> 0 <= last && counterText == formatTime(last + 1)
      ensures last == duration ==> counterText == old(counterText)
      ensures settings == old(settings)
      ensures remainingText == old(remainingText) && infoText == old(infoText)
    {
      last := duration;
      while last > 0 && !blocked
        invariant Schedule.Loop(Current(), last, phase) == Schedule.Loop(old(Current()), duration, phase)
        invariant Valid()
        invariant last <= duration
        invariant duration <= 0 ==> last == duration
        invariant last != duration ==> 0 <= last && counterText == formatTime(last + 1)
        invariant last == duration ==> counterText == old(counterText)
        invariant settings == old(settings)
        invariant remainingText == old(remainingText) && infoText == old(infoText)
        decreases Schedule.Max0(last), |replies|, !blocked
      {
        last := Turn(last, phase);
      }
      CountdownFacts.LoopDone(Current(), last, phase);
    }

    /** `countdown(duration, …)`: the tick loop, then one more pause check;
        returns where `currentSecond` stopped. */
    method Countdown(duration: int, phase: Schedule.Phase) returns (last: int)
      requires Valid()
      modifies this
      ensures Schedule.Outcome(Current(), last) == Schedule.Countdown(old(Current()), duration, phase)
      ensures Valid()
      ensures duration <= 0 ==> last == duration
      ensures !blocked && duration > 0 ==> last == 0 && counterText == formatTime(1)
      ensures last != duration ==> 0 <= last && counterText == formatTime(last + 1)
      ensures last == duration ==> counterText == old(counterText)
      ensures settings == old(settings)
      ensures remainingText == old(remainingText) && infoText == old(infoText)
    {
      last := Ticks(duration, phase);
      if paused {
        PauseWait();
      }
      if !blocked && duration > 0 {
        assert last + 1 == 1;
      }
    }

    /** Sets the instruction view. */
    method SetInfo(step: Schedule.Instruction)
      requires Valid()
      modifies this
      ensures Current() == Schedule.Emit(old(Current()), Schedule.Info(step))
      ensures Valid()
      ensures infoText == if old(blocked) then old(infoText) else Schedule.InstructionText(step)
      ensures settings == old(settings)
      ensures remainingText == old(remainingText) && counterText == old(counterText)
    {
      ghost var w := Current();
      if !blocked {
        infoText := Schedule.InstructionText(step);
        trace := trace + [Schedule.Info(step)];
        Views.Snoc(w.trace, Schedule.Info(step), toWords, formatTime);
      }
      PauseProtocol.HonestEmit(false, w, Schedule.Info(step));
    }

    /** `setRemainingText`. */
    method SetRemainingText(stationsLeft: int)
      requires Valid()
      modifies this
      ensures Current() == Schedule.Emit(old(Current()), Schedule.Remaining(stationsLeft))
      ensures Valid()
      ensures remainingText == if old(blocked) then old(remainingText) else RemainingText(stationsLeft, toWords)
      ensures settings == old(settings)
      ensures counterText == old(counterText) && infoText == old(infoText)
    {
      var stationsLeftText := "";
      if stationsLeft == 0 {
        stationsLeftText := NoneText;
      } else if stationsLeft == 1 {
        stationsLeftText := SingleText;
      } else {
        stationsLeftText := SentenceCase(Str(toWords(stationsLeft)));
        stationsLeftText := stationsLeftText + MultipleSuffix;
      }
      ghost var w := Current();
      if !blocked {
        remainingText := stationsLeftText;
        trace := trace + [Schedule.Remaining(stationsLeft)];
        Views.Snoc(w.trace, Schedule.Remaining(stationsLeft), toWords, formatTime);
      }
      PauseProtocol.HonestEmit(false, w, Schedule.Remaining(stationsLeft));
    }

    /** `durationCountdown`. */
    method DurationCountdown(s: Schedule.Settings)
      requires Valid()
      modifies this
      ensures Current() == Schedule.DurationCountdown(old(Current()), s)
      ensures Valid()
      ensures infoText == if old(blocked) then old(infoText) else Schedule.InstructionText(Schedule.ActiveInfo)
      ensures s.duration <= 0 ==> counterText == old(counterText)
      ensures !blocked && s.duration > 0 ==> counterText == formatTime(1)
      ensures settings == old(settings) && remainingText == old(remainingText)
    {
      SetInfo(Schedule.ActiveInfo);
      var _ := Countdown(s.duration, Schedule.Active);
    }

    /** `breakDurationCountdown`. */
    method BreakDurationCountdown(s: Schedule.Settings)
      requires Valid()
      modifies this
      ensures Current() == Schedule.BreakDurationCountdown(old(Current()), s)
      ensures Valid()
      ensures infoText == if old(blocked) then old(infoText) else Schedule.InstructionText(Schedule.CoolDownInfo)
      ensures s.breakDuration <= 0 ==> counterText == old(counterText)
      ensures !blocked && s.breakDuration > 0 ==> counterText == formatTime(1)
      ensures settings == old(settings) && remainingText == old(remainingText)
    {
      SetInfo(Schedule.CoolDownInfo);
      var _ := Countdown(s.breakDuration, Schedule.Cooldown);
    }

    /** `countdownAction`: the active countdown, then the cooldown. */
    method CountdownAction(s: Schedule.Settings)
      requires Valid()
      modifies this
      ensures Current() == Schedule.CountdownAction(old(Current()), s)
      ensures Valid()
      ensures !blocked && s.breakDuration > 0 ==> counterText == formatTime(1)
      ensures settings == old(settings) && remainingText == old(remainingText)
    {
      DurationCountdown(s);
      BreakDurationCountdown(s);
    }

    /** `endTimer`. */
    method EndTimer()
      requires Valid()
      modifies this
      ensures Current() == Schedule.EndTimer(old(Current()))
      ensures Valid()
      ensures !old(blocked) ==> counterText == "0" && infoText == Schedule.InstructionText(Schedule.CompleteInfo)
      ensures settings == old(settings) && remainingText == old(remainingText)
    {
      ghost var w := Current();
      if !blocked {
        counterText := "0";
        trace := trace + [Schedule.Ended];
        Views.Snoc(w.trace, Schedule.Ended, toWords, formatTime);
        ghost var t := trace;
        infoText := Schedule.InstructionText(Schedule.CompleteInfo);
        trace := trace + [Schedule.Info(Schedule.CompleteInfo)];
        Views.Snoc(t, Schedule.Info(Schedule.CompleteInfo), toWords, formatTime);
      }
      PauseProtocol.HonestEmit(false, w, Schedule.Ended);
      PauseProtocol.HonestEmit(false, Schedule.Emit(w, Schedule.Ended), Schedule.Info(Schedule.CompleteInfo));
    }

    /** One turn of the station loop: its body, then `stationsLeft -= 1`. */
    method Station(stationsLeft: int, s: Schedule.Settings) returns (next: int)
      requires Valid()
      modifies this
      ensures next == stationsLeft - 1
      ensures Current() == Schedule.Station(old(Current()), stationsLeft, s)
      ensures Valid()
      ensures stationsLeft > 0 && !old(blocked) ==> Schedule.Stations(Current(), next, s) == Schedule.Stations(old(Current()), stationsLeft, s)
      ensures !blocked ==> remainingText == RemainingText(next, toWords)
      ensures settings == old(settings)
    {
      ghost var before := Current();
      SetRemainingText(stationsLeft);
      CountdownAction(s);
      next := stationsLeft - 1;
      SetRemainingText(next);
      if stationsLeft > 0 && !before.blocked {
        StationFacts.StationsStep(before, stationsLeft, s);
      }
    }

    /** The `for` loop of the `start-timer` handler, over the stations left. */
    method Stations(s: Schedule.Settings)
      requires Valid()
      modifies this
      ensures Current() == Schedule.Stations(old(Current()), s.numRepeats, s)
      ensures Valid()
      ensures !blocked && s.numRepeats > 0 ==> remainingText == NoneText
      ensures settings == old(settings)
    {
      var stationsLeft := s.numRepeats;
      while stationsLeft > 0 && !blocked
        invariant Schedule.Stations(Current(), stationsLeft, s) == Schedule.Stations(old(Current()), s.numRepeats, s)
        invariant Valid()
        invariant settings == old(settings)
        invariant s.numRepeats > 0 ==> 0 <= stationsLeft
        invariant !blocked && stationsLeft != s.numRepeats ==> remainingText == RemainingText(stationsLeft, toWords)
        decreases Schedule.Max0(stationsLeft)
      {
        stationsLeft := Station(stationsLeft, s);
      }
      assert stationsLeft <= 0 || blocked;
    }

    /** The `start-timer` handler: store the settings, run the station loop,
        end the timer. When the host lets the run finish, the views end on
        "No more stations" (if there was a station), "0" and the closing
        instruction; and the renderer keeps the pause protocol throughout. */
    method StartTimer(s: Schedule.Settings)
      requires Valid()
      modifies this
      ensures settings == Some(s)
      ensures Current() == Schedule.Run(old(Current()), s)
      ensures Valid()
      ensures !blocked ==> counterText == "0" && infoText == Schedule.InstructionText(Schedule.CompleteInfo)
      ensures !blocked && s.numRepeats > 0 ==> remainingText == NoneText
    {
      settings := Some(s);
      Stations(s);
      EndTimer();
    }
  }
}
