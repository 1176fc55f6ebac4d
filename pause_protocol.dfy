/** The pause protocol: a 'pause-wait' request goes out only while the flag
    is set and a tick happens only while it is clear; and a run in which the
    pause button is never clicked shows every second and ends. */
module PauseProtocol {
  import opened Schedule
  import opened StepFacts
  import opened CountdownFacts
  import opened StationFacts

  lemma HonestSnoc(p: bool, w: State, e: Event)
    requires Honest(p, w) && Allowed(w.paused, e)
    ensures Disciplined(p, w.trace + [e]) && FlagAfter(p, w.trace + [e]) == FlagStep(w.paused, e)
  {
    assert (w.trace + [e])[..|w.trace|] == w.trace;
  }

  lemma HonestEmit(p: bool, w: State, e: Event)
    requires Honest(p, w) && Allowed(w.paused, e) && !e.PauseSent? && !e.PauseWaited?
    ensures Honest(p, Emit(w, e))
  {
    if !w.blocked {
      HonestSnoc(p, w, e);
    }
  }

  lemma {:induction false} HonestPressTimes(p: bool, w: State, n: nat)
    requires Honest(p, w)
    ensures Honest(p, PressTimes(w, n))
    decreases n
  {
    if n > 0 {
      HonestSnoc(p, w, PauseSent);
      HonestPressTimes(p, Press(w), n - 1);
    }
  }

  lemma HonestSleep(p: bool, w: State)
    requires Honest(p, w)
    ensures Honest(p, Sleep(w))
  {
    if !w.blocked && |w.clicks| > 0 {
      HonestPressTimes(p, w.(clicks := w.clicks[1..]), w.clicks[0]);
    }
  }

  /** The handshake is only made while the flag is set. */
  lemma HonestPauseWait(p: bool, w: State)
    requires Honest(p, w) && w.paused
    ensures Honest(p, PauseWait(w))
  {
    if !w.blocked && |w.replies| > 0 {
      HonestSnoc(p, w, PauseWaited(w.replies[0]));
    }
  }

  /** A tick's effects only happen while the flag is clear. */
  lemma HonestAction(p: bool, w: State, second: nat, phase: Phase)
    requires Honest(p, w) && !w.paused
    ensures Honest(p, Action(w, second, phase))
  {
    if phase == Cooldown {
      HonestEmit(p, w, Beep);
      HonestEmit(p, Emit(w, Beep), Progress);
    } else {
      HonestEmit(p, w, Progress);
    }
    HonestEmit(p, Callback(w, phase), Shown(second));
  }

  lemma HonestLoop(p: bool, w: State, second: int, phase: Phase)
    requires Honest(p, w)
    ensures Honest(p, Loop(w, second, phase).state)
  {
    var keep := (v: State) => Honest(p, v);
    var tick := TickOf(phase);
    forall v: State, n: int | n > 0 && !v.blocked && !v.paused && keep(v)
      ensures keep(tick(v, n))
    {
      HonestAction(p, v, n, phase);
      HonestSleep(p, Action(v, n, phase));
    }
    forall v: State | !v.blocked && v.paused && keep(v)
      ensures keep(PauseWait(v))
    {
      HonestPauseWait(p, v);
    }
    LoopSpin(w, second, phase);
    SpinKeep(keep, tick, PauseWait, w, second);
  }

  lemma HonestCountdown(p: bool, w: State, d: int, phase: Phase)
    requires Honest(p, w)
    ensures Honest(p, Countdown(w, d, phase).state)
  {
    var o := Loop(w, d, phase);
    HonestLoop(p, w, d, phase);
    if o.state.paused {
      HonestPauseWait(p, o.state);
    }
  }

  lemma HonestDuration(p: bool, w: State, s: Settings)
    requires Honest(p, w)
    ensures Honest(p, DurationCountdown(w, s))
  {
    HonestEmit(p, w, Info(ActiveInfo));
    HonestCountdown(p, Emit(w, Info(ActiveInfo)), s.duration, Active);
  }

  lemma HonestBreak(p: bool, w: State, s: Settings)
    requires Honest(p, w)
    ensures Honest(p, BreakDurationCountdown(w, s))
  {
    HonestEmit(p, w, Info(CoolDownInfo));
    HonestCountdown(p, Emit(w, Info(CoolDownInfo)), s.breakDuration, Cooldown);
  }

  lemma HonestStation(p: bool, w: State, left: int, s: Settings)
    requires Honest(p, w)
    ensures Honest(p, Station(w, left, s))
  {
    var w1 := Emit(w, Remaining(left));
    HonestEmit(p, w, Remaining(left));
    HonestDuration(p, w1, s);
    HonestBreak(p, DurationCountdown(w1, s), s);
    HonestEmit(p, CountdownAction(w1, s), Remaining(left - 1));
  }

  lemma HonestStations(p: bool, w: State, n: int, s: Settings)
    requires Honest(p, w)
    ensures Honest(p, Stations(w, n, s))
  {
    var keep := (v: State) => Honest(p, v);
    var step := StationStep(s);
    forall v: State, left: int | keep(v)
      ensures keep(step(v, left))
    {
      HonestStation(p, v, left, s);
    }
    StationsIterate(w, n, s);
    IterateKeep(keep, step, w, n);
  }

  /** The state the renderer starts in: not paused, nothing shown yet. */
  function Start(clicks: seq<nat>, replies: seq<bool>): (w: State)
  {
    State(false, clicks, replies, false, [])
  }

  /** A run keeps the pause protocol: the handshake is made only while the
      flag is set, the progress bar, the cue and the counter only change while
      it is clear, and the flag at the end is the one the trace tells. */
  lemma HonestRun(p: bool, w: State, s: Settings)
    requires Honest(p, w)
    ensures Honest(p, Run(w, s))
  {
    HonestStations(p, w, s.numRepeats, s);
    var v := Stations(w, s.numRepeats, s);
    HonestEmit(p, v, Ended);
    HonestEmit(p, Emit(v, Ended), Info(CompleteInfo));
  }

  /** ... whatever the clicks and the host's replies, from the start. */
  lemma RunHonest(clicks: seq<nat>, replies: seq<bool>, s: Settings)
    ensures Honest(false, Run(Start(clicks, replies), s))
  {
    HonestRun(false, Start(clicks, replies), s);
  }

  /** `Disciplined`, event by event. */
  lemma {:induction false} DisciplinedAt(p: bool, t: seq<Event>)
    requires Disciplined(p, t)
    ensures forall i :: 0 <= i < |t| ==> Allowed(FlagAfter(p, t[..i]), t[i])
    decreases |t|
  {
    if t != [] {
      var u := t[..|t| - 1];
      DisciplinedAt(p, u);
      forall i | 0 <= i < |t| ensures Allowed(FlagAfter(p, t[..i]), t[i]) {
        if i < |u| {
          assert t[..i] == u[..i];
          assert t[i] == u[i];
        }
      }
    }
  }

  /** Not paused, not waiting, and no click is coming. */
  predicate Quiet(w: State)
  {
    !w.paused && !w.blocked && NoClicks(w.clicks)
  }

  lemma QuietTick(w: State, second: nat, phase: Phase)
    requires Quiet(w)
    ensures Quiet(Sleep(Action(w, second, phase))) && Sleep(Action(w, second, phase)).replies == w.replies
  {
    var a := Action(w, second, phase);
    ActionFacts(w, second, phase);
    if |a.clicks| > 0 {
      assert a.clicks[0] == 0;
      assert NoClicks(a.clicks[1..]) by {
        forall i | 0 <= i < |a.clicks[1..]| ensures a.clicks[1..][i] == 0 {
          assert a.clicks[1..][i] == a.clicks[i + 1];
        }
      }
    }
  }

  lemma QuietLoop(w: State, second: int, phase: Phase)
    requires Quiet(w)
    ensures Quiet(Loop(w, second, phase).state) && Loop(w, second, phase).state.replies == w.replies
  {
    var keep := (v: State) => Quiet(v) && v.replies == w.replies;
    var tick := TickOf(phase);
    forall v: State, n: int | n > 0 && !v.blocked && !v.paused && keep(v)
      ensures keep(tick(v, n))
    {
      QuietTick(v, n, phase);
    }
    LoopSpin(w, second, phase);
    SpinKeep(keep, tick, PauseWait, w, second);
  }

  lemma QuietCountdown(w: State, d: int, phase: Phase)
    requires Quiet(w)
    ensures Quiet(Countdown(w, d, phase).state) && Countdown(w, d, phase).state.replies == w.replies
  {
    QuietLoop(w, d, phase);
  }

  lemma QuietStation(w: State, left: int, s: Settings)
    requires Quiet(w)
    ensures Quiet(Station(w, left, s)) && Station(w, left, s).replies == w.replies
  {
    var w1 := Emit(w, Remaining(left));
    QuietCountdown(Emit(w1, Info(ActiveInfo)), s.duration, Active);
    var v := DurationCountdown(w1, s);
    QuietCountdown(Emit(v, Info(CoolDownInfo)), s.breakDuration, Cooldown);
  }

  lemma QuietStations(w: State, n: int, s: Settings)
    requires Quiet(w)
    ensures Quiet(Stations(w, n, s)) && Stations(w, n, s).replies == w.replies
  {
    var replies := w.replies;
    var keep := (v: State) => Quiet(v) && v.replies == replies;
    var step := StationStep(s);
    forall v: State, left: int | keep(v)
      ensures keep(step(v, left))
    {
      QuietStation(v, left, s);
    }
    StationsIterate(w, n, s);
    IterateKeep(keep, step, w, n);
  }

  /** If the pause button is never clicked the host is never asked and the
      run goes to its end, with the flag clear ... */
  lemma UnpausedRunEnds(clicks: seq<nat>, replies: seq<bool>, s: Settings)
    requires NoClicks(clicks)
    ensures var r := Run(Start(clicks, replies), s);
      !r.blocked && !r.paused && r.replies == replies
  {
    var w := Start(clicks, replies);
    QuietStations(w, s.numRepeats, s);
    EndTimerFacts(Stations(w, s.numRepeats, s));
  }

  /** ... showing every second and every stations-remaining text of every station, and
      ending on the counter's "0" and the closing instruction. */
  lemma UnpausedRunCompletes(clicks: seq<nat>, replies: seq<bool>, s: Settings)
    requires NoClicks(clicks)
    ensures var r := Run(Start(clicks, replies), s);
      && Only(r.trace, ShownKind) == RunDisplay(s.numRepeats, s.duration, s.breakDuration)
      && Only(r.trace, RemainingKind) == RemainingSchedule(s.numRepeats)
      && |r.trace| >= 2 && r.trace[|r.trace| - 2..] == [Ended, Info(CompleteInfo)]
  {
    var w := Start(clicks, replies);
    UnpausedRunEnds(clicks, replies, s);
    RunComplete(w, s);
    assert Only(w.trace, ShownKind) == [] && Only(w.trace, RemainingKind) == [];
  }
}
