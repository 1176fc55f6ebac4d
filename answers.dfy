/** What the host's replies to 'pause-wait' decide about a run: a request is
    left hanging only once the host has no reply left, and a host that
    sooner or later answers each pause with "go on" lets the run finish. */
module Answers {
  import opened Schedule
  import opened StepFacts
  import opened CountdownFacts
  import opened StationFacts
  import PauseProtocol

  /** A request hangs only when the host has run out of replies. */
  predicate HangsDry(w: State)
  {
    w.blocked ==> w.replies == []
  }

  /** The one-second waits during which the pause button is clicked at least once. */
  function PendingPauses(clicks: seq<nat>): (n: nat)
    decreases |clicks|
  {
    if clicks == [] then 0 else (if clicks[0] > 0 then 1 else 0) + PendingPauses(clicks[1..])
  }

  /** Every reply is "not paused any more". */
  predicate AllFalse(replies: seq<bool>)
  {
    forall i :: 0 <= i < |replies| ==> !replies[i]
  }

  /** The replies that say "not paused any more"; a `true` reply keeps the
      flag set, and `countdown` then asks again. */
  function Falses(replies: seq<bool>): (n: nat)
    decreases |replies|
  {
    if replies == [] then 0 else (if replies[0] then 0 else 1) + Falses(replies[1..])
  }

  /** Nothing hangs, and the host still has a "go on" reply for the raised
      flag and for every second still to be clicked in. */
  predicate Answered(w: State)
  {
    && !w.blocked
    && (if w.paused then 1 else 0) + PendingPauses(w.clicks) <= Falses(w.replies)
  }

  /** Nothing hangs, every reply to come clears the flag, and there are
      enough of them for the raised flag and for every second still to be
      clicked in. */
  predicate Supplied(w: State)
  {
    && !w.blocked
    && AllFalse(w.replies)
    && (if w.paused then 1 else 0) + PendingPauses(w.clicks) <= |w.replies|
  }

  // ---------------------------------------------------------------------------
  // A hang uses up every reply

  lemma DryLoop(w: State, second: int, phase: Phase)
    requires HangsDry(w)
    ensures HangsDry(Loop(w, second, phase).state)
  {
    var tick := TickOf(phase);
    forall v: State, n: int | n > 0 && !v.blocked && !v.paused && HangsDry(v)
      ensures HangsDry(tick(v, n))
    {
      ActionFacts(v, n, phase);
      SleepFacts(Action(v, n, phase));
    }
    LoopSpin(w, second, phase);
    SpinKeep(HangsDry, tick, PauseWait, w, second);
  }

  lemma DryCountdown(w: State, d: int, phase: Phase)
    requires HangsDry(w)
    ensures HangsDry(Countdown(w, d, phase).state)
  {
    DryLoop(w, d, phase);
  }

  lemma DryStation(w: State, left: int, s: Settings)
    requires HangsDry(w)
    ensures HangsDry(Station(w, left, s))
  {
    var w1 := Emit(w, Remaining(left));
    DryCountdown(Emit(w1, Info(ActiveInfo)), s.duration, Active);
    DryCountdown(Emit(DurationCountdown(w1, s), Info(CoolDownInfo)), s.breakDuration, Cooldown);
  }

  /** If a run hangs, the host had no reply left for the request that hangs. */
  lemma RunHangsDry(w: State, s: Settings)
    requires HangsDry(w)
    ensures Run(w, s).blocked ==> Run(w, s).replies == []
  {
    var step := StationStep(s);
    forall v: State, left: int | HangsDry(v)
      ensures HangsDry(step(v, left))
    {
      DryStation(v, left, s);
    }
    StationsIterate(w, s.numRepeats, s);
    IterateKeep(HangsDry, step, w, s.numRepeats);
  }

  /** ... in particular from the start, whatever the clicks and the replies. */
  lemma HangsOnlyWhenDry(clicks: seq<nat>, replies: seq<bool>, s: Settings)
    ensures var r := Run(PauseProtocol.Start(clicks, replies), s); r.blocked ==> r.replies == []
  {
    RunHangsDry(PauseProtocol.Start(clicks, replies), s);
  }

  // ---------------------------------------------------------------------------
  // A host that always says "go on"

  /** A tick, then the second's clicks: a clicked second raises the flag and
      uses up one of the clicked seconds. */
  lemma SuppliedTick(w: State, second: nat, phase: Phase)
    requires Supplied(w) && !w.paused
    ensures Supplied(Sleep(Action(w, second, phase)))
  {
    var a := Action(w, second, phase);
    ActionFacts(w, second, phase);
    if |a.clicks| > 0 {
      PressTimesControl(a.(clicks := a.clicks[1..]), a.clicks[0]);
    }
  }

  /** The handshake takes a "go on" reply, which is there, and clears the flag. */
  lemma SuppliedPause(w: State)
    requires Supplied(w) && w.paused
    ensures Supplied(PauseWait(w)) && !PauseWait(w).paused
  {
    var r := w.replies;
    assert !r[0];
    forall i | 0 <= i < |r[1..]| ensures !r[1..][i] {
      assert r[1..][i] == r[i + 1];
    }
  }

  lemma SuppliedLoop(w: State, second: int, phase: Phase)
    requires Supplied(w)
    ensures Supplied(Loop(w, second, phase).state)
  {
    var tick := TickOf(phase);
    forall v: State, n: int | n > 0 && !v.blocked && !v.paused && Supplied(v)
      ensures Supplied(tick(v, n))
    {
      SuppliedTick(v, n, phase);
    }
    forall v: State | !v.blocked && v.paused && Supplied(v)
      ensures Supplied(PauseWait(v))
    {
      SuppliedPause(v);
    }
    LoopSpin(w, second, phase);
    SpinKeep(Supplied, tick, PauseWait, w, second);
  }

  /** A countdown goes to its end and leaves the flag clear. */
  lemma SuppliedCountdown(w: State, d: int, phase: Phase)
    requires Supplied(w) && !w.paused
    ensures Supplied(Countdown(w, d, phase).state) && !Countdown(w, d, phase).state.paused
  {
    var o := Loop(w, d, phase);
    SuppliedLoop(w, d, phase);
    if o.state.paused {
      SuppliedPause(o.state);
    }
  }

  lemma SuppliedStation(w: State, left: int, s: Settings)
    requires Supplied(w) && !w.paused
    ensures Supplied(Station(w, left, s)) && !Station(w, left, s).paused
  {
    var w1 := Emit(w, Remaining(left));
    SuppliedCountdown(Emit(w1, Info(ActiveInfo)), s.duration, Active);
    SuppliedCountdown(Emit(DurationCountdown(w1, s), Info(CoolDownInfo)), s.breakDuration, Cooldown);
  }

  /** When the host answers every pause with "go on" and has an answer for
      every second in which the pause button is clicked, the run does not
      hang: it reaches `endTimer` with the flag clear. */
  lemma AnsweredRunEnds(clicks: seq<nat>, replies: seq<bool>, s: Settings)
    requires AllFalse(replies) && PendingPauses(clicks) <= |replies|
    ensures var r := Run(PauseProtocol.Start(clicks, replies), s); !r.blocked && !r.paused
  {
    var w := PauseProtocol.Start(clicks, replies);
    var keep := (v: State) => Supplied(v) && !v.paused;
    var step := StationStep(s);
    forall v: State, left: int | keep(v)
      ensures keep(step(v, left))
    {
      SuppliedStation(v, left, s);
    }
    StationsIterate(w, s.numRepeats, s);
    IterateKeep(keep, step, w, s.numRepeats);
  }

  // ---------------------------------------------------------------------------
  // A host that says "wait" any number of times before "go on"

  /** A tick, then the second's clicks: a clicked second raises the flag and
      uses up one of the clicked seconds. */
  lemma AnsweredTick(w: State, second: nat, phase: Phase)
    requires Answered(w) && !w.paused
    ensures Answered(Sleep(Action(w, second, phase)))
  {
    var a := Action(w, second, phase);
    ActionFacts(w, second, phase);
    if |a.clicks| > 0 {
      PressTimesControl(a.(clicks := a.clicks[1..]), a.clicks[0]);
    }
  }

  /** The handshake finds a reply: "wait" keeps the flag and the count of
      "go on" replies, "go on" clears the flag and uses one of them. */
  lemma AnsweredPause(w: State)
    requires Answered(w) && w.paused
    ensures Answered(PauseWait(w))
    ensures PauseWait(w).paused == w.replies[0]
  {
  }

  lemma AnsweredLoop(w: State, second: int, phase: Phase)
    requires Answered(w)
    ensures Answered(Loop(w, second, phase).state)
  {
    var tick := TickOf(phase);
    forall v: State, n: int | n > 0 && !v.blocked && !v.paused && Answered(v)
      ensures Answered(tick(v, n))
    {
      AnsweredTick(v, n, phase);
    }
    forall v: State | !v.blocked && v.paused && Answered(v)
      ensures Answered(PauseWait(v))
    {
      AnsweredPause(v);
    }
    LoopSpin(w, second, phase);
    SpinKeep(Answered, tick, PauseWait, w, second);
  }

  /** A countdown goes to its end without hanging; a "wait" reply to the
      final check leaves the flag set for the next countdown to ask again. */
  lemma AnsweredCountdown(w: State, d: int, phase: Phase)
    requires Answered(w)
    ensures Answered(Countdown(w, d, phase).state)
  {
    var o := Loop(w, d, phase);
    AnsweredLoop(w, d, phase);
    if o.state.paused {
      AnsweredPause(o.state);
    }
  }

  lemma AnsweredStation(w: State, left: int, s: Settings)
    requires Answered(w)
    ensures Answered(Station(w, left, s))
  {
    var w1 := Emit(w, Remaining(left));
    AnsweredCountdown(Emit(w1, Info(ActiveInfo)), s.duration, Active);
    AnsweredCountdown(Emit(DurationCountdown(w1, s), Info(CoolDownInfo)), s.breakDuration, Cooldown);
  }

  /** When the host has a "go on" reply for every second in which the pause
      button is clicked, however many "wait" replies come between them, the
      run does not hang: it reaches `endTimer`. */
  lemma EventuallyAnsweredRunEnds(clicks: seq<nat>, replies: seq<bool>, s: Settings)
    requires PendingPauses(clicks) <= Falses(replies)
    ensures !Run(PauseProtocol.Start(clicks, replies), s).blocked
  {
    var w := PauseProtocol.Start(clicks, replies);
    var step := StationStep(s);
    forall v: State, left: int | Answered(v)
      ensures Answered(step(v, left))
    {
      AnsweredStation(v, left, s);
    }
    StationsIterate(w, s.numRepeats, s);
    IterateKeep(Answered, step, w, s.numRepeats);
  }
}
