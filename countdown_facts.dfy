/** What one `countdown` does: the seconds it shows, the cues it plays, where
    it stops, and what it leaves alone. */
module CountdownFacts {
  import opened Schedule
  import opened StepFacts

  lemma {:induction false} ShowsStep(from: int, to: int)
    requires to < from && 0 < from
    ensures Shows(from, to) == [Shown(from)] + Shows(from - 1, to)
  {
  }

  /** One unpaused iteration of the loop: the tick's effects, then the wait. */
  lemma TickFacts(w: State, second: int, phase: Phase)
    requires second > 0 && !w.blocked && !w.paused
    ensures var z := Sleep(Action(w, second, phase));
      && z.replies == w.replies && !z.blocked
      && Only(z.trace, ShownKind) == Only(w.trace, ShownKind) + [Shown(second)]
      && |Only(z.trace, ProgressKind)| == |Only(w.trace, ProgressKind)| + 1
      && |Only(z.trace, BeepKind)| == |Only(w.trace, BeepKind)| + (if phase == Cooldown then 1 else 0)
      && forall k :: !CountdownKind(k) ==> Only(z.trace, k) == Only(w.trace, k)
  {
    ActionFacts(w, second, phase);
    SleepFacts(Action(w, second, phase));
  }

  lemma TickShown(w: State, second: int, phase: Phase)
    requires second > 0 && !w.blocked && !w.paused
    ensures Only(Sleep(Action(w, second, phase)).trace, ShownKind) == Only(w.trace, ShownKind) + [Shown(second)]
  {
    TickFacts(w, second, phase);
  }

  lemma TickCues(w: State, second: int, phase: Phase)
    requires second > 0 && !w.blocked && !w.paused
    ensures var z := Sleep(Action(w, second, phase));
      && |Only(z.trace, ProgressKind)| == |Only(w.trace, ProgressKind)| + 1
      && |Only(z.trace, BeepKind)| == |Only(w.trace, BeepKind)| + (if phase == Cooldown then 1 else 0)
  {
    TickFacts(w, second, phase);
  }

  /** One turn of the loop, from `w` at `second` to `v` at `next`. */
  lemma LoopTurn(w: State, v: State, second: int, next: int, phase: Phase)
    requires second > 0 && !w.blocked
    requires v == if w.paused then PauseWait(w) else Sleep(Action(w, second, phase))
    requires next == if w.paused then second else second - 1
    ensures Loop(v, next, phase) == Loop(w, second, phase)
  {
  }

  /** The loop's exit. */
  lemma LoopDone(w: State, second: int, phase: Phase)
    requires second <= 0 || w.blocked
    ensures Loop(w, second, phase) == Outcome(w, second)
  {
  }

  // ---------------------------------------------------------------------------
  // The tick loop with its two turns left abstract: `tick(v, n)` is an
  // unpaused turn at `currentSecond == n`, `pause(v)` a paused one. The facts
  // about the loop are proved once here, from what one turn does.

  /** A paused turn uses up one of the host's replies, or hangs. */
  ghost predicate Settles(pause: State -> State)
  {
    forall v: State :: !v.blocked && v.paused ==>
      |pause(v).replies| < |v.replies| || (pause(v).blocked && pause(v).replies == v.replies)
  }

  ghost function Spin(tick: (State, int) -> State, pause: State -> State, w: State, second: int): (o: Outcome)
    requires Settles(pause)
    decreases Max0(second), |w.replies|, !w.blocked
  {
    if second <= 0 || w.blocked then Outcome(w, second)
    else if w.paused then Spin(tick, pause, pause(w), second)
    else Spin(tick, pause, tick(w, second), second - 1)
  }

  /** The unpaused turn of `countdown` in `phase`. */
  function TickOf(phase: Phase): (State, int) -> State
  {
    (v: State, n: int) => if n > 0 then Sleep(Action(v, n, phase)) else v
  }

  lemma SettlesPauseWait()
    ensures Settles(PauseWait)
  {
  }

  /** `countdown`'s loop is the abstract loop with its own two turns. */
  lemma {:induction false} LoopSpin(w: State, second: int, phase: Phase)
    ensures Settles(PauseWait) && Loop(w, second, phase) == Spin(TickOf(phase), PauseWait, w, second)
    decreases Max0(second), |w.replies|, !w.blocked
  {
    SettlesPauseWait();
    if second <= 0 || w.blocked {
    } else if w.paused {
      LoopSpin(PauseWait(w), second, phase);
    } else {
      assert TickOf(phase)(w, second) == Sleep(Action(w, second, phase));
      LoopSpin(Sleep(Action(w, second, phase)), second - 1, phase);
    }
  }

  lemma {:induction false} SpinSecond(tick: (State, int) -> State, pause: State -> State, w: State, second: int)
    requires Settles(pause)
    ensures var o := Spin(tick, pause, w, second);
      && (w.blocked ==> o.state == w && o.second == second)
      && (second > 0 ==> 0 <= o.second <= second)
      && (second <= 0 ==> o.second == second && o.state == w)
      && (!o.state.blocked ==> o.second == (if second > 0 then 0 else second))
    decreases Max0(second), |w.replies|, !w.blocked
  {
    if second <= 0 || w.blocked {
    } else if w.paused {
      SpinSecond(tick, pause, pause(w), second);
    } else {
      SpinSecond(tick, pause, tick(w, second), second - 1);
    }
  }

  /** If every unpaused turn at `n` adds `Shown(n)` to `view` and every paused
      turn leaves it alone, the loop adds the seconds it went through. */
  lemma {:induction false} SpinShows(view: State -> seq<Event>, tick: (State, int) -> State, pause: State -> State, w: State, second: int)
    requires Settles(pause)
    requires forall v: State, n: int :: n > 0 && !v.blocked && !v.paused ==> view(tick(v, n)) == view(v) + [Shown(n)]
    requires forall v: State :: !v.blocked && v.paused ==> view(pause(v)) == view(v)
    ensures var o := Spin(tick, pause, w, second); view(o.state) == view(w) + Shows(second, o.second)
    decreases Max0(second), |w.replies|, !w.blocked
  {
    if second <= 0 || w.blocked {
    } else if w.paused {
      SpinShows(view, tick, pause, pause(w), second);
    } else {
      var z := tick(w, second);
      SpinShows(view, tick, pause, z, second - 1);
      SpinSecond(tick, pause, z, second - 1);
      var o := Spin(tick, pause, z, second - 1);
      ShowsSplice(second, o.second, view(w), view(z), view(o.state));
    }
  }

  /** If every unpaused turn adds `c` to `count` and every paused turn leaves
      it alone, the loop adds `c` per second it went through. */
  lemma {:induction false} SpinCount(count: State -> int, c: nat, tick: (State, int) -> State, pause: State -> State, w: State, second: int)
    requires Settles(pause)
    requires forall v: State, n: int :: n > 0 && !v.blocked && !v.paused ==> count(tick(v, n)) == count(v) + c
    requires forall v: State :: !v.blocked && v.paused ==> count(pause(v)) == count(v)
    ensures var o := Spin(tick, pause, w, second); count(o.state) == count(w) + c * |Shows(second, o.second)|
    decreases Max0(second), |w.replies|, !w.blocked
  {
    if second <= 0 || w.blocked {
    } else if w.paused {
      SpinCount(count, c, tick, pause, pause(w), second);
    } else {
      var z := tick(w, second);
      SpinCount(count, c, tick, pause, z, second - 1);
      SpinSecond(tick, pause, z, second - 1);
      var o := Spin(tick, pause, z, second - 1);
      CountSplice(second, o.second, c, count(w), count(z), count(o.state));
    }
  }

  /** A property every turn keeps holds after the loop. */
  lemma {:induction false} SpinKeep(keep: State -> bool, tick: (State, int) -> State, pause: State -> State, w: State, second: int)
    requires Settles(pause)
    requires forall v: State, n: int :: n > 0 && !v.blocked && !v.paused && keep(v) ==> keep(tick(v, n))
    requires forall v: State :: !v.blocked && v.paused && keep(v) ==> keep(pause(v))
    requires keep(w)
    ensures keep(Spin(tick, pause, w, second).state)
    decreases Max0(second), |w.replies|, !w.blocked
  {
    if second <= 0 || w.blocked {
    } else if w.paused {
      SpinKeep(keep, tick, pause, pause(w), second);
    } else {
      SpinKeep(keep, tick, pause, tick(w, second), second - 1);
    }
  }

  lemma ShowsSplice(second: int, stop: int, before: seq<Event>, middle: seq<Event>, after: seq<Event>)
    requires stop < second && 0 < second
    requires middle == before + [Shown(second)]
    requires after == middle + Shows(second - 1, stop)
    ensures after == before + Shows(second, stop)
  {
    ShowsStep(second, stop);
    Regroup(before, [Shown(second)], Shows(second - 1, stop));
  }

  lemma CountSplice(second: int, stop: int, c: nat, before: int, middle: int, after: int)
    requires stop < second && 0 < second
    requires middle == before + c
    requires after == middle + c * |Shows(second - 1, stop)|
    ensures after == before + c * |Shows(second, stop)|
  {
    ShowsStep(second, stop);
    assert |Shows(second, stop)| == 1 + |Shows(second - 1, stop)|;
  }

  // ---------------------------------------------------------------------------
  // The tick loop of `countdown`

  /** The tick loop never takes `currentSecond` below 0 (unless it starts
      there, when the body never runs), and it ends at 0 unless the host never
      answers a pause. */
  lemma LoopSecond(w: State, second: int, phase: Phase)
    ensures var o := Loop(w, second, phase);
      && (w.blocked ==> o.state == w && o.second == second)
      && (second > 0 ==> 0 <= o.second <= second)
      && (second <= 0 ==> o.second == second && o.state == w)
      && (!o.state.blocked ==> o.second == (if second > 0 then 0 else second))
  {
    LoopSpin(w, second, phase);
    SpinSecond(TickOf(phase), PauseWait, w, second);
  }

  /** The tick loop shows the seconds from `second` down to where it stops,
      one per tick, none skipped and none repeated, whatever the pauses. */
  lemma LoopShows(w: State, second: int, phase: Phase)
    ensures var o := Loop(w, second, phase);
      Only(o.state.trace, ShownKind) == Only(w.trace, ShownKind) + Shows(second, o.second)
  {
    var view := (v: State) => Only(v.trace, ShownKind);
    var tick := TickOf(phase);
    forall v: State, n: int | n > 0 && !v.blocked && !v.paused
      ensures view(tick(v, n)) == view(v) + [Shown(n)]
    {
      TickShown(v, n, phase);
    }
    forall v: State | !v.blocked && v.paused
      ensures view(PauseWait(v)) == view(v)
    {
      PauseWaitKeeps(v, ShownKind);
    }
    LoopSpin(w, second, phase);
    SpinShows(view, tick, PauseWait, w, second);
  }

  /** Each tick restarts the progress bar; only a cooldown tick plays the cue. */
  lemma LoopCues(w: State, second: int, phase: Phase)
    ensures var o := Loop(w, second, phase);
      && |Only(o.state.trace, ProgressKind)| == |Only(w.trace, ProgressKind)| + |Shows(second, o.second)|
      && |Only(o.state.trace, BeepKind)| == |Only(w.trace, BeepKind)| + (if phase == Cooldown then |Shows(second, o.second)| else 0)
  {
    LoopCount(w, second, phase, ProgressKind, 1);
    LoopCount(w, second, phase, BeepKind, if phase == Cooldown then 1 else 0);
  }

  lemma LoopCount(w: State, second: int, phase: Phase, k: Kind, c: nat)
    requires k == ProgressKind || k == BeepKind
    requires c == if k == ProgressKind || phase == Cooldown then 1 else 0
    ensures var o := Loop(w, second, phase);
      |Only(o.state.trace, k)| == |Only(w.trace, k)| + c * |Shows(second, o.second)|
  {
    var count := (v: State) => |Only(v.trace, k)|;
    var tick := TickOf(phase);
    forall v: State, n: int | n > 0 && !v.blocked && !v.paused
      ensures count(tick(v, n)) == count(v) + c
    {
      TickCues(v, n, phase);
    }
    forall v: State | !v.blocked && v.paused
      ensures count(PauseWait(v)) == count(v)
    {
      PauseWaitKeeps(v, k);
    }
    LoopSpin(w, second, phase);
    SpinCount(count, c, tick, PauseWait, w, second);
  }

  /** The tick loop sets no stations-remaining or instruction text and never ends the run. */
  lemma LoopNeutral(w: State, second: int, phase: Phase)
    ensures var o := Loop(w, second, phase);
      forall k :: !CountdownKind(k) ==> Only(o.state.trace, k) == Only(w.trace, k)
  {
    forall k | !CountdownKind(k)
      ensures Only(Loop(w, second, phase).state.trace, k) == Only(w.trace, k)
    {
      LoopKeeps(w, second, phase, k);
    }
  }

  lemma LoopKeeps(w: State, second: int, phase: Phase, k: Kind)
    requires !CountdownKind(k)
    ensures Only(Loop(w, second, phase).state.trace, k) == Only(w.trace, k)
  {
    var keep := (v: State) => Only(v.trace, k) == Only(w.trace, k);
    var tick := TickOf(phase);
    forall v: State, n: int | n > 0 && !v.blocked && !v.paused && keep(v)
      ensures keep(tick(v, n))
    {
      TickFacts(v, n, phase);
    }
    forall v: State | !v.blocked && v.paused && keep(v)
      ensures keep(PauseWait(v))
    {
      PauseWaitKeeps(v, k);
    }
    LoopSpin(w, second, phase);
    SpinKeep(keep, tick, PauseWait, w, second);
  }

  lemma {:induction false} ShowsCountDown(from: int, to: int)
    requires 0 <= to
    ensures |Shows(from, to)| == Max0(from - to)
    ensures forall i :: 0 <= i < |Shows(from, to)| ==> Shows(from, to)[i] == Shown(from - i)
    decreases Max0(from - to)
  {
    if from > to && from > 0 {
      ShowsCountDown(from - 1, to);
    }
  }

  /** `countdown(d)`: what the loop does, then the last pause check, which
      produces only the handshake. Unless the host leaves a pause unanswered,
      it shows d, d - 1, …, 1, runs the callback `d` times (the cue only in the
      cooldown) and leaves `currentSecond` at 0, or at `d` when `d <= 0`. */
  lemma CountdownEffect(w: State, d: int, phase: Phase)
    ensures var o := Countdown(w, d, phase);
      && (w.blocked ==> o.state == w)
      && (d > 0 ==> 0 <= o.second <= d)
      && (!o.state.blocked ==> o.second == (if d > 0 then 0 else d))
      && Only(o.state.trace, ShownKind) == Only(w.trace, ShownKind) + Shows(d, o.second)
      && (!o.state.blocked ==> Only(o.state.trace, ShownKind) == Only(w.trace, ShownKind) + Shows(d, 0))
      && |Only(o.state.trace, ProgressKind)| == |Only(w.trace, ProgressKind)| + |Shows(d, o.second)|
      && |Only(o.state.trace, BeepKind)| == |Only(w.trace, BeepKind)| + (if phase == Cooldown then |Shows(d, o.second)| else 0)
      && forall k :: !CountdownKind(k) ==> Only(o.state.trace, k) == Only(w.trace, k)
  {
    var l := Loop(w, d, phase);
    LoopSecond(w, d, phase);
    LoopShows(w, d, phase);
    LoopCues(w, d, phase);
    LoopNeutral(w, d, phase);
    PauseWaitFacts(l.state);
  }

  /** Unless the host leaves a pause unanswered, a countdown shows all of its
      seconds and plays the cue once per second of the cooldown only. */
  lemma CountdownComplete(w: State, d: int, phase: Phase)
    requires !Countdown(w, d, phase).state.blocked
    ensures var r := Countdown(w, d, phase).state;
      && !w.blocked
      && Only(r.trace, ShownKind) == Only(w.trace, ShownKind) + Shows(d, 0)
      && |Only(r.trace, BeepKind)| == |Only(w.trace, BeepKind)| + (if phase == Cooldown then Max0(d) else 0)
      && |Only(r.trace, ProgressKind)| == |Only(w.trace, ProgressKind)| + Max0(d)
  {
    CountdownEffect(w, d, phase);
    ShowsCountDown(d, 0);
  }

  lemma CountdownKeeps(w: State, d: int, phase: Phase, k: Kind)
    requires !CountdownKind(k)
    ensures Only(Countdown(w, d, phase).state.trace, k) == Only(w.trace, k)
  {
    CountdownEffect(w, d, phase);
  }

  lemma CountdownReached(w: State, d: int, phase: Phase)
    ensures !Countdown(w, d, phase).state.blocked ==> !w.blocked
  {
    CountdownEffect(w, d, phase);
  }

  lemma CountdownShowsAll(w: State, d: int, phase: Phase)
    requires !Countdown(w, d, phase).state.blocked
    ensures Only(Countdown(w, d, phase).state.trace, ShownKind) == Only(w.trace, ShownKind) + Shows(d, 0)
  {
    CountdownEffect(w, d, phase);
  }

  lemma CountdownBeepsAll(w: State, d: int, phase: Phase)
    requires !Countdown(w, d, phase).state.blocked
    ensures |Only(Countdown(w, d, phase).state.trace, BeepKind)| == |Only(w.trace, BeepKind)| + (if phase == Cooldown then Max0(d) else 0)
  {
    CountdownComplete(w, d, phase);
  }

  /** After the tick loop `countdown` checks the flag once more: if it is set,
      exactly one more handshake is made and its reply becomes the flag; if it
      is clear, nothing more happens. */
  lemma FinalPauseCheck(w: State, d: int, phase: Phase)
    ensures var l := Loop(w, d, phase).state; var r := Countdown(w, d, phase).state;
      && (!l.paused ==> r == l)
      && (l.paused && !r.blocked ==>
            && |l.replies| > 0 && r.paused == l.replies[0] && r.replies == l.replies[1..]
            && r.trace == l.trace + [PauseWaited(r.paused)])
  {
    var l := Loop(w, d, phase).state;
    LoopSecond(w, d, phase);
  }

  /** With nothing to count, `countdown` only makes its final pause check. */
  lemma ZeroCountdown(w: State, d: int, phase: Phase)
    requires d <= 0
    ensures Countdown(w, d, phase) == Outcome(if w.paused then PauseWait(w) else w, d)
  {
  }

}
