/** Facts about the single steps of a run: emitting an event, the pause
    button, the one-second wait, the pause handshake and a tick's action. */
module StepFacts {
  import opened Schedule

  /** Kinds of event a countdown may produce. */
  predicate CountdownKind(k: Kind)
  {
    k == ShownKind || k == ProgressKind || k == BeepKind || k == PauseSentKind || k == PauseWaitedKind
  }

  /** The control part of a state: everything but the trace. */
  function Control(w: State): (r: State) { w.(trace := []) }

  predicate NoClicks(clicks: seq<nat>) { forall i :: 0 <= i < |clicks| ==> clicks[i] == 0 }

  lemma OnlySnoc(t: seq<Event>, e: Event, k: Kind)
    ensures Only(t + [e], k) == Only(t, k) + (if KindOf(e) == k then [e] else [])
  {
    assert (t + [e])[..|t|] == t;
  }

  lemma EmitOnly(w: State, e: Event)
    ensures forall k :: Only(Emit(w, e).trace, k) == Only(w.trace, k) + (if !w.blocked && KindOf(e) == k then [e] else [])
  {
    forall k ensures Only(Emit(w, e).trace, k) == Only(w.trace, k) + (if !w.blocked && KindOf(e) == k then [e] else []) {
      if !w.blocked {
        OnlySnoc(w.trace, e, k);
      }
    }
  }

  lemma PressTimesFacts(w: State, n: nat)
    ensures var r := PressTimes(w, n);
      && r.paused == (w.paused || n > 0)
      && r.clicks == w.clicks && r.replies == w.replies && r.blocked == w.blocked
      && forall k :: k != PauseSentKind ==> Only(r.trace, k) == Only(w.trace, k)
  {
    PressTimesControl(w, n);
    forall k | k != PauseSentKind ensures Only(PressTimes(w, n).trace, k) == Only(w.trace, k) {
      PressTimesKeeps(w, n, k);
    }
  }

  lemma {:induction false} PressTimesControl(w: State, n: nat)
    ensures var r := PressTimes(w, n);
      && r.paused == (w.paused || n > 0)
      && r.clicks == w.clicks && r.replies == w.replies && r.blocked == w.blocked
    decreases n
  {
    if n > 0 {
      PressTimesControl(Press(w), n - 1);
    }
  }

  lemma {:induction false} PressTimesKeeps(w: State, n: nat, k: Kind)
    requires k != PauseSentKind
    ensures Only(PressTimes(w, n).trace, k) == Only(w.trace, k)
    decreases n
  {
    if n > 0 {
      OnlySnoc(w.trace, PauseSent, k);
      PressTimesKeeps(Press(w), n - 1, k);
    }
  }

  lemma SleepFacts(w: State)
    ensures var r := Sleep(w);
      && (w.paused ==> r.paused)
      && r.replies == w.replies && r.blocked == w.blocked
      && forall k :: k != PauseSentKind ==> Only(r.trace, k) == Only(w.trace, k)
  {
    if !w.blocked && |w.clicks| > 0 {
      PressTimesFacts(w.(clicks := w.clicks[1..]), w.clicks[0]);
    }
  }

  lemma PauseWaitFacts(w: State)
    ensures var r := PauseWait(w);
      && r.clicks == w.clicks
      && (w.blocked ==> r == w)
      && forall k :: k != PauseWaitedKind ==> Only(r.trace, k) == Only(w.trace, k)
  {
    forall k | k != PauseWaitedKind ensures Only(PauseWait(w).trace, k) == Only(w.trace, k) {
      PauseWaitKeeps(w, k);
    }
  }

  lemma ActionFacts(w: State, second: nat, phase: Phase)
    requires !w.blocked
    ensures var r := Action(w, second, phase);
      && r.paused == w.paused && r.clicks == w.clicks && r.replies == w.replies && !r.blocked
      && Only(r.trace, ShownKind) == Only(w.trace, ShownKind) + [Shown(second)]
      && |Only(r.trace, ProgressKind)| == |Only(w.trace, ProgressKind)| + 1
      && |Only(r.trace, BeepKind)| == |Only(w.trace, BeepKind)| + (if phase == Cooldown then 1 else 0)
      && forall k :: !CountdownKind(k) ==> Only(r.trace, k) == Only(w.trace, k)
  {
    var c := Callback(w, phase);
    if phase == Cooldown {
      EmitOnly(w, Beep);
      EmitOnly(Emit(w, Beep), Progress);
    } else {
      EmitOnly(w, Progress);
    }
    EmitOnly(c, Shown(second));
  }

  lemma PauseWaitKeeps(w: State, k: Kind)
    requires k != PauseWaitedKind
    ensures Only(PauseWait(w).trace, k) == Only(w.trace, k)
  {
    if !w.blocked && |w.replies| > 0 {
      OnlySnoc(w.trace, PauseWaited(w.replies[0]), k);
    }
  }

  lemma Regroup<T>(a: seq<T>, b: seq<T>, c: seq<T>)
    ensures a + b + c == a + (b + c)
  {
  }

  lemma EmitKind(w: State, e: Event, k: Kind)
    ensures Only(Emit(w, e).trace, k) == Only(w.trace, k) + (if !w.blocked && KindOf(e) == k then [e] else [])
  {
    if !w.blocked {
      OnlySnoc(w.trace, e, k);
    }
  }

  lemma EmitSame(w: State, e: Event)
    requires !w.blocked
    ensures Only(Emit(w, e).trace, KindOf(e)) == Only(w.trace, KindOf(e)) + [e]
  {
    EmitKind(w, e, KindOf(e));
  }

  lemma EmitOther(w: State, e: Event, k: Kind)
    requires KindOf(e) != k
    ensures Only(Emit(w, e).trace, k) == Only(w.trace, k)
  {
    EmitKind(w, e, k);
  }

  /** Clicking the pause button several times during one second does what one
      click does, apart from repeating the notification. */
  lemma {:induction false} RepeatedClicksSameAsOne(w: State, n: nat)
    requires n >= 1
    ensures Control(PressTimes(w, n)) == Control(Press(w))
    decreases n
  {
    if n > 1 {
      RepeatedClicksSameAsOne(Press(w), n - 1);
    }
  }

  /** ... and each click sends its own notification. */
  lemma {:induction false} RepeatedClicksNotify(w: State, n: nat)
    ensures |Only(PressTimes(w, n).trace, PauseSentKind)| == |Only(w.trace, PauseSentKind)| + n
    decreases n
  {
    if n > 0 {
      OnlySnoc(w.trace, PauseSent, PauseSentKind);
      RepeatedClicksNotify(Press(w), n - 1);
    }
  }

  /** The clicks of one second, taken one more at a time. */
  lemma {:induction false} PressTimesSnoc(w: State, n: nat)
    ensures PressTimes(w, n + 1) == Press(PressTimes(w, n))
    decreases n
  {
    if n > 0 {
      PressTimesSnoc(Press(w), n - 1);
    }
  }
}
