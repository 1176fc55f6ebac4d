/** What the station loop of the `start-timer` handler and a whole run do:
    the seconds shown, the stations-remaining settings, the instructions, the
    cues, and how the run ends. */
module StationFacts {
  import opened Schedule
  import opened StepFacts
  import opened CountdownFacts

  /** Once a request hangs, nothing in a station happens. */
  lemma StationHangs(w: State, left: int, s: Settings)
    requires w.blocked
    ensures DurationCountdown(w, s) == w && BreakDurationCountdown(w, s) == w
    ensures CountdownAction(w, s) == w && Station(w, left, s) == w
  {
    CountdownEffect(Emit(w, Info(ActiveInfo)), s.duration, Active);
    CountdownEffect(Emit(w, Info(CoolDownInfo)), s.breakDuration, Cooldown);
  }

  /** `durationCountdown` sets the active instruction ... */
  lemma DurationInfo(w: State, s: Settings)
    requires !w.blocked
    ensures Only(DurationCountdown(w, s).trace, InfoKind) == Only(w.trace, InfoKind) + [Info(ActiveInfo)]
  {
    EmitSame(w, Info(ActiveInfo));
    CountdownKeeps(Emit(w, Info(ActiveInfo)), s.duration, Active, InfoKind);
  }

  /** ... and no stations-remaining text, and does not end the run. */
  lemma DurationKeeps(w: State, s: Settings, k: Kind)
    requires k == RemainingKind || k == EndedKind
    ensures Only(DurationCountdown(w, s).trace, k) == Only(w.trace, k)
  {
    var w1 := Emit(w, Info(ActiveInfo));
    EmitOther(w, Info(ActiveInfo), k);
    assert !CountdownKind(k);
    CountdownKeeps(w1, s.duration, Active, k);
  }

  /** `breakDurationCountdown` sets the cooldown instruction ... */
  lemma BreakInfo(w: State, s: Settings)
    requires !w.blocked
    ensures Only(BreakDurationCountdown(w, s).trace, InfoKind) == Only(w.trace, InfoKind) + [Info(CoolDownInfo)]
  {
    EmitSame(w, Info(CoolDownInfo));
    CountdownKeeps(Emit(w, Info(CoolDownInfo)), s.breakDuration, Cooldown, InfoKind);
  }

  /** ... and no stations-remaining text, and does not end the run. */
  lemma BreakKeeps(w: State, s: Settings, k: Kind)
    requires k == RemainingKind || k == EndedKind
    ensures Only(BreakDurationCountdown(w, s).trace, k) == Only(w.trace, k)
  {
    var w1 := Emit(w, Info(CoolDownInfo));
    EmitOther(w, Info(CoolDownInfo), k);
    assert !CountdownKind(k);
    CountdownKeeps(w1, s.breakDuration, Cooldown, k);
  }

  lemma DurationReached(w: State, s: Settings)
    ensures !DurationCountdown(w, s).blocked ==> !w.blocked
  {
    CountdownReached(Emit(w, Info(ActiveInfo)), s.duration, Active);
  }

  lemma BreakReached(w: State, s: Settings)
    ensures !BreakDurationCountdown(w, s).blocked ==> !w.blocked
  {
    CountdownReached(Emit(w, Info(CoolDownInfo)), s.breakDuration, Cooldown);
  }

  /** `durationCountdown`, when the host lets it finish, shows every second of
      `duration` ... */
  lemma DurationShows(w: State, s: Settings)
    requires !DurationCountdown(w, s).blocked
    ensures Only(DurationCountdown(w, s).trace, ShownKind) == Only(w.trace, ShownKind) + Shows(s.duration, 0)
  {
    EmitOther(w, Info(ActiveInfo), ShownKind);
    CountdownShowsAll(Emit(w, Info(ActiveInfo)), s.duration, Active);
  }

  /** ... and plays no cue. */
  lemma DurationBeeps(w: State, s: Settings)
    requires !DurationCountdown(w, s).blocked
    ensures |Only(DurationCountdown(w, s).trace, BeepKind)| == |Only(w.trace, BeepKind)|
  {
    EmitOther(w, Info(ActiveInfo), BeepKind);
    CountdownBeepsAll(Emit(w, Info(ActiveInfo)), s.duration, Active);
  }

  /** `breakDurationCountdown`, when the host lets it finish, shows every
      second of `breakDuration` ... */
  lemma BreakShows(w: State, s: Settings)
    requires !BreakDurationCountdown(w, s).blocked
    ensures Only(BreakDurationCountdown(w, s).trace, ShownKind) == Only(w.trace, ShownKind) + Shows(s.breakDuration, 0)
  {
    EmitOther(w, Info(CoolDownInfo), ShownKind);
    CountdownShowsAll(Emit(w, Info(CoolDownInfo)), s.breakDuration, Cooldown);
  }

  /** ... and plays the cue once for each. */
  lemma BreakBeeps(w: State, s: Settings)
    requires !BreakDurationCountdown(w, s).blocked
    ensures |Only(BreakDurationCountdown(w, s).trace, BeepKind)| == |Only(w.trace, BeepKind)| + Max0(s.breakDuration)
  {
    EmitOther(w, Info(CoolDownInfo), BeepKind);
    CountdownBeepsAll(Emit(w, Info(CoolDownInfo)), s.breakDuration, Cooldown);
  }

  lemma CountdownActionReached(w: State, s: Settings)
    ensures !CountdownAction(w, s).blocked ==> !DurationCountdown(w, s).blocked && !w.blocked
  {
    BreakReached(DurationCountdown(w, s), s);
    DurationReached(w, s);
  }

  /** Two events appended one at a time are the pair appended at once. */
  lemma AppendPair(o: seq<Event>, a: Event, b: Event)
    ensures o + [a] + [b] == o + [a, b]
  {
  }

  /** `countdownAction` gives the two instructions, in order ... */
  lemma CountdownActionInfo(w: State, s: Settings)
    requires !CountdownAction(w, s).blocked
    ensures Only(CountdownAction(w, s).trace, InfoKind) == Only(w.trace, InfoKind) + [Info(ActiveInfo), Info(CoolDownInfo)]
  {
    CountdownActionReached(w, s);
    DurationInfo(w, s);
    BreakInfo(DurationCountdown(w, s), s);
    AppendPair(Only(w.trace, InfoKind), Info(ActiveInfo), Info(CoolDownInfo));
  }

  /** ... sets no stations-remaining text and does not end the run ... */
  lemma CountdownActionKeeps(w: State, s: Settings, k: Kind)
    requires k == RemainingKind || k == EndedKind
    ensures Only(CountdownAction(w, s).trace, k) == Only(w.trace, k)
  {
    DurationKeeps(w, s, k);
    BreakKeeps(DurationCountdown(w, s), s, k);
  }

  /** ... shows both countdowns in full ... */
  lemma CountdownActionShows(w: State, s: Settings)
    requires !CountdownAction(w, s).blocked
    ensures Only(CountdownAction(w, s).trace, ShownKind) == Only(w.trace, ShownKind) + Shows(s.duration, 0) + Shows(s.breakDuration, 0)
  {
    CountdownActionReached(w, s);
    DurationShows(w, s);
    BreakShows(DurationCountdown(w, s), s);
  }

  /** ... and plays the cue in the second only. */
  lemma CountdownActionBeeps(w: State, s: Settings)
    requires !CountdownAction(w, s).blocked
    ensures |Only(CountdownAction(w, s).trace, BeepKind)| == |Only(w.trace, BeepKind)| + Max0(s.breakDuration)
  {
    CountdownActionReached(w, s);
    DurationBeeps(w, s);
    BreakBeeps(DurationCountdown(w, s), s);
  }

  lemma StationReached(w: State, left: int, s: Settings)
    ensures var w1 := Emit(w, Remaining(left));
      !Station(w, left, s).blocked ==> !CountdownAction(w1, s).blocked && !w1.blocked && !w.blocked
  {
    CountdownActionReached(Emit(w, Remaining(left)), s);
  }

  /** A station that the host lets finish shows both of its countdowns in full ... */
  lemma StationShows(w: State, left: int, s: Settings)
    requires !Station(w, left, s).blocked
    ensures Only(Station(w, left, s).trace, ShownKind)
      == Only(w.trace, ShownKind) + Shows(s.duration, 0) + Shows(s.breakDuration, 0)
  {
    var w1 := Emit(w, Remaining(left));
    StationReached(w, left, s);
    EmitOther(w, Remaining(left), ShownKind);
    CountdownActionShows(w1, s);
    EmitOther(CountdownAction(w1, s), Remaining(left - 1), ShownKind);
  }

  /** ... plays the cue once per second of its cooldown ... */
  lemma StationBeeps(w: State, left: int, s: Settings)
    requires !Station(w, left, s).blocked
    ensures |Only(Station(w, left, s).trace, BeepKind)| == |Only(w.trace, BeepKind)| + Max0(s.breakDuration)
  {
    var w1 := Emit(w, Remaining(left));
    StationReached(w, left, s);
    EmitOther(w, Remaining(left), BeepKind);
    CountdownActionBeeps(w1, s);
    EmitOther(CountdownAction(w1, s), Remaining(left - 1), BeepKind);
  }

  /** ... sets the stations-remaining text for `left` and then for `left - 1` ... */
  lemma StationRemaining(w: State, left: int, s: Settings)
    requires !Station(w, left, s).blocked
    ensures Only(Station(w, left, s).trace, RemainingKind) == Only(w.trace, RemainingKind)
      + [Remaining(left), Remaining(left - 1)]
  {
    var w1 := Emit(w, Remaining(left));
    StationReached(w, left, s);
    EmitSame(w, Remaining(left));
    CountdownActionKeeps(w1, s, RemainingKind);
    EmitSame(CountdownAction(w1, s), Remaining(left - 1));
    AppendPair(Only(w.trace, RemainingKind), Remaining(left), Remaining(left - 1));
  }

  /** ... and gives the active, then the cooldown instruction. */
  lemma StationInfo(w: State, left: int, s: Settings)
    requires !Station(w, left, s).blocked
    ensures Only(Station(w, left, s).trace, InfoKind) == Only(w.trace, InfoKind) + [Info(ActiveInfo), Info(CoolDownInfo)]
  {
    var w1 := Emit(w, Remaining(left));
    StationReached(w, left, s);
    EmitOther(w, Remaining(left), InfoKind);
    CountdownActionInfo(w1, s);
    EmitOther(CountdownAction(w1, s), Remaining(left - 1), InfoKind);
  }

  /** A station never ends the run. */
  lemma StationNotEnded(w: State, left: int, s: Settings)
    ensures Only(Station(w, left, s).trace, EndedKind) == Only(w.trace, EndedKind)
  {
    var w1 := Emit(w, Remaining(left));
    EmitOther(w, Remaining(left), EndedKind);
    CountdownActionKeeps(w1, s, EndedKind);
    EmitOther(CountdownAction(w1, s), Remaining(left - 1), EndedKind);
  }

  /** The station loop runs its body once per station, from `n` down to 1. */
  lemma StationsStep(w: State, n: int, s: Settings)
    requires n > 0 && !w.blocked
    ensures Stations(w, n, s) == Stations(Station(w, n, s), n - 1, s)
  {
  }

  /** Once a request hangs, the station loop does nothing more. */
  lemma {:induction false} StationsReached(w: State, n: int, s: Settings)
    ensures w.blocked ==> Stations(w, n, s) == w
    ensures !Stations(w, n, s).blocked ==> !w.blocked
  {
  }

  /** The station loop with its body left abstract: `step(w, left)` is one
      pass for `stationsLeft == left`. The facts about the loop are proved
      once for any body, then applied to `Station`. */
  function Iterate(step: (State, int) -> State, w: State, n: int): (r: State)
    decreases Max0(n)
  {
    if n <= 0 || w.blocked then w else Iterate(step, step(w, n), n - 1)
  }

  function StationStep(s: Settings): (State, int) -> State
  {
    (v: State, left: int) => Station(v, left, s)
  }

  lemma {:induction false} StationsIterate(w: State, n: int, s: Settings)
    ensures Stations(w, n, s) == Iterate(StationStep(s), w, n)
    decreases Max0(n)
  {
    if n > 0 && !w.blocked {
      StationsIterate(Station(w, n, s), n - 1, s);
    }
  }

  /** A property every pass keeps is kept by the whole loop. */
  lemma {:induction false} IterateKeep(keep: State -> bool, step: (State, int) -> State, w: State, n: int)
    requires keep(w)
    requires forall v: State, left: int {:trigger step(v, left)} :: keep(v) ==> keep(step(v, left))
    ensures keep(Iterate(step, w, n))
    decreases Max0(n)
  {
    if n > 0 && !w.blocked {
      IterateKeep(keep, step, step(w, n), n - 1);
    }
  }

  /** The views of a trace that every station extends by a part of its own:
      the seconds shown, the stations-remaining texts, the instructions. */
  datatype Tally = Seconds(duration: int, breakDuration: int) | Counters | Instructions

  /** What station `left` adds to the view. */
  function Part(t: Tally, left: int): (r: seq<Event>)
  {
    match t
    case Seconds(d, b) => Shows(d, 0) + Shows(b, 0)
    case Counters => [Remaining(left), Remaining(left - 1)]
    case Instructions => [Info(ActiveInfo), Info(CoolDownInfo)]
  }

  /** The parts of stations `n`, `n - 1`, …, 1, in that order. */
  function Accumulate(t: Tally, n: int): (r: seq<Event>)
    decreases Max0(n)
  {
    if n <= 0 then [] else Part(t, n) + Accumulate(t, n - 1)
  }

  /** What the loop adds to a view of the trace, when every pass adds its
      own part and the host lets the loop finish. */
  lemma {:induction false} IterateAccumulate(view: State -> seq<Event>, t: Tally, step: (State, int) -> State, w: State, n: int)
    requires !Iterate(step, w, n).blocked
    requires forall v: State, left: int {:trigger step(v, left)} ::
      !step(v, left).blocked ==> view(step(v, left)) == view(v) + Part(t, left)
    ensures view(Iterate(step, w, n)) == view(w) + Accumulate(t, n)
    decreases Max0(n)
  {
    if n > 0 {
      IterateAccumulate(view, t, step, step(w, n), n - 1);
      Regroup(view(w), Part(t, n), Accumulate(t, n - 1));
    }
  }

  /** What the loop adds to a count, when every pass adds `c`. */
  lemma {:induction false} IterateCount(count: State -> int, c: nat, step: (State, int) -> State, w: State, n: int)
    requires !Iterate(step, w, n).blocked
    requires forall v: State, left: int {:trigger step(v, left)} ::
      !step(v, left).blocked ==> count(step(v, left)) == count(v) + c
    ensures count(Iterate(step, w, n)) == count(w) + Max0(n) * c
    decreases Max0(n)
  {
    if n > 0 {
      IterateCount(count, c, step, step(w, n), n - 1);
      MulStep(n, c);
    }
  }

  lemma MulStep(n: int, b: nat)
    requires n > 0
    ensures Max0(n) * b == b + Max0(n - 1) * b
  {
    assert Max0(n) == 1 + Max0(n - 1);
  }

  lemma {:induction false} RunDisplayAccumulates(n: int, d: int, b: int)
    ensures Accumulate(Seconds(d, b), n) == RunDisplay(n, d, b)
    decreases Max0(n)
  {
    if n > 0 {
      RunDisplayAccumulates(n - 1, d, b);
      Regroup(Shows(d, 0), Shows(b, 0), RunDisplay(n - 1, d, b));
    }
  }

  lemma {:induction false} RemainingAccumulates(n: int)
    ensures Accumulate(Counters, n) == RemainingSchedule(n)
    decreases Max0(n)
  {
    if n > 0 {
      RemainingAccumulates(n - 1);
    }
  }

  lemma {:induction false} InfoAccumulates(n: int)
    ensures Accumulate(Instructions, n) == InfoSchedule(n)
    decreases Max0(n)
  {
    if n > 0 {
      InfoAccumulates(n - 1);
    }
  }

  /** The station loop, run to its end, shows every second of every
      station's two countdowns, in order ... */
  lemma StationsShows(w: State, n: int, s: Settings)
    requires !Stations(w, n, s).blocked
    ensures Only(Stations(w, n, s).trace, ShownKind) == Only(w.trace, ShownKind) + RunDisplay(n, s.duration, s.breakDuration)
  {
    var view := (v: State) => Only(v.trace, ShownKind);
    var t := Seconds(s.duration, s.breakDuration);
    var step := StationStep(s);
    forall v: State, left: int | !step(v, left).blocked
      ensures view(step(v, left)) == view(v) + Part(t, left)
    {
      StationShows(v, left, s);
    }
    StationsIterate(w, n, s);
    IterateAccumulate(view, t, step, w, n);
    RunDisplayAccumulates(n, s.duration, s.breakDuration);
  }

  /** ... counts the stations-remaining text down from `n` to 0 ... */
  lemma StationsRemaining(w: State, n: int, s: Settings)
    requires !Stations(w, n, s).blocked
    ensures Only(Stations(w, n, s).trace, RemainingKind) == Only(w.trace, RemainingKind) + RemainingSchedule(n)
  {
    var view := (v: State) => Only(v.trace, RemainingKind);
    var step := StationStep(s);
    forall v: State, left: int | !step(v, left).blocked
      ensures view(step(v, left)) == view(v) + Part(Counters, left)
    {
      StationRemaining(v, left, s);
    }
    StationsIterate(w, n, s);
    IterateAccumulate(view, Counters, step, w, n);
    RemainingAccumulates(n);
  }

  /** ... gives the two instructions of every station ... */
  lemma StationsInfo(w: State, n: int, s: Settings)
    requires !Stations(w, n, s).blocked
    ensures Only(Stations(w, n, s).trace, InfoKind) == Only(w.trace, InfoKind) + InfoSchedule(n)
  {
    var view := (v: State) => Only(v.trace, InfoKind);
    var step := StationStep(s);
    forall v: State, left: int | !step(v, left).blocked
      ensures view(step(v, left)) == view(v) + Part(Instructions, left)
    {
      StationInfo(v, left, s);
    }
    StationsIterate(w, n, s);
    IterateAccumulate(view, Instructions, step, w, n);
    InfoAccumulates(n);
  }

  /** ... plays the cue once per second of every cooldown ... */
  lemma StationsBeeps(w: State, n: int, s: Settings)
    requires !Stations(w, n, s).blocked
    ensures |Only(Stations(w, n, s).trace, BeepKind)| == |Only(w.trace, BeepKind)| + Max0(n) * Max0(s.breakDuration)
  {
    var count := (v: State) => |Only(v.trace, BeepKind)|;
    var step := StationStep(s);
    forall v: State, left: int | !step(v, left).blocked
      ensures count(step(v, left)) == count(v) + Max0(s.breakDuration)
    {
      StationBeeps(v, left, s);
    }
    StationsIterate(w, n, s);
    IterateCount(count, Max0(s.breakDuration), step, w, n);
  }

  /** ... and never ends the run itself. */
  lemma StationsNotEnded(w: State, n: int, s: Settings)
    ensures Only(Stations(w, n, s).trace, EndedKind) == Only(w.trace, EndedKind)
  {
    var ended := Only(w.trace, EndedKind);
    var keep := (v: State) => Only(v.trace, EndedKind) == ended;
    var step := StationStep(s);
    forall v: State, left: int | keep(v)
      ensures keep(step(v, left))
    {
      StationNotEnded(v, left, s);
    }
    StationsIterate(w, n, s);
    IterateKeep(keep, step, w, n);
  }

  /** How many seconds a run of `n` stations shows. */
  lemma {:induction false} RunDisplayLength(n: int, d: int, b: int)
    ensures |RunDisplay(n, d, b)| == Max0(n) * (Max0(d) + Max0(b))
    decreases Max0(n)
  {
    if n > 0 {
      RunDisplayLength(n - 1, d, b);
      ShowsCountDown(d, 0);
      ShowsCountDown(b, 0);
      MulStep(n, Max0(d) + Max0(b));
    }
  }

  /** The stations-remaining texts of a run, by position: n, n-1, n-1, n-2, …, 1, 0. */
  lemma {:induction false} RemainingScheduleAt(n: int)
    ensures |RemainingSchedule(n)| == 2 * Max0(n)
    ensures forall i :: 0 <= i < |RemainingSchedule(n)| ==>
      RemainingSchedule(n)[i] == Remaining(n - (i + 1) / 2)
    decreases Max0(n)
  {
    if n > 0 {
      RemainingScheduleAt(n - 1);
      var r := RemainingSchedule(n);
      forall i | 2 <= i < |r| ensures r[i] == Remaining(n - (i + 1) / 2) {
        assert r[i] == RemainingSchedule(n - 1)[i - 2];
        assert (i - 2 + 1) / 2 + 1 == (i + 1) / 2;
      }
    }
  }

  /** The last stations-remaining text of a run with at least one station is "No more stations". */
  lemma RemainingScheduleEnds(n: int)
    requires n > 0
    ensures |RemainingSchedule(n)| == 2 * n
    ensures RemainingSchedule(n)[0] == Remaining(n)
    ensures RemainingSchedule(n)[2 * n - 1] == Remaining(0)
  {
    RemainingScheduleAt(n);
    assert (2 * n - 1 + 1) / 2 == n;
  }

  /** The instruction texts of a run alternate, the active one first. */
  lemma {:induction false} InfoScheduleAt(n: int)
    ensures |InfoSchedule(n)| == 2 * Max0(n)
    ensures forall i :: 0 <= i < |InfoSchedule(n)| ==>
      InfoSchedule(n)[i] == Info(if i % 2 == 0 then ActiveInfo else CoolDownInfo)
    decreases Max0(n)
  {
    if n > 0 {
      InfoScheduleAt(n - 1);
      var r := InfoSchedule(n);
      forall i | 2 <= i < |r| ensures r[i] == Info(if i % 2 == 0 then ActiveInfo else CoolDownInfo) {
        assert r[i] == InfoSchedule(n - 1)[i - 2];
        assert (i - 2) % 2 == i % 2;
      }
    }
  }

  lemma EndTimerFacts(w: State)
    ensures var r := EndTimer(w);
      && r.blocked == w.blocked
      && (!w.blocked ==> |r.trace| >= 2 && r.trace[|r.trace| - 2] == Ended && r.trace[|r.trace| - 1] == Info(CompleteInfo))
      && Only(r.trace, InfoKind) == Only(w.trace, InfoKind) + (if w.blocked then [] else [Info(CompleteInfo)])
      && Only(r.trace, EndedKind) == Only(w.trace, EndedKind) + (if w.blocked then [] else [Ended])
      && forall k :: k != InfoKind && k != EndedKind ==> Only(r.trace, k) == Only(w.trace, k)
  {
    EmitOnly(w, Ended);
    EmitOnly(Emit(w, Ended), Info(CompleteInfo));
  }

  /** A run that the host lets finish: every station's stations-remaining texts,
      instructions and seconds in order, the cue once per second of every
      cooldown, then, once and at the very end, the counter's "0" and the
      closing instruction. */
  lemma RunComplete(w: State, s: Settings)
    requires !Run(w, s).blocked
    ensures var r := Run(w, s);
      && !w.blocked
      && Only(r.trace, ShownKind) == Only(w.trace, ShownKind) + RunDisplay(s.numRepeats, s.duration, s.breakDuration)
      && Only(r.trace, RemainingKind) == Only(w.trace, RemainingKind) + RemainingSchedule(s.numRepeats)
      && Only(r.trace, InfoKind) == Only(w.trace, InfoKind) + InfoSchedule(s.numRepeats) + [Info(CompleteInfo)]
      && |Only(r.trace, BeepKind)| == |Only(w.trace, BeepKind)| + Max0(s.numRepeats) * Max0(s.breakDuration)
      && Only(r.trace, EndedKind) == Only(w.trace, EndedKind) + [Ended]
      && |r.trace| >= 2 && r.trace[|r.trace| - 2..] == [Ended, Info(CompleteInfo)]
  {
    var v := Stations(w, s.numRepeats, s);
    StationsReached(w, s.numRepeats, s);
    StationsShows(w, s.numRepeats, s);
    StationsRemaining(w, s.numRepeats, s);
    StationsInfo(w, s.numRepeats, s);
    StationsBeeps(w, s.numRepeats, s);
    StationsNotEnded(w, s.numRepeats, s);
    EndTimerAfter(w, v, s);
  }

  /** `endTimer` after a station loop that left `v`: the loop's contributions
      to the trace are kept, and the two closing events come last. */
  lemma EndTimerAfter(w: State, v: State, s: Settings)
    requires !v.blocked
    requires Only(v.trace, ShownKind) == Only(w.trace, ShownKind) + RunDisplay(s.numRepeats, s.duration, s.breakDuration)
    requires Only(v.trace, RemainingKind) == Only(w.trace, RemainingKind) + RemainingSchedule(s.numRepeats)
    requires Only(v.trace, InfoKind) == Only(w.trace, InfoKind) + InfoSchedule(s.numRepeats)
    requires |Only(v.trace, BeepKind)| == |Only(w.trace, BeepKind)| + Max0(s.numRepeats) * Max0(s.breakDuration)
    requires Only(v.trace, EndedKind) == Only(w.trace, EndedKind)
    ensures var r := EndTimer(v);
      && Only(r.trace, ShownKind) == Only(w.trace, ShownKind) + RunDisplay(s.numRepeats, s.duration, s.breakDuration)
      && Only(r.trace, RemainingKind) == Only(w.trace, RemainingKind) + RemainingSchedule(s.numRepeats)
      && Only(r.trace, InfoKind) == Only(w.trace, InfoKind) + InfoSchedule(s.numRepeats) + [Info(CompleteInfo)]
      && |Only(r.trace, BeepKind)| == |Only(w.trace, BeepKind)| + Max0(s.numRepeats) * Max0(s.breakDuration)
      && Only(r.trace, EndedKind) == Only(w.trace, EndedKind) + [Ended]
      && |r.trace| >= 2 && r.trace[|r.trace| - 2..] == [Ended, Info(CompleteInfo)]
  {
    var r := EndTimer(v);
    EndTimerFacts(v);
    assert Only(r.trace, ShownKind) == Only(v.trace, ShownKind);
    assert Only(r.trace, RemainingKind) == Only(v.trace, RemainingKind);
    assert Only(r.trace, BeepKind) == Only(v.trace, BeepKind);
    assert r.trace[|r.trace| - 2..] == [r.trace[|r.trace| - 2], r.trace[|r.trace| - 1]];
  }

  /** A run whose host leaves a pause unanswered never ends. */
  lemma RunHangs(w: State, s: Settings)
    requires Run(w, s).blocked
    ensures Only(Run(w, s).trace, EndedKind) == Only(w.trace, EndedKind)
  {
    EndTimerFacts(Stations(w, s.numRepeats, s));
    StationsNotEnded(w, s.numRepeats, s);
  }

  /** With no stations to run the timer ends at once. */
  lemma NoStations(w: State, s: Settings)
    requires s.numRepeats <= 0 && !w.blocked
    ensures Run(w, s).trace == w.trace + [Ended, Info(CompleteInfo)]
  {
  }
}
