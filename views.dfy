/** What the three text views of the page show, read off the trace: each view
    shows the text of the last event that set it, and nothing before the
    first such event. */
module Views {
  import opened Schedule
  import opened Text
  import StationFacts

  /** The texts of the stations-remaining view (`#remaining`), the counter
      (`#counter`) and the instruction view (`#info`). */
  datatype Texts = Texts(remaining: string, counter: string, info: string)

  /** What one event does to the views: `setRemainingText` sets the
      stations-remaining view, a shown second and `endTimer` set the counter,
      an instruction sets the instruction view; no other event changes them. */
  function Show(v: Texts, e: Event, words: int -> string, time: nat -> string): (r: Texts)
  {
    match e
    case Remaining(left) => v.(remaining := RemainingText(left, words))
    case Shown(second) => v.(counter := time(second))
    case Ended => v.(counter := "0")
    case Info(step) => v.(info := InstructionText(step))
    case _ => v
  }

  /** The views after the events of `t`, starting from empty ones. */
  function Screen(t: seq<Event>, words: int -> string, time: nat -> string): (r: Texts)
    decreases |t|
  {
    if t == [] then Texts("", "", "")
    else Show(Screen(t[..|t| - 1], words, time), t[|t| - 1], words, time)
  }

  /** One more event changes the views as `Show` says. */
  lemma Snoc(t: seq<Event>, e: Event, words: int -> string, time: nat -> string)
    ensures Screen(t + [e], words, time) == Show(Screen(t, words, time), e, words, time)
  {
    assert (t + [e])[..|t|] == t;
  }

  /** The stations-remaining view shows the text of the last stations-remaining
      event of the trace. */
  lemma {:induction false} RemainingViewLast(t: seq<Event>, words: int -> string, time: nat -> string, left: int)
    requires var o := Only(t, RemainingKind); o != [] && o[|o| - 1] == Remaining(left)
    ensures Screen(t, words, time).remaining == RemainingText(left, words)
    decreases |t|
  {
    var u := t[..|t| - 1];
    if !t[|t| - 1].Remaining? {
      assert Only(t, RemainingKind) == Only(u, RemainingKind);
      RemainingViewLast(u, words, time, left);
    }
  }

  /** The instruction view shows the text of the last instruction event of the trace. */
  lemma {:induction false} InfoViewLast(t: seq<Event>, words: int -> string, time: nat -> string, step: Instruction)
    requires var o := Only(t, InfoKind); o != [] && o[|o| - 1] == Info(step)
    ensures Screen(t, words, time).info == InstructionText(step)
    decreases |t|
  {
    var u := t[..|t| - 1];
    if !t[|t| - 1].Info? {
      assert Only(t, InfoKind) == Only(u, InfoKind);
      InfoViewLast(u, words, time, step);
    }
  }

  /** A trace that ends with "0" on the counter and then the closing
      instruction, after the whole stations-remaining schedule of `m` stations,
      leaves the three views as a finished run shows them. */
  lemma ScreenAtEnd(t: seq<Event>, info: seq<Event>, remaining: seq<Event>, m: int, words: int -> string, time: nat -> string)
    requires |t| >= 2 && t[|t| - 2..] == [Ended, Info(CompleteInfo)]
    requires Only(t, InfoKind) == info + [Info(CompleteInfo)]
    requires m > 0 ==> Only(t, RemainingKind) == remaining + RemainingSchedule(m)
    ensures var v := Screen(t, words, time);
      && v.counter == "0"
      && v.info == InstructionText(CompleteInfo)
      && (m > 0 ==> v.remaining == NoneText)
  {
    var n := |t|;
    assert t[n - 2] == Ended && t[n - 1] == Info(CompleteInfo) by {
      assert t[n - 2..][0] == t[n - 2] && t[n - 2..][1] == t[n - 1];
    }
    assert t[..n - 1][n - 2] == Ended;
    InfoViewLast(t, words, time, CompleteInfo);
    if m > 0 {
      StationFacts.RemainingScheduleEnds(m);
      var o := Only(t, RemainingKind);
      assert o[|o| - 1] == RemainingSchedule(m)[2 * m - 1];
      RemainingViewLast(t, words, time, 0);
    }
  }

  /** When a run finishes, the counter shows "0", the instruction view the
      closing instruction, and, if there was a station, the stations-remaining
      view "No more stations". */
  lemma FinishedRunViews(w: State, s: Settings, words: int -> string, time: nat -> string)
    requires !Run(w, s).blocked
    ensures var v := Screen(Run(w, s).trace, words, time);
      && v.counter == "0"
      && v.info == InstructionText(CompleteInfo)
      && (s.numRepeats > 0 ==> v.remaining == NoneText)
  {
    StationFacts.RunComplete(w, s);
    ScreenAtEnd(Run(w, s).trace, Only(w.trace, InfoKind) + InfoSchedule(s.numRepeats),
      Only(w.trace, RemainingKind), s.numRepeats, words, time);
  }
}
