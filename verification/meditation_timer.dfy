/** The guided-meditation countdown (`IdentityTransformationTimer` in lkm.js):
    six fixed sections played one after another, with start, pause/resume,
    stop and a once-a-second tick, plus the "name: mm:ss" display text.

    One tick is one atomic step: the one-second pause the source inserts at a
    section change (while the section sound plays) is not modelled, so a tick
    that opens the next section leaves the timer unpaused. */
module MeditationTimer {
  import opened Common

  datatype Section = Section(name: string, duration: nat, description: string, sound: string)

  /** The section table. */
  const Sections: seq<Section> := [
    Section("Entering the Present Moment", 360,
      "Sit comfortably. Close your eyes. Place hands loosely on legs. Begin with deep breathing.", "low_bell"),
    Section("Recognizing the Old Self", 240,
      "Acknowledge old patterns that no longer serve you. Feel the weight of the old self.", "transition_up"),
    Section("Breathing Energy Into Possibility", 240,
      "Draw energy up your spine, charging your body with new possibilities.", "energy_rise"),
    Section("Rehearsing the New Self", 600,
      "Visualize yourself embodying your chosen qualities. Amplify elevated emotions.", "inspiration"),
    Section("Becoming That Identity", 300,
      "Anchor the new self into your body and mind. Merge with your new identity.", "transformation"),
    Section("Closing with Gratitude", 180,
      "Lock in the transformation with genuine gratitude. Return to the room.", "completion")]

  /** The total length of the sections from index `from` on. */
  function DurationFrom(from: nat): nat
    decreases |Sections| - from
  {
    if from >= |Sections| then 0 else Sections[from].duration + DurationFrom(from + 1)
  }

  /** `getTotalDuration`: the sum of all section durations, 32 minutes. */
  function TotalDuration(): (r: nat)
    ensures r == 1920
  {
    DurationFrom(0)
  }

  datatype TimerState = TimerState(running: bool, paused: bool, currentSection: nat, timeLeft: nat)

  /** What a tick reports: nothing, a display update, or the end of the session. */
  datatype Event = NoEvent | Update(section: nat, secondsLeft: nat) | Finish

  /** The state invariant: a running timer is inside a section and never has
      more time left than that section lasts. */
  predicate Inv(s: TimerState) {
    s.currentSection <= |Sections| &&
    (s.running ==> s.currentSection < |Sections| && s.timeLeft <= Sections[s.currentSection].duration)
  }

  const Initial := TimerState(false, false, 0, 0)

  /** `start`: only a stopped timer starts, at the first section. */
  function AfterStart(s: TimerState): TimerState {
    if s.running then s else TimerState(true, false, 0, Sections[0].duration)
  }

  /** `pauseResume`: flips `paused` while running. */
  function AfterPauseResume(s: TimerState): TimerState {
    if !s.running then s else s.(paused := !s.paused)
  }

  /** `stop`: the section and the time left stay as they were. */
  function AfterStop(s: TimerState): TimerState {
    s.(running := false, paused := false)
  }

  /** One tick of the interval: counts down, or moves on to the next section,
      or ends the session after the last one. */
  function AfterTick(s: TimerState): (TimerState, Event)
    requires Inv(s)
  {
    if !s.running || s.paused then (s, NoEvent)
    else if s.timeLeft > 0 then
      (s.(timeLeft := s.timeLeft - 1), Update(s.currentSection, s.timeLeft - 1))
    else if s.currentSection + 1 < |Sections| then
      var next := s.currentSection + 1;
      (s.(currentSection := next, timeLeft := Sections[next].duration), Update(next, Sections[next].duration))
    else
      (s.(running := false, paused := true, currentSection := s.currentSection + 1), Finish)
  }

  /** Every operation keeps the invariant. */
  lemma OperationsKeepInv(s: TimerState)
    requires Inv(s)
    ensures Inv(AfterStart(s)) && Inv(AfterPauseResume(s)) && Inv(AfterStop(s)) && Inv(AfterTick(s).0)
  {
  }

  /** The number of active ticks until the session ends: the seconds left in
      this section and in all later ones, plus one tick per section change and
      one for the finish. */
  function Remaining(s: TimerState): nat {
    if !s.running || s.currentSection >= |Sections| then 0
    else s.timeLeft + DurationFrom(s.currentSection + 1) + (|Sections| - s.currentSection)
  }

  /** Each active tick brings the end exactly one tick closer; ticks while
      stopped or paused change nothing. */
  lemma TickProgress(s: TimerState)
    requires Inv(s)
    ensures s.running && !s.paused ==> Remaining(AfterTick(s).0) + 1 == Remaining(s)
    ensures !s.running || s.paused ==> AfterTick(s).0 == s
  {
  }

  /** `n` ticks of an unpaused session. */
  function Run(s: TimerState, n: nat): TimerState
    requires Inv(s)
    decreases n
  {
    if n == 0 then s
    else
      OperationsKeepInv(s);
      Run(AfterTick(s).0, n - 1)
  }

  /** An unpaused session runs for exactly `Remaining` ticks and then stops. */
  lemma {:induction false} SessionEnds(s: TimerState, m: nat)
    requires Inv(s) && !s.paused
    ensures !Run(s, Remaining(s)).running
    ensures m < Remaining(s) ==> Run(s, m).running
    decreases Remaining(s)
  {
    if s.running {
      OperationsKeepInv(s);
      TickProgress(s);
      var t := AfterTick(s).0;
      assert !t.paused || !t.running;
      if t.running {
        SessionEnds(t, if m == 0 then 0 else m - 1);
      } else {
        assert Remaining(s) == 1;
        assert Run(t, 0) == t;
      }
    }
  }

  /** A session from `start` lasts the 1920 seconds of the sections plus six
      ticks for the five section changes and the finish. */
  lemma FullSessionTicks()
    ensures Remaining(AfterStart(Initial)) == 1926
    ensures !Run(AfterStart(Initial), 1926).running
    ensures Run(AfterStart(Initial), 1925).running
  {
    assert DurationFrom(0) == 1920;
    SessionEnds(AfterStart(Initial), 1925);
  }

  // ---------------------------------------------------------------------------
  // The timer object
  // ---------------------------------------------------------------------------

  class IdentityTransformationTimer {
    var running: bool
    var paused: bool
    var currentSection: nat
    var timeLeft: nat

    function State(): TimerState
      reads this
    {
      TimerState(running, paused, currentSection, timeLeft)
    }

    ghost predicate Valid()
      reads this
    {
      Inv(State())
    }

    constructor ()
      ensures Valid() && State() == Initial
    {
      running, paused, currentSection, timeLeft := false, false, 0, 0;
    }

    method Start()
      requires Valid()
      modifies this
      ensures Valid() && State() == AfterStart(old(State()))
    {
      if !running {
        running := true;
        paused := false;
        currentSection := 0;
        timeLeft := Sections[0].duration;
      }
    }

    method PauseResume()
      requires Valid()
      modifies this
      ensures Valid() && State() == AfterPauseResume(old(State()))
    {
      if !running {
        return;
      }
      paused := !paused;
    }

    method Stop()
      requires Valid()
      modifies this
      ensures Valid() && State() == AfterStop(old(State()))
    {
      running := false;
      paused := false;
    }

    /** The body of the interval callback in `runTimer`. */
    method Tick() returns (event: Event)
      requires Valid()
      modifies this
      ensures Valid()
      ensures (State(), event) == AfterTick(old(State()))
    {
      event := NoEvent;
      if running && !paused {
        if timeLeft > 0 {
          timeLeft := timeLeft - 1;
          event := Update(currentSection, timeLeft);
        } else {
          paused := true;
          currentSection := currentSection + 1;
          if currentSection < |Sections| {
            timeLeft := Sections[currentSection].duration;
            event := Update(currentSection, timeLeft);
            paused := false;
          } else {
            running := false;
            event := Finish;
          }
        }
      }
    }
  }

  // ---------------------------------------------------------------------------
  // The display
  // ---------------------------------------------------------------------------

  /** `n.toString().padStart(2, '0')`. */
  function Pad2(n: nat): (r: string)
    ensures |r| >= 2 && AllDigits(r)
    ensures n < 100 ==> |r| == 2
  {
    if n < 10 then "0" + Decimal(n) else Decimal(n)
  }

  /** The "mm:ss" part of `updateTimerDisplay`. */
  function Clock(seconds: nat): (r: string)
    ensures |r| >= 5 && r[|r| - 3] == ':'
    ensures AllDigits(r[..|r| - 3]) && AllDigits(r[|r| - 2..])
    ensures seconds < 6000 ==> |r| == 5
  {
    var m, s := Pad2(seconds / 60), Pad2(seconds % 60);
    assert (m + ":" + s)[..|m|] == m && (m + ":" + s)[|m| + 1..] == s;
    m + ":" + s
  }

  /** The text `updateTimerDisplay` shows for a section and the seconds left. */
  function DisplayText(section: nat, secondsLeft: nat): (r: string)
    requires section < |Sections|
    ensures |r| >= |Sections[section].name| + 2
    ensures r[..|Sections[section].name|] == Sections[section].name
    ensures ParseClock(r[|Sections[section].name| + 2..]) == Some(secondsLeft)
  {
    var name := Sections[section].name;
    ClockRoundTrip(secondsLeft);
    assert (name + ": " + Clock(secondsLeft))[..|name|] == name;
    assert (name + ": " + Clock(secondsLeft))[|name| + 2..] == Clock(secondsLeft);
    name + ": " + Clock(secondsLeft)
  }

  /** A leading zero does not change a digit string's value. */
  lemma {:induction false} LeadingZero(s: string)
    requires AllDigits(s)
    ensures DecimalValue("0" + s) == DecimalValue(s)
  {
    if s != [] {
      LeadingZero(s[..|s| - 1]);
      assert ("0" + s)[..|s|] == "0" + s[..|s| - 1];
    }
  }

  lemma Pad2RoundTrip(n: nat)
    ensures DecimalValue(Pad2(n)) == n
  {
    DecimalRoundTrip(n);
    if n < 10 {
      LeadingZero(Decimal(n));
    }
  }

  /** Reading an "m:ss" clock text back into seconds. */
  function ParseClock(t: string): Option<nat> {
    var parts := SplitOn(t, ':');
    if |parts| == 2 && AllDigits(parts[0]) && AllDigits(parts[1]) && |parts[1]| == 2 then
      Some(DecimalValue(parts[0]) * 60 + DecimalValue(parts[1]))
    else None
  }

  /** The clock text determines the seconds: it reads back to the same number,
      with the seconds field always two digits. */
  lemma ClockRoundTrip(seconds: nat)
    ensures ParseClock(Clock(seconds)) == Some(seconds)
  {
    var m, s := Pad2(seconds / 60), Pad2(seconds % 60);
    SplitOnSingle(m, s, ':');
    Pad2RoundTrip(seconds / 60);
    Pad2RoundTrip(seconds % 60);
  }

  lemma SplitOnSingle(a: string, b: string, c: char)
    requires c !in a && c !in b
    ensures SplitOn(a + [c] + b, c) == [a, b]
  {
    var rest := [c] + b;
    SplitOnNone(b, c);
    assert rest[1..] == b;
    assert SplitOn(rest, c) == [""] + [b];
    SplitOnPrefix(a, rest, c);
    assert a + [c] + b == a + rest;
  }

  lemma {:induction false} SplitOnNone(s: string, c: char)
    requires c !in s
    ensures SplitOn(s, c) == [s]
  {
    if s != [] {
      SplitOnNone(s[1..], c);
      assert s == [s[0]] + s[1..];
    }
  }

  lemma {:induction false} SplitOnPrefix(a: string, rest: string, c: char)
    requires c !in a && rest != [] && rest[0] == c
    ensures SplitOn(a + rest, c) == [a] + SplitOn(rest, c)[1..]
  {
    if a != [] {
      SplitOnPrefix(a[1..], rest, c);
      assert (a + rest)[1..] == a[1..] + rest;
      assert a == [a[0]] + a[1..];
    } else {
      assert a + rest == rest;
    }
  }
}
