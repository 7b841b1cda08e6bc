/** The cold-shower timer: a guided mode walking through five phases and a
    custom mode counting towards a chosen duration. The one-second interval
    becomes an explicit `Tick`, and the sounds become "cue" results. */
module ShowerTimer {
  import opened Common

  datatype TimerPhase = TimerPhase(name: string, duration: nat, message: string)

  const Phases: seq<TimerPhase> := [
    TimerPhase("Prepare", 10, "Get ready! Take deep breaths and prepare mentally."),
    TimerPhase("Initial Shock", 30, "Stay calm! Focus on your breathing. This is the hardest part."),
    TimerPhase("Adjustment", 60, "Your body is adapting. Keep breathing steadily."),
    TimerPhase("Flow State", 90, "You're in the zone! Feel your mental strength building."),
    TimerPhase("Master Mode", 300, "Amazing! You're now in master territory. Pure mental toughness!")]

  /** The phase search from phase i on, `cumulative` being the length of
      the phases before i: the first phase whose end is not before t, and 0
      when t is past the last one. */
  function PhaseSearch(t: int, i: nat, cumulative: int): (p: nat)
    requires i <= |Phases|
    ensures p < |Phases|
    decreases |Phases| - i
  {
    if i == |Phases| then 0
    else if t <= cumulative + Phases[i].duration then i
    else PhaseSearch(t, i + 1, cumulative + Phases[i].duration)
  }

  function PhaseAt(t: int): nat {
    PhaseSearch(t, 0, 0)
  }

  /** The phases end at 10, 40, 100, 190 and 490 seconds; past 490 the
      search finds none and falls back to the first phase. */
  lemma PhaseAtThresholds(t: int)
    ensures PhaseAt(t) == (if t <= 10 then 0 else if t <= 40 then 1 else if t <= 100 then 2
                           else if t <= 190 then 3 else if t <= 490 then 4 else 0)
  {
    assert PhaseSearch(t, 0, 0) == if t <= 10 then 0 else PhaseSearch(t, 1, 10);
    assert PhaseSearch(t, 1, 10) == if t <= 40 then 1 else PhaseSearch(t, 2, 40);
    assert PhaseSearch(t, 2, 40) == if t <= 100 then 2 else PhaseSearch(t, 3, 100);
    assert PhaseSearch(t, 3, 100) == if t <= 190 then 3 else PhaseSearch(t, 4, 190);
    assert PhaseSearch(t, 4, 190) == if t <= 490 then 4 else PhaseSearch(t, 5, 490);
  }

  /** The length of the guided session. */
  function TotalGuidedTime(): (n: nat)
    ensures n == 490
  {
    Phases[0].duration + Phases[1].duration + Phases[2].duration + Phases[3].duration + Phases[4].duration
  }

  class Timer {
    var timeElapsed: nat
    var isRunning: bool
    var currentPhase: nat
    var lastPhase: nat
    var soundEnabled: bool
    var customDuration: int
    var guided: bool

    ghost predicate Valid()
      reads this
    {
      customDuration >= 30 && currentPhase < |Phases|
    }

    constructor()
      ensures Valid()
      ensures timeElapsed == 0 && !isRunning && currentPhase == 0 && lastPhase == 0
      ensures soundEnabled && customDuration == 180 && guided
    {
      timeElapsed := 0;
      isRunning := false;
      currentPhase := 0;
      lastPhase := 0;
      soundEnabled := true;
      customDuration := 180;
      guided := true;
    }

    /** One second of a running timer (the interval exists only while the
        timer runs). In guided mode the phase of the new time is searched
        and recorded only when it differs from the last one, with a cue for
        a move to a later phase; in custom mode the cue sounds at half the
        custom duration. */
    method Tick() returns (cue: bool)
      requires Valid() && isRunning
      modifies this
      ensures Valid()
      ensures timeElapsed == old(timeElapsed) + 1
      ensures guided && PhaseAt(timeElapsed) != old(lastPhase) ==>
        currentPhase == PhaseAt(timeElapsed) && lastPhase == PhaseAt(timeElapsed) &&
        (cue <==> soundEnabled && PhaseAt(timeElapsed) > 0)
      ensures guided && PhaseAt(timeElapsed) == old(lastPhase) ==>
        currentPhase == old(currentPhase) && lastPhase == old(lastPhase) && !cue
      ensures !guided ==>
        currentPhase == old(currentPhase) && lastPhase == old(lastPhase) &&
        (cue <==> soundEnabled && timeElapsed == customDuration / 2)
      ensures isRunning == old(isRunning) && soundEnabled == old(soundEnabled)
      ensures customDuration == old(customDuration) && guided == old(guided)
    {
      var newTime := timeElapsed + 1;
      cue := false;
      if guided {
        var cumulative := 0;
        var newPhase := 0;
        for i := 0 to |Phases|
          invariant PhaseSearch(newTime, i, cumulative) == PhaseAt(newTime)
          invariant newPhase == 0
        {
          cumulative := cumulative + Phases[i].duration;
          if newTime <= cumulative {
            newPhase := i;
            break;
          }
        }
        if newPhase != lastPhase {
          currentPhase := newPhase;
          lastPhase := newPhase;
          cue := soundEnabled && newPhase > 0;
        }
      } else {
        cue := soundEnabled && newTime == customDuration / 2;
      }
      timeElapsed := newTime;
    }

    /** `startTimer`; the start cue sounds only from zero. */
    method StartTimer() returns (cue: bool)
      modifies this
      ensures isRunning && (cue <==> old(timeElapsed) == 0 && soundEnabled)
      ensures timeElapsed == old(timeElapsed) && currentPhase == old(currentPhase) && lastPhase == old(lastPhase)
      ensures soundEnabled == old(soundEnabled) && customDuration == old(customDuration) && guided == old(guided)
    {
      isRunning := true;
      cue := timeElapsed == 0 && soundEnabled;
    }

    method PauseTimer()
      modifies this
      ensures !isRunning
      ensures timeElapsed == old(timeElapsed) && currentPhase == old(currentPhase) && lastPhase == old(lastPhase)
      ensures soundEnabled == old(soundEnabled) && customDuration == old(customDuration) && guided == old(guided)
    {
      isRunning := false;
    }

    /** `resetTimer`. */
    method ResetTimer()
      modifies this
      ensures !isRunning && timeElapsed == 0 && currentPhase == 0 && lastPhase == 0
      ensures soundEnabled == old(soundEnabled) && customDuration == old(customDuration) && guided == old(guided)
    {
      isRunning := false;
      timeElapsed := 0;
      currentPhase := 0;
      lastPhase := 0;
    }

    /** `stopTimer`: report a positive elapsed time to the caller, with the
        completion cue, and reset. */
    method StopTimer() returns (reported: Option<nat>, cue: bool)
      modifies this
      ensures old(timeElapsed) > 0 ==> reported == Some(old(timeElapsed)) && cue == soundEnabled
      ensures old(timeElapsed) == 0 ==> reported.None? && !cue
      ensures !isRunning && timeElapsed == 0 && currentPhase == 0 && lastPhase == 0
      ensures soundEnabled == old(soundEnabled) && customDuration == old(customDuration) && guided == old(guided)
    {
      reported := None;
      cue := false;
      var finalDuration := timeElapsed;
      if finalDuration > 0 {
        reported := Some(finalDuration);
        cue := soundEnabled;
      }
      ResetTimer();
    }

    /** The custom-duration input: the parsed number, where 0 or no number
        means 30, and never below 30. */
    method SetCustomDuration(input: string)
      modifies this
      ensures customDuration == ClampDuration(ParseInt(input))
      ensures timeElapsed == old(timeElapsed) && isRunning == old(isRunning)
      ensures currentPhase == old(currentPhase) && lastPhase == old(lastPhase)
      ensures soundEnabled == old(soundEnabled) && guided == old(guided)
    {
      customDuration := ClampDuration(ParseInt(input));
    }
  }

  /** `Math.max(30, parseInt(value) || 30)`. */
  function ClampDuration(parsed: Option<int>): (d: int)
    ensures d >= 30
    ensures parsed.None? || parsed.value == 0 ==> d == 30
    ensures parsed.Some? && parsed.value >= 30 ==> d == parsed.value
    ensures parsed.Some? && parsed.value < 30 ==> d == 30
  {
    var v := if parsed.None? || parsed.value == 0 then 30 else parsed.value;
    if v > 30 then v else 30
  }

  /** A typed number of at least 30 seconds is kept as it is, and text
      without digits gives 30. */
  lemma ClampTypedNumber(n: nat, s: string)
    requires LeadingDigits(SignStripped(TrimStart(s))) == []
    ensures n >= 30 ==> ClampDuration(ParseInt(NatToString(n))) == n
    ensures n < 30 ==> ClampDuration(ParseInt(NatToString(n))) == 30
    ensures ClampDuration(ParseInt(s)) == 30
  {
    ParseIntNatToString(n);
  }

  /** `getProgress`: the elapsed share of 490 seconds in guided mode or of
      the custom duration otherwise, capped at 100. */
  function Progress(guided: bool, elapsed: nat, customDuration: int): (r: Ratio)
    requires customDuration >= 30
    ensures AtLeast(r, 0) && AtMost(r, 100)
    ensures guided && elapsed <= 490 ==> r.num * 490 == 100 * elapsed * r.den
    ensures !guided && elapsed <= customDuration ==> r.num * customDuration == 100 * elapsed * r.den
    ensures guided && elapsed >= 490 ==> AtLeast(r, 100)
    ensures !guided && elapsed >= customDuration ==> AtLeast(r, 100)
  {
    var total := if guided then TotalGuidedTime() else customDuration;
    CapAt100(Fraction(100 * elapsed, total))
  }

  const StayStrong := "Stay strong! You've got this!"
  const GreatJob := "Great job! You're building mental toughness."
  const Excellent := "Excellent! Feel your resilience growing."
  const AlmostThere := "Almost there! You're doing amazing!"
  const KeepGoing := "Keep going! Every second counts."

  /** `getCurrentMessage`: the phase's message in guided mode, and in
      custom mode one of four messages by the uncapped progress. */
  function CurrentMessage(guided: bool, phase: nat, elapsed: nat, customDuration: int): (m: string)
    requires customDuration >= 30
    ensures guided && phase < |Phases| ==> m == Phases[phase].message
    ensures guided && phase >= |Phases| ==> m == KeepGoing
    ensures !guided ==> (m == StayStrong <==> 100 * elapsed < 25 * customDuration)
    ensures !guided ==> (m == GreatJob <==> 25 * customDuration <= 100 * elapsed < 50 * customDuration)
    ensures !guided ==> (m == Excellent <==> 50 * customDuration <= 100 * elapsed < 75 * customDuration)
    ensures !guided ==> (m == AlmostThere <==> 100 * elapsed >= 75 * customDuration)
  {
    if guided && phase < |Phases| then Phases[phase].message
    else if !guided then
      var progress := Fraction(100 * elapsed, customDuration);
      if Below(progress, 25) then StayStrong
      else if Below(progress, 50) then GreatJob
      else if Below(progress, 75) then Excellent
      else AlmostThere
    else KeepGoing
  }
}
