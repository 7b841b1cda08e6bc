/** The shower stopwatch: start, tick, pause, resume, stop and reset, one
    stored session per date, and the goal progress, best and total times and
    per-goal achievement counts. The 100 ms interval becomes an explicit
    `Tick`; instants are milliseconds. */
module TimeTracking {
  import opened Common
  import opened Dates

  datatype DurationGoal = DurationGoal(id: string, name: string, targetSeconds: nat, difficulty: Difficulty)

  /** The seven duration goals, from 30 seconds to 10 minutes. */
  const DurationGoals: seq<DurationGoal> := [
    DurationGoal("beginner-30", "First Steps", 30, Beginner),
    DurationGoal("beginner-60", "One Minute Wonder", 60, Beginner),
    DurationGoal("intermediate-90", "Comfort Zone Breaker", 90, Intermediate),
    DurationGoal("intermediate-120", "Two Minute Warrior", 120, Intermediate),
    DurationGoal("advanced-180", "Three Minute Master", 180, Advanced),
    DurationGoal("advanced-300", "Five Minute Legend", 300, Advanced),
    DurationGoal("expert-600", "Ten Minute Titan", 600, Expert)]

  datatype Session = Session(
    id: string,
    date: int,
    startTime: int,
    endTime: int,
    duration: int,
    goalId: string,
    notes: string)

  function SessionDate(s: Session): int { s.date }

  // ---------------------------------------------------------------------
  // The stopwatch

  class Stopwatch {
    var isTracking: bool
    var elapsed: int
    var startTime: Option<int>
    var sessions: seq<Session>
    var selectedGoal: DurationGoal
    var todaySession: Option<Session>

    /** The initial state: not tracking, no sessions, the one-minute goal. */
    constructor()
      ensures !isTracking && elapsed == 0 && startTime.None?
      ensures sessions == [] && todaySession.None? && selectedGoal == DurationGoals[1]
    {
      isTracking := false;
      elapsed := 0;
      startTime := None;
      sessions := [];
      selectedGoal := DurationGoals[1];
      todaySession := None;
    }

    /** `startTracking`. */
    method StartTracking(now: int)
      modifies this
      ensures isTracking && elapsed == 0 && startTime == Some(now)
      ensures sessions == old(sessions) && todaySession == old(todaySession) && selectedGoal == old(selectedGoal)
    {
      startTime := Some(now);
      elapsed := 0;
      isTracking := true;
    }

    /** One firing of the interval: while tracking, the whole seconds since
        the start. */
    method Tick(now: int)
      modifies this
      ensures isTracking && startTime.Some? ==> elapsed == (now - startTime.value) / 1000
      ensures !(isTracking && startTime.Some?) ==> elapsed == old(elapsed)
      ensures isTracking == old(isTracking) && startTime == old(startTime)
      ensures sessions == old(sessions) && todaySession == old(todaySession) && selectedGoal == old(selectedGoal)
    {
      if isTracking && startTime.Some? {
        elapsed := (now - startTime.value) / 1000;
      }
    }

    /** `pauseTracking`. */
    method PauseTracking()
      modifies this
      ensures !isTracking
      ensures elapsed == old(elapsed) && startTime == old(startTime)
      ensures sessions == old(sessions) && todaySession == old(todaySession) && selectedGoal == old(selectedGoal)
    {
      isTracking := false;
    }

    /** `resumeTracking`: move the start back so the elapsed time carries on. */
    method ResumeTracking(now: int)
      modifies this
      ensures old(startTime).Some? ==> isTracking && startTime == Some(now - old(elapsed) * 1000)
      ensures old(startTime).None? ==> isTracking == old(isTracking) && startTime == old(startTime)
      ensures elapsed == old(elapsed)
      ensures sessions == old(sessions) && todaySession == old(todaySession) && selectedGoal == old(selectedGoal)
    {
      if startTime.Some? {
        startTime := Some(now - elapsed * 1000);
        isTracking := true;
      }
    }

    /** `resetTracking`. */
    method ResetTracking()
      modifies this
      ensures !isTracking && elapsed == 0 && startTime.None?
      ensures sessions == old(sessions) && todaySession == old(todaySession) && selectedGoal == old(selectedGoal)
    {
      isTracking := false;
      elapsed := 0;
      startTime := None;
    }

    /** `stopTracking`: with a start and a positive elapsed time, replace
        today's sessions by one new session and report today's duration;
        in every case end reset. `stamp` is the `Date.now()` reading. */
    method StopTracking(now: Clock, stamp: nat) returns (reported: Option<(int, int)>)
      modifies this
      ensures old(startTime).Some? && old(elapsed) > 0 ==>
        var s := Session(NatToString(stamp), now.day, old(startTime).value, now.day * MsPerDay + now.ms,
          old(elapsed), old(selectedGoal).id, "");
        sessions == ReplaceKeyed(old(sessions), SessionDate, s) &&
        todaySession == Some(s) && reported == Some((now.day, old(elapsed)))
      ensures !(old(startTime).Some? && old(elapsed) > 0) ==>
        sessions == old(sessions) && todaySession == old(todaySession) && reported.None?
      ensures !isTracking && elapsed == 0 && startTime.None?
      ensures selectedGoal == old(selectedGoal)
    {
      reported := None;
      if startTime.Some? && elapsed > 0 {
        var s := Session(NatToString(stamp), now.day, startTime.value, now.day * MsPerDay + now.ms,
          elapsed, selectedGoal.id, "");
        sessions := ReplaceKeyed(sessions, SessionDate, s);
        todaySession := Some(s);
        reported := Some((now.day, elapsed));
      }
      ResetTracking();
    }
  }

  /** After a recording stop, today has exactly one session and the
      sessions of other days are the same, in the same order. */
  lemma StopKeepsOneSessionPerDay(sessions: seq<Session>, s: Session)
    ensures Count(ReplaceKeyed(sessions, SessionDate, s), KeyIs(SessionDate, s.date)) == 1
    ensures Filter(ReplaceKeyed(sessions, SessionDate, s), KeyIsNot(SessionDate, s.date)) ==
      Filter(sessions, KeyIsNot(SessionDate, s.date))
  {
    ReplaceKeyedFacts(sessions, SessionDate, s);
  }

  // ---------------------------------------------------------------------
  // Goal queries (`formatDuration` is Common.MinutesSeconds)

  /** `getProgressTowardsGoal`: 0 without a session today, otherwise the
      session's share of the target, capped at 100. */
  function ProgressTowardsGoal(today: Option<Session>, goal: DurationGoal): (r: Ratio)
    requires goal in DurationGoals
    ensures today.None? ==> r.num == 0
    ensures AtMost(r, 100)
    ensures today.Some? && today.value.duration >= 0 ==> AtLeast(r, 0)
    ensures today.Some? ==> CappedPercent(r, today.value.duration, goal.targetSeconds)
  {
    if today.None? then Zero else CappedShare(today.value.duration, goal.targetSeconds)
  }

  /** `hasAchievedGoal`: there is a session today and it reaches the target;
      a session that reaches a target reaches every smaller one. */
  function HasAchievedGoal(today: Option<Session>, goal: DurationGoal): (b: bool)
    ensures b ==> today.Some?
    ensures goal.targetSeconds > 0 && today.Some? ==>
      (b <==> AtLeast(CappedShare(today.value.duration, goal.targetSeconds), 100))
    ensures b ==> forall g: DurationGoal :: g.targetSeconds <= goal.targetSeconds ==>
      today.value.duration >= g.targetSeconds
  {
    today.Some? && today.value.duration >= goal.targetSeconds
  }

  /** The goal is achieved exactly when the progress is full. */
  lemma AchievedIffFullProgress(today: Option<Session>, goal: DurationGoal)
    requires goal in DurationGoals
    ensures HasAchievedGoal(today, goal) <==> AtLeast(ProgressTowardsGoal(today, goal), 100)
  {
  }

  function SessionDuration(s: Session): int { s.duration }

  function Durations(sessions: seq<Session>): (r: seq<int>)
    ensures |r| == |sessions|
    ensures forall i :: 0 <= i < |sessions| ==> r[i] == sessions[i].duration
  {
    MapSeq(sessions, SessionDuration)
  }

  /** `getTotalTime`: 0 for no sessions; with non-negative durations it is
      non-negative and at least every single session's duration. */
  function TotalTime(sessions: seq<Session>): (t: int)
    ensures sessions == [] ==> t == 0
    ensures (forall i :: 0 <= i < |sessions| ==> sessions[i].duration >= 0) ==>
      t >= 0 && forall i :: 0 <= i < |sessions| ==> sessions[i].duration <= t
  {
    var ds := Durations(sessions);
    if forall i :: 0 <= i < |sessions| ==> sessions[i].duration >= 0 then
      SumCoversEach(ds);
      Sum(ds)
    else Sum(ds)
  }

  /** `getBestTime`: 0 for no sessions, otherwise the largest duration. */
  function BestTime(sessions: seq<Session>): (b: int)
    ensures sessions == [] ==> b == 0
    ensures sessions != [] ==> exists i :: 0 <= i < |sessions| && b == sessions[i].duration
    ensures forall i :: 0 <= i < |sessions| ==> sessions[i].duration <= b
  {
    if sessions == [] then 0
    else if |sessions| == 1 then sessions[0].duration
    else
      var rest := BestTime(sessions[1..]);
      assert forall i :: 1 <= i < |sessions| ==> sessions[i] == sessions[1..][i - 1];
      if sessions[0].duration >= rest then sessions[0].duration else rest
  }

  /** With non-negative durations the best time never exceeds the total. */
  lemma {:induction false} BestWithinTotal(sessions: seq<Session>)
    requires forall i :: 0 <= i < |sessions| ==> sessions[i].duration >= 0
    ensures 0 <= BestTime(sessions) <= TotalTime(sessions)
  {
    if sessions != [] {
      BestWithinTotal(sessions[1..]);
      assert Durations(sessions)[1..] == Durations(sessions[1..]);
      assert forall i :: 1 <= i < |sessions| ==> sessions[i] == sessions[1..][i - 1];
    }
  }

  function Meets(target: int): Session -> bool {
    (s: Session) => s.duration >= target
  }

  lemma GoalIdsDistinct()
    ensures forall i, j :: 0 <= i < j < |DurationGoals| ==> DurationGoals[i].id != DurationGoals[j].id
    ensures forall i, j :: 0 <= i < j < |DurationGoals| ==> DurationGoals[i].targetSeconds < DurationGoals[j].targetSeconds
  {
  }

  /** `getGoalAchievements`: for every goal, the sessions meeting its
      target. The targets ascend, so the counts never increase along the
      goal list. */
  method GoalAchievements(sessions: seq<Session>) returns (ach: map<string, nat>)
    ensures ach.Keys == set k | 0 <= k < |DurationGoals| :: DurationGoals[k].id
    ensures forall k :: 0 <= k < |DurationGoals| ==>
      ach[DurationGoals[k].id] == Count(sessions, Meets(DurationGoals[k].targetSeconds))
    ensures forall i, j :: 0 <= i < j < |DurationGoals| ==> ach[DurationGoals[i].id] >= ach[DurationGoals[j].id]
  {
    GoalIdsDistinct();
    ach := AchievementsFor(DurationGoals, sessions);
    CountsDescend(DurationGoals, sessions, ach);
  }

  /** The `forEach` over the goals: one key per goal id, holding the number
      of sessions that meet that goal's target. */
  method AchievementsFor(goals: seq<DurationGoal>, sessions: seq<Session>) returns (ach: map<string, nat>)
    requires forall i, j :: 0 <= i < j < |goals| ==> goals[i].id != goals[j].id
    ensures ach.Keys == set k | 0 <= k < |goals| :: goals[k].id
    ensures forall k :: 0 <= k < |goals| ==> ach[goals[k].id] == Count(sessions, Meets(goals[k].targetSeconds))
  {
    ach := map[];
    for i := 0 to |goals|
      invariant ach.Keys == set k | 0 <= k < i :: goals[k].id
      invariant forall k :: 0 <= k < i ==> ach[goals[k].id] == Count(sessions, Meets(goals[k].targetSeconds))
    {
      ach := ach[goals[i].id := Count(sessions, Meets(goals[i].targetSeconds))];
    }
  }

  /** With ascending targets, fewer sessions meet each later goal. */
  lemma CountsDescend(goals: seq<DurationGoal>, sessions: seq<Session>, ach: map<string, nat>)
    requires forall i, j :: 0 <= i < j < |goals| ==> goals[i].targetSeconds < goals[j].targetSeconds
    requires forall k :: 0 <= k < |goals| ==> goals[k].id in ach && ach[goals[k].id] == Count(sessions, Meets(goals[k].targetSeconds))
    ensures forall i, j :: 0 <= i < j < |goals| ==> ach[goals[i].id] >= ach[goals[j].id]
  {
    forall i, j | 0 <= i < j < |goals| ensures ach[goals[i].id] >= ach[goals[j].id] {
      CountMono(sessions, Meets(goals[j].targetSeconds), Meets(goals[i].targetSeconds));
    }
  }
}
