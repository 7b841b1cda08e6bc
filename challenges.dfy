/** Fixed-length challenges (7 to 90 days): starting one, looking up the
    progress records, the percentage of a challenge done, the days
    remaining, the milestones reached and the challenge recommended for a
    streak. Tracked days enter as (date, completed) marks. */
module Challenges {
  import opened Common
  import opened Dates
  import Streaks

  datatype ChallengeType = ChallengeType(
    id: string,
    name: string,
    duration: nat,
    difficulty: Difficulty,
    milestones: seq<nat>,
    recommended: bool)

  const ChallengeTypes: seq<ChallengeType> := [
    ChallengeType("week-warrior", "7-Day Warrior", 7, Beginner, [3, 5, 7], true),
    ChallengeType("fortitude-builder", "14-Day Fortitude", 14, Beginner, [7, 10, 14], false),
    ChallengeType("commitment-master", "21-Day Commitment", 21, Intermediate, [7, 14, 21], false),
    ChallengeType("transformation-month", "30-Day Transformation", 30, Intermediate, [7, 14, 21, 30], true),
    ChallengeType("elite-performer", "60-Day Elite", 60, Advanced, [14, 30, 45, 60], false),
    ChallengeType("legend-status", "90-Day Legend", 90, Expert, [21, 45, 60, 75, 90], false)]

  /** A progress record; dates are day numbers. */
  datatype UserProgress = UserProgress(
    challengeId: string,
    startDate: int,
    targetDate: int,
    progress: int,
    completed: bool,
    completedDate: Option<int>)

  function OtherChallenge(id: string): UserProgress -> bool {
    (p: UserProgress) => p.challengeId != id
  }

  function ForChallenge(id: string): UserProgress -> bool {
    (p: UserProgress) => p.challengeId == id
  }

  /** `startChallenge`: drop every record of the challenge and append a new
      one starting today and ending `duration` days later. */
  function StartChallenge(records: seq<UserProgress>, challenge: ChallengeType, now: Clock): (r: seq<UserProgress>)
    ensures |r| >= 1
    ensures r[|r| - 1] == UserProgress(challenge.id, now.day, now.day + challenge.duration, 0, false, None)
  {
    Filter(records, OtherChallenge(challenge.id)) +
      [UserProgress(challenge.id, now.day, now.day + challenge.duration, 0, false, None)]
  }

  /** After a start the challenge has exactly one record, a new uncompleted
      one that is its current progress, and the records of the other challenges are those of
      before, in the same order. */
  lemma StartChallengeFacts(records: seq<UserProgress>, challenge: ChallengeType, now: Clock)
    ensures Count(StartChallenge(records, challenge, now), ForChallenge(challenge.id)) == 1
    ensures Filter(StartChallenge(records, challenge, now), OtherChallenge(challenge.id)) ==
      Filter(records, OtherChallenge(challenge.id))
    ensures CurrentProgress(StartChallenge(records, challenge, now), challenge.id) ==
      Some(UserProgress(challenge.id, now.day, now.day + challenge.duration, 0, false, None))
  {
    var f := Filter(records, OtherChallenge(challenge.id));
    var started := UserProgress(challenge.id, now.day, now.day + challenge.duration, 0, false, None);
    assert StartChallenge(records, challenge, now) == f + [started];
    CountAppend(f, [started], ForChallenge(challenge.id));
    CountNone(f, ForChallenge(challenge.id));
    FilterAppend(f, [started], OtherChallenge(challenge.id));
    FilterIdempotent(records, OtherChallenge(challenge.id));
    StartedIsCurrent(f, started);
  }

  lemma StartedIsCurrent(f: seq<UserProgress>, started: UserProgress)
    requires forall p :: p in f ==> p.challengeId != started.challengeId
    requires !started.completed
    ensures CurrentProgress(f + [started], started.challengeId) == Some(started)
  {
    var r := f + [started];
    assert forall j :: 0 <= j < |f| ==> r[j] in f;
    var i := FindIndex(r, Active(started.challengeId));
    assert Active(started.challengeId)(r[|f|]);
  }

  function Active(id: string): UserProgress -> bool {
    (p: UserProgress) => p.challengeId == id && !p.completed
  }

  /** `getCurrentProgress`: the first uncompleted record of the challenge,
      or nothing. */
  function CurrentProgress(records: seq<UserProgress>, id: string): (r: Option<UserProgress>)
    ensures r.Some? ==> r.value in records && r.value.challengeId == id && !r.value.completed
    ensures r.None? <==> forall p :: p in records ==> p.challengeId != id || p.completed
    ensures r.Some? ==> exists i :: 0 <= i < |records| && records[i] == r.value &&
                                  forall j :: 0 <= j < i ==> !Active(id)(records[j])
  {
    var i := FindIndex(records, Active(id));
    if i < 0 then None else Some(records[i])
  }

  /** `getCompletedChallenges`: the completed records, in order. */
  function CompletedChallenges(records: seq<UserProgress>): (r: seq<UserProgress>)
    ensures forall p :: p in r <==> p in records && p.completed
    ensures |r| == Count(records, (p: UserProgress) => p.completed)
  {
    Filter(records, (p: UserProgress) => p.completed)
  }

  /** `dayDate >= startDate && dayDate <= currentDate && day.completed`. */
  function InChallenge(start: int, now: Clock): Streaks.Mark -> bool {
    (m: Streaks.Mark) => m.date * MsPerDay >= start * MsPerDay && MidnightOnOrBefore(m.date, now) && m.completed
  }

  /** The counted days are the completed ones dated from the start through
      today. */
  lemma InChallengeDays(start: int, now: Clock, m: Streaks.Mark)
    ensures InChallenge(start, now)(m) <==> start <= m.date <= now.day && m.completed
  {
    MidnightComparisons(m.date, now);
    if m.date < start {
      assert m.date * MsPerDay < start * MsPerDay;
    }
  }

  /** `calculateProgress`: the completed days of the challenge period as a
      percentage of its length, capped at 100. */
  function Progress(days: seq<Streaks.Mark>, record: UserProgress, challenge: ChallengeType, now: Clock): (r: Ratio)
    requires challenge.duration > 0
    ensures AtLeast(r, 0) && AtMost(r, 100)
    ensures CappedPercent(r, Count(days, InChallenge(record.startDate, now)), challenge.duration)
  {
    var done := Count(days, InChallenge(record.startDate, now));
    CappedShare(done, challenge.duration)
  }

  /** `progressPercent >= milestone / duration * 100`. */
  predicate MilestoneReached(progress: Ratio, milestone: nat, duration: nat)
    requires duration > 0
  {
    progress.num * duration >= 100 * milestone * progress.den
  }

  /** A milestone shows as reached exactly when both the completed days of
      the period and the challenge's length reach it. */
  lemma MilestoneReachedIff(days: seq<Streaks.Mark>, record: UserProgress, challenge: ChallengeType,
                            now: Clock, milestone: nat)
    requires challenge.duration > 0
    ensures var done := Count(days, InChallenge(record.startDate, now));
      MilestoneReached(Progress(days, record, challenge, now), milestone, challenge.duration) <==>
        milestone <= done && milestone <= challenge.duration
  {
    var done := Count(days, InChallenge(record.startDate, now));
    var d := challenge.duration;
    if done <= d {
      assert Progress(days, record, challenge, now) == Fraction(100 * done, d);
      ScaleIff(100 * done, 100 * milestone, d);
    } else {
      assert Progress(days, record, challenge, now) == Fraction(100, 1);
      ScaleIff(d, milestone, 100);
    }
  }

  /** Multiplying both sides by the same positive number keeps the order. */
  lemma ScaleIff(a: int, b: int, k: int)
    requires k > 0
    ensures a * k >= b * k <==> a >= b
  {
    if a >= b {
      assert a * k - b * k == (a - b) * k;
    } else {
      assert b * k - a * k == (b - a) * k;
    }
  }

  /** The displayed days remaining: the length minus the whole days since
      the start, never below 0. */
  function DaysRemaining(challenge: ChallengeType, record: UserProgress, now: Clock): (r: int)
    ensures r >= 0
    ensures r == if challenge.duration - (now.day - record.startDate) > 0
                 then challenge.duration - (now.day - record.startDate) else 0
  {
    var elapsedMs := now.day * MsPerDay + now.ms - record.startDate * MsPerDay;
    WholeDaysSince(now, record.startDate);
    var elapsed := elapsedMs / MsPerDay;
    if challenge.duration - elapsed > 0 then challenge.duration - elapsed else 0
  }

  /** `Math.floor((now - start) / day)` counts the day numbers between. */
  lemma WholeDaysSince(now: Clock, start: int)
    ensures (now.day * MsPerDay + now.ms - start * MsPerDay) / MsPerDay == now.day - start
  {
    assert now.day * MsPerDay + now.ms - start * MsPerDay == (now.day - start) * MsPerDay + now.ms;
  }

  /** The index into the challenge list that `getRecommendedChallenge`
      picks for a current streak. */
  function RecommendedIndex(streak: nat): (i: nat)
    ensures i < |ChallengeTypes|
  {
    if streak == 0 then 0
    else if streak < 7 then 1
    else if streak < 21 then 2
    else if streak < 30 then 3
    else if streak < 60 then 4
    else 5
  }

  /** `getRecommendedChallenge`. */
  function RecommendedChallenge(streak: nat): (c: ChallengeType)
    ensures c in ChallengeTypes
    ensures streak == 0 ==> c.duration == 7
    ensures 1 <= streak < 7 ==> c.duration == 14
    ensures 7 <= streak < 21 ==> c.duration == 21
    ensures 21 <= streak < 30 ==> c.duration == 30
    ensures 30 <= streak < 60 ==> c.duration == 60
    ensures streak >= 60 ==> c.duration == 90
  {
    ChallengeTypes[RecommendedIndex(streak)]
  }

  /** A longer streak never gets a shorter recommendation, and below 90
      days the recommended challenge is longer than the streak. */
  lemma RecommendationMonotone(s1: nat, s2: nat)
    requires s1 <= s2
    ensures RecommendedChallenge(s1).duration <= RecommendedChallenge(s2).duration
    ensures s2 < 90 ==> RecommendedChallenge(s2).duration > s2
  {
  }
}
