/** Sharing achievements: four achievements unlocked by streaks, the
    completion rate and the completion count, the text shared for one, and
    the selection state of the share panel. Opening windows, the clipboard
    and the progress-card canvas are not modelled. */
module SocialSharing {
  import opened Common

  datatype Progress = Progress(currentStreak: nat, longestStreak: nat, totalCompletions: nat, completionRate: Ratio)

  datatype Achievement = Achievement(
    id: string,
    title: string,
    description: string,
    unlocked: bool,
    shareText: string,
    hashtags: seq<string>)

  const Handle := "@bigdaddysbigtips"

  const WeekText := "Just completed my first week of cold showers! \U{1F6BF}\U{2744}\U{FE0F} Building mental toughness one shower at a time."
  const MonthText := "30 days of cold showers complete! \U{1F525} Proving to myself that discomfort builds character. Who's ready to join the challenge?"
  const ConsistencyText := "% consistency rate on my cold shower challenge! \U{1F3AF} Small daily actions compound into massive results."
  const CenturionText := "100 cold showers complete! \U{1F4AA} Every single one was a vote for the person I'm becoming. The journey continues!"

  const WeekTags: seq<string> := ["ColdShowerChallenge", "MentalToughness", "BigDaddyBigTips", "ColdTherapy"]
  const MonthTags: seq<string> := ["ColdShowerChallenge", "30DayChallenge", "BigDaddyBigTips", "DisciplineEqualsFreedom"]
  const ConsistencyTags: seq<string> := ["ColdShowerChallenge", "Consistency", "BigDaddyBigTips", "HabitBuilding"]
  const CenturionTags: seq<string> := ["ColdShowerChallenge", "100Days", "BigDaddyBigTips", "Transformation"]

  /** The four achievements for the given progress, in display order. */
  function Achievements(p: Progress): (r: seq<Achievement>)
    ensures |r| == 4
    ensures r[0].id == "first-week" && (r[0].unlocked <==> p.currentStreak >= 7 || p.longestStreak >= 7)
    ensures r[1].id == "streak-master" && (r[1].unlocked <==> p.currentStreak >= 30 || p.longestStreak >= 30)
    ensures r[2].id == "consistency-king" && (r[2].unlocked <==> AtLeast(p.completionRate, 80))
    ensures r[3].id == "centurion" && (r[3].unlocked <==> p.totalCompletions >= 100)
    ensures r[2].shareText == IntToString(Round(p.completionRate)) + ConsistencyText
  {
    [Achievement("first-week", "7-Day Warrior", "Completed 7 days of cold showers",
       p.currentStreak >= 7 || p.longestStreak >= 7, WeekText, WeekTags),
     Achievement("streak-master", "Streak Master", "Achieved a 30-day streak",
       p.currentStreak >= 30 || p.longestStreak >= 30, MonthText, MonthTags),
     Achievement("consistency-king", "Consistency Champion", "Maintained 80%+ completion rate",
       AtLeast(p.completionRate, 80), IntToString(Round(p.completionRate)) + ConsistencyText, ConsistencyTags),
     Achievement("centurion", "Cold Shower Centurion", "Completed 100 cold showers",
       p.totalCompletions >= 100, CenturionText, CenturionTags)]
  }

  /** A rate at least as large as one reaching k reaches k. */
  lemma RateMonotone(a: Ratio, b: Ratio, k: int)
    requires a.num * b.den <= b.num * a.den && AtLeast(a, k)
    ensures AtLeast(b, k)
  {
    assert a.num * b.den >= k * a.den * b.den by {
      assert (a.num - k * a.den) * b.den >= 0;
    }
    assert (b.num - k * b.den) * a.den >= 0;
    SignOfProduct(b.num - k * b.den, a.den);
  }

  lemma SignOfProduct(x: int, y: int)
    requires y > 0 && x * y >= 0
    ensures x >= 0
  {
  }

  /** The 30-day achievement is never unlocked without the 7-day one, and
      more progress never locks an achievement again. */
  lemma UnlockOrder(p: Progress, q: Progress)
    ensures Achievements(p)[1].unlocked ==> Achievements(p)[0].unlocked
    ensures p.currentStreak <= q.currentStreak && p.longestStreak <= q.longestStreak &&
            p.totalCompletions <= q.totalCompletions &&
            p.completionRate.num * q.completionRate.den <= q.completionRate.num * p.completionRate.den ==>
      forall i :: 0 <= i < 4 && Achievements(p)[i].unlocked ==> Achievements(q)[i].unlocked
  {
    var a, b := p.completionRate, q.completionRate;
    if a.num * b.den <= b.num * a.den && AtLeast(a, 80) {
      RateMonotone(a, b, 80);
    }
  }

  function Hashtag(tag: string): string { "#" + tag }

  function Hashtags(tags: seq<string>): (r: seq<string>)
    ensures |r| == |tags|
    ensures forall i :: 0 <= i < |tags| ==> r[i] == Hashtag(tags[i])
  {
    if tags == [] then [] else [Hashtag(tags[0])] + Hashtags(tags[1..])
  }

  /** `generateShareText`: the achievement's text, a blank line, its
      hashtags with '#' joined by spaces, a blank line and the handle; with
      no achievement, the fixed text for the current streak. */
  function ShareText(a: Option<Achievement>, p: Progress): (t: string)
    ensures |t| >= |Handle| && t[|t| - |Handle|..] == Handle
    ensures a.Some? ==> |t| > |a.value.shareText| + 1 && t[..|a.value.shareText| + 2] == a.value.shareText + "\n\n"
  {
    if a.Some? then
      a.value.shareText + "\n\n" + Join(Hashtags(a.value.hashtags), " ") + "\n\n" + Handle
    else
      "Just crushed day " + NatToString(p.currentStreak) +
      " of my cold shower challenge! \U{1F6BF}\U{2744}\U{FE0F} Building mental toughness one cold shower at a time." +
      "\n\n#ColdShowerChallenge #MentalToughness #BigDaddyBigTips #ColdTherapy\n\n" + Handle
  }

  /** When neither the text nor a tag holds a line break, the shared text
      reads back as five lines: the text, a blank, the hashtag line, a
      blank and the handle; and when no tag holds a space, the hashtag line
      splits back into the '#'-prefixed tags. */
  lemma ShareTextLines(a: Achievement, p: Progress)
    requires '\n' !in a.shareText
    requires forall i :: 0 <= i < |a.hashtags| ==> '\n' !in a.hashtags[i]
    ensures var line := Join(Hashtags(a.hashtags), " ");
      Split(ShareText(Some(a), p), '\n') == [a.shareText, "", line, "", Handle]
    ensures a.hashtags != [] && (forall i :: 0 <= i < |a.hashtags| ==> ' ' !in a.hashtags[i]) ==>
      Split(Join(Hashtags(a.hashtags), " "), ' ') == Hashtags(a.hashtags)
  {
    var tags := Hashtags(a.hashtags);
    var line := Join(tags, " ");
    forall i | 0 <= i < |tags| ensures '\n' !in tags[i] {
      assert tags[i] == "#" + a.hashtags[i];
    }
    JoinAvoids(tags, " ", '\n');
    var parts := [a.shareText, "", line, "", Handle];
    assert Join(parts[3..], "\n") == "" + "\n" + Handle;
    assert Join(parts[2..], "\n") == line + "\n" + ("" + "\n" + Handle);
    assert Join(parts[1..], "\n") == "" + "\n" + (line + "\n" + ("" + "\n" + Handle));
    assert Join(parts, "\n") == ShareText(Some(a), p);
    SplitJoin(parts, '\n');
    if a.hashtags != [] && forall i :: 0 <= i < |a.hashtags| ==> ' ' !in a.hashtags[i] {
      forall i | 0 <= i < |tags| ensures ' ' !in tags[i] {
        assert tags[i] == "#" + a.hashtags[i];
      }
      SplitJoin(tags, ' ');
    }
  }

  // ---------------------------------------------------------------------
  // The share panel

  datatype PanelState = PanelState(showShareOptions: bool, selected: Option<Achievement>)

  /** Only unlocked achievements are ever selected. */
  predicate SelectionUnlocked(st: PanelState) {
    st.selected.None? || st.selected.value.unlocked
  }

  /** `shareCurrentProgress`. */
  function ShareCurrentProgress(st: PanelState): (r: PanelState)
    ensures r.showShareOptions && r.selected.None?
  {
    PanelState(true, None)
  }

  /** `shareAchievement`: a locked achievement changes nothing; an unlocked
      one is selected and the options shown. */
  function ShareAchievement(st: PanelState, a: Achievement): (r: PanelState)
    ensures !a.unlocked ==> r == st
    ensures a.unlocked ==> r.showShareOptions && r.selected == Some(a)
  {
    if !a.unlocked then st else PanelState(true, Some(a))
  }

  /** `closeShareOptions`. */
  function CloseShareOptions(st: PanelState): (r: PanelState)
    ensures !r.showShareOptions && r.selected.None?
  {
    PanelState(false, None)
  }

  /** Every handler keeps the selection unlocked. */
  lemma PanelKeepsSelectionUnlocked(st: PanelState, a: Achievement)
    requires SelectionUnlocked(st)
    ensures SelectionUnlocked(ShareAchievement(st, a))
    ensures SelectionUnlocked(ShareCurrentProgress(st))
    ensures SelectionUnlocked(CloseShareOptions(st))
  {
  }

  /** A click on one of the panel's buttons. */
  datatype PanelEvent = ShareProgressClicked | AchievementClicked(a: Achievement) | CloseClicked

  function Click(st: PanelState, e: PanelEvent): PanelState {
    match e
    case ShareProgressClicked => ShareCurrentProgress(st)
    case AchievementClicked(a) => ShareAchievement(st, a)
    case CloseClicked => CloseShareOptions(st)
  }

  /** The panel state after a sequence of clicks. */
  function ClickAll(st: PanelState, events: seq<PanelEvent>): PanelState
    decreases |events|
  {
    if events == [] then st else ClickAll(Click(st, events[0]), events[1..])
  }

  /** However the buttons are clicked, starting from the initial state with
      nothing selected, only an unlocked achievement is ever selected, and
      a selected achievement is always one that was clicked. */
  lemma {:induction false} ClicksKeepSelectionUnlocked(st: PanelState, events: seq<PanelEvent>)
    requires SelectionUnlocked(st)
    ensures SelectionUnlocked(ClickAll(st, events))
    ensures var r := ClickAll(st, events);
      r.selected.Some? ==> r.selected == st.selected || AchievementClicked(r.selected.value) in events
    decreases |events|
  {
    if events != [] {
      match events[0] {
        case AchievementClicked(a) => PanelKeepsSelectionUnlocked(st, a);
        case ShareProgressClicked =>
        case CloseClicked =>
      }
      ClicksKeepSelectionUnlocked(Click(st, events[0]), events[1..]);
      assert forall e :: e in events[1..] ==> e in events;
    }
  }
}
