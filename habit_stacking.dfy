/** Habit stacks: ordered lists of habit steps done before, during and
    after the shower. Every handler computes the whole new list of stacks
    (and the active stack) from the old one. */
module HabitStacking {
  import opened Common
  import opened Sorting

  datatype HabitType = Before | During | After

  datatype HabitStep = HabitStep(
    id: string,
    name: string,
    description: string,
    duration: int,
    order: int,
    kind: HabitType,
    isRequired: bool,
    completed: bool)

  datatype HabitStack = HabitStack(
    id: string,
    name: string,
    description: string,
    habits: seq<HabitStep>,
    isActive: bool,
    createdAt: string,
    completedToday: bool)

  /** A preset: a stack without id, creation time and daily state. */
  datatype Preset = Preset(name: string, description: string, habits: seq<HabitStep>)

  /** The stacks and the stack shown as active. */
  datatype State = State(stacks: seq<HabitStack>, active: Option<HabitStack>)

  /** `stacks.find(stack => stack.id === id)`. */
  function FindStack(stacks: seq<HabitStack>, id: string): (r: Option<HabitStack>)
    ensures r.Some? ==> r.value in stacks && r.value.id == id
    ensures r.Some? ==> exists i :: 0 <= i < |stacks| && stacks[i] == r.value &&
                                  forall j :: 0 <= j < i ==> stacks[j].id != id
    ensures r.None? ==> forall i :: 0 <= i < |stacks| ==> stacks[i].id != id
  {
    var i := FindIndex(stacks, (s: HabitStack) => s.id == id);
    if i >= 0 then Some(stacks[i]) else None
  }

  // ---------------------------------------------------------------------
  // Creating, activating, deleting

  function FreshSteps(habits: seq<HabitStep>, stamp: string): (r: seq<HabitStep>)
    ensures |r| == |habits|
    ensures forall i :: 0 <= i < |habits| ==>
      r[i] == habits[i].(id := stamp + "-" + habits[i].id, completed := false)
  {
    if habits == [] then []
    else [habits[0].(id := stamp + "-" + habits[0].id, completed := false)] + FreshSteps(habits[1..], stamp)
  }

  /** `createStackFromPreset`: append one inactive stack, not completed
      today, carrying the preset's name and description, whose steps are the
      preset's with ids `<stamp>-<step id>` and uncompleted. `stamp` is the
      `Date.now()` reading and `createdAt` the creation time. */
  function CreateStackFromPreset(st: State, preset: Preset, stamp: nat, createdAt: string): (r: State)
    ensures |r.stacks| == |st.stacks| + 1 && r.stacks[..|st.stacks|] == st.stacks
    ensures r.stacks[|st.stacks|] ==
      HabitStack(NatToString(stamp), preset.name, preset.description, FreshSteps(preset.habits, NatToString(stamp)),
        false, createdAt, false)
    ensures r.active == st.active
  {
    var id := NatToString(stamp);
    var stack := HabitStack(id, preset.name, preset.description, FreshSteps(preset.habits, id), false, createdAt, false);
    st.(stacks := st.stacks + [stack])
  }

  function Activated(stacks: seq<HabitStack>, id: string): (r: seq<HabitStack>)
    ensures |r| == |stacks|
    ensures forall i :: 0 <= i < |stacks| ==> r[i] == stacks[i].(isActive := stacks[i].id == id)
  {
    if stacks == [] then [] else [stacks[0].(isActive := stacks[0].id == id)] + Activated(stacks[1..], id)
  }

  /** `activateStack`: exactly the stacks with that id are active, nothing
      else changes, and the active stack is the first of them. */
  function ActivateStack(st: State, id: string): (r: State)
    ensures |r.stacks| == |st.stacks|
    ensures forall i :: 0 <= i < |r.stacks| ==> (r.stacks[i].isActive <==> r.stacks[i].id == id)
    ensures forall i :: 0 <= i < |r.stacks| ==> r.stacks[i].(isActive := st.stacks[i].isActive) == st.stacks[i]
    ensures r.active == FindStack(r.stacks, id)
    ensures r.active.Some? ==> r.active.value.isActive
  {
    var stacks := Activated(st.stacks, id);
    State(stacks, FindStack(stacks, id))
  }

  /** `deleteStack`: the other stacks in order; the active stack is cleared
      when it is the one deleted. */
  function DeleteStack(st: State, id: string): (r: State)
    ensures forall s :: s in r.stacks <==> s in st.stacks && s.id != id
    ensures st.active.Some? && st.active.value.id == id ==> r.active.None?
    ensures st.active.Some? && st.active.value.id != id ==> r.active == st.active
  {
    var active := if st.active.Some? && st.active.value.id == id then None else st.active;
    State(Filter(st.stacks, (s: HabitStack) => s.id != id), active)
  }

  /** Deleting keeps the order of the stacks that stay: any two of them sit
      at two positions of the old list in the same order, and stacks added
      after the deleted id stay after the others. */
  lemma DeleteKeepsOrder(st: State, id: string, extra: seq<HabitStack>)
    requires forall i :: 0 <= i < |extra| ==> extra[i].id != id
    ensures var r := DeleteStack(st, id).stacks;
      forall i, j :: 0 <= i < j < |r| ==>
        exists a, b :: 0 <= a < b < |st.stacks| && st.stacks[a] == r[i] && st.stacks[b] == r[j]
    ensures DeleteStack(st.(stacks := st.stacks + extra), id).stacks == DeleteStack(st, id).stacks + extra
  {
    SurvivorsInOrder(st, id);
    FilterAppend(st.stacks, extra, (s: HabitStack) => s.id != id);
    FilterAll(extra, id);
  }

  lemma SurvivorsInOrder(st: State, id: string)
    ensures var r := DeleteStack(st, id).stacks;
      forall i, j :: 0 <= i < j < |r| ==>
        exists a, b :: 0 <= a < b < |st.stacks| && st.stacks[a] == r[i] && st.stacks[b] == r[j]
  {
    var r := DeleteStack(st, id).stacks;
    forall i, j | 0 <= i < j < |r|
      ensures exists a, b :: 0 <= a < b < |st.stacks| && st.stacks[a] == r[i] && st.stacks[b] == r[j]
    {
      FilterPositions(st.stacks, (s: HabitStack) => s.id != id, i, j);
    }
  }

  lemma {:induction false} FilterAll(extra: seq<HabitStack>, id: string)
    requires forall i :: 0 <= i < |extra| ==> extra[i].id != id
    ensures Filter(extra, (s: HabitStack) => s.id != id) == extra
  {
    if extra != [] {
      FilterAll(extra[1..], id);
    }
  }

  // ---------------------------------------------------------------------
  // Completing habits

  /** `filter(h => h.isRequired).every(h => h.completed)`. */
  predicate AllRequiredDone(habits: seq<HabitStep>) {
    forall i :: 0 <= i < |habits| && habits[i].isRequired ==> habits[i].completed
  }

  function ToggleStep(habits: seq<HabitStep>, habitId: string): (r: seq<HabitStep>)
    ensures |r| == |habits|
    ensures forall i :: 0 <= i < |habits| ==>
      r[i] == if habits[i].id == habitId then habits[i].(completed := !habits[i].completed) else habits[i]
  {
    if habits == [] then []
    else
      var first := if habits[0].id == habitId then habits[0].(completed := !habits[0].completed) else habits[0];
      [first] + ToggleStep(habits[1..], habitId)
  }

  function CompleteIn(s: HabitStack, stackId: string, habitId: string): HabitStack {
    if s.id == stackId then
      var habits := ToggleStep(s.habits, habitId);
      s.(habits := habits, completedToday := AllRequiredDone(habits))
    else s
  }

  function CompleteAll(stacks: seq<HabitStack>, stackId: string, habitId: string): (r: seq<HabitStack>)
    ensures |r| == |stacks|
    ensures forall i :: 0 <= i < |stacks| ==> r[i] == CompleteIn(stacks[i], stackId, habitId)
  {
    if stacks == [] then [] else [CompleteIn(stacks[0], stackId, habitId)] + CompleteAll(stacks[1..], stackId, habitId)
  }

  /** `completeHabit`: in the stacks with that id, flip the habits with that
      id and recompute `completedToday`; other stacks are unchanged; the
      active stack is refreshed when it is the one changed. */
  function CompleteHabit(st: State, stackId: string, habitId: string): (r: State)
    ensures |r.stacks| == |st.stacks|
    ensures forall i :: 0 <= i < |st.stacks| && st.stacks[i].id != stackId ==> r.stacks[i] == st.stacks[i]
    ensures forall i :: 0 <= i < |st.stacks| && st.stacks[i].id == stackId ==>
      r.stacks[i].habits == ToggleStep(st.stacks[i].habits, habitId) &&
      r.stacks[i].(habits := st.stacks[i].habits, completedToday := st.stacks[i].completedToday) == st.stacks[i]
    ensures forall i :: 0 <= i < |st.stacks| && st.stacks[i].id == stackId ==>
      (r.stacks[i].completedToday <==> AllRequiredDone(r.stacks[i].habits))
    ensures st.active.Some? && st.active.value.id == stackId ==> r.active == FindStack(r.stacks, stackId)
    ensures !(st.active.Some? && st.active.value.id == stackId) ==> r.active == st.active
  {
    var stacks := CompleteAll(st.stacks, stackId, habitId);
    var active := if st.active.Some? && st.active.value.id == stackId then FindStack(stacks, stackId) else st.active;
    State(stacks, active)
  }

  /** A stack with no required habits counts as completed today after any
      completeHabit on it. */
  lemma NoRequiredIsComplete(s: HabitStack, habitId: string)
    requires forall i :: 0 <= i < |s.habits| ==> !s.habits[i].isRequired
    ensures CompleteIn(s, s.id, habitId).completedToday
  {
  }

  /** Completing the same habit twice restores the stack's habits. */
  lemma CompleteHabitTwice(st: State, stackId: string, habitId: string)
    ensures CompleteHabit(CompleteHabit(st, stackId, habitId), stackId, habitId).stacks ==
      CompleteAll(CompleteAll(st.stacks, stackId, habitId), stackId, habitId)
    ensures forall i :: 0 <= i < |st.stacks| ==>
      CompleteHabit(CompleteHabit(st, stackId, habitId), stackId, habitId).stacks[i].habits == st.stacks[i].habits
  {
    var twice := CompleteAll(CompleteAll(st.stacks, stackId, habitId), stackId, habitId);
    forall i | 0 <= i < |st.stacks| ensures twice[i].habits == st.stacks[i].habits {
      if st.stacks[i].id == stackId {
        assert ToggleStep(ToggleStep(st.stacks[i].habits, habitId), habitId) == st.stacks[i].habits;
      }
    }
  }

  // ---------------------------------------------------------------------
  // Daily reset

  function ClearSteps(habits: seq<HabitStep>): (r: seq<HabitStep>)
    ensures |r| == |habits|
    ensures forall i :: 0 <= i < |habits| ==> r[i] == habits[i].(completed := false)
  {
    if habits == [] then [] else [habits[0].(completed := false)] + ClearSteps(habits[1..])
  }

  function ClearStacks(stacks: seq<HabitStack>): (r: seq<HabitStack>)
    ensures |r| == |stacks|
    ensures forall i :: 0 <= i < |stacks| ==>
      r[i] == stacks[i].(habits := ClearSteps(stacks[i].habits), completedToday := false)
  {
    if stacks == [] then []
    else [stacks[0].(habits := ClearSteps(stacks[0].habits), completedToday := false)] + ClearStacks(stacks[1..])
  }

  /** `resetDailyProgress`: every habit uncompleted and no stack completed
      today; the active stack is refreshed from the new list. */
  function ResetDailyProgress(st: State): (r: State)
    ensures |r.stacks| == |st.stacks|
    ensures forall i :: 0 <= i < |r.stacks| ==> !r.stacks[i].completedToday
    ensures forall i, j :: 0 <= i < |r.stacks| && 0 <= j < |r.stacks[i].habits| ==> !r.stacks[i].habits[j].completed
    ensures forall i :: 0 <= i < |r.stacks| ==>
      |r.stacks[i].habits| == |st.stacks[i].habits| &&
      r.stacks[i] == st.stacks[i].(habits := r.stacks[i].habits, completedToday := false) &&
      forall j :: 0 <= j < |r.stacks[i].habits| ==> r.stacks[i].habits[j] == st.stacks[i].habits[j].(completed := false)
    ensures st.active.Some? ==> r.active == FindStack(r.stacks, st.active.value.id)
    ensures st.active.None? ==> r.active.None?
  {
    var stacks := ClearStacks(st.stacks);
    State(stacks, if st.active.Some? then FindStack(stacks, st.active.value.id) else None)
  }

  /** Resetting twice is resetting once. */
  lemma ResetIdempotent(st: State)
    ensures ResetDailyProgress(ResetDailyProgress(st)).stacks == ResetDailyProgress(st).stacks
  {
    var once := ClearStacks(st.stacks);
    forall i | 0 <= i < |once| ensures ClearSteps(once[i].habits) == once[i].habits {
    }
    assert ClearStacks(once) == once;
  }

  // ---------------------------------------------------------------------
  // Queries

  function StepDuration(h: HabitStep): int { h.duration }

  function Durations(habits: seq<HabitStep>): (r: seq<int>)
    ensures |r| == |habits|
    ensures forall i :: 0 <= i < |habits| ==> r[i] == habits[i].duration
  {
    MapSeq(habits, StepDuration)
  }

  /** `getTotalDuration`: the sum of the steps' durations; it adds up over
      concatenation and is never negative for non-negative durations. */
  lemma {:induction false} TotalDurationAppend(a: seq<HabitStep>, b: seq<HabitStep>)
    ensures Sum(Durations(a + b)) == Sum(Durations(a)) + Sum(Durations(b))
  {
    assert Durations(a + b) == Durations(a) + Durations(b);
    SumAppend(Durations(a), Durations(b));
  }

  lemma {:induction false} TotalDurationNonNegative(habits: seq<HabitStep>)
    requires forall i :: 0 <= i < |habits| ==> habits[i].duration >= 0
    ensures Sum(Durations(habits)) >= 0
  {
    if habits != [] {
      TotalDurationNonNegative(habits[1..]);
      assert Durations(habits)[1..] == Durations(habits[1..]);
    }
  }

  predicate StepDone(h: HabitStep) { h.completed }

  /** `getCompletionRate`: completed steps over all steps, 0 for none. */
  function CompletionRate(habits: seq<HabitStep>): (r: Ratio)
    ensures habits == [] ==> r.num == 0
    ensures habits != [] ==> r.num * |habits| == 100 * Count(habits, StepDone) * r.den
    ensures AtLeast(r, 0) && AtMost(r, 100)
  {
    Percent(Count(habits, StepDone), |habits|)
  }

  function StepOrder(h: HabitStep): int { h.order }

  /** `getHabitsByType`: exactly the steps of that type, each as often as
      in the input, sorted by ascending order; steps with the same order
      keep their input order. */
  function HabitsByType(habits: seq<HabitStep>, kind: HabitType): (r: seq<HabitStep>)
    ensures forall i, j :: 0 <= i < j < |r| ==> r[i].order <= r[j].order
    ensures multiset(r) == multiset(Filter(habits, (h: HabitStep) => h.kind == kind))
    ensures forall h :: h in r <==> h in habits && h.kind == kind
    ensures forall o :: Filter(r, KeyIs(StepOrder, o)) == Filter(Filter(habits, (h: HabitStep) => h.kind == kind), KeyIs(StepOrder, o))
  {
    var f := Filter(habits, (h: HabitStep) => h.kind == kind);
    SortByElems(f, StepOrder);
    SortByStable(f, StepOrder);
    SortBy(f, StepOrder)
  }

  /** A stack created from a preset takes as long as the preset, starts at
      0% complete, and has as many steps of each type as the preset. */
  lemma CreatedStackFacts(st: State, preset: Preset, stamp: nat, createdAt: string, kind: HabitType)
    ensures var s := CreateStackFromPreset(st, preset, stamp, createdAt).stacks[|st.stacks|];
      Sum(Durations(s.habits)) == Sum(Durations(preset.habits)) &&
      CompletionRate(s.habits).num == 0 &&
      |HabitsByType(s.habits, kind)| == |HabitsByType(preset.habits, kind)|
  {
    var s := CreateStackFromPreset(st, preset, stamp, createdAt).stacks[|st.stacks|];
    var steps := FreshSteps(preset.habits, NatToString(stamp));
    assert Durations(steps) == Durations(preset.habits);
    NoneDone(steps);
    SameKinds(steps, preset.habits, kind);
  }

  lemma {:induction false} NoneDone(habits: seq<HabitStep>)
    requires forall i :: 0 <= i < |habits| ==> !habits[i].completed
    ensures Count(habits, StepDone) == 0
  {
    if habits != [] {
      NoneDone(habits[1..]);
    }
  }

  /** Steps of the same types, position by position, give filters of the
      same length. */
  lemma {:induction false} SameKinds(a: seq<HabitStep>, b: seq<HabitStep>, kind: HabitType)
    requires |a| == |b| && forall i :: 0 <= i < |a| ==> a[i].kind == b[i].kind
    ensures |Filter(a, (h: HabitStep) => h.kind == kind)| == |Filter(b, (h: HabitStep) => h.kind == kind)|
  {
    if a != [] {
      SameKinds(a[1..], b[1..], kind);
    }
  }
}
