/**
 * The habit tracker: a list of habits, each with an id, a name and a
 * completed flag. Pressing a habit replaces the list by a copy in which
 * every habit with that id has its flag negated, and shows a reward ad
 * when the first habit with that id was not yet completed. The screen
 * shows how many habits are completed out of how many there are.
 */
module HabitTracker {

  datatype Habit = Habit(id: int, name: string, completed: bool)

  /** The list the app starts with. */
  const InitialHabits: seq<Habit> := [
    Habit(1, "Morning Exercise", false),
    Habit(2, "Read 30 minutes", false),
    Habit(3, "Drink 8 glasses of water", false)
  ]

  /** The message of the reward ad a completion earns. */
  const HabitAdMessage: string := "Habit completed! Here's your reward ad."

  predicate HasHabit(habits: seq<Habit>, habitId: int) {
    exists i :: 0 <= i < |habits| && habits[i].id == habitId
  }

  predicate UniqueIds(habits: seq<Habit>) {
    forall i, j :: 0 <= i < j < |habits| ==> habits[i].id != habits[j].id
  }

  /** `{ ...habit, completed: !habit.completed }` for a matching habit, the habit itself otherwise. */
  function FlipIfMatching(h: Habit, habitId: int): (r: Habit)
    ensures r.id == h.id && r.name == h.name
    ensures r.completed == (h.completed != (h.id == habitId))
  {
    if h.id == habitId then h.(completed := !h.completed) else h
  }

  /** The new list: `habits.map(...)` flipping the matching habits. */
  function FlipMatching(habits: seq<Habit>, habitId: int): (r: seq<Habit>)
    ensures |r| == |habits|
    ensures forall i :: 0 <= i < |habits| ==>
      r[i].id == habits[i].id && r[i].name == habits[i].name
    ensures forall i :: 0 <= i < |habits| && habits[i].id == habitId ==>
      r[i].completed == !habits[i].completed
    ensures forall i :: 0 <= i < |habits| && habits[i].id != habitId ==> r[i] == habits[i]
    decreases |habits|
  {
    if habits == [] then []
    else [FlipIfMatching(habits[0], habitId)] + FlipMatching(habits[1..], habitId)
  }

  /** The index `habits.find(h => h.id === habitId)` lands on: the first habit with that id. */
  function FirstWithId(habits: seq<Habit>, habitId: int): (i: nat)
    requires HasHabit(habits, habitId)
    ensures i < |habits| && habits[i].id == habitId
    ensures forall j :: 0 <= j < i ==> habits[j].id != habitId
    decreases |habits|
  {
    if habits[0].id == habitId then 0
    else
      assert HasHabit(habits[1..], habitId) by {
        var k :| 0 <= k < |habits| && habits[k].id == habitId;
        assert habits[1..][k - 1].id == habitId;
      }
      1 + FirstWithId(habits[1..], habitId)
  }

  /** The new list and the messages of the ads `showRewardAd` was called with. */
  datatype ToggleOutcome = ToggleOutcome(habits: seq<Habit>, ads: seq<string>) {
    predicate RewardAd() {
      ads != []
    }
  }

  /**
   * `toggleHabit(habitId)`. The app only calls it with the id of a habit on
   * screen; with any other id its `.completed` read fails.
   */
  function ToggleHabit(habits: seq<Habit>, habitId: int): (r: ToggleOutcome)
    requires HasHabit(habits, habitId)
    ensures r.ads == [] || r.ads == [HabitAdMessage]
    ensures |r.habits| == |habits|
    ensures forall i :: 0 <= i < |habits| ==>
      r.habits[i] == if habits[i].id == habitId
                     then habits[i].(completed := !habits[i].completed)
                     else habits[i]
    ensures UniqueIds(habits) ==> UniqueIds(r.habits)
    ensures UniqueIds(habits) ==> forall i :: 0 <= i < |habits| && habits[i].id == habitId ==>
      (r.RewardAd() <==> !habits[i].completed)
    ensures r.RewardAd() <==>
      (exists i :: 0 <= i < |habits| && habits[i].id == habitId && !habits[i].completed &&
                   (forall j :: 0 <= j < i ==> habits[j].id != habitId))
    ensures r.RewardAd() ==> exists i :: 0 <= i < |habits| && !habits[i].completed && r.habits[i].completed
  {
    var first := FirstWithId(habits, habitId);
    var ads := if habits[first].completed then [] else [HabitAdMessage];
    ToggleOutcome(FlipMatching(habits, habitId), ads)
  }

  /** `habits.filter(h => h.completed)`. */
  function CompletedHabits(habits: seq<Habit>): (r: seq<Habit>)
    ensures |r| <= |habits|
    ensures forall h :: h in r ==> h in habits && h.completed
    ensures forall i :: 0 <= i < |habits| && habits[i].completed ==> habits[i] in r
    decreases |habits|
  {
    if habits == [] then []
    else if habits[0].completed then [habits[0]] + CompletedHabits(habits[1..])
    else CompletedHabits(habits[1..])
  }

  /** The positions of the completed habits. */
  function CompletedPositions(habits: seq<Habit>): (positions: set<nat>) {
    set i: nat | i < |habits| && habits[i].completed
  }

  /** The "Completed: n/m" figure: the number of completed habits. */
  function CompletedCount(habits: seq<Habit>): (n: nat)
    ensures n <= |habits|
    ensures n == |CompletedPositions(habits)|
  {
    CompletedCountIsCardinality(habits);
    |CompletedHabits(habits)|
  }

  // ---------------------------------------------------------------------
  // Lemmas

  /** Pressing the same habit twice gives the original list back. */
  lemma {:induction false} ToggleTwiceRestores(habits: seq<Habit>, habitId: int)
    ensures FlipMatching(FlipMatching(habits, habitId), habitId) == habits
    decreases |habits|
  {
    if habits != [] {
      ToggleTwiceRestores(habits[1..], habitId);
      assert FlipMatching(habits, habitId)[1..] == FlipMatching(habits[1..], habitId);
    }
  }

  /** The same through `ToggleHabit`, and the second press never shows an ad after one that did. */
  lemma ToggleHabitTwice(habits: seq<Habit>, habitId: int)
    requires HasHabit(habits, habitId)
    ensures HasHabit(ToggleHabit(habits, habitId).habits, habitId)
    ensures ToggleHabit(ToggleHabit(habits, habitId).habits, habitId).habits == habits
    ensures ToggleHabit(habits, habitId).RewardAd() !=
            ToggleHabit(ToggleHabit(habits, habitId).habits, habitId).RewardAd()
  {
    var once := ToggleHabit(habits, habitId).habits;
    var i := FirstWithId(habits, habitId);
    assert once[i].id == habitId;
    assert FirstWithId(once, habitId) == i;
    ToggleTwiceRestores(habits, habitId);
  }

  /** Filtering a concatenation filters each part. */
  lemma {:induction false} CompletedHabitsConcat(a: seq<Habit>, b: seq<Habit>)
    ensures CompletedHabits(a + b) == CompletedHabits(a) + CompletedHabits(b)
    decreases |a|
  {
    if a == [] {
      assert a + b == b;
    } else {
      assert (a + b)[1..] == a[1..] + b;
      CompletedHabitsConcat(a[1..], b);
    }
  }

  /** The length of the filtered list is the number of positions holding a completed habit. */
  lemma {:induction false} CompletedCountIsCardinality(habits: seq<Habit>)
    ensures |CompletedHabits(habits)| == |CompletedPositions(habits)|
    decreases |habits|
  {
    if habits != [] {
      var n := |habits| - 1;
      var front := habits[..n];
      CompletedCountIsCardinality(front);
      assert |CompletedHabits(habits)| == |CompletedHabits(front)| + (if habits[n].completed then 1 else 0) by {
        assert habits == front + [habits[n]];
        CompletedHabitsConcat(front, [habits[n]]);
      }
      PositionsGrow(habits);
    }
  }

  /** Adding a habit at the end adds its position exactly when it is completed. */
  lemma PositionsGrow(habits: seq<Habit>)
    requires habits != []
    ensures var n := |habits| - 1;
      |CompletedPositions(habits)| ==
        |CompletedPositions(habits[..n])| + (if habits[n].completed then 1 else 0)
  {
    var n := |habits| - 1;
    var front := habits[..n];
    var last: set<nat> := if habits[n].completed then {n} else {};
    assert CompletedPositions(habits) == CompletedPositions(front) + last;
    assert n !in CompletedPositions(front);
  }

  /**
   * With unique ids, completing a habit raises the completed count by one and
   * un-completing it lowers it by one.
   */
  lemma ToggleChangesCountByOne(habits: seq<Habit>, i: nat)
    requires UniqueIds(habits) && i < |habits|
    ensures CompletedCount(FlipMatching(habits, habits[i].id)) ==
      if habits[i].completed then CompletedCount(habits) - 1 else CompletedCount(habits) + 1
  {
    assert forall j :: 0 <= j < |habits| && j != i ==> habits[j].id != habits[i].id;
    FlipOnlyAt(habits, i);
    OneElementChange(CompletedPositions(habits), i, habits[i].completed);
  }

  /** Taking out a member or adding a non-member changes the size by one. */
  lemma OneElementChange(before: set<nat>, i: nat, member: bool)
    requires member <==> i in before
    ensures |if member then before - {i} else before + {i}| ==
      if member then |before| - 1 else |before| + 1
  {
  }

  /** With unique ids, flipping one habit adds or removes its position and no other. */
  lemma PositionsAfterFlip(habits: seq<Habit>, i: nat)
    requires UniqueIds(habits) && i < |habits|
    ensures CompletedPositions(FlipMatching(habits, habits[i].id)) ==
      if habits[i].completed then CompletedPositions(habits) - {i} else CompletedPositions(habits) + {i}
  {
    assert forall j :: 0 <= j < |habits| && j != i ==> habits[j].id != habits[i].id;
    FlipOnlyAt(habits, i);
  }

  /** When only position `i` holds its id, flipping that id changes exactly that position's completed flag. */
  lemma FlipOnlyAt(habits: seq<Habit>, i: nat)
    requires i < |habits|
    requires forall j :: 0 <= j < |habits| && j != i ==> habits[j].id != habits[i].id
    ensures CompletedPositions(FlipMatching(habits, habits[i].id)) ==
      if habits[i].completed then CompletedPositions(habits) - {i} else CompletedPositions(habits) + {i}
  {
    var flipped := FlipMatching(habits, habits[i].id);
    var before, after := CompletedPositions(habits), CompletedPositions(flipped);
    var expected := if habits[i].completed then before - {i} else before + {i};
    forall j: nat
      ensures j in after <==> j in expected
    {
      if j < |habits| && j != i {
        assert flipped[j] == habits[j];
      }
    }
    assert after == expected;
  }

  lemma {:induction false} UnmatchedUnchanged(habits: seq<Habit>, habitId: int)
    requires forall j :: 0 <= j < |habits| ==> habits[j].id != habitId
    ensures FlipMatching(habits, habitId) == habits
  {
    var r := FlipMatching(habits, habitId);
    assert forall j :: 0 <= j < |habits| ==> r[j] == habits[j];
  }

  /** The toggle through `ToggleHabit`: an ad exactly when the count goes up. */
  lemma ToggleHabitCount(habits: seq<Habit>, habitId: int)
    requires UniqueIds(habits) && HasHabit(habits, habitId)
    ensures var r := ToggleHabit(habits, habitId);
      CompletedCount(r.habits) == if r.RewardAd() then CompletedCount(habits) + 1
                                  else CompletedCount(habits) - 1
  {
    var i := FirstWithId(habits, habitId);
    ToggleChangesCountByOne(habits, i);
  }

  /** The start list has distinct ids and nothing completed. */
  lemma InitialHabitsFacts()
    ensures UniqueIds(InitialHabits)
    ensures CompletedCount(InitialHabits) == 0
  {
    assert CompletedHabits(InitialHabits[2..]) == [];
    assert CompletedHabits(InitialHabits[1..]) == [];
  }
}
