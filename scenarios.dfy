/**
 * Clients of `Store.TaskStore` that compose command sequences from its
 * contracts alone, and show where the code departs from its own doc comment.
 */
module Scenarios {
  import opened Wrappers
  import opened Decimal
  import opened Ids
  import opened Seqs
  import opened Tasks
  import opened Store

  const Noon: Timestamp := Timestamp("2024-05-01", "12:00:00", "12:00:00 PM")

  /** The keys and IDs the short scenarios below meet. */
  lemma SmallIds()
    ensures NatToString(0) == "0" && NatToString(1) == "1" && NatToString(2) == "2"
    ensures IntToString(0) == "0"
    ensures NextId([]) == 0 && NextId(["0"]) == 1 && NextId(["1"]) == 2
  {
  }

  /**
   * Empty store; add "Buy milk" with priority 2: ID 0, status "todo". Mark it
   * in progress at a later time: the status becomes "in-progress" and
   * `updatedAt` moves while `createdAt` stays.
   */
  method MarkScenario(later: Timestamp) returns (id: Option<nat>, created: string, marked: Option<string>,
                                                  createdAt: Timestamp, updatedAt: Timestamp)
    ensures id == Some(0) && created == StatusTodo
    ensures marked == Some(StatusInProgress)
    requires later != Noon
    ensures createdAt == Noon && updatedAt == later
    ensures updatedAt != createdAt
  {
    SmallIds();
    var store := new TaskStore();
    id := store.Add("Buy milk", "", false, 2, Noon);
    created := store.tasks["0"].status;
    marked := store.Mark(0, false, true, false, later);
    createdAt, updatedAt := store.tasks["0"].createdAt, store.tasks["0"].updatedAt;
  }

  /**
   * Empty store; add two tasks (IDs 0 and 1); delete 0; add a third: ID 2,
   * because "1" is still the greatest key.
   */
  method DeleteFirstScenario() returns (first: Option<nat>, second: Option<nat>, third: Option<nat>)
    ensures first == Some(0) && second == Some(1) && third == Some(2)
  {
    SmallIds();
    var store := new TaskStore();
    first := store.Add("Buy milk", "", false, 2, Noon);
    assert store.keys == ["0"];
    second := store.Add("Write report", "", false, 1, Noon);
    assert store.keys == ["0"] + ["1"];
    var removed := store.Delete(0);
    assert removed.Some?;
    assert store.keys == ["1"] by {
      assert Without(["0", "1"], "0") == ["1"] + Without([], "0");
    }
    third := store.Add("Review PR", "", false, 1, Noon);
  }

  /**
   * Add a task to an empty store, delete it, add another: the second task
   * gets ID 0 again, since the ID is computed from the keys present.
   */
  method ReuseScenario() returns (first: Option<nat>, second: Option<nat>)
    ensures first == Some(0) && second == Some(0)
  {
    SmallIds();
    var store := new TaskStore();
    first := store.Add("Task", "", false, 1, Noon);
    var removed := store.Delete(0);
    assert store.keys == [];
    second := store.Add("Task", "", false, 1, Noon);
  }

  /**
   * Twelve adds to an empty store: the first eleven get IDs 0 to 10, each
   * appended in order; the twelfth gets 10 again and overwrites that task, so
   * eleven tasks remain.
   */
  method TwelveAdds() returns (keysAfterEleven: seq<string>, eleventh: Option<nat>, twelfth: Option<nat>, count: nat)
    ensures keysAfterEleven == Range(11)
    ensures eleventh == Some(10) && twelfth == Some(10)
    ensures count == 11
  {
    var store := new TaskStore();
    var i := 0;
    eleventh := None;
    while i < 11
      invariant 0 <= i <= 11
      invariant store.Valid() && store.keys == Range(i)
      invariant i > 0 ==> eleventh == Some(i - 1)
    {
      RangeNextId(i);
      eleventh := store.Add("Task", "", false, 1, Noon);
      i := i + 1;
    }
    keysAfterEleven := store.keys;
    RangeElevenCollides();
    twelfth := store.Add("Task", "", false, 1, Noon);
    KeysCount(store.keys, store.tasks);
    count := |store.tasks|;
  }

}
