/**
 * What the read-only commands `id` and `ls` compute from the store, stated
 * over its keys (in dict order) and its records. The loops that compute them
 * are the query methods of `Store.TaskStore`.
 */
module Queries {
  import opened Tasks
  import opened Seqs

  predicate Covers(keys: seq<string>, tasks: map<string, Task>) {
    forall k :: k in keys ==> k in tasks
  }

  /** `id NAME`: the keys whose task is called exactly `name`, in store order. */
  function FindByName(keys: seq<string>, tasks: map<string, Task>, name: string): (ids: seq<string>)
    requires Covers(keys, tasks)
    ensures |ids| <= |keys|
    decreases |keys|
  {
    if keys == [] then []
    else
      var k := keys[|keys| - 1];
      FindByName(keys[..|keys| - 1], tasks, name) + (if tasks[k].name == name then [k] else [])
  }

  /** `(done, inProgress, todo)` has exactly one flag set. */
  predicate ExactlyOne(done: bool, inProgress: bool, todo: bool) {
    (done && !inProgress && !todo) || (!done && inProgress && !todo) || (!done && !inProgress && todo)
  }

  /** `(done, inProgress, todo)` has exactly two flags set. */
  predicate ExactlyTwo(done: bool, inProgress: bool, todo: bool) {
    ExactlyOne(!done, !inProgress, !todo)
  }

  /**
   * Whether `ls` shows a task with this status. A set flag hides the tasks of
   * the two other standard statuses, unless all three flags are set; a status
   * outside the three standard ones is never hidden.
   */
  function Shown(status: string, done: bool, inProgress: bool, todo: bool): (b: bool)
    ensures (done == inProgress == todo) ==> b
    ensures !IsStandard(status) ==> b
    ensures done && !inProgress && !todo ==> (b <==> status == StatusDone || !IsStandard(status))
    ensures !done && inProgress && !todo ==> (b <==> status == StatusInProgress || !IsStandard(status))
    ensures !done && !inProgress && todo ==> (b <==> status == StatusTodo || !IsStandard(status))
    ensures ExactlyTwo(done, inProgress, todo) ==> (b <==> !IsStandard(status))
  {
    if done && inProgress && todo then true
    else if status == StatusDone then !(inProgress || todo)
    else if status == StatusInProgress then !(done || todo)
    else if status == StatusTodo then !(inProgress || done)
    else true
  }

  /** `ls`: the keys of the tasks it shows, in store order. */
  function ListFilter(keys: seq<string>, tasks: map<string, Task>, done: bool, inProgress: bool, todo: bool): (shown: seq<string>)
    requires Covers(keys, tasks)
    ensures |shown| <= |keys|
    decreases |keys|
  {
    if keys == [] then []
    else
      var k := keys[|keys| - 1];
      ListFilter(keys[..|keys| - 1], tasks, done, inProgress, todo)
        + (if Shown(tasks[k].status, done, inProgress, todo) then [k] else [])
  }

  /** `id` reports exactly the keys whose task has that name, in store order. */
  lemma {:induction false} FindByNameExact(keys: seq<string>, tasks: map<string, Task>, name: string)
    requires Covers(keys, tasks)
    ensures forall k :: k in FindByName(keys, tasks, name) <==> k in keys && tasks[k].name == name
    ensures IsSubsequence(FindByName(keys, tasks, name), keys)
    decreases |keys|
  {
    if keys != [] {
      var init, k := keys[..|keys| - 1], keys[|keys| - 1];
      assert keys == init + [k];
      FindByNameExact(init, tasks, name);
      var r, rInit := FindByName(keys, tasks, name), FindByName(init, tasks, name);
      if tasks[k].name == name {
        assert r == rInit + [k] && r[..|r| - 1] == rInit;
        assert IsSubsequence(r[..|r| - 1], keys[..|keys| - 1]);
      } else {
        assert r == rInit;
        assert IsSubsequence(r, keys[..|keys| - 1]);
      }
    }
  }

  /** `ls` shows exactly the tasks `Shown` admits, in store order. */
  lemma {:induction false} ListFilterExact(keys: seq<string>, tasks: map<string, Task>, done: bool, inProgress: bool, todo: bool)
    requires Covers(keys, tasks)
    ensures forall k :: k in ListFilter(keys, tasks, done, inProgress, todo) <==>
                          k in keys && Shown(tasks[k].status, done, inProgress, todo)
    ensures IsSubsequence(ListFilter(keys, tasks, done, inProgress, todo), keys)
    decreases |keys|
  {
    if keys != [] {
      var init, k := keys[..|keys| - 1], keys[|keys| - 1];
      assert keys == init + [k];
      ListFilterExact(init, tasks, done, inProgress, todo);
      var r, rInit := ListFilter(keys, tasks, done, inProgress, todo), ListFilter(init, tasks, done, inProgress, todo);
      if Shown(tasks[k].status, done, inProgress, todo) {
        assert r == rInit + [k] && r[..|r| - 1] == rInit;
        assert IsSubsequence(r[..|r| - 1], keys[..|keys| - 1]);
      } else {
        assert r == rInit;
        assert IsSubsequence(r, keys[..|keys| - 1]);
      }
    }
  }

  /** With no flag, or with all three, `ls` shows every task in store order. */
  lemma {:induction false} ListFilterAll(keys: seq<string>, tasks: map<string, Task>, done: bool, inProgress: bool, todo: bool)
    requires Covers(keys, tasks)
    requires done == inProgress == todo
    ensures ListFilter(keys, tasks, done, inProgress, todo) == keys
    decreases |keys|
  {
    if keys != [] {
      ListFilterAll(keys[..|keys| - 1], tasks, done, inProgress, todo);
      assert keys == keys[..|keys| - 1] + [keys[|keys| - 1]];
    }
  }

  /**
   * With exactly one flag, `ls` shows the tasks with that flag's status and
   * every task whose status is not one of the three standard ones (such as
   * "in progress" written by `add`).
   */
  lemma ListFilterOneFlag(keys: seq<string>, tasks: map<string, Task>, done: bool, inProgress: bool, todo: bool)
    requires Covers(keys, tasks)
    requires ExactlyOne(done, inProgress, todo)
    ensures forall k :: k in ListFilter(keys, tasks, done, inProgress, todo) <==>
              k in keys && (tasks[k].status == GetStatus(done, inProgress, todo) || !IsStandard(tasks[k].status))
  {
  }

  /** With exactly two flags, `ls` shows only the tasks whose status is not standard. */
  lemma ListFilterTwoFlags(keys: seq<string>, tasks: map<string, Task>, done: bool, inProgress: bool, todo: bool)
    requires Covers(keys, tasks)
    requires ExactlyTwo(done, inProgress, todo)
    ensures forall k :: k in ListFilter(keys, tasks, done, inProgress, todo) <==>
              k in keys && !IsStandard(tasks[k].status)
  {
  }

}
