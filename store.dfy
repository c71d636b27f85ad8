/**
 * The task store: the JSON object every command loads as `data`, changes in
 * place and writes back. The object is modelled as the sequence of its keys
 * in dict order plus the map from key to record; loading and saving are the
 * identity on this value.
 */
module Store {
  import opened Wrappers
  import opened Decimal
  import opened Seqs
  import opened Ids
  import opened Tasks
  import opened Queries

  /**
   * What a store written only by these commands holds: each key once, the
   * same keys in the order as in the map, every key the `str` of a
   * non-negative ID, and every priority at least 1 (`add` refuses others).
   */
  predicate WellFormed(keys: seq<string>, tasks: map<string, Task>) {
    && Distinct(keys)
    && Covers(keys, tasks)
    && (forall k :: k in tasks ==> k in keys)
    && AllDecimal(keys)
    && (forall k :: k in tasks ==> tasks[k].priority >= 1)
  }

  /** `after` holds the same keys as `before` and the same record for each key but `k`. */
  predicate SameExcept(before: map<string, Task>, after: map<string, Task>, k: string) {
    after.Keys == before.Keys && forall k' :: k' in before && k' != k ==> after[k'] == before[k']
  }

  /** The number of tasks `ls` reports equals the number of keys it iterates. */
  lemma KeysCount(keys: seq<string>, tasks: map<string, Task>)
    requires WellFormed(keys, tasks)
    ensures |keys| == |tasks|
  {
    DistinctCardinality(keys);
    assert (set y | y in keys) == tasks.Keys;
  }

  /**
   * Storing a record with priority at least 1 under a decimal key keeps the
   * store well formed: an existing key keeps its place, a new one goes last.
   */
  lemma WellFormedPut(keys: seq<string>, tasks: map<string, Task>, k: string, t: Task)
    requires WellFormed(keys, tasks)
    requires IsDecimal(k) && t.priority >= 1
    ensures WellFormed(if k in keys then keys else keys + [k], tasks[k := t])
  {
  }

  /** Removing a key from both the order and the map keeps the store well formed. */
  lemma WellFormedRemove(keys: seq<string>, tasks: map<string, Task>, k: string)
    requires WellFormed(keys, tasks)
    ensures WellFormed(Without(keys, k), tasks - {k})
  {
    WithoutDistinct(keys, k);
  }

  /**
   * The `match` in the loop of `ls`: whether a task with this status is
   * skipped with `continue`. With all three flags set nothing is skipped.
   */
  method Skipped(status: string, done: bool, inProgress: bool, todo: bool) returns (hidden: bool)
    ensures hidden <==> !Shown(status, done, inProgress, todo)
  {
    hidden := false;
    if !(done && inProgress && todo) {
      if status == StatusDone {
        hidden := inProgress || todo;
      } else if status == StatusInProgress {
        hidden := done || todo;
      } else if status == StatusTodo {
        hidden := inProgress || done;
      }
    }
  }

  /**
   * In a well-formed store every priority has a style, so the lookup `ls`
   * makes for each task it shows never raises IndexError.
   */
  lemma WellFormedStyled(keys: seq<string>, tasks: map<string, Task>)
    requires WellFormed(keys, tasks)
    ensures forall k :: k in tasks ==>
      PriorityStyle(tasks[k].priority) == Some(PriorityStyles[if tasks[k].priority < 7 then tasks[k].priority - 1 else 6])
  {
  }

  class TaskStore {
    /** The keys of `data`, in the order `data.items()` yields them. */
    var keys: seq<string>
    /** `data`: the record stored under each key. */
    var tasks: map<string, Task>

    ghost predicate Valid()
      reads this
    {
      WellFormed(keys, tasks)
    }

    /** The empty object `{}` that the task file starts as, which `initialize` means to write. */
    constructor ()
      ensures Valid() && keys == [] && tasks == map[]
    {
      keys := [];
      tasks := map[];
    }

    /**
     * `add`: refuses a priority below 1; otherwise stores a new record under
     * `str(NextId(keys))`. When that key already exists (see
     * `Ids.NextIdCollides`) the old record is overwritten and keeps its place
     * in the order; otherwise the key is appended.
     */
    method Add(name: string, desc: string, inProgress: bool, priority: int, now: Timestamp) returns (id: Option<nat>)
      requires Valid()
      modifies this
      ensures Valid()
      ensures priority <= 0 ==> id == None && keys == old(keys) && tasks == old(tasks)
      ensures priority > 0 ==> id == Some(NextId(old(keys)))
      ensures priority > 0 ==>
        var k := NatToString(NextId(old(keys)));
        && k in tasks
        && tasks[k].name == name
        && tasks[k].priority == priority
        && tasks[k].description == desc
        && tasks[k].status == (if inProgress then StatusInProgressSpaced else StatusTodo)
        && tasks[k].createdAt == tasks[k].updatedAt == now
        && tasks.Keys == old(tasks).Keys + {k}
        && (forall k' :: k' in old(tasks) && k' != k ==> tasks[k'] == old(tasks)[k'])
        && keys == (if k in old(keys) then old(keys) else old(keys) + [k])
    {
      if priority > 0 {
        var n := NextId(keys);
        var k := NatToString(n);
        var task := MakeTask(name, priority, desc, if inProgress then StatusInProgressSpaced else StatusTodo, now);
        WellFormedPut(keys, tasks, k, task);
        if k !in keys {
          keys := keys + [k];
        }
        tasks := tasks[k := task];
        id := Some(n);
      } else {
        id := None;
      }
    }

    /**
     * `delete`: an absent ID changes nothing; a present one is removed, and
     * the remaining keys keep their records and their relative order.
     */
    method Delete(taskId: int) returns (removed: Option<Task>)
      requires Valid()
      modifies this
      ensures Valid()
      ensures removed.Some? <==> IntToString(taskId) in old(tasks)
      ensures taskId < 0 ==> removed == None
      ensures removed.None? ==> keys == old(keys) && tasks == old(tasks)
      ensures removed.Some? ==>
        var k := IntToString(taskId);
        && removed.value == old(tasks)[k]
        && tasks == old(tasks) - {k}
        && keys == Without(old(keys), k)
        && exists i :: 0 <= i < |old(keys)| && old(keys)[i] == k && keys == old(keys)[..i] + old(keys)[i + 1..]
    {
      var k := IntToString(taskId);
      if k in tasks {
        removed := Some(tasks[k]);
        var i :| 0 <= i < |keys| && keys[i] == k;
        WithoutAt(keys, i, k);
        WellFormedRemove(keys, tasks, k);
        keys := Without(keys, k);
        tasks := tasks - {k};
      } else {
        removed := None;
      }
    }

    /**
     * `update`: on a present ID, replaces the name and the description each
     * only when the new value is non-empty; nothing else changes, `updatedAt`
     * included. An absent ID changes nothing.
     */
    method Update(taskId: int, name: string, desc: string) returns (found: bool)
      requires Valid()
      modifies this
      ensures Valid()
      ensures found <==> IntToString(taskId) in old(tasks)
      ensures keys == old(keys)
      ensures !found ==> tasks == old(tasks)
      ensures found ==>
        var k := IntToString(taskId);
        var before := old(tasks)[k];
        && SameExcept(old(tasks), tasks, k)
        && (name != "" ==> tasks[k].name == name)
        && (name == "" ==> tasks[k].name == before.name)
        && (desc != "" ==> tasks[k].description == desc)
        && (desc == "" ==> tasks[k].description == before.description)
        && tasks[k].priority == before.priority
        && tasks[k].status == before.status
        && tasks[k].createdAt == before.createdAt
        && tasks[k].updatedAt == before.updatedAt
    {
      var k := IntToString(taskId);
      found := k in tasks;
      if found {
        var task := tasks[k];
        task := task.(name := if name != "" then name else task.name);
        task := task.(description := if desc != "" then desc else task.description);
        WellFormedPut(keys, tasks, k, task);
        tasks := tasks[k := task];
      }
    }

    /**
     * `mark`: on a present ID, sets the status `get_status` resolves from the
     * three flags ("N/A" when none is set) and refreshes `updatedAt`; nothing
     * else changes. An absent ID changes nothing.
     */
    method Mark(taskId: int, done: bool, inProgress: bool, todo: bool, now: Timestamp) returns (newStatus: Option<string>)
      requires Valid()
      modifies this
      ensures Valid()
      ensures newStatus.Some? <==> IntToString(taskId) in old(tasks)
      ensures keys == old(keys)
      ensures newStatus.None? ==> tasks == old(tasks)
      ensures newStatus.Some? ==>
        var k := IntToString(taskId);
        var before := old(tasks)[k];
        && newStatus.value == GetStatus(done, inProgress, todo)
        && SameExcept(old(tasks), tasks, k)
        && tasks[k].status == GetStatus(done, inProgress, todo)
        && tasks[k].updatedAt == now
        && tasks[k].name == before.name
        && tasks[k].description == before.description
        && tasks[k].priority == before.priority
        && tasks[k].createdAt == before.createdAt
    {
      var k := IntToString(taskId);
      if k in tasks {
        var status := GetStatus(done, inProgress, todo);
        var task := tasks[k].(status := status, updatedAt := now);
        WellFormedPut(keys, tasks, k, task);
        tasks := tasks[k := task];
        newStatus := Some(status);
      } else {
        newStatus := None;
      }
    }

    /**
     * `id`: walks the items in order and collects every key whose task is
     * called exactly `name`; `found` is the flag that decides whether "N/A"
     * is printed instead.
     */
    method Id(name: string) returns (ids: seq<string>, found: bool)
      requires Valid()
      ensures ids == FindByName(keys, tasks, name)
      ensures forall k :: k in ids <==> k in tasks && tasks[k].name == name
      ensures IsSubsequence(ids, keys) && Distinct(ids)
      ensures found <==> ids != []
    {
      ids, found := [], false;
      var i := 0;
      while i < |keys|
        invariant 0 <= i <= |keys|
        invariant ids == FindByName(keys[..i], tasks, name)
        invariant found <==> ids != []
      {
        var k := keys[i];
        assert keys[..i + 1] == keys[..i] + [k];
        if tasks[k].name == name {
          ids := ids + [k];
          found := true;
        }
        i := i + 1;
      }
      assert keys[..i] == keys;
      FindByNameExact(keys, tasks, name);
      SubsequenceDistinct(ids, keys);
    }

    /**
     * `ls`: reports the number of tasks, then walks the items in order and
     * shows those its three flags let through. "You have no tasks." is
     * printed when the loop body never ran, that is, when the store is empty,
     * whatever the filter hid.
     */
    method Ls(done: bool, inProgress: bool, todo: bool) returns (count: nat, shown: seq<string>, noTasks: bool)
      requires Valid()
      ensures count == |keys|
      ensures shown == ListFilter(keys, tasks, done, inProgress, todo)
      ensures forall k :: k in shown <==> k in tasks && Shown(tasks[k].status, done, inProgress, todo)
      ensures IsSubsequence(shown, keys)
      ensures forall k :: k in shown ==> PriorityStyle(tasks[k].priority).Some?
      ensures noTasks <==> |tasks| == 0
    {
      count := |tasks|;
      KeysCount(keys, tasks);
      shown, noTasks := [], true;
      var i := 0;
      while i < |keys|
        invariant 0 <= i <= |keys|
        invariant shown == ListFilter(keys[..i], tasks, done, inProgress, todo)
        invariant noTasks <==> i == 0
      {
        var k := keys[i];
        noTasks := false;
        var hidden := Skipped(tasks[k].status, done, inProgress, todo);
        assert keys[..i + 1] == keys[..i] + [k];
        if !hidden {
          shown := shown + [k];
        }
        i := i + 1;
      }
      assert keys[..i] == keys;
      ListFilterExact(keys, tasks, done, inProgress, todo);
      WellFormedStyled(keys, tasks);
    }
  }

}
