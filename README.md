# task-cli store model

This project models `task-cli.py`, a command-line to-do list. Its tasks live
in one JSON object that maps string IDs ("0", "1", ...) to task records. Each
record holds a name, a priority, a description, a status and two timestamps.
Every command loads the whole object, changes it and writes it back.

The model describes the object as a `Store.TaskStore`. It has two fields:

- `keys`: the object's keys in the order a Python dict iterates them;
- `tasks`: the map from each key to its `Tasks.Task` record.

Loading and saving are treated as the identity on this value. The commands
`add`, `delete`, `update` and `mark` are methods that change the store in
place. `id` and `ls` are loops that read it, and each is proved against a
recursive specification function in `Queries`. The two pure helpers,
`get_status` and `get_priority_style`, are functions in `Tasks`.

All the methods keep the invariant `Store.WellFormed`:

- the keys are distinct and are exactly the keys of the map;
- every key is the `str` of a non-negative integer;
- every priority is at least 1.

ID assignment follows the code. The new ID is `int(max(keys)) + 1`, where
`max` compares the keys **as strings**. `Ids` proves three things about it:

- For single-digit keys it is the numeric maximum plus one, and it is fresh.
- Once "9" and "10" are both keys and no other key starts with '9', the new
  ID is 10 again, so `add` overwrites task 10. From an empty store this
  happens on the twelfth add.
- Deleting the highest task makes its ID free to be handed out again.

Modules:

| file | module | contents |
|---|---|---|
| wrappers.dfy | `Wrappers` | `Option` |
| decimal.dfy | `Decimal` | `str`/`int` on non-negative integers and their round trip |
| lexorder.dfy | `LexOrder` | Python's string ordering; `max` over strings |
| seqs.dfy | `Seqs` | dict key order: distinctness, `pop`, subsequences |
| ids.dfy | `Ids` | the ID `add` assigns |
| tasks.dfy | `Tasks` | task records, status strings, `get_status`, `get_priority_style` |
| queries.dfy | `Queries` | what `id` and `ls` select, and in what order |
| store.dfy | `Store` | the store and its commands |
| scenarios.dfy | `Scenarios` | command sequences, proved from the method contracts alone |

The code disagrees with the module's own doc comment in several places. The
model follows the code:

- IDs are reused after a delete and can collide with an existing key, so they
  are not unique identifiers.
- `add --in-progress` writes the status "in progress", with a space. This is
  not the "in-progress" that `ls` and `mark` use.
- `mark` with no flag writes "N/A".

## Model

| member | source | states |
|---|---|---|
| Tasks.GetStatus | task-cli.py:80-87 | `done` wins over in-progress, which wins over todo; no flag gives "N/A"; each outcome holds exactly under its flag combination; the result is one of the four strings |
| Tasks.MakeTask | task-cli.py:89-105 | the new record holds the given name, priority, description and status, and its `createdAt` equals its `updatedAt` (both `now`) |
| Tasks.PriorityIndex | task-cli.py:74-78 | the table index is `p-1` for 1 <= p < 7 and 6 for p >= 7, always below 7; 0 >= p >= -6 wraps as Python negative indexing does; below -6 there is no index (IndexError) |
| Tasks.PriorityStyle | task-cli.py:51-59 | for every p >= 1 a style is found: entry `p-1` of the seven below 7, the last one from 7 on; no style exactly when p < -6 |
| Decimal.NatToString | task-cli.py:114 | `str` of a non-negative ID is a canonical decimal: digits only, no leading zero, one character exactly below 10 |
| Decimal.IntToString | task-cli.py:130 | `str` of a task-ID argument is a canonical decimal exactly when the ID is non-negative, so a negative ID never names a stored key |
| Decimal.ParseNat | task-cli.py:112 | `int(s)` of a string of n digits is below 10^n, and at least 10^(n-1) when the string does not start with '0'; its round trips with `str` are Decimal.ParseNatToString and Decimal.NatToStringParse |
| Decimal.ParseNatToString | task-cli.py:112-114 | `int(str(n)) == n` |
| Decimal.NatToStringParse | task-cli.py:112-114 | `str(int(s)) == s` for every canonical decimal key; a key of two or more digits is at least 10 |
| Decimal.NatToStringInjective | task-cli.py:114 | distinct IDs give distinct keys |
| LexOrder.LexLe | task-cli.py:112 | the string order `max` uses: a prefix is at most the whole string; its full characterisation is LexOrder.LexLeFirstDifference |
| LexOrder.LexLeFirstDifference | task-cli.py:112 | `a <= b` on Python strings exactly when `a` is a prefix of `b` or, at the first position where they differ, `a` has the smaller character |
| LexOrder.LexLeTotal | task-cli.py:112 | any two keys are comparable under the string order `max` uses |
| LexOrder.LexLeTransitive | task-cli.py:112 | the string order is transitive |
| LexOrder.LexLeAntisymmetric | task-cli.py:112 | two strings each at most the other are equal |
| LexOrder.SingleCharLexLe | task-cli.py:112 | on one-character strings the string order is the order of the characters |
| LexOrder.LexMax | task-cli.py:112 | `max` over a non-empty list of keys returns one of them |
| LexOrder.LexMaxIsGreatest | task-cli.py:112 | every key is at most `max(keys)` in the string order |
| Ids.NextId | task-cli.py:112 | the ID `add` assigns is 0 exactly for an empty store; its value is stated by Ids.NextIdIsLexMaxPlusOne |
| Ids.NextIdIsLexMaxPlusOne | task-cli.py:112 | the new ID is 0 for an empty store, and otherwise one more than the value of a key that is greatest as a string |
| Ids.SingleDigitNextId | task-cli.py:112 | with single-digit keys the new ID exceeds every key's value, equals the maximum plus one, and is not yet a key |
| Ids.NextIdCollides | task-cli.py:112-114 | with "9" and "10" as keys and no other key starting with '9', the new ID is 10, which is already a key |
| Ids.RangeNextId | task-cli.py:112-114 | from an empty store, the add that follows n adds (n <= 10) gets ID n, so the first eleven adds get IDs 0..10, each a fresh key |
| Ids.RangeElevenCollides | task-cli.py:112-114 | after eleven adds from empty (keys "0".."10") the next ID is 10, which is already a key |
| Ids.IdReusedAfterDelete | task-cli.py:112-139 | adding then deleting the task with the new ID leaves the next ID unchanged: the ID is handed out again |
| Seqs.Without | task-cli.py:139 | `pop` leaves exactly the other keys |
| Seqs.WithoutAt | task-cli.py:139 | popping a key that appears once, at position i, closes the gap and keeps the order of the rest |
| Seqs.WithoutDistinct | task-cli.py:139 | after `pop` no key appears twice |
| Seqs.SubsequenceDistinct | task-cli.py:198-200 | keys collected in iteration order appear at most once |
| Seqs.DistinctCardinality | task-cli.py:214 | a dict's key list is as long as its set of keys |
| Queries.Shown | task-cli.py:226-241 | no flag or all three flags show everything; a non-standard status is always shown; with one flag only that status and non-standard ones show; with two flags only non-standard statuses show |
| Queries.FindByName | task-cli.py:195-203 | what `id NAME` collects: never more keys than the store holds; exactly which keys and in what order is Queries.FindByNameExact |
| Queries.FindByNameExact | task-cli.py:195-203 | `id NAME` lists exactly the keys whose task is called `name`, as a subsequence of the store order |
| Queries.ListFilter | task-cli.py:223-241 | what `ls` shows: never more keys than the store holds; exactly which keys and in what order is Queries.ListFilterExact |
| Queries.ListFilterExact | task-cli.py:223-241 | `ls` shows exactly the tasks `Shown` admits, as a subsequence of the store order |
| Queries.ListFilterAll | task-cli.py:226 | with no flag or all three flags, `ls` shows every key in store order |
| Queries.ListFilterOneFlag | task-cli.py:227-241 | with one flag, `ls` shows the tasks with that flag's status plus the tasks whose status is not standard |
| Queries.ListFilterTwoFlags | task-cli.py:227-241 | with two flags, `ls` shows only the tasks whose status is not standard |
| Store.KeysCount | task-cli.py:214 | the number `ls` reports equals the number of items it iterates |
| Store.WellFormedPut | task-cli.py:114 | storing a record under a decimal key keeps the store well formed: an existing key keeps its place and a new one is appended |
| Store.WellFormedRemove | task-cli.py:139 | popping a key keeps the store well formed |
| Store.WellFormedStyled | task-cli.py:243 | in a well-formed store every task's priority has a style (entry `p-1`, or the last from 7 on), so the lookup never raises IndexError |
| Store.Skipped | task-cli.py:226-241 | the loop's `match` skips a task exactly when `Shown` rejects it |
| Store.TaskStore.constructor | task-cli.py:69-72 | a fresh store is the empty object `{}` that the task file starts as, which `initialize` means to write at line 72 |
| Store.TaskStore.Add | task-cli.py:108-126 | priority <= 0 changes nothing; otherwise the ID is `NextId(keys)` and key `str(id)` gets the given name, priority and description, status "todo" or "in progress", and `createdAt == updatedAt == now`; every other record is unchanged; an existing key keeps its place, a new one is appended |
| Store.TaskStore.Delete | task-cli.py:128-141 | a record is removed exactly when `str(task_id)` is a key (never for a negative ID); an absent ID changes nothing; a present one removes exactly that key, and the other keys keep their records and order |
| Store.TaskStore.Update | task-cli.py:145-161 | the key set and order never change; on a present ID the name and the description are each replaced exactly when the new one is non-empty; priority, status, timestamps and every other task are unchanged; an absent ID changes nothing |
| Store.TaskStore.Mark | task-cli.py:163-187 | on a present ID the status becomes `GetStatus(flags)` and `updatedAt` becomes `now`; name, description, priority, `createdAt`, every other task and the key order are unchanged; an absent ID changes nothing |
| Store.TaskStore.Id | task-cli.py:189-203 | the loop collects `FindByName`, that is, exactly the keys whose task has this name, distinct and in store order; the "N/A" flag is set exactly when none is found |
| Store.TaskStore.Ls | task-cli.py:207-258 | the reported count is the number of tasks; the loop shows `ListFilter`, that is, exactly the tasks `Shown` admits, in store order; every task shown has a priority style; "You have no tasks." exactly when the store is empty |
| Scenarios.MarkScenario | task-cli.py:164-187 | add to an empty store gives ID 0 with status "todo"; marking it in progress gives "in-progress", moves `updatedAt` and keeps `createdAt` |
| Scenarios.DeleteFirstScenario | task-cli.py:108-141 | add, add, delete 0, add: the IDs are 0, 1 and 2 |
| Scenarios.ReuseScenario | task-cli.py:108-141 | add, delete it, add: both adds get ID 0 |
| Scenarios.TwelveAdds | task-cli.py:108-117 | from an empty store eleven adds give keys "0".."10"; the twelfth gets ID 10 again and overwrites that task, so eleven tasks remain |

## Left out

- Store.TaskStore.constructor: `initialize` is never called, and on a missing file it would raise at line 71 because it opens the file for reading; the constructor models the empty object the file is meant to start as, not a path of the code that produces it.
- File and JSON I/O are not modelled: `initialize`, `json.load`, `json.dump` and `path_to_json`. The store is an in-memory value that is loaded and saved whole. The model therefore does not capture that `initialize` opens a missing file for reading (line 71), which fails instead of creating it. Nor does it capture a save that is interrupted midway.
- Stores that these commands could not have written are not covered. Every method requires `Store.WellFormed`. A hand-edited file with keys such as "007", non-numeric keys or priorities below 1 is outside the model. On such a file `int(max(...))` can fail or behave differently.
- The clock is not modelled. `datetime.now()` and `strftime` become one `Timestamp` parameter, `now`, per call. The source reads the clock three or six times within one command, so the date and time fields of one timestamp can disagree around midnight. The model does not capture that.
- Rich rendering is not modelled: `Text`, `Panel`, `stylize`, `console.print` and `clear`. `Store.TaskStore.Id` returns the matching keys, while the command appends them to one text with no separator between them.
- The `log10`/`ceil` offsets at lines 121 and 250 are not modelled. They are floating point and affect only presentation.
- The `status_styles` lookup at line 244 is not modelled. It raises `KeyError` when `ls` shows a task whose status is "in progress" or "N/A". That crash happens while rendering and does not affect which tasks are selected.
- `typer` argument parsing is not modelled. Command arguments are method parameters. Task IDs are unbounded integers, as Python's are.
- Store.TaskStore.Ls: the count is read from a separate first load of the file. The model reads it from the same store, because no other writer is modelled.
- Locking, atomic saves and an error taxonomy are not modelled, because the code has none. "Not found" and "invalid priority" are the `None`/`false` results of the methods.
