/**
 * The task repository: tasks live in the key/value store under
 * "tasks.{id}". Its single-item read looks under "task.{id}" instead, a
 * key create and update never write.
 */
module Tasks {

  import opened Wrappers
  import opened TaskModel
  import Decimal
  import Text
  import KeyValue

  /** The key create and update write. */
  function TaskKey(id: int): string {
    "tasks." + Decimal.IntToString(id)
  }

  /** The key get reads. */
  function LookupKey(id: int): string {
    "task." + Decimal.IntToString(id)
  }

  /** The key get reads is never a key create writes, whatever the two ids. */
  lemma LookupKeyIsNeverTaskKey(a: int, b: int)
    ensures LookupKey(a) != TaskKey(b)
  {
    assert LookupKey(a)[4] == '.';
    assert TaskKey(b)[4] == 's';
  }

  /** Creating (or updating) a task leaves what get returns unchanged for every id. */
  lemma CreateIsInvisibleToGet(m: map<string, Task>, task: Task, id: int)
    ensures KeyValue.Lookup(m[TaskKey(task.id) := task], LookupKey(id)) == KeyValue.Lookup(m, LookupKey(id))
  {
    LookupKeyIsNeverTaskKey(id, task.id);
  }

  /** Every key create writes passes getAll's filter "tasks.". */
  lemma TaskKeyMatchesScan(id: int)
    ensures Text.Contains(TaskKey(id), "tasks.")
  {
    assert TaskKey(id)[0..6] == "tasks.";
    Text.OccurrenceIsContained(TaskKey(id), "tasks.", 0);
  }

  /** A task just created is listed by any result getAll can give on the new store. */
  lemma CreatedTaskIsListed(m: map<string, Task>, task: Task, tasks: seq<Task>)
    requires KeyValue.IsScan(m[TaskKey(task.id) := task], "tasks.", tasks)
    ensures task in tasks
  {
    TaskKeyMatchesScan(task.id);
  }

  class TaskService {
    /** The key/value store the repository reads and writes. */
    var store: map<string, Task>

    constructor (store: map<string, Task>)
      ensures this.store == store
    {
      this.store := store;
    }

    /** Every stored task whose key contains "tasks.". */
    method GetAll() returns (tasks: seq<Task>, ghost keys: seq<string>)
      ensures KeyValue.IsScan(store, "tasks.", tasks)
      ensures KeyValue.ScanPairing(store, "tasks.", tasks, keys)
    {
      tasks, keys := KeyValue.ScanContaining(store, "tasks.");
    }

    /** Reads "task.{id}" (singular). */
    method Get(id: int) returns (r: Option<Task>)
      ensures r.Some? <==> LookupKey(id) in store
      ensures r.Some? ==> r.value == store[LookupKey(id)]
    {
      r := KeyValue.Lookup(store, LookupKey(id));
    }

    /** Writes the task under "tasks.{id}" and resolves with it. */
    method Create(task: Task) returns (created: Task)
      modifies this
      ensures created == task
      ensures store == old(store)[TaskKey(task.id) := task]
    {
      store := store[TaskKey(task.id) := task];
      created := task;
    }

    /** Exactly create: a task with an existing id replaces the stored one. */
    method Update(task: Task) returns (updated: Task)
      modifies this
      ensures updated == task
      ensures store == old(store)[TaskKey(task.id) := task]
    {
      updated := Create(task);
    }
  }

}
