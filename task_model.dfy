/** The task entity the repository stores. */
module TaskModel {

  datatype Task = Task(id: int, title: string, done: bool, synchronized: bool)

  /**
   * `new Task(title)`: the id is the clock reading in milliseconds, passed
   * in as `now`; a new task is neither done nor synchronized.
   */
  function NewTask(title: string, now: int): (t: Task)
    ensures t.title == title
    ensures t.id == now
    ensures !t.done && !t.synchronized
  {
    Task(now, title, false, false)
  }

}
