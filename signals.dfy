/** The signals the windows exchange through the dispatcher, and the task
    value the add window sends with `todoTaskAdded`. */
module Signals {
  /** The `task` literal the add window builds: what a new task is made
      from. `restLength` is carried but has no field in a task. */
  datatype TaskRequest = TaskRequest(name: string, sessionRequired: int, sessionLength: int, restLength: int)

  /** `todoAddBtnPressed`, `todoTaskAdded`, `todoTaskRemoved`,
      `todoTaskRemoveAnimationDone` and `todoAddWindowClosed`. */
  datatype Signal =
    | AddBtnPressed
    | TaskAdded(request: TaskRequest)
    | TaskRemoved
    | TaskRemoveAnimationDone
    | AddWindowClosed
}
