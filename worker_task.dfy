/**
  worker_task.rb: the unit of work the coordinator hands to workers. The Ruby
  class sets its three fields once in the constructor and has readers only,
  so it is a datatype here: the constructor stores its arguments as given and
  nothing can reassign them afterwards.
*/
module Tasks {

  /** `WorkerTask.new(task_id, data, process)`. */
  datatype WorkerTask<!D, R> = WorkerTask(taskId: int, data: D, process: D -> R)
  {
    /** `run`: the task's function called on the task's data. */
    function Run(): R
    {
      process(data)
    }
  }

  /** What `run` returns depends on `data` and `process` alone: a task with
      another id gives the same result, and `run` leaves the id as it was. */
  lemma RunIgnoresTaskId<D, R>(task: WorkerTask<D, R>, id: int)
    ensures task.(taskId := id).Run() == task.Run()
    ensures task.(taskId := id).data == task.data && task.(taskId := id).taskId == id
  {
  }
}
