/**
  One turn of worker.rb's loop, as an abstract transition on the tuple space:
  take any task tuple, run the task, and publish its result under the owner
  and the task id the tuple carried. Which task a worker takes is not
  determined, so every order in which workers pick up tasks is covered.
*/
module Worker {
  import opened TupleSpaces

  method Step<D, R>(space: TupleSpace<D, R>) returns (ghost k: nat)
    requires space.HasMatch(AnyTask)
    modifies space
    ensures k < |old(space.tuples)| && old(space.tuples)[k].TaskTuple?
    ensures var t := old(space.tuples)[k];
            space.tuples == Removed(old(space.tuples), k) + [ResultTuple(t.owner, t.task.taskId, t.task.Run())]
  {
    var tuple, i := space.Take(AnyTask);
    var task := tuple.task;
    var result := task.Run();
    space.Write(ResultTuple(tuple.owner, task.taskId, result));
    k := i;
  }
}
